/**
 The loop check walks on through a term at which the expansion would stop, so it can report a
 cone that has no loop: the feedback below is cut at a declared input.
 */
module CloudLoop {
  import opened Options
  import opened TruthTables
  import opened Netlists
  import opened TruthTableTrees
  import opened AncestorLoops
  import opened LogicClouds

  /** Driver 0 reads assign 1; assign 1 reads assign 2, a declared input; assign 2 reads driver 0. */
  function CutIso(t: nat): nat {
    if t == 3 then 1 else if t == 4 then 2 else if t == 5 then 0 else t
  }

  function CutInputs(t: nat): seq<nat> {
    if t < 3 then [t + 3] else []
  }

  function Cut(): Netlist {
    Netlist(6, (t: nat) => t == 2, (t: nat) => CutIso(t), (i: nat) => [i], (i: nat) => false, (i: nat) => false,
            (t: nat) => false, (t: nat) => t < 3, (t: nat) => t == 1 || t == 2, (t: nat) => CutInputs(t),
            (t: nat) => Generic(|CutInputs(t)|, GateAnd))
  }

  lemma {:induction false} CutFacts()
    ensures var n := Cut();
      && n.WellFormed() && n.count == 6 && n.Drivers(0) == [0] && !n.isInput(0) && !n.isInput(3) && !n.isOpaque(0)
      && n.ArityOk(0) && n.inputs(0) == [3] && n.Drivers(3) == [1] && MergeOk(n, 3, MergeTable(1))
      && !n.Stops(3) && n.isAssign(1) && n.Stops(2)
  {
    var n := Cut();
    forall t: nat | t < n.count
      ensures n.TermOk(t)
    {
    }
  }

  lemma {:induction false} CutTrail()
    ensures Finished(Cut(), [1, 4, 2, 5, 0], 1, 0)
  {
    var n, trail := Cut(), [1, 4, 2, 5, 0];
    assert TransparentNext(n, 1) == Some(4) && TransparentNext(n, 4) == Some(2);
    assert TransparentNext(n, 2) == Some(5) && TransparentNext(n, 5) == Some(0);
    forall i | 0 <= i < |trail| - 1
      ensures TrailStep(n, trail, i)
    {
      if i == 0 {
      } else if i == 1 {
      } else if i == 2 {
      }
    }
  }

  lemma {:induction false} CutIsAcyclic()
    ensures ConeAcyclic(Cut(), 0)
  {
    var rank: nat -> nat := (t: nat) => if t == 2 then 2 else if t == 0 then 1 else 0;
    forall a, b | ExpandsTo(Cut(), a, b)
      ensures rank(b) < rank(a)
    {
      var k :| 0 <= k < |CutInputs(a)| && Cut().Expands(CutInputs(a)[k], b);
    }
    assert ConeRanked(Cut(), 0, rank);
  }

  lemma {:induction false} CutNotBlocked(o: Outcome)
    ensures !Blocked(Cut(), 0, o) && !SeedBlocks(Cut(), 0, o)
  {
    forall d: nat, k: nat | k < |CutInputs(d)|
      ensures !Blocks(Cut(), CutInputs(d)[k], o)
    {
    }
  }

  lemma {:induction false} CutPasses(frontier: seq<nat>)
    requires frontier == [3]
    ensures AllPass(Cut(), frontier)
  {
  }

  /** The first round already loops back: the trail from assign 1 ends at the root. */
  lemma {:induction false} FirstRoundLoops(a: Stage)
    requires StageOk(Cut(), 0, a) && SeedStage(Cut(), 0, a)
    ensures StageLoopsBy(Cut(), a, [MergeTable(1)]) && !AllStop(Cut(), a.frontier)
  {
    hide Cut, Finished;
    var n := Cut();
    CutFacts();
    CutTrail();
    CutPasses(a.frontier);
    assert TransparentTarget(n, 1, 0);
    assert LooksFor(n, a.tables, MergeTable(1), 0);
    assert NamesNet(n, a.nodes, a.ls[0], a.frontier[0]);
    assert NodeOk(n, a.nodes, a.tables[0]) && NodeOk(n, a.nodes, a.ls[0].parent);
    RootIsAncestor(n, a.nodes, a.tables, a.ls[0].parent);
    assert NodeOk(n, a.nodes, 0);
    assert LoopsBack(n, a.nodes, a.tables, a.ls, [MergeTable(1)], 0);
  }

  lemma {:induction false} NoSecondStage(stages: seq<Stage>)
    requires Run(Cut(), 0, stages) && SeedStage(Cut(), 0, stages[0])
    ensures |stages| == 1 && !AllStop(Cut(), stages[0].frontier)
  {
    hide Cut, StageOk, SeedStage, AllStop, MergesFor, NextFrontier, Known, MarksAfter, LoopsBack;
    FirstRoundLoops(stages[0]);
    if |stages| > 1 {
      assert StageStep(Cut(), stages[0], stages[1]);
      var merges :| StageStepBy(Cut(), stages[0], stages[1], merges);
      MergesAreUnique(Cut(), stages[0].frontier, merges, [MergeTable(1)]);
    }
  }

  /** A loop is reported although the cone has none. */
  method CutIsReported() returns (o: Outcome, cloud: LogicCloud)
    ensures cloud.netlist == Cut() && cloud.seed == 0 && o == Skipped(LogicalLoop) && cloud.tree == null
    ensures ConeAcyclic(Cut(), 0) && !TrailsClear(Cut(), 0)
  {
    hide Cut, Run, SeedStage, SeedBlocks, Blocked, StageLoops, ConeAcyclic, TrailsClear, LoopReported, Cyclic, Expanded;
    CutFacts();
    CutIsAcyclic();
    cloud := new LogicCloud(Cut(), 0);
    ghost var frontier, stages;
    o, frontier, stages := cloud.Compute();
    CutNotBlocked(o);
    NoSecondStage(stages);
    ExpandedStops(Cut(), 0, cloud.tree, frontier, o.Done?);
  }

  lemma {:induction false} ExpandedStops(n: Netlist, root: nat, tree: TruthTableTree?, frontier: seq<nat>, done: bool)
    requires done ==> tree != null && Expanded(n, root, tree, frontier)
    ensures done ==> AllStop(n, frontier)
  {
  }
}
