/**
 A cone whose input numbers go wrong: the conjunction of an input with the conjunction of two
 others. The first input is at its port one round before the other two.
 */
module CloudSkew {
  import opened Options
  import opened TruthTables
  import opened Netlists
  import opened TruthTableTrees
  import opened AncestorLoops
  import opened LogicClouds
  import opened CloudMeaning
  import opened CloudNumbers

  /** Driver 0 reads input 7 and driver 1; driver 1 reads inputs 8 and 9. */
  function SkewedIso(t: nat): nat {
    if t == 3 then 7 else if t == 4 then 1 else if t == 5 then 8 else if t == 6 then 9 else t
  }

  function SkewedInputs(t: nat): seq<nat> {
    if t == 0 then [3, 4] else if t == 1 then [5, 6] else []
  }

  function Skewed(): Netlist {
    Netlist(10, (t: nat) => 7 <= t <= 9, (t: nat) => SkewedIso(t), (i: nat) => [i], (i: nat) => false,
            (i: nat) => false, (t: nat) => false, (t: nat) => t < 2, (t: nat) => false, (t: nat) => SkewedInputs(t),
            (t: nat) => Generic(|SkewedInputs(t)|, GateAnd))
  }

  lemma {:induction false} SkewedFacts()
    ensures var n := Skewed();
      && n.WellFormed() && n.count == 10 && (forall d :: !n.isAssign(d)) && n.Drivers(0) == [0] && !n.isInput(0)
      && n.inputs(0) == [3, 4] && n.inputs(1) == [5, 6] && (forall d: nat :: d > 1 ==> n.inputs(d) == [])
      && n.ArityOk(0) && !n.isOpaque(0) && (forall t: nat :: n.Stops(t) <==> 7 <= t <= 9)
      && MergeOk(n, 3, MergePort(7)) && MergeOk(n, 4, MergeTable(1)) && MergeOk(n, 5, MergePort(8))
      && MergeOk(n, 6, MergePort(9)) && (forall t: nat :: 7 <= t <= 9 ==> MergeOk(n, t, MergePort(t)))
  {
    var n := Skewed();
    forall t: nat | t < n.count
      ensures n.TermOk(t)
    {
    }
  }

  /** The marks before round k. */
  function SkewedMarks(k: nat): seq<Mark> {
    if k == 0 then [Mark(false, 0), Mark(false, 1)]
    else if k == 1 then [Mark(true, 0), Mark(false, 1), Mark(false, 2)]
    else [Mark(true, 0), Mark(true, 0), Mark(true, 1)]
  }

  function SkewedFrontier(k: nat): seq<nat> {
    if k == 0 then [3, 4] else if k == 1 then [7, 5, 6] else [7, 8, 9]
  }

  function SkewedMerges(k: nat): seq<Merge> {
    if k == 0 then [MergePort(7), MergeTable(1)] else [MergePort(7), MergePort(8), MergePort(9)]
  }

  function SkewedTables(k: nat): set<nat> {
    if k == 0 then {0} else {0, 1}
  }

  /** The batch of round k, computed. */
  lemma {:induction false} SkewedBatch(k: nat)
    ensures var n := Skewed();
      && MergesFor(n, SkewedFrontier(k), SkewedMerges(k))
      && NextFrontier(n, SkewedTables(k), SkewedMerges(k)) == SkewedFrontier(k + 1)
      && Known(SkewedTables(k), SkewedMerges(k)) == SkewedTables(k + 1)
      && MarksAfter(n, SkewedTables(k), SkewedMarks(k), SkewedMerges(k)) == SkewedMarks(k + 1)
  {
    hide Skewed, MergeOk;
    var n, merges, tables, marks := Skewed(), SkewedMerges(k), SkewedTables(k), SkewedMarks(k);
    SkewedFacts();
    assert merges[..1] == [MergePort(7)] && merges[..1][..0] == [];
    if k == 0 {
      assert Known(tables, merges[..1]) == {0};
      assert NextFrontier(n, tables, merges[..1]) == [7];
      assert Taken(n, tables, marks, merges, 1) == 1;
      assert MarksAfter(n, tables, marks, merges[..1]) == [Mark(true, 0)];
      assert EntryMarks(n, tables, marks, merges, 1) == [Mark(false, 1), Mark(false, 2)];
    } else {
      SkewedPorts(n, tables, marks, merges);
    }
  }

  lemma {:induction false} SkewedPorts(n: Netlist, tables: set<nat>, marks: seq<Mark>, merges: seq<Merge>)
    requires merges == [MergePort(7), MergePort(8), MergePort(9)]
    requires marks == SkewedMarks(1) || marks == SkewedMarks(2)
    ensures NextFrontier(n, tables, merges) == [7, 8, 9] && Known(tables, merges) == tables
    ensures MarksAfter(n, tables, marks, merges) == SkewedMarks(2)
  {
    var one, two := merges[..1], merges[..2];
    assert one == [MergePort(7)] && one[..0] == [] && two[..1] == one && two == [MergePort(7), MergePort(8)];
    assert Known(tables, one) == tables && Known(tables, two) == tables;
    assert NextFrontier(n, tables, one) == [7] && NextFrontier(n, tables, two) == [7, 8];
    assert MarksAfter(n, tables, marks, one) == [Mark(true, 0)];
    assert Taken(n, tables, marks, two, 1) == 0;
    assert MarksAfter(n, tables, marks, two) == [Mark(true, 0), Mark(true, 0)];
    assert Taken(n, tables, marks, merges, 1) == 0;
    assert Taken(n, tables, marks, merges, 2) == if marks == SkewedMarks(1) then 1 else 0;
  }

  /** Every run of the expansion goes through these stages. */
  lemma {:induction false} SkewedStage(stages: seq<Stage>, k: nat)
    requires Run(Skewed(), 0, stages) && SeedStage(Skewed(), 0, stages[0]) && k < |stages|
    ensures stages[k].frontier == SkewedFrontier(k) && stages[k].marks == SkewedMarks(k)
    ensures stages[k].tables.Keys == SkewedTables(k)
  {
    hide Skewed, StageOk, StageLoopsBy, NextFrontier, Known, MarksAfter, MergeOk;
    SkewedFacts();
    if k > 0 {
      SkewedStage(stages, k - 1);
      assert StageStep(Skewed(), stages[k - 1], stages[k]);
      var merges :| StageStepBy(Skewed(), stages[k - 1], stages[k], merges);
      SkewedBatch(k - 1);
      MergesAreUnique(Skewed(), SkewedFrontier(k - 1), merges, SkewedMerges(k - 1));
    }
  }

  /** The loop check never says yes. */
  lemma {:induction false} SkewedNeverLoops(stages: seq<Stage>, k: nat)
    requires Run(Skewed(), 0, stages) && SeedStage(Skewed(), 0, stages[0]) && k < |stages|
    ensures !StageLoops(Skewed(), stages[k])
  {
    hide Skewed, Run, SeedStage, MergeOk, LoopsBack, NextFrontier, Known, MarksAfter;
    SkewedFacts();
    SkewedStage(stages, k);
    var a, merges := stages[k], SkewedMerges(k);
    SkewedBatch(k);
    forall other | MergesFor(Skewed(), a.frontier, other)
      ensures other == merges
    {
      MergesAreUnique(Skewed(), a.frontier, other, merges);
    }
    NewTablesDoNotLoop(Skewed(), a.nodes, a.tables, a.ls, merges);
  }

  lemma {:induction false} SkewedNotBlocked(o: Outcome)
    ensures !Blocked(Skewed(), 0, o) && !SeedBlocks(Skewed(), 0, o)
  {
    forall d: nat, k: nat | k < |SkewedInputs(d)|
      ensures !Blocks(Skewed(), SkewedInputs(d)[k], o)
    {
    }
  }

  /** Inputs 7 and 8 are true, input 9 is given. */
  function SkewedValue(third: bool): Valuation {
    (t: nat) => SkewedIso(t) in {0, 1, 9} ==> third
  }

  lemma {:induction false} SkewedConsistent(third: bool)
    ensures Skewed().Consistent(SkewedValue(third))
  {
    hide TableValue, Skewed, SkewedValue, Netlist.Stops;
    var n, v := Skewed(), SkewedValue(third);
    SkewedFacts();
    forall t: nat | |n.Drivers(t)| == 1
      ensures v(t) == v(n.Drivers(t)[0])
    {
      SkewedNet(t, third);
    }
    forall d: nat | d < n.count && n.ArityOk(d)
      ensures !n.isInput(d) && n.Drivers(d) == [d] ==> v(d) == TableValue(n.table(d), n.Values(v, n.inputs(d)))
    {
      SkewedCell(d, third);
    }
  }

  lemma {:induction false} SkewedNet(t: nat, third: bool)
    ensures |Skewed().Drivers(t)| == 1 && SkewedValue(third)(t) == SkewedValue(third)(Skewed().Drivers(t)[0])
  {
    assert Skewed().Drivers(t) == [SkewedIso(t)];
    assert SkewedIso(SkewedIso(t)) == SkewedIso(t);
  }

  lemma {:induction false} SkewedCell(d: nat, third: bool)
    requires Skewed().ArityOk(d) && d < 10
    ensures var n, v := Skewed(), SkewedValue(third);
      !n.isInput(d) && n.Drivers(d) == [d] ==> v(d) == TableValue(n.table(d), n.Values(v, n.inputs(d)))
  {
    var args := Skewed().Values(SkewedValue(third), SkewedInputs(d));
    if d <= 1 {
      assert args[0] && args[1] == third;
    }
  }

  lemma {:induction false} SkewedInputsTrue(third: bool)
    ensures var v := SkewedValue(third); v(7) && v(8) && v(9) == third && v(0) == third
    ensures Skewed().Values(SkewedValue(third), [7, 8, 9]) == [true, true, third]
  {
    assert SkewedIso(7) == 7 && SkewedIso(8) == 8 && SkewedIso(9) == 9 && SkewedIso(0) == 0;
  }

  lemma {:induction false} RootExists(n: Netlist, nodes: Nodes, tables: map<nat, nat>)
    requires GraphOk(n, nodes, tables)
    ensures |nodes| > 0 && Shaped(n, nodes)
  {
  }

  ghost predicate EvalsTo(a: Nodes, ext: seq<bool>, value: bool)
    requires Shaped(Skewed(), a)
  {
    |a| > 0 && forall rank: nat -> nat :: Ranked(a, rank) ==> Eval(Skewed(), a, rank, ext, 0) == Some(value)
  }

  /** No round loops, and only the last frontier consists of stops. */
  lemma {:induction false} SkewedEnds(stages: seq<Stage>, k: nat)
    requires stages != [] && Run(Skewed(), 0, stages) && SeedStage(Skewed(), 0, stages[0]) && k < |stages|
    ensures !StageLoops(Skewed(), stages[k])
    ensures AllStop(Skewed(), stages[k].frontier) ==> k >= 2 && stages[k].frontier == [7, 8, 9]
    ensures k >= 2 ==> stages[k].marks == [Mark(true, 0), Mark(true, 0), Mark(true, 1)]
  {
    hide Skewed, StageOk, Run, SeedStage, StageLoops;
    SkewedFacts();
    SkewedNeverLoops(stages, k);
    SkewedStage(stages, k);
    assert SkewedFrontier(k)[1] == if k == 0 then 4 else if k == 1 then 5 else 8;
  }

  /** The stored numbers of the last stage give the first input to the first two leaves. */
  lemma {:induction false} SkewedReads(a: Stage)
    requires StageOk(Skewed(), 0, a) && a.frontier == [7, 8, 9]
    requires a.marks == [Mark(true, 0), Mark(true, 0), Mark(true, 1)]
    ensures Shaped(Skewed(), a.nodes) && EvalsTo(a.nodes, [true, true, false], true)
  {
    hide Skewed, Eval, SkewedValue, GraphOk, BorderOk, Aligned, Marked, Ranked;
    var v, ext := SkewedValue(true), [true, true, false];
    SkewedFacts();
    SkewedConsistent(true);
    SkewedInputsTrue(true);
    assert ReadsNets(a.marks, a.frontier, v, ext);
    RootExists(Skewed(), a.nodes, a.tables);
    forall rank: nat -> nat | Ranked(a.nodes, rank)
      ensures Eval(Skewed(), a.nodes, rank, ext, 0) == Some(true)
    {
      EvalIsValue(Skewed(), 0, a, rank, v, ext);
    }
  }

  /**
   The expansion finishes with the numbers 0, 0, 1, so the stored evaluation of (1, 1, 0) is true,
   where the conjunction of the three inputs, in the order of the border, is false.
   */
  method NumbersCollide() returns (o: Outcome, cloud: LogicCloud, ghost frontier: seq<nat>, ghost marks: seq<Mark>)
    ensures o.Done? && cloud.tree != null && cloud.netlist == Skewed() && Expanded(Skewed(), 0, cloud.tree, frontier)
    ensures Marked(cloud.tree.nodes, cloud.tree.borderLeaves, marks) && frontier == cloud.inputs == [7, 8, 9]
    ensures marks == [Mark(true, 0), Mark(true, 0), Mark(true, 1)]
    ensures Shaped(Skewed(), cloud.tree.nodes) && EvalsTo(cloud.tree.nodes, [true, true, false], true)
    ensures var v := SkewedValue(false);
      Skewed().Consistent(v) && Skewed().Values(v, frontier) == [true, true, false] && !v(0)
  {
    hide Skewed, GraphOk, BorderOk, Aligned, Marked, Run, SeedStage, Blocked, SeedBlocks, StageLoops, IsLoop, AllStop;
    hide EvalsTo, PortsOnly, AllInputs, Shaped, Netlist.WellFormed, Netlist.Consistent, SkewedValue;
    SkewedFacts();
    cloud := new LogicCloud(Skewed(), 0);
    ghost var stages;
    o, frontier, stages := cloud.Compute();
    SkewedNotBlocked(o);
    assert stages != [];
    ghost var last := |stages| - 1;
    SkewedEnds(stages, last);
    SkewedStage(stages, last);
    marks := stages[last].marks;
    assert StageOk(Skewed(), 0, stages[last]) by {
      hide StageOk;
      LastIsOk(Skewed(), 0, stages);
    }
    SkewedReads(stages[last]);
    SkewedConsistent(false);
    SkewedInputsTrue(false);
  }
}
