/**
 The loop check looks at the graph before the batch, so two reuses in one batch can close a
 loop that neither of them closes alone: two cells that read each other, below one root.
 */
module CloudBatch {
  import opened Options
  import opened TruthTables
  import opened Netlists
  import opened TruthTableTrees
  import opened AncestorLoops
  import opened LogicClouds
  import opened CloudMeaning

  /** Driver 0 reads nets 1 and 2; driver 1 reads net 2; driver 2 reads net 1. */
  function CrossedIso(t: nat): nat {
    if t == 3 || t == 6 then 1 else if t == 4 || t == 5 then 2 else t
  }

  function CrossedInputs(t: nat): seq<nat> {
    if t == 0 then [3, 4] else if t == 1 then [5] else if t == 2 then [6] else []
  }

  function Crossed(): Netlist {
    Netlist(7, (t: nat) => false, (t: nat) => CrossedIso(t), (i: nat) => [i], (i: nat) => false, (i: nat) => false,
            (t: nat) => false, (t: nat) => t < 3, (t: nat) => false, (t: nat) => CrossedInputs(t),
            (t: nat) => Generic(|CrossedInputs(t)|, GateAnd))
  }

  lemma {:induction false} CrossedFacts()
    ensures var n := Crossed();
      && n.WellFormed() && (forall t :: !n.Stops(t)) && (forall d :: !n.isAssign(d)) && (forall t :: !n.isInput(t))
      && (forall d :: n.ArityOk(d))
      && n.Drivers(3) == [1] && n.Drivers(6) == [1] && n.Drivers(4) == [2] && n.Drivers(5) == [2] && n.Drivers(0) == [0]
      && n.inputs(0) == [3, 4] && n.inputs(1) == [5] && n.inputs(2) == [6]
      && (forall d: nat :: d > 2 ==> n.inputs(d) == [])
      && MergeOk(n, 3, MergeTable(1)) && MergeOk(n, 4, MergeTable(2)) && MergeOk(n, 5, MergeTable(2))
      && MergeOk(n, 6, MergeTable(1))
  {
    var n := Crossed();
    forall t: nat | t < n.count
      ensures n.TermOk(t)
    {
    }
  }

  lemma {:induction false} CrossedIsCyclic()
    ensures !ConeAcyclic(Crossed(), 0)
  {
    var n := Crossed();
    CrossedFacts();
    assert n.Expands(n.inputs(0)[0], 1) && n.Expands(n.inputs(1)[0], 2) && n.Expands(n.inputs(2)[0], 1);
    assert ExpandsTo(n, 0, 1) && ExpandsTo(n, 1, 2) && ExpandsTo(n, 2, 1);
    assert ConePath(n, [0], 0, 0);
    ExtendCone(n, 0, 0, 1);
    var path := [1, 2, 1];
    assert ConeStep(n, path, 0) && ConeStep(n, path, 1);
    assert ConePath(n, path, 1, 1);
    ConeCycleIsLoop(n, 0, path);
  }

  /** The open position of net 5 (of net 6) is at driver 1 (at driver 2). */
  lemma {:induction false} OpenAt(nodes: Nodes, tables: map<nat, nat>, l: BorderLeaf, t: nat)
    requires GraphOk(Crossed(), nodes, tables) && NamesNet(Crossed(), nodes, l, t) && (t == 5 || t == 6)
    ensures nodes[l.parent].kind.Table? && nodes[l.parent].term == t - 4 && l.pos == 0 && l.parent == tables[t - 4]
    ensures t - 4 in tables
  {
    CrossedFacts();
    assert NodeOk(Crossed(), nodes, l.parent);
  }

  lemma {:induction false} ParentIsRoot(nodes: Nodes, tables: map<nat, nat>, a: nat, b: nat, p: nat)
    requires GraphOk(Crossed(), nodes, tables) && ((a == 1 && b == 2) || (a == 2 && b == 1)) && a in tables
    requires b in tables
    requires nodes[0].kind.Table? && nodes[0].term == 0 && LeafPos(nodes, tables[b], 0) && p in nodes[tables[a]].parents
    ensures p == 0
  {
    hide Crossed;
    var n, i := Crossed(), tables[a];
    CrossedFacts();
    assert LinkedAt(nodes, i) && NodeOk(n, nodes, p);
    hide Linked, Shaped, Owned, LinkedAt, Netlist.WellFormed;
    var k :| 0 <= k < |nodes[p].children| && nodes[p].children[k] == i;
    assert nodes[p].kind.Table? && ChildOk(n, nodes, n.inputs(nodes[p].term)[k], i);
    assert n.Drivers(n.inputs(nodes[p].term)[k]) == [a];
    assert nodes[p].term in tables && tables[nodes[p].term] == p;
  }

  /** Before the second batch, the only proper ancestor of driver 1 (of driver 2) is the root. */
  lemma {:induction false} OnlyRootAbove(nodes: Nodes, tables: map<nat, nat>, a: nat, b: nat)
    requires GraphOk(Crossed(), nodes, tables) && ((a == 1 && b == 2) || (a == 2 && b == 1)) && a in tables
    requires b in tables
    requires nodes[0].kind.Table? && nodes[0].term == 0 && LeafPos(nodes, tables[b], 0)
    ensures !AncestorOrSelf(nodes, tables[b], tables[a])
  {
    hide Crossed;
    var i := tables[a];
    forall p | p in nodes[i].parents
      ensures p == 0
    {
      ParentIsRoot(nodes, tables, a, b, p);
    }
    assert LinkedAt(nodes, 0);
    forall path | UpPath(nodes, path) && path[0] == i
      ensures path[|path| - 1] != tables[b]
    {
      ClosedContains(nodes, {0, i}, path);
    }
  }

  // ----- the run -----

  function CrossedFrontier(k: nat): seq<nat> {
    if k == 0 then [3, 4] else if k == 1 then [5, 6] else []
  }

  function CrossedMerges(k: nat): seq<Merge> {
    if k == 0 then [MergeTable(1), MergeTable(2)] else if k == 1 then [MergeTable(2), MergeTable(1)] else []
  }

  function CrossedTables(k: nat): set<nat> {
    if k == 0 then {0} else {0, 1, 2}
  }

  /** The batch of round k, computed. */
  lemma {:induction false} CrossedBatch(k: nat)
    ensures var n := Crossed();
      && MergesFor(n, CrossedFrontier(k), CrossedMerges(k))
      && NextFrontier(n, CrossedTables(k), CrossedMerges(k)) == CrossedFrontier(k + 1)
      && Known(CrossedTables(k), CrossedMerges(k)) == CrossedTables(k + 1)
  {
    hide Crossed, MergeOk;
    var n, merges, tables := Crossed(), CrossedMerges(k), CrossedTables(k);
    CrossedFacts();
    if k < 2 {
      var one := merges[..1];
      assert one == [CrossedMerges(k)[0]] && one[..0] == [];
      assert Known(tables, one) == if k == 0 then {0, 1} else {0, 1, 2};
      assert NextFrontier(n, tables, one) == if k == 0 then [5] else [];
    }
  }

  /** Every run of the expansion goes through these stages. */
  lemma {:induction false} CrossedStage(stages: seq<Stage>, k: nat)
    requires Run(Crossed(), 0, stages) && SeedStage(Crossed(), 0, stages[0]) && k < |stages|
    ensures stages[k].frontier == CrossedFrontier(k) && stages[k].tables.Keys == CrossedTables(k)
    ensures StageOk(Crossed(), 0, stages[k])
  {
    hide Crossed, StageOk, StageLoopsBy, NextFrontier, Known, MarksAfter, MergeOk;
    CrossedFacts();
    if k > 0 {
      CrossedStage(stages, k - 1);
      assert StageStep(Crossed(), stages[k - 1], stages[k]);
      var merges :| StageStepBy(Crossed(), stages[k - 1], stages[k], merges);
      CrossedBatch(k - 1);
      MergesAreUnique(Crossed(), CrossedFrontier(k - 1), merges, CrossedMerges(k - 1));
    }
  }

  /** Before the second batch: each open position is below one of the two drivers. */
  ghost predicate BeforeReuse(a: Stage) {
    && StageOk(Crossed(), 0, a) && a.frontier == [5, 6] && a.tables.Keys == {0, 1, 2}
  }

  lemma {:induction false} OpenBelow(a: Stage)
    requires BeforeReuse(a)
    ensures |a.ls| == 2 && 1 in a.tables && 2 in a.tables && a.ls[0].parent == a.tables[1]
    ensures a.ls[1].parent == a.tables[2]
    ensures LeafPos(a.nodes, a.tables[1], 0) && LeafPos(a.nodes, a.tables[2], 0)
    ensures |a.nodes| > 0 && a.nodes[0].kind.Table? && a.nodes[0].term == 0 && a.tables[0] == 0
  {
    hide Crossed, NodeOk;
    assert NamesNet(Crossed(), a.nodes, a.ls[0], a.frontier[0]) && NamesNet(Crossed(), a.nodes, a.ls[1], a.frontier[1]);
    OpenAt(a.nodes, a.tables, a.ls[0], 5);
    OpenAt(a.nodes, a.tables, a.ls[1], 6);
    RootIsTable(a);
  }

  lemma {:induction false} RootIsTable(a: Stage)
    requires BeforeReuse(a)
    ensures |a.nodes| > 0 && a.nodes[0].kind.Table? && a.nodes[0].term == 0 && a.tables[0] == 0
  {
    CrossedFacts();
    assert NodeOk(Crossed(), a.nodes, 0);
  }

  /** Each of the two reuses is below the root only, so the check says no to both. */
  lemma {:induction false} BothAnswersNo(a: Stage)
    requires BeforeReuse(a)
    ensures forall i :: !LoopsBack(Crossed(), a.nodes, a.tables, a.ls, [MergeTable(2), MergeTable(1)], i)
  {
    hide Crossed, StageOk, AncestorOrSelf;
    OpenBelow(a);
    assert GraphOk(Crossed(), a.nodes, a.tables) by {
      StageGraph(Crossed(), 0, a);
    }
    OnlyRootAbove(a.nodes, a.tables, 1, 2);
    OnlyRootAbove(a.nodes, a.tables, 2, 1);
  }

  lemma {:induction false} StageGraph(n: Netlist, root: nat, a: Stage)
    requires StageOk(n, root, a)
    ensures GraphOk(n, a.nodes, a.tables)
  {
  }

  /** Before the second batch the graph is acyclic: below the two drivers there are leaves only. */
  lemma {:induction false} AcyclicBeforeReuse(a: Stage)
    requires BeforeReuse(a)
    ensures Acyclic(a.nodes)
  {
    hide Crossed;
    CrossedFacts();
    OpenBelow(a);
    var rank: nat -> nat := (i: nat) => if i == 0 then 2 else if i == a.tables[1] || i == a.tables[2] then 1 else 0;
    forall p | 0 <= p < |a.nodes|
      ensures RankedAt(a.nodes, rank, p)
    {
      NoPortAt(a, p);
      if a.nodes[p].kind.Table? {
        ChildrenBelow(a, p);
      }
    }
    assert Ranked(a.nodes, rank);
  }

  lemma {:induction false} NoPortAt(a: Stage, p: nat)
    requires BeforeReuse(a) && p < |a.nodes|
    ensures !a.nodes[p].kind.Port? && (a.nodes[p].kind.Leaf? ==> a.nodes[p].children == [])
  {
    hide Crossed;
    CrossedFacts();
    assert NodeOk(Crossed(), a.nodes, p);
  }

  lemma {:induction false} ChildrenBelow(a: Stage, p: nat)
    requires BeforeReuse(a) && p < |a.nodes| && a.nodes[p].kind.Table?
    ensures 0 in a.tables && 1 in a.tables && 2 in a.tables && a.tables[0] == 0
    ensures p == 0 || p == a.tables[1] || p == a.tables[2]
    ensures a.tables[1] != 0 && a.tables[2] != 0
    ensures p != 0 ==> forall c :: c in a.nodes[p].children ==> c < |a.nodes| && a.nodes[c].kind.Leaf?
    ensures forall c :: c in a.nodes[p].children ==> c != 0
  {
    hide Crossed;
    CrossedFacts();
    OpenBelow(a);
    assert NodeOk(Crossed(), a.nodes, p);
    assert a.nodes[p].term in a.tables;
    assert LinkedAt(a.nodes, 0);
    if p != 0 {
      assert |a.nodes[p].children| == 1;
    }
  }

  /** No round loops, and only an empty frontier consists of stops. */
  lemma {:induction false} CrossedNeverLoops(stages: seq<Stage>, k: nat)
    requires stages != [] && Run(Crossed(), 0, stages) && SeedStage(Crossed(), 0, stages[0]) && k < |stages|
    ensures !StageLoops(Crossed(), stages[k])
    ensures AllStop(Crossed(), stages[k].frontier) ==> k >= 2 && stages[k].frontier == []
  {
    hide Crossed, Run, SeedStage, StageOk, MergeOk, LoopsBack, NextFrontier, Known;
    CrossedFacts();
    CrossedStage(stages, k);
    var a, merges := stages[k], CrossedMerges(k);
    CrossedBatch(k);
    forall other | MergesFor(Crossed(), a.frontier, other)
      ensures other == merges
    {
      MergesAreUnique(Crossed(), a.frontier, other, merges);
    }
    if k == 1 {
      BothAnswersNo(a);
    } else {
      NewTablesDoNotLoop(Crossed(), a.nodes, a.tables, a.ls, merges);
    }
    assert k < 2 ==> !Crossed().Stops(CrossedFrontier(k)[0]);
  }

  lemma {:induction false} CrossedNotBlocked(o: Outcome)
    ensures !Blocked(Crossed(), 0, o) && !SeedBlocks(Crossed(), 0, o)
  {
    forall d: nat, k: nat | k < |CrossedInputs(d)|
      ensures !Blocks(Crossed(), CrossedInputs(d)[k], o)
    {
    }
  }

  /**
   The expansion of driver 0 finishes with a cyclic graph. Before its second batch the graph is
   acyclic and the loop check says no to every merge of the batch.
   */
  method TwoReusesCloseALoop()
      returns (o: Outcome, cloud: LogicCloud, ghost frontier: seq<nat>, ghost stages: seq<Stage>)
    ensures cloud.netlist == Crossed() && o.Done? && cloud.tree != null && Expanded(Crossed(), 0, cloud.tree, frontier)
    ensures |stages| > 2 && Run(Crossed(), 0, stages) && stages[|stages| - 1].nodes == cloud.tree.nodes
    ensures var a, batch := stages[1], [MergeTable(2), MergeTable(1)];
      && Acyclic(a.nodes) && MergesFor(Crossed(), a.frontier, batch)
      && forall i :: !LoopsBack(Crossed(), a.nodes, a.tables, a.ls, batch, i)
    ensures !Acyclic(cloud.tree.nodes)
  {
    hide Crossed, GraphOk, BorderOk, Aligned, Run, SeedStage, SeedBlocks, Blocked, StageLoops, StageOk;
    hide AllStop, AllInputs;
    hide IsLoop, Acyclic, ConeAcyclic, LoopsBack, MergesFor, PortsOnly, Netlist.WellFormed;
    CrossedFacts();
    cloud := new LogicCloud(Crossed(), 0);
    o, frontier, stages := cloud.Compute();
    CrossedNotBlocked(o);
    ghost var last := |stages| - 1;
    CrossedNeverLoops(stages, last);
    CrossedStage(stages, 1);
    CrossedBatch(1);
    AcyclicBeforeReuse(stages[1]);
    BothAnswersNo(stages[1]);
    CrossedRootIsTable(cloud.tree.nodes, cloud.tree.tableNodes);
    NoInputs(Crossed(), [3, 4]);
    CrossedIsCyclic();
    GraphIsAcyclicIffCone(Crossed(), cloud.tree.nodes, cloud.tree.tableNodes, cloud.tree.borderLeaves);
  }

  lemma {:induction false} NoInputs(n: Netlist, frontier: seq<nat>)
    requires n == Crossed() && frontier != []
    ensures !AllInputs(n, frontier)
  {
    assert !n.isInput(frontier[0]);
  }

  lemma {:induction false} CrossedRootIsTable(nodes: Nodes, tables: map<nat, nat>)
    requires GraphOk(Crossed(), nodes, tables)
    ensures |nodes| > 0 && nodes[0].kind.Table?
  {
    CrossedFacts();
    assert NodeOk(Crossed(), nodes, 0);
  }
}
