/** What an expanded graph means: its value, its table terms and when it is acyclic. */
module CloudMeaning {
  import opened TruthTables
  import opened Netlists
  import opened TruthTableTrees
  import opened AncestorLoops
  import opened LogicClouds

  // ----- the value of a node -----

  /** The table-lookup value of a node, with the value of each open leaf given; a rank makes the recursion end. */
  ghost function EvalNode(n: Netlist, nodes: Nodes, rank: nat -> nat, leaf: nat -> bool, i: nat): bool
    requires Shaped(n, nodes) && Ranked(nodes, rank) && i < |nodes|
    decreases rank(i)
  {
    var x := nodes[i];
    assert NodeOk(n, nodes, i) && RankedAt(nodes, rank, i);
    match x.kind
    case Leaf => leaf(i)
    case Port => leaf(x.children[0])
    case Table =>
      TableValue(n.table(x.term), seq(|x.children|, k requires 0 <= k < |x.children| =>
        assert x.children[k] in x.children;
        EvalNode(n, nodes, rank, leaf, x.children[k])))
  }

  /** The open leaves have the values of their nets. */
  ghost predicate LeavesSet(nodes: Nodes, ls: seq<BorderLeaf>, frontier: seq<nat>, v: Valuation, leaf: nat -> bool) {
    && |ls| == |frontier|
    && forall j :: 0 <= j < |ls| ==>
         LeafPos(nodes, ls[j].parent, ls[j].pos) && leaf(nodes[ls[j].parent].children[ls[j].pos]) == v(frontier[j])
  }

  /** The value at an open position is the value of its net. */
  lemma {:induction false} LeafValue(n: Netlist, nodes: Nodes, ls: seq<BorderLeaf>, frontier: seq<nat>, v: Valuation,
      leaf: nat -> bool, p: nat, k: nat)
    requires BorderOk(nodes, ls) && Aligned(n, nodes, ls, frontier) && LeavesSet(nodes, ls, frontier, v, leaf)
    requires Shaped(n, nodes) && LeafPos(nodes, p, k) && NodeOk(n, nodes, p)
    ensures leaf(nodes[p].children[k]) == v(NetAt(n, nodes, BorderLeaf(p, k, 0)))
  {
    assert Listed(ls, p, k);
    var j :| 0 <= j < |ls| && ls[j].parent == p && ls[j].pos == k;
    assert NamesNet(n, nodes, ls[j], frontier[j]);
  }

  lemma {:induction false} NodeValue(n: Netlist, nodes: Nodes, tables: map<nat, nat>, ls: seq<BorderLeaf>,
      frontier: seq<nat>, rank: nat -> nat, v: Valuation, leaf: nat -> bool, i: nat)
    requires n.WellFormed() && n.Consistent(v) && GraphOk(n, nodes, tables) && BorderOk(nodes, ls)
    requires Aligned(n, nodes, ls, frontier)
    requires Ranked(nodes, rank) && LeavesSet(nodes, ls, frontier, v, leaf) && Inner(nodes, i)
    ensures EvalNode(n, nodes, rank, leaf, i) == v(nodes[i].term)
    decreases rank(i), 0
  {
    var x := nodes[i];
    assert NodeOk(n, nodes, i) && RankedAt(nodes, rank, i);
    if x.kind.Port? {
      LeafValue(n, nodes, ls, frontier, v, leaf, i, 0);
    } else {
      var args := seq(|x.children|, k requires 0 <= k < |x.children| =>
        assert x.children[k] in x.children;
        EvalNode(n, nodes, rank, leaf, x.children[k]));
      hide Aligned, BorderOk, LeavesSet, NodeOk, RankedAt;
      forall k | 0 <= k < |x.children|
        ensures args[k] == v(n.inputs(x.term)[k])
      {
        assert x.children[k] in x.children;
        ChildValue(n, nodes, tables, ls, frontier, rank, v, leaf, i, k);
      }
      assert args == n.Values(v, n.inputs(x.term));
    }
  }

  lemma {:induction false} ChildValue(n: Netlist, nodes: Nodes, tables: map<nat, nat>, ls: seq<BorderLeaf>,
      frontier: seq<nat>, rank: nat -> nat, v: Valuation, leaf: nat -> bool, i: nat, k: nat)
    requires n.WellFormed() && n.Consistent(v) && GraphOk(n, nodes, tables) && BorderOk(nodes, ls)
    requires Aligned(n, nodes, ls, frontier)
    requires Ranked(nodes, rank) && LeavesSet(nodes, ls, frontier, v, leaf) && i < |nodes| && nodes[i].kind.Table?
    requires k < |nodes[i].children|
    requires NodeOk(n, nodes, i) && rank(nodes[i].children[k]) < rank(i)
    ensures EvalNode(n, nodes, rank, leaf, nodes[i].children[k]) == v(n.inputs(nodes[i].term)[k])
    decreases rank(nodes[i].children[k]), 1
  {
    var c, t := nodes[i].children[k], n.inputs(nodes[i].term)[k];
    assert ChildOk(n, nodes, t, c);
    assert n.TermOk(nodes[i].term);
    if nodes[c].kind.Leaf? {
      LeafValue(n, nodes, ls, frontier, v, leaf, i, k);
    } else {
      hide GraphOk, Aligned, BorderOk, LeavesSet, NodeOk, Ranked;
      NodeValue(n, nodes, tables, ls, frontier, rank, v, leaf, c);
      NetOfChild(n, v, t, nodes[c].term);
    }
  }

  lemma {:induction false} NetOfChild(n: Netlist, v: Valuation, t: nat, x: nat)
    requires n.Consistent(v) && t < n.count && (n.Expands(t, x) || n.EndsAt(t, x))
    ensures v(x) == v(t)
  {
  }

  /** In every round: for every consistent valuation the root has the value of the seed's driver. */
  lemma {:induction false} RootValue(n: Netlist, nodes: Nodes, tables: map<nat, nat>, ls: seq<BorderLeaf>,
      frontier: seq<nat>, rank: nat -> nat, v: Valuation, leaf: nat -> bool)
    requires n.WellFormed() && n.Consistent(v) && GraphOk(n, nodes, tables) && BorderOk(nodes, ls)
    requires Aligned(n, nodes, ls, frontier)
    requires Ranked(nodes, rank) && LeavesSet(nodes, ls, frontier, v, leaf)
    ensures EvalNode(n, nodes, rank, leaf, 0) == v(nodes[0].term)
  {
    NodeValue(n, nodes, tables, ls, frontier, rank, v, leaf, 0);
  }

  // ----- the cone -----

  /** In a finished graph every input of a table node is resolved, to the driver the netlist names. */
  lemma {:induction false} ChildIsExpanded(n: Netlist, nodes: Nodes, tables: map<nat, nat>, ls: seq<BorderLeaf>,
      i: nat, b: nat) returns (c: nat)
    requires GraphOk(n, nodes, tables) && BorderOk(nodes, ls) && PortsOnly(nodes, ls)
    requires i < |nodes| && nodes[i].kind.Table? && ExpandsTo(n, nodes[i].term, b)
    ensures c in nodes[i].children && c < |nodes| && nodes[c].kind.Table? && nodes[c].term == b && b in tables
    ensures tables[b] == c
  {
    assert NodeOk(n, nodes, i);
    var k :| 0 <= k < |n.inputs(nodes[i].term)| && n.Expands(n.inputs(nodes[i].term)[k], b);
    c := nodes[i].children[k];
    assert ChildOk(n, nodes, n.inputs(nodes[i].term)[k], c);
    assert LeafPos(nodes, i, k) ==> Listed(ls, i, k);
  }

  lemma {:induction false} ConeIsTabled(n: Netlist, nodes: Nodes, tables: map<nat, nat>, ls: seq<BorderLeaf>,
      path: seq<nat>, t: nat)
    requires GraphOk(n, nodes, tables) && BorderOk(nodes, ls) && PortsOnly(nodes, ls) && nodes[0].kind.Table?
    requires ConePath(n, path, nodes[0].term, t)
    ensures t in tables
  {
    if |path| > 1 {
      var k := |path| - 1;
      var rest := path[..k];
      assert ConeStep(n, path, k - 1);
      forall i | 0 <= i < |rest| - 1
        ensures ConeStep(n, rest, i)
      {
        assert ConeStep(n, path, i);
      }
      ConeIsTabled(n, nodes, tables, ls, rest, path[k - 1]);
      var c := ChildIsExpanded(n, nodes, tables, ls, tables[path[k - 1]], t);
    }
  }

  /** A finished graph holds exactly the cone of its root. */
  lemma {:induction false} TablesAreCone(n: Netlist, nodes: Nodes, tables: map<nat, nat>, ls: seq<BorderLeaf>, t: nat)
    requires GraphOk(n, nodes, tables) && BorderOk(nodes, ls) && PortsOnly(nodes, ls) && nodes[0].kind.Table?
    ensures t in tables <==> InCone(n, nodes[0].term, t)
  {
    if t in tables {
      NodeInCone(n, nodes, tables, tables[t]);
    }
    if InCone(n, nodes[0].term, t) {
      var path :| ConePath(n, path, nodes[0].term, t);
      ConeIsTabled(n, nodes, tables, ls, path, t);
    }
  }

  ghost function NodeRank(nodes: Nodes, rank: nat -> nat): nat -> nat {
    (i: nat) => RankOf(nodes, rank, i)
  }

  ghost function RankOf(nodes: Nodes, rank: nat -> nat, i: nat): nat {
    if i >= |nodes| || nodes[i].kind.Leaf? then 0 else if nodes[i].kind.Port? then 1 else 2 + rank(nodes[i].term)
  }

  ghost function TermRank(tables: map<nat, nat>, rank: nat -> nat): nat -> nat {
    (t: nat) => if t in tables then rank(tables[t]) else 0
  }

  /** A graph over an acyclic cone is acyclic, in every round. */
  lemma {:induction false} ConeRanksGraph(n: Netlist, nodes: Nodes, tables: map<nat, nat>, rank: nat -> nat)
    requires GraphOk(n, nodes, tables) && ConeRanked(n, nodes[0].term, rank)
    ensures Ranked(nodes, NodeRank(nodes, rank))
  {
    var r := NodeRank(nodes, rank);
    forall p, c | 0 <= p < |nodes| && c in nodes[p].children
      ensures r(c) < r(p)
    {
      assert NodeOk(n, nodes, p);
      var k :| 0 <= k < |nodes[p].children| && nodes[p].children[k] == c;
      if nodes[p].kind.Table? {
        assert ChildOk(n, nodes, n.inputs(nodes[p].term)[k], c);
        if nodes[c].kind.Table? {
          assert ExpandsTo(n, nodes[p].term, nodes[c].term);
          NodeInCone(n, nodes, tables, p);
        }
      } else {
        assert LeafPos(nodes, p, 0);
      }
    }
  }

  /** When expansion finishes, the graph is acyclic if and only if the cone is. */
  lemma {:induction false} GraphIsAcyclicIffCone(n: Netlist, nodes: Nodes, tables: map<nat, nat>, ls: seq<BorderLeaf>)
    requires GraphOk(n, nodes, tables) && BorderOk(nodes, ls) && PortsOnly(nodes, ls) && nodes[0].kind.Table?
    ensures Acyclic(nodes) <==> ConeAcyclic(n, nodes[0].term)
  {
    if ConeAcyclic(n, nodes[0].term) {
      var rank: nat -> nat :| ConeRanked(n, nodes[0].term, rank);
      ConeRanksGraph(n, nodes, tables, rank);
    }
    if Acyclic(nodes) {
      var rank: nat -> nat :| Ranked(nodes, rank);
      forall a, b | InCone(n, nodes[0].term, a) && ExpandsTo(n, a, b)
        ensures TermRank(tables, rank)(b) < TermRank(tables, rank)(a)
      {
        TablesAreCone(n, nodes, tables, ls, a);
        var c := ChildIsExpanded(n, nodes, tables, ls, tables[a], b);
        assert RankedAt(nodes, rank, tables[a]);
      }
      assert ConeRanked(n, nodes[0].term, TermRank(tables, rank));
    }
  }
}
