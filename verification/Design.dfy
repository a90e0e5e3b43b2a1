/**
 What a finished node graph asks of an expression for it: equations over the nets, a name for
 each port, and, when these can be met, the value that evaluation gives.
 */
module Designs {
  import opened BoolExprs
  import opened TruthTables
  import opened TableExprs
  import opened TableDnf
  import opened Netlists
  import opened TruthTableTrees
  import opened AncestorLoops
  import opened CloudMeaning

  type Cache = map<nat, Expr>

  /** A value for every iso. */
  type Nets = nat -> bool

  datatype Design = Design(net: Netlist, nodes: Nodes, varNames: seq<nat>, siblings: nat -> seq<nat>) {
    function Iso(i: nat): nat
      requires i < |nodes|
    {
      net.iso(nodes[i].term)
    }
  }

  // ----- what a graph demands -----

  function NameExpr(name: nat): Expr {
    if name == 0 then FALSE else if name == 1 then TRUE else Var(name)
  }

  /** The names 0 and 1 are the constants; any other name is a variable of the environment. */
  lemma {:induction false} NameReads(name: nat, env: Env)
    ensures Eval(NameExpr(name), env) <==> name == 1 || (name > 1 && env(name))
    ensures name > 1 ==> Support(NameExpr(name)) == {name}
  {
  }

  ghost predicate TableReady(t: TruthTable) {
    match t
    case Rows(_, _) => RowsOk(t)
    case Generic(arity, _) => arity > 0
    case TableSelect(addressSize, depth) => addressSize + depth > 0 && depth < MAX_DEPTH
    case DivMod(width, _, _, bit) => width > 0 && bit < width
  }

  /** The other outputs of a divider read the same inputs. */
  ghost predicate SiblingOk(d: Design, t: nat, s: nat) {
    && d.net.table(s).DivMod? && d.net.table(t).DivMod?
    && d.net.table(s).width == d.net.table(t).width && d.net.table(s).signed == d.net.table(t).signed
    && d.net.table(s).outputBit < d.net.table(s).width
  }

  ghost predicate SiblingsOk(d: Design, t: nat) {
    d.net.table(t).DivMod? ==> forall j :: 0 <= j < |d.siblings(t)| ==> SiblingOk(d, t, d.siblings(t)[j])
  }

  /** No open inputs are left below tables. */
  ghost predicate Closed(nodes: Nodes) {
    forall p: nat, k: nat :: LeafPos(nodes, p, k) ==> nodes[p].kind.Port?
  }

  ghost predicate Ready(d: Design, tables: map<nat, nat>, rank: nat -> nat) {
    && GraphOk(d.net, d.nodes, tables) && Closed(d.nodes) && Ranked(d.nodes, rank) && |d.varNames| >= d.net.count
    && (forall i :: 0 <= i < |d.nodes| && d.nodes[i].kind.Table? ==>
         TableReady(d.net.table(d.nodes[i].term)) && SiblingsOk(d, d.nodes[i].term))
  }

  lemma {:induction false} BorderIsClosed(nodes: Nodes, ls: seq<BorderLeaf>)
    requires BorderOk(nodes, ls) && PortsOnly(nodes, ls)
    ensures Closed(nodes)
  {
    forall p: nat, k: nat | LeafPos(nodes, p, k)
      ensures nodes[p].kind.Port?
    {
      assert Listed(ls, p, k);
    }
  }

  // ----- meaning -----

  ghost function ChildNets(d: Design, nets: Nets, i: nat): (r: seq<bool>)
    requires i < |d.nodes| && forall k :: 0 <= k < |d.nodes[i].children| ==> d.nodes[i].children[k] < |d.nodes|
    ensures |r| == |d.nodes[i].children|
  {
    seq(|d.nodes[i].children|, k requires 0 <= k < |d.nodes[i].children| => nets(d.Iso(d.nodes[i].children[k])))
  }

  /** The nets obey node i: a table node its table and its sibling outputs. */
  ghost predicate NodeHolds(d: Design, nets: Nets, i: nat) {
    i < |d.nodes| && d.nodes[i].kind.Table? && ChildrenThere(d, i) && FitsTable(d, i) ==>
      var term := d.nodes[i].term;
      && nets(d.Iso(i)) == TableValue(d.net.table(term), ChildNets(d, nets, i))
      && forall j :: 0 <= j < |d.siblings(term)| ==> SiblingHolds(d, nets, i, d.siblings(term)[j])
  }

  ghost predicate ChildrenThere(d: Design, i: nat)
    requires i < |d.nodes|
  {
    forall k :: 0 <= k < |d.nodes[i].children| ==> d.nodes[i].children[k] < |d.nodes|
  }

  predicate FitsTable(d: Design, i: nat)
    requires i < |d.nodes|
  {
    |d.nodes[i].children| == Arity(d.net.table(d.nodes[i].term))
  }

  ghost predicate SiblingHolds(d: Design, nets: Nets, i: nat, s: nat)
    requires i < |d.nodes| && ChildrenThere(d, i) && FitsTable(d, i)
  {
    SiblingOk(d, d.nodes[i].term, s) ==> nets(d.net.iso(s)) == TableValue(d.net.table(s), ChildNets(d, nets, i))
  }

  ghost predicate Solves(d: Design, nets: Nets) {
    forall i :: 0 <= i < |d.nodes| ==> NodeHolds(d, nets, i)
  }

  /** Every cached expression denotes its net. */
  ghost predicate CacheHolds(cache: Cache, nets: Nets, env: Env) {
    forall s :: s in cache ==> Eval(cache[s], env) == nets(s)
  }

  /** The isos of a list of terms. */
  function IsosOf(n: Netlist, terms: seq<nat>): set<nat> {
    set t | t in terms :: n.iso(t)
  }

  /** The isos that building a node publishes, when those of `keys` have expressions already. */
  function BuiltKeys(d: Design, i: nat, keys: set<nat>): set<nat>
    requires i < |d.nodes|
  {
    {d.Iso(i)} +
    if d.nodes[i].kind.Table? && d.net.table(d.nodes[i].term).DivMod? && d.Iso(i) !in keys
    then IsosOf(d.net, d.siblings(d.nodes[i].term)) else {}
  }

  /** The isos with an expression after a list of nodes was built, one after another. */
  function KeysAfter(d: Design, keys: set<nat>, order: seq<nat>): set<nat> {
    if order == [] then keys
    else
      var before, x := KeysAfter(d, keys, order[..|order| - 1]), order[|order| - 1];
      before + if x < |d.nodes| then BuiltKeys(d, x, before) else {}
  }

  /** What building node i adds: only the first node of a net says what the net is. */
  ghost predicate Given(d: Design, keys: set<nat>, nets: Nets, env: Env, i: nat) {
    i < |d.nodes| && d.Iso(i) !in keys ==>
      NodeHolds(d, nets, i) && (Named(d, i) ==> nets(d.Iso(i)) == Eval(NameExpr(NameOf(d, i)), env))
  }

  ghost predicate GivenAt(d: Design, keys: set<nat>, order: seq<nat>, nets: Nets, env: Env, k: nat) {
    k < |order| ==> Given(d, KeysAfter(d, keys, order[..k]), nets, env, order[k])
  }

  /** The nets obey the start cache, and each node that was the first of its net to be built. */
  ghost predicate Premise(d: Design, start: Cache, order: seq<nat>, nets: Nets, env: Env) {
    CacheHolds(start, nets, env) && forall k: nat :: GivenAt(d, start.Keys, order, nets, env, k)
  }

  // ----- when there is a solution -----

  predicate IsPort(d: Design, p: nat) { p < |d.nodes| && d.nodes[p].kind.Port? }

  predicate IsTable(d: Design, i: nat) { i < |d.nodes| && d.nodes[i].kind.Table? }

  /** A sibling output is driven by itself, and its cell reads what the node's cell reads. */
  predicate SiblingDriven(n: Netlist, t: nat, s: nat) {
    s < n.count && !n.isInput(s) && n.ArityOk(s) && n.Drivers(s) == [s] && n.inputs(s) == n.inputs(t)
  }

  ghost predicate SiblingsDriven(d: Design) {
    forall i: nat, j: nat :: IsTable(d, i) && j < |d.siblings(d.nodes[i].term)| ==>
      SiblingDriven(d.net, d.nodes[i].term, d.siblings(d.nodes[i].term)[j])
  }

  /** No port sits on the net of a table or of a sibling output. */
  ghost predicate PortsApart(d: Design) {
    && (forall p: nat, i: nat :: IsPort(d, p) && IsTable(d, i) ==> d.Iso(p) != d.Iso(i))
    && (forall p: nat, i: nat, j: nat :: IsPort(d, p) && IsTable(d, i) && j < |d.siblings(d.nodes[i].term)| ==>
          d.Iso(p) != d.net.iso(d.siblings(d.nodes[i].term)[j]))
  }

  predicate Named(d: Design, p: nat) { IsPort(d, p) && d.nodes[p].term < |d.varNames| }

  function NameOf(d: Design, p: nat): nat
    requires Named(d, p)
  {
    d.varNames[d.nodes[p].term]
  }

  /** Ports on one net have one name. */
  ghost predicate OneNamePerNet(d: Design) {
    forall p: nat, q: nat :: Named(d, p) && Named(d, q) && d.Iso(p) == d.Iso(q) ==> NameOf(d, p) == NameOf(d, q)
  }

  /** What the leaf below each port reads: the value of the port's net. */
  ghost predicate LeavesRead(d: Design, leaf: nat -> bool, ports: Nets) {
    forall p: nat :: IsPort(d, p) && |d.nodes[p].children| > 0 ==> leaf(d.nodes[p].children[0]) == ports(d.Iso(p))
  }

  /** The value of a node when its leaves read what they read. */
  ghost function Value(d: Design, tables: map<nat, nat>, rank: nat -> nat, leaf: nat -> bool, i: nat): bool
    requires Ready(d, tables, rank) && i < |d.nodes|
  {
    EvalNode(d.net, d.nodes, rank, leaf, i)
  }

  ghost function ChildValues(d: Design, tables: map<nat, nat>, rank: nat -> nat, leaf: nat -> bool, i: nat)
      : (r: seq<bool>)
    requires Ready(d, tables, rank) && IsTable(d, i) && ChildrenThere(d, i)
    ensures |r| == |d.nodes[i].children|
  {
    seq(|d.nodes[i].children|, k requires 0 <= k < |d.nodes[i].children| =>
      Value(d, tables, rank, leaf, d.nodes[i].children[k]))
  }

  lemma {:induction false} ReadyNode(d: Design, tables: map<nat, nat>, rank: nat -> nat, i: nat)
    requires Ready(d, tables, rank) && i < |d.nodes|
    ensures ChildrenThere(d, i)
    ensures IsTable(d, i) ==> FitsTable(d, i) && |d.nodes[i].children| == |d.net.inputs(d.nodes[i].term)|
    ensures IsTable(d, i) ==> d.net.Drivers(d.nodes[i].term) == [d.nodes[i].term]
    ensures IsTable(d, i) ==> forall k :: 0 <= k < |d.nodes[i].children| ==>
      var c, t := d.nodes[i].children[k], d.net.inputs(d.nodes[i].term)[k];
      !d.nodes[c].kind.Leaf? && ChildOk(d.net, d.nodes, t, c)
    ensures IsPort(d, i) ==> |d.nodes[i].children| == 1
  {
    assert NodeOk(d.net, d.nodes, i);
    if IsTable(d, i) {
      forall k | 0 <= k < |d.nodes[i].children|
        ensures !d.nodes[d.nodes[i].children[k]].kind.Leaf?
      {
        assert !LeafPos(d.nodes, i, k);
      }
    }
  }

  lemma {:induction false} TableIsValue(d: Design, tables: map<nat, nat>, rank: nat -> nat, leaf: nat -> bool, i: nat)
    requires Ready(d, tables, rank) && IsTable(d, i) && ChildrenThere(d, i) && FitsTable(d, i)
    ensures Value(d, tables, rank, leaf, i)
         == TableValue(d.net.table(d.nodes[i].term), ChildValues(d, tables, rank, leaf, i))
  {
    hide TableValue;
    var x := d.nodes[i];
    assert NodeOk(d.net, d.nodes, i) && RankedAt(d.nodes, rank, i);
    var args := seq(|x.children|, k requires 0 <= k < |x.children| =>
      assert x.children[k] in x.children;
      EvalNode(d.net, d.nodes, rank, leaf, x.children[k]));
    assert args == ChildValues(d, tables, rank, leaf, i);
  }

  lemma {:induction false} PortIsValue(d: Design, tables: map<nat, nat>, rank: nat -> nat, leaf: nat -> bool,
      ports: Nets, p: nat)
    requires Ready(d, tables, rank) && IsPort(d, p) && LeavesRead(d, leaf, ports)
    ensures Value(d, tables, rank, leaf, p) == ports(d.Iso(p))
  {
    assert NodeOk(d.net, d.nodes, p);
  }

  /** Two nodes for one net have one value. */
  lemma {:induction false} SameTermSameValue(d: Design, tables: map<nat, nat>, rank: nat -> nat, leaf: nat -> bool,
      ports: Nets, a: nat, b: nat)
    requires Ready(d, tables, rank) && LeavesRead(d, leaf, ports) && Inner(d.nodes, a) && Inner(d.nodes, b)
    requires d.nodes[a].kind == d.nodes[b].kind && (d.Iso(a) == d.Iso(b) || d.nodes[a].term == d.nodes[b].term)
    ensures Value(d, tables, rank, leaf, a) == Value(d, tables, rank, leaf, b)
  {
    if d.nodes[a].kind.Table? {
      ReadyNode(d, tables, rank, a);
      ReadyNode(d, tables, rank, b);
      assert d.nodes[a].term == d.nodes[b].term;
      assert tables[d.nodes[a].term] == a && tables[d.nodes[b].term] == b;
    } else {
      PortIsValue(d, tables, rank, leaf, ports, a);
      PortIsValue(d, tables, rank, leaf, ports, b);
    }
  }

  /** Cells that read the same nets have the same values below them. */
  lemma {:induction false} SameInputsSameValues(d: Design, tables: map<nat, nat>, rank: nat -> nat, leaf: nat -> bool,
      ports: Nets, a: nat, b: nat)
    requires Ready(d, tables, rank) && LeavesRead(d, leaf, ports) && IsTable(d, a) && IsTable(d, b)
    requires d.net.inputs(d.nodes[a].term) == d.net.inputs(d.nodes[b].term)
    requires ChildrenThere(d, a) && ChildrenThere(d, b)
    ensures ChildValues(d, tables, rank, leaf, a) == ChildValues(d, tables, rank, leaf, b)
  {
    hide EvalNode, Ready;
    ReadyNode(d, tables, rank, a);
    ReadyNode(d, tables, rank, b);
    forall k | 0 <= k < |d.nodes[a].children|
      ensures Value(d, tables, rank, leaf, d.nodes[a].children[k]) ==
        Value(d, tables, rank, leaf, d.nodes[b].children[k])
    {
      var x, y, t := d.nodes[a].children[k], d.nodes[b].children[k], d.net.inputs(d.nodes[a].term)[k];
      assert ChildOk(d.net, d.nodes, t, x) && ChildOk(d.net, d.nodes, t, y);
      SameTermSameValue(d, tables, rank, leaf, ports, x, y);
    }
  }

  // ----- the solution -----

  ghost predicate NodeOn(d: Design, s: nat, i: nat) {
    Inner(d.nodes, i) && d.Iso(i) == s
  }

  ghost predicate SiblingOn(d: Design, s: nat, i: nat, j: nat) {
    && IsTable(d, i) && ChildrenThere(d, i) && j < |d.siblings(d.nodes[i].term)|
    && SiblingOk(d, d.nodes[i].term, d.siblings(d.nodes[i].term)[j]) && FitsTable(d, i)
    && d.net.iso(d.siblings(d.nodes[i].term)[j]) == s
  }

  ghost function SiblingValue(d: Design, tables: map<nat, nat>, rank: nat -> nat, leaf: nat -> bool, s: nat, i: nat,
      j: nat): bool
    requires Ready(d, tables, rank) && SiblingOn(d, s, i, j)
  {
    TableValue(d.net.table(d.siblings(d.nodes[i].term)[j]), ChildValues(d, tables, rank, leaf, i))
  }

  /** The value of a net: of a node on it, of a sibling output on it, or of its cached expression. */
  ghost function NetValue(d: Design, tables: map<nat, nat>, rank: nat -> nat, leaf: nat -> bool, start: Cache,
      env: Env, s: nat): bool
    requires Ready(d, tables, rank)
  {
    if exists i: nat :: NodeOn(d, s, i) then
      var i: nat :| NodeOn(d, s, i);
      Value(d, tables, rank, leaf, i)
    else if exists i: nat, j: nat :: SiblingOn(d, s, i, j) then
      var i: nat, j: nat :| SiblingOn(d, s, i, j);
      SiblingValue(d, tables, rank, leaf, s, i, j)
    else s in start && Eval(start[s], env)
  }

  ghost function Solution(d: Design, tables: map<nat, nat>, rank: nat -> nat, leaf: nat -> bool, start: Cache,
      env: Env): Nets
    requires Ready(d, tables, rank)
  {
    (s: nat) => NetValue(d, tables, rank, leaf, start, env, s)
  }

  lemma {:induction false} NodeNetValue(d: Design, tables: map<nat, nat>, rank: nat -> nat, leaf: nat -> bool,
      ports: Nets, start: Cache, env: Env, i: nat)
    requires Ready(d, tables, rank) && LeavesRead(d, leaf, ports) && PortsApart(d) && Inner(d.nodes, i)
    ensures NetValue(d, tables, rank, leaf, start, env, d.Iso(i)) == Value(d, tables, rank, leaf, i)
  {
    hide Ready, Value;
    assert NodeOn(d, d.Iso(i), i);
    forall k: nat | NodeOn(d, d.Iso(i), k)
      ensures Value(d, tables, rank, leaf, k) == Value(d, tables, rank, leaf, i)
    {
      assert IsPort(d, i) || IsTable(d, i);
      assert IsPort(d, k) || IsTable(d, k);
      SameTermSameValue(d, tables, rank, leaf, ports, k, i);
    }
  }

  lemma {:induction false} SiblingNetValue(d: Design, tables: map<nat, nat>, rank: nat -> nat, leaf: nat -> bool,
      ports: Nets, start: Cache, env: Env, s: nat, i: nat, j: nat)
    requires Ready(d, tables, rank) && LeavesRead(d, leaf, ports) && PortsApart(d) && SiblingsDriven(d)
    requires SiblingOn(d, s, i, j)
    ensures NetValue(d, tables, rank, leaf, start, env, s) == SiblingValue(d, tables, rank, leaf, s, i, j)
  {
    hide Ready, TableValue;
    var sib := d.siblings(d.nodes[i].term)[j];
    assert SiblingDriven(d.net, d.nodes[i].term, sib);
    forall k: nat | NodeOn(d, s, k)
      ensures Value(d, tables, rank, leaf, k) == SiblingValue(d, tables, rank, leaf, s, i, j)
    {
      assert !IsPort(d, k);
      ReadyNode(d, tables, rank, k);
      assert d.nodes[k].term == sib;
      TableIsValue(d, tables, rank, leaf, k);
      SameInputsSameValues(d, tables, rank, leaf, ports, i, k);
    }
    forall i': nat, j': nat | SiblingOn(d, s, i', j')
      ensures SiblingValue(d, tables, rank, leaf, s, i', j') == SiblingValue(d, tables, rank, leaf, s, i, j)
    {
      assert SiblingDriven(d.net, d.nodes[i'].term, d.siblings(d.nodes[i'].term)[j']);
      SameInputsSameValues(d, tables, rank, leaf, ports, i, i');
    }
  }

  /** The start cache agrees with the values of the graph. */
  ghost predicate CacheAgrees(d: Design, tables: map<nat, nat>, rank: nat -> nat, leaf: nat -> bool, cache: Cache,
      env: Env)
    requires Ready(d, tables, rank)
  {
    && (forall s, i: nat :: s in cache && NodeOn(d, s, i) ==> Eval(cache[s], env) == Value(d, tables, rank, leaf, i))
    && (forall s, i: nat, j: nat :: s in cache && SiblingOn(d, s, i, j) ==>
          Eval(cache[s], env) == SiblingValue(d, tables, rank, leaf, s, i, j))
  }

  lemma {:induction false} SolutionHoldsAt(d: Design, tables: map<nat, nat>, rank: nat -> nat, leaf: nat -> bool,
      ports: Nets, start: Cache, env: Env, i: nat)
    requires Ready(d, tables, rank) && LeavesRead(d, leaf, ports) && PortsApart(d) && SiblingsDriven(d)
    ensures NodeHolds(d, Solution(d, tables, rank, leaf, start, env), i)
  {
    hide Ready, TableValue, NetValue, LeavesRead, PortsApart, SiblingsDriven;
    if IsTable(d, i) && ChildrenThere(d, i) && FitsTable(d, i) {
      var nets := Solution(d, tables, rank, leaf, start, env);
      ReadyNode(d, tables, rank, i);
      forall k | 0 <= k < |d.nodes[i].children|
        ensures nets(d.Iso(d.nodes[i].children[k])) == Value(d, tables, rank, leaf, d.nodes[i].children[k])
      {
        NodeNetValue(d, tables, rank, leaf, ports, start, env, d.nodes[i].children[k]);
      }
      assert ChildNets(d, nets, i) == ChildValues(d, tables, rank, leaf, i);
      NodeNetValue(d, tables, rank, leaf, ports, start, env, i);
      TableIsValue(d, tables, rank, leaf, i);
      forall j | 0 <= j < |d.siblings(d.nodes[i].term)|
        ensures SiblingHolds(d, nets, i, d.siblings(d.nodes[i].term)[j])
      {
        var s := d.siblings(d.nodes[i].term)[j];
        if SiblingOk(d, d.nodes[i].term, s) {
          assert SiblingOn(d, d.net.iso(s), i, j);
          SiblingNetValue(d, tables, rank, leaf, ports, start, env, d.net.iso(s), i, j);
        }
      }
    }
  }

  lemma {:induction false} SolutionCaches(d: Design, tables: map<nat, nat>, rank: nat -> nat, leaf: nat -> bool,
      ports: Nets, start: Cache, env: Env)
    requires Ready(d, tables, rank) && CacheAgrees(d, tables, rank, leaf, start, env)
    ensures CacheHolds(start, Solution(d, tables, rank, leaf, start, env), env)
  {
    hide Ready, Value, SiblingValue, NodeOn, SiblingOn;
    forall s | s in start
      ensures Eval(start[s], env) == NetValue(d, tables, rank, leaf, start, env, s)
    {
    }
  }

  /** The leaves read the names of their ports. */
  ghost predicate ReadsNames(d: Design, ports: Nets, env: Env) {
    forall p: nat :: Named(d, p) ==> ports(d.Iso(p)) == Eval(NameExpr(NameOf(d, p)), env)
  }

  /**
   For every environment there is a solution, in which every node of the graph has the value that
   evaluation gives it when the leaves read the names.
   */
  lemma {:induction false} SolutionExists(d: Design, tables: map<nat, nat>, rank: nat -> nat, leaf: nat -> bool,
      ports: Nets, start: Cache, order: seq<nat>, env: Env)
    requires Ready(d, tables, rank) && LeavesRead(d, leaf, ports) && PortsApart(d) && SiblingsDriven(d)
    requires CacheAgrees(d, tables, rank, leaf, start, env) && ReadsNames(d, ports, env)
    ensures Premise(d, start, order, Solution(d, tables, rank, leaf, start, env), env)
    ensures forall i: nat :: Inner(d.nodes, i) ==>
      Solution(d, tables, rank, leaf, start, env)(d.Iso(i)) == Value(d, tables, rank, leaf, i)
  {
    hide Ready, NetValue, Value, PortsApart, SiblingsDriven, NodeHolds, CacheAgrees;
    var nets := Solution(d, tables, rank, leaf, start, env);
    SolutionCaches(d, tables, rank, leaf, ports, start, env);
    forall i: nat | Inner(d.nodes, i)
      ensures nets(d.Iso(i)) == Value(d, tables, rank, leaf, i)
    {
      NodeNetValue(d, tables, rank, leaf, ports, start, env, i);
    }
    forall i: nat, keys: set<nat>
      ensures Given(d, keys, nets, env, i)
    {
      SolutionHoldsAt(d, tables, rank, leaf, ports, start, env, i);
      if Named(d, i) {
        PortIsValue(d, tables, rank, leaf, ports, i);
        assert nets(d.Iso(i)) == Value(d, tables, rank, leaf, i);
      }
    }
    forall k: nat
      ensures GivenAt(d, start.Keys, order, nets, env, k)
    {
    }
  }
}
