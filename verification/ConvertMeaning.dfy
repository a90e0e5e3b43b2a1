/** From an expanded cloud to its expression: the value of the seed in every consistent valuation of the netlist. */
module ConvertMeaning {
  import opened BoolExprs
  import opened TruthTables
  import opened Netlists
  import opened TruthTableTrees
  import opened AncestorLoops
  import opened LogicClouds
  import opened CloudMeaning
  import opened Designs
  import opened Tree2BoolExprs

  /** A valuation of the netlist that is the same on every iso. */
  ghost predicate NetsOf(n: Netlist, v: Valuation, nets: Nets) {
    forall t: nat :: t < n.count ==> v(t) == nets(n.iso(t))
  }

  ghost predicate NamesBound(d: Design, v: Valuation, env: Env) {
    forall p: nat :: Named(d, p) ==> v(d.nodes[p].term) == Eval(NameExpr(NameOf(d, p)), env)
  }

  ghost predicate Realizes(d: Design, v: Valuation, nets: Nets, env: Env) {
    && d.net.WellFormed() && d.net.Consistent(v) && NetsOf(d.net, v, nets) && NamesBound(d, v, env)
  }

  /** The nets of the children are the inputs of the cell. */
  lemma {:induction false} ChildNetsAreInputs(d: Design, tables: map<nat, nat>, v: Valuation, nets: Nets, env: Env,
      i: nat)
    requires GraphOk(d.net, d.nodes, tables) && Closed(d.nodes) && Realizes(d, v, nets, env)
    requires i < |d.nodes| && d.nodes[i].kind.Table?
    ensures forall k :: 0 <= k < |d.nodes[i].children| ==> d.nodes[i].children[k] < |d.nodes|
    ensures ChildNets(d, nets, i) == d.net.Values(v, d.net.inputs(d.nodes[i].term))
  {
    var n, x := d.net, d.nodes[i];
    assert NodeOk(n, d.nodes, i) && n.TermOk(x.term);
    forall k | 0 <= k < |x.children|
      ensures x.children[k] < |d.nodes| && nets(d.Iso(x.children[k])) == v(n.inputs(x.term)[k])
    {
      var c, t := x.children[k], n.inputs(x.term)[k];
      assert ChildOk(n, d.nodes, t, c) && NodeOk(n, d.nodes, c);
      assert !LeafPos(d.nodes, i, k);
      assert !d.nodes[c].kind.Leaf?;
      NetOfChild(n, v, t, d.nodes[c].term);
    }
  }

  /** A consistent valuation solves the equations of the graph. */
  lemma {:induction false} ConsistentSolves(d: Design, tables: map<nat, nat>, v: Valuation, nets: Nets, env: Env)
    requires GraphOk(d.net, d.nodes, tables) && Closed(d.nodes) && Realizes(d, v, nets, env) && SiblingsDriven(d)
    ensures Solves(d, nets)
  {
    hide TableValue;
    var n := d.net;
    forall i | 0 <= i < |d.nodes|
      ensures NodeHolds(d, nets, i)
    {
      assert NodeOk(n, d.nodes, i);
      if d.nodes[i].kind.Table? {
        ChildNetsAreInputs(d, tables, v, nets, env, i);
        TableHolds(d, v, nets, env, i);
      }
    }
  }

  lemma {:induction false} TableHolds(d: Design, v: Valuation, nets: Nets, env: Env, i: nat)
    requires i < |d.nodes| && d.nodes[i].kind.Table? && NodeOk(d.net, d.nodes, i) && Realizes(d, v, nets, env)
    requires SiblingsDriven(d)
    requires forall k :: 0 <= k < |d.nodes[i].children| ==> d.nodes[i].children[k] < |d.nodes|
    requires ChildNets(d, nets, i) == d.net.Values(v, d.net.inputs(d.nodes[i].term))
    ensures NodeHolds(d, nets, i)
  {
    hide TableValue;
    var n, x := d.net, d.nodes[i];
    assert v(x.term) == TableValue(n.table(x.term), n.Values(v, n.inputs(x.term)));
    forall j | 0 <= j < |d.siblings(x.term)|
      ensures var s := d.siblings(x.term)[j];
        n.ArityOk(s) && nets(n.iso(s)) == TableValue(n.table(s), n.Values(v, n.inputs(s)))
      ensures n.inputs(d.siblings(x.term)[j]) == n.inputs(x.term)
    {
      assert SiblingDriven(n, x.term, d.siblings(x.term)[j]);
    }
  }

  /** A solution of all equations that gives the ports their names meets what any run of the walk asks. */
  lemma {:induction false} SolvedIsGiven(d: Design, start: Cache, order: seq<nat>, v: Valuation, nets: Nets, env: Env)
    requires Realizes(d, v, nets, env) && Solves(d, nets) && CacheHolds(start, nets, env)
    requires forall p: nat :: Named(d, p) ==> d.nodes[p].term < d.net.count
    ensures Premise(d, start, order, nets, env)
  {
    hide Netlist.WellFormed, Netlist.Consistent, NameExpr, NodeHolds;
    forall i: nat, keys: set<nat>
      ensures Given(d, keys, nets, env, i)
    {
      if Named(d, i) {
        assert v(d.nodes[i].term) == nets(d.Iso(i));
      }
    }
    forall k: nat
      ensures GivenAt(d, start.Keys, order, nets, env, k)
    {
    }
  }

  lemma {:induction false} PortInRange(d: Design, tables: map<nat, nat>, p: nat)
    requires GraphOk(d.net, d.nodes, tables)
    ensures Named(d, p) ==> d.nodes[p].term < d.net.count
  {
    if Named(d, p) {
      assert NodeOk(d.net, d.nodes, p);
    }
  }

  /**
   The conversion of a finished cloud has, in every consistent valuation of the netlist, the
   value of the seed's driver, provided that every expression in the iso cache denotes its net.
   */
  lemma {:induction false} ConvertedCloudIsSeed(d: Design, tables: map<nat, nat>, ls: seq<BorderLeaf>, start: Cache,
      order: seq<nat>, r: Expr, cache: Cache, v: Valuation, nets: Nets, env: Env)
    requires GraphOk(d.net, d.nodes, tables) && BorderOk(d.nodes, ls) && PortsOnly(d.nodes, ls)
    requires ConvertedAt(d, start, order, r, cache, nets, env)
    requires Realizes(d, v, nets, env) && SiblingsDriven(d) && CacheHolds(start, nets, env)
    ensures Eval(r, env) == v(d.nodes[0].term)
    ensures CacheHolds(cache, nets, env)
  {
    BorderIsClosed(d.nodes, ls);
    assert NodeOk(d.net, d.nodes, 0);
    hide NodeHolds, CacheHolds, NodeOk, Premise;
    ConsistentSolves(d, tables, v, nets, env);
    forall p: nat
      ensures Named(d, p) ==> d.nodes[p].term < d.net.count
    {
      PortInRange(d, tables, p);
    }
    SolvedIsGiven(d, start, order, v, nets, env);
  }
}
