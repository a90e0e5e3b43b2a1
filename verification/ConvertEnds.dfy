/**
 The walk of the conversion ends on acyclic graphs only: on a graph in which a node reaches itself
 the stack never empties.
 */
module ConvertEnds {
  import opened Netlists
  import opened TruthTableTrees
  import opened AncestorLoops
  import opened LogicClouds
  import opened CloudBatch
  import opened Designs
  import opened Tree2BoolExprs

  /** What every turn keeps: nothing is done before its children, and the root is not forgotten. */
  ghost predicate Turning(d: Design, w: Walk) {
    && (forall i :: 0 <= i < |w.stack| ==> w.stack[i].node < |d.nodes|)
    && (forall i :: 0 <= i < |w.stack| && w.stack[i].second ==> WaitsFor(d, w, i))
    && (0 in w.done || Above(w.stack, -1, 0))
    && (forall i: nat :: Inner(d.nodes, i) && d.Iso(i) in w.keys ==> i in w.done)
    && (forall x, c :: x in w.done && x < |d.nodes| && c in d.nodes[x].children ==> c in w.done)
  }

  /** A second visit has its children done, or above it. */
  ghost predicate WaitsFor(d: Design, w: Walk, i: nat)
    requires i < |w.stack| && w.stack[i].node < |d.nodes|
  {
    Inner(d.nodes, w.stack[i].node) && forall c :: c in d.nodes[w.stack[i].node].children ==>
        c in w.done || Above(w.stack, i, c)
  }

  lemma {:induction false} TurningStarts(d: Design)
    requires |d.nodes| > 0
    ensures Turning(d, WalkAfter(d, {}, 0))
  {
    assert WalkAfter(d, {}, 0).stack[0].node == 0;
  }

  /** A node that becomes done in one turn had all its children done. */
  ghost predicate DoneAfterChildren(d: Design, w: Walk) {
    forall x, c :: x in WalkStep(d, w).done && x !in w.done && x < |d.nodes| && c in d.nodes[x].children ==> c in w.done
  }

  lemma {:induction false} TopWaits(d: Design, w: Walk, c: nat)
    requires Turning(d, w) && w.stack != []
    requires var f := w.stack[|w.stack| - 1]; f.second && c in d.nodes[f.node].children
    ensures c in w.done
  {
    assert WaitsFor(d, w, |w.stack| - 1);
  }

  lemma {:induction false} StepIsAfterChildren(d: Design, tables: map<nat, nat>, w: Walk)
    requires GraphOk(d.net, d.nodes, tables) && Turning(d, w)
    ensures DoneAfterChildren(d, w)
  {
    hide GraphOk;
    if w.stack != [] {
      var x := w.stack[|w.stack| - 1].node;
      LeafHasNoChildren(d, tables, x);
      forall y, c | y in WalkStep(d, w).done && y !in w.done && y < |d.nodes| && c in d.nodes[y].children
        ensures c in w.done
      {
        if w.stack[|w.stack| - 1].second {
          TopWaits(d, w, c);
        }
      }
    }
  }

  lemma {:induction false} LeafHasNoChildren(d: Design, tables: map<nat, nat>, x: nat)
    requires GraphOk(d.net, d.nodes, tables) && x < |d.nodes|
    ensures d.nodes[x].kind.Leaf? ==> d.nodes[x].children == []
    ensures forall c :: c in d.nodes[x].children ==> c < |d.nodes|
  {
    assert NodeOk(d.net, d.nodes, x);
    ChildrenInRange(d.net, d.nodes, x);
  }

  /** Dropping the top visit, whose node is done now. */
  lemma {:induction false} PopWaits(d: Design, w: Walk, after: Walk, i: nat)
    requires Turning(d, w) && w.stack != [] && after.stack == w.stack[..|w.stack| - 1]
    requires w.done + {w.stack[|w.stack| - 1].node} <= after.done && i < |after.stack| && after.stack[i].second
    ensures WaitsFor(d, after, i)
  {
    assert w.stack[i] == after.stack[i] && WaitsFor(d, w, i);
    forall c | c in d.nodes[after.stack[i].node].children
      ensures c in after.done || Above(after.stack, i, c)
    {
      if c !in w.done {
        AbovePop(after.stack, w.stack[|w.stack| - 1], i, c);
        assert after.stack + [w.stack[|w.stack| - 1]] == w.stack;
      }
    }
  }

  lemma {:induction false} PopTurns(d: Design, tables: map<nat, nat>, w: Walk)
    requires GraphOk(d.net, d.nodes, tables) && OwnNets(d) && Turning(d, w) && w.stack != []
    requires WalkStep(d, w).stack == w.stack[..|w.stack| - 1]
    ensures Turning(d, WalkStep(d, w))
  {
    hide GraphOk, OwnNets, BuiltKeys;
    var f, after := w.stack[|w.stack| - 1], WalkStep(d, w);
    StepIsAfterChildren(d, tables, w);
    StepKeys(d, w);
    forall i | 0 <= i < |after.stack| && after.stack[i].second
      ensures after.stack[i].node < |d.nodes| && WaitsFor(d, after, i)
    {
      PopWaits(d, w, after, i);
    }
    if 0 !in after.done {
      AbovePop(after.stack, f, -1, 0);
      assert after.stack + [f] == w.stack;
    }
  }

  lemma {:induction false} StepKeys(d: Design, w: Walk)
    requires OwnNets(d) && Turning(d, w) && w.stack != []
    ensures forall i: nat :: Inner(d.nodes, i) && d.Iso(i) in WalkStep(d, w).keys ==> i in WalkStep(d, w).done
  {
    var f := w.stack[|w.stack| - 1];
    forall i: nat | Inner(d.nodes, i) && d.Iso(i) in WalkStep(d, w).keys
      ensures i in WalkStep(d, w).done
    {
      if d.Iso(i) !in w.keys {
        assert WaitsFor(d, w, |w.stack| - 1);
        assert PublishedBy(d, f.node, d.Iso(i));
      }
    }
  }

  lemma {:induction false} ExpandTurns(d: Design, tables: map<nat, nat>, w: Walk)
    requires GraphOk(d.net, d.nodes, tables) && Turning(d, w) && w.stack != []
    requires WalkStep(d, w).stack != w.stack[..|w.stack| - 1]
    ensures Turning(d, WalkStep(d, w))
  {
    hide GraphOk;
    var rest, f, after := w.stack[..|w.stack| - 1], w.stack[|w.stack| - 1], WalkStep(d, w);
    var cs := d.nodes[f.node].children;
    LeafHasNoChildren(d, tables, f.node);
    assert w.stack == rest + [f] && after == Walk(rest + [Visit(f.node, true)] + ChildVisits(cs), w.done, w.keys);
    forall i | 0 <= i < |after.stack|
      ensures after.stack[i].node < |d.nodes| && (after.stack[i].second ==> WaitsFor(d, after, i))
    {
      if i < |rest| {
        assert w.stack[i] == after.stack[i];
        if after.stack[i].second {
          assert WaitsFor(d, w, i);
          forall c | c in d.nodes[after.stack[i].node].children && c !in w.done
            ensures Above(after.stack, i, c)
          {
            AboveGrows(rest, f, ChildVisits(cs), i, c);
          }
        }
      } else if i == |rest| {
        forall c | c in cs
          ensures Above(after.stack, i, c)
        {
          var k :| 0 <= k < |cs| && cs[k] == c;
          assert after.stack[|rest| + 1 + k].node == c;
        }
      } else {
        assert after.stack[i] == Visit(cs[i - |rest| - 1], false);
        assert cs[i - |rest| - 1] in cs;
      }
    }
    if 0 !in w.done {
      AboveGrows(rest, f, ChildVisits(cs), -1, 0);
    }
  }

  lemma {:induction false} AlwaysTurning(d: Design, tables: map<nat, nat>, k: nat)
    requires GraphOk(d.net, d.nodes, tables) && OwnNets(d)
    ensures Turning(d, WalkAfter(d, {}, k))
  {
    hide GraphOk, OwnNets, Turning, WalkStep;
    if k == 0 {
      RootThere(d, tables);
      TurningStarts(d);
    } else {
      AlwaysTurning(d, tables, k - 1);
      var w := WalkAfter(d, {}, k - 1);
      if w.stack == [] {
        StoppedStays(d, w);
      } else if WalkStep(d, w).stack == w.stack[..|w.stack| - 1] {
        PopTurns(d, tables, w);
      } else {
        ExpandTurns(d, tables, w);
      }
    }
  }

  lemma {:induction false} RootThere(d: Design, tables: map<nat, nat>)
    requires GraphOk(d.net, d.nodes, tables)
    ensures |d.nodes| > 0
  {
  }

  lemma {:induction false} StoppedStays(d: Design, w: Walk)
    requires w.stack == []
    ensures WalkStep(d, w) == w
  {
  }

  // ----- the order in which nodes become done -----

  /** The first turn after which a node is done. */
  ghost function FirstDone(d: Design, k: nat, x: nat): nat {
    if k == 0 then (if x in WalkAfter(d, {}, 0).done then 0 else 1)
    else if x in WalkAfter(d, {}, k - 1).done then FirstDone(d, k - 1, x)
    else if x in WalkAfter(d, {}, k).done then k else k + 1
  }

  lemma {:induction false} FirstDoneBound(d: Design, k: nat, x: nat)
    requires x in WalkAfter(d, {}, k).done
    ensures FirstDone(d, k, x) <= k
  {
    hide WalkAfter;
    if k > 0 && x in WalkAfter(d, {}, k - 1).done {
      FirstDoneBound(d, k - 1, x);
    }
  }

  /** Children are done earlier. */
  lemma {:induction false} ChildrenFirst(d: Design, tables: map<nat, nat>, k: nat, x: nat, c: nat)
    requires GraphOk(d.net, d.nodes, tables) && OwnNets(d)
    requires x in WalkAfter(d, {}, k).done && x < |d.nodes| && c in d.nodes[x].children
    ensures FirstDone(d, k, c) < FirstDone(d, k, x)
  {
    hide GraphOk, OwnNets, WalkStep;
    if k > 0 {
      var w := WalkAfter(d, {}, k - 1);
      AlwaysTurning(d, tables, k - 1);
      StepIsAfterChildren(d, tables, w);
      if x in w.done {
        ChildrenFirst(d, tables, k - 1, x, c);
      } else {
        FirstDoneBound(d, k - 1, c);
      }
    }
  }

  /** When the walk is over every inner node is done. */
  lemma {:induction false} AllDone(d: Design, tables: map<nat, nat>, w: Walk, i: nat)
    requires GraphOk(d.net, d.nodes, tables) && Turning(d, w) && w.stack == [] && Inner(d.nodes, i)
    ensures i in w.done
    decreases i
  {
    hide GraphOk;
    if i > 0 {
      var p := FirstParent(d.net, d.nodes, tables, i);
      AllDone(d, tables, w, p);
    }
  }

  /** A walk from an empty cache that ends has walked an acyclic graph. */
  lemma {:induction false} EndedIsAcyclic(d: Design, tables: map<nat, nat>)
    requires GraphOk(d.net, d.nodes, tables) && OwnNets(d) && WalkEnds(d, {})
    ensures Acyclic(d.nodes)
  {
    hide GraphOk, OwnNets, WalkAfter;
    var k: nat :| WalkAfter(d, {}, k).stack == [];
    AlwaysTurning(d, tables, k);
    var rank: nat -> nat := (x: nat) => FirstDone(d, k, x);
    forall p | 0 <= p < |d.nodes|
      ensures RankedAt(d.nodes, rank, p)
    {
      LeafHasNoChildren(d, tables, p);
      forall c | c in d.nodes[p].children
        ensures rank(c) < rank(p)
      {
        AllDone(d, tables, WalkAfter(d, {}, k), p);
        ChildrenFirst(d, tables, k, p, c);
      }
    }
    assert Ranked(d.nodes, rank);
  }

  /** Conversely a graph with a cycle is walked forever. */
  lemma {:induction false} CyclicNeverEnds(d: Design, tables: map<nat, nat>, k: nat)
    requires GraphOk(d.net, d.nodes, tables) && OwnNets(d) && !Acyclic(d.nodes)
    ensures WalkAfter(d, {}, k).stack != []
  {
    hide GraphOk, OwnNets, WalkAfter, Acyclic;
    if WalkAfter(d, {}, k).stack == [] {
      EndedIsAcyclic(d, tables);
    }
  }

  /** So the conversion of the cloud that two reuses closed never ends. */
  lemma {:induction false} CrossedNeverEnds(d: Design, tables: map<nat, nat>, k: nat)
    requires d.net == Crossed() && GraphOk(d.net, d.nodes, tables) && !Acyclic(d.nodes)
    ensures WalkAfter(d, {}, k).stack != []
  {
    CrossedOwnNets(d, tables);
    hide GraphOk, Crossed, Acyclic;
    CyclicNeverEnds(d, tables, k);
  }

  lemma {:induction false} CrossedOwnNets(d: Design, tables: map<nat, nat>)
    requires d.net == Crossed() && GraphOk(d.net, d.nodes, tables)
    ensures OwnNets(d)
  {
    forall i: nat, x: nat | Inner(d.nodes, i) && PublishedBy(d, x, d.Iso(i))
      ensures x == i
    {
      CrossedNodeIs(d, tables, i);
      CrossedNodeIs(d, tables, x);
    }
  }

  lemma {:induction false} CrossedNodeIs(d: Design, tables: map<nat, nat>, i: nat)
    requires d.net == Crossed() && GraphOk(d.net, d.nodes, tables) && Inner(d.nodes, i)
    ensures d.nodes[i].kind.Table? && d.nodes[i].term in tables && tables[d.nodes[i].term] == i
    ensures d.net.Drivers(d.nodes[i].term) == [d.nodes[i].term] && d.Iso(i) == d.nodes[i].term
    ensures !d.net.table(d.nodes[i].term).DivMod?
  {
    assert NodeOk(d.net, d.nodes, i);
  }
}
