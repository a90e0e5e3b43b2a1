/**
 The shared node graph that grows backward from an output. Positions of unexpanded inputs,
 the border leaves, are kept in an ordered list.
 */
module TruthTableTrees {
  import opened TruthTables
  import opened Netlists

  datatype Kind = Table | Port | Leaf

  datatype Node = Node(kind: Kind, term: nat, index: nat, children: seq<nat>, parents: seq<nat>)

  type Nodes = seq<Node>

  datatype BorderLeaf = BorderLeaf(parent: nat, pos: nat, ext: nat)

  /** What to put at a border leaf: the port of a term, or the table of a driver. */
  datatype Merge = MergePort(term: nat) | MergeTable(term: nat)

  predicate Inner(nodes: Nodes, i: nat) { i < |nodes| && !nodes[i].kind.Leaf? }

  predicate LeafPos(nodes: Nodes, p: nat, k: nat) {
    && p < |nodes| && k < |nodes[p].children| && nodes[p].children[k] < |nodes|
    && nodes[nodes[p].children[k]].kind.Leaf?
  }

  // ----- the invariant of the graph -----

  /** A child stands for the net it was put at. */
  ghost predicate ChildOk(n: Netlist, nodes: Nodes, t: nat, c: nat) {
    && c < |nodes|
    && match nodes[c].kind
       case Table => n.Expands(t, nodes[c].term)
       case Port => n.EndsAt(t, nodes[c].term)
       case Leaf => true
  }

  ghost predicate NodeOk(n: Netlist, nodes: Nodes, i: nat)
    requires i < |nodes|
  {
    var x := nodes[i];
    match x.kind
    case Table =>
      && x.term < n.count && n.Drivers(x.term) == [x.term] && n.ArityOk(x.term)
      && !n.isInput(x.term) && !n.isOpaque(x.term)
      && |x.children| == |n.inputs(x.term)|
      && forall k :: 0 <= k < |x.children| ==> ChildOk(n, nodes, n.inputs(x.term)[k], x.children[k])
    case Port => x.term < n.count && n.Stops(x.term) && |x.children| == 1 && LeafPos(nodes, i, 0)
    case Leaf => x.children == []
  }

  ghost predicate Shaped(n: Netlist, nodes: Nodes) {
    forall i :: 0 <= i < |nodes| ==> NodeOk(n, nodes, i)
  }

  /** Table nodes are known by their term. */
  ghost predicate Indexed(nodes: Nodes, tables: map<nat, nat>) {
    && (forall t :: t in tables ==> tables[t] < |nodes| && nodes[tables[t]].kind.Table? && nodes[tables[t]].term == t)
    && (forall i :: 0 <= i < |nodes| && nodes[i].kind.Table? ==> nodes[i].term in tables && tables[nodes[i].term] == i)
  }

  /** A leaf node in use has one owner and one position there. */
  ghost predicate OwnsAt(nodes: Nodes, p: nat)
    requires p < |nodes|
  {
    var cs := nodes[p].children;
    && (forall k :: 0 <= k < |cs| && LeafPos(nodes, p, k) ==> nodes[cs[k]].parents == [p])
    && (forall j, k :: 0 <= j < k < |cs| && LeafPos(nodes, p, j) ==> cs[j] != cs[k])
  }

  ghost predicate Owned(nodes: Nodes) {
    forall p :: 0 <= p < |nodes| ==> OwnsAt(nodes, p)
  }

  /** Parent lists of inner nodes mirror the child lists; the first parent is older than its child. */
  ghost predicate LinkedAt(nodes: Nodes, i: nat)
    requires i < |nodes|
  {
    !nodes[i].kind.Leaf? ==>
      && (forall p :: p in nodes[i].parents ==> p < |nodes| && i in nodes[p].children)
      && (forall p :: 0 <= p < |nodes| && i in nodes[p].children ==> p in nodes[i].parents)
      && (i == 0 ==> nodes[i].parents == [])
      && (i > 0 ==> nodes[i].parents != [] && nodes[i].parents[0] < i)
  }

  ghost predicate Linked(nodes: Nodes) {
    forall i :: 0 <= i < |nodes| ==> LinkedAt(nodes, i)
  }

  ghost predicate GraphOk(n: Netlist, nodes: Nodes, tables: map<nat, nat>) {
    Inner(nodes, 0) && Shaped(n, nodes) && Indexed(nodes, tables) && Owned(nodes) && Linked(nodes)
  }

  // ----- the border -----

  predicate SamePos(a: BorderLeaf, b: BorderLeaf) { a.parent == b.parent && a.pos == b.pos }

  ghost predicate Listed(ls: seq<BorderLeaf>, p: nat, k: nat) {
    exists i :: 0 <= i < |ls| && ls[i].parent == p && ls[i].pos == k
  }

  /** The list names every open position exactly once. */
  ghost predicate BorderOk(nodes: Nodes, ls: seq<BorderLeaf>) {
    && (forall i :: 0 <= i < |ls| ==> LeafPos(nodes, ls[i].parent, ls[i].pos))
    && (forall i, j :: 0 <= i < j < |ls| ==> !SamePos(ls[i], ls[j]))
    && (forall p, k :: LeafPos(nodes, p, k) ==> Listed(ls, p, k))
  }

  /** The net at an open position. */
  ghost function NetAt(n: Netlist, nodes: Nodes, l: BorderLeaf): nat
    requires LeafPos(nodes, l.parent, l.pos) && NodeOk(n, nodes, l.parent)
  {
    if nodes[l.parent].kind.Port? then nodes[l.parent].term else n.inputs(nodes[l.parent].term)[l.pos]
  }

  ghost predicate NamesNet(n: Netlist, nodes: Nodes, l: BorderLeaf, t: nat) {
    LeafPos(nodes, l.parent, l.pos) && NodeOk(n, nodes, l.parent) && NetAt(n, nodes, l) == t
  }

  /** Entry i of the frontier is the net of border leaf i. */
  ghost predicate Aligned(n: Netlist, nodes: Nodes, ls: seq<BorderLeaf>, frontier: seq<nat>) {
    |frontier| == |ls| && forall i :: 0 <= i < |ls| ==> NamesNet(n, nodes, ls[i], frontier[i])
  }

  // ----- replacing a border leaf -----

  /** Node m was put at position k of p; everything else is as before. */
  ghost predicate Attached(nodes: Nodes, after: Nodes, p: nat, k: nat, m: nat) {
    && LeafPos(nodes, p, k) && |nodes| <= |after|
    && Inner(after, m) && (m >= |nodes| ==> m == |nodes|)
    && (forall i :: 0 <= i < |nodes| ==> KeptAt(nodes, after, p, k, m, i))
    && (forall i :: |nodes| <= i < |after| && i != m ==> after[i].kind.Leaf? && after[i].children == [])
    && (m >= |nodes| ==> after[m].parents == [p] && NewChildren(nodes, after, p, k, m))
  }

  ghost predicate KeptAt(nodes: Nodes, after: Nodes, p: nat, k: nat, m: nat, i: nat)
    requires LeafPos(nodes, p, k) && i < |nodes| <= |after|
  {
    var x, y := nodes[i], after[i];
    && y.kind == x.kind && y.term == x.term
    && y.children == (if i == p then x.children[k := m] else x.children)
    && (!x.kind.Leaf? ==> y.parents == if i == m then x.parents + [p] else x.parents)
    && (x.kind.Leaf? && i != nodes[p].children[k] ==> y.parents == x.parents && y.index == x.index)
  }

  /** The children of a new node: the replaced leaf first, then new leaves. */
  ghost predicate NewChildren(nodes: Nodes, after: Nodes, p: nat, k: nat, m: nat)
    requires LeafPos(nodes, p, k) && m < |after|
  {
    var cs := after[m].children;
    && (forall j :: 0 <= j < |cs| ==> LeafPos(after, m, j) && after[cs[j]].parents == [m])
    && (forall j :: 0 <= j < |cs| ==> cs[j] == if j == 0 then nodes[p].children[k] else m + j)
  }

  lemma {:induction false} LeafPosAfter(nodes: Nodes, after: Nodes, p: nat, k: nat, m: nat, q: nat, j: nat)
    requires Attached(nodes, after, p, k, m) && q < |nodes|
    requires forall i :: i in nodes[q].children ==> i < |nodes|
    ensures LeafPos(after, q, j) <==> LeafPos(nodes, q, j) && !(q == p && j == k)
  {
    assert KeptAt(nodes, after, p, k, m, q);
    if q < |nodes| && j < |nodes[q].children| {
      var c := nodes[q].children[j];
      assert c in nodes[q].children;
      assert KeptAt(nodes, after, p, k, m, c);
    }
  }

  lemma {:induction false} ChildrenInRange(n: Netlist, nodes: Nodes, i: nat)
    requires i < |nodes| && NodeOk(n, nodes, i)
    ensures forall c :: c in nodes[i].children ==> c < |nodes|
  {
  }

  lemma {:induction false} ShapedAfter(n: Netlist, nodes: Nodes, after: Nodes, p: nat, k: nat, m: nat)
    requires Shaped(n, nodes) && Attached(nodes, after, p, k, m) && nodes[p].kind.Table?
    requires NodeOk(n, nodes, p) && ChildOk(n, after, n.inputs(nodes[p].term)[k], m)
    requires m >= |nodes| ==> NodeOk(n, after, m)
    ensures Shaped(n, after)
  {
    forall i | 0 <= i < |after|
      ensures NodeOk(n, after, i)
    {
      if i < |nodes| {
        assert KeptAt(nodes, after, p, k, m, i) && NodeOk(n, nodes, i);
        forall j | 0 <= j < |nodes[i].children| && !(i == p && j == k)
          ensures KeptAt(nodes, after, p, k, m, nodes[i].children[j])
        {
          ChildrenInRange(n, nodes, i);
        }
      }
    }
  }

  lemma {:induction false} OwnedAfter(n: Netlist, nodes: Nodes, after: Nodes, p: nat, k: nat, m: nat)
    requires Shaped(n, nodes) && Owned(nodes) && Attached(nodes, after, p, k, m)
    ensures Owned(after)
  {
    hide NodeOk;
    forall q | 0 <= q < |after|
      ensures OwnsAt(after, q)
    {
      if q < |nodes| {
        OwnedKept(n, nodes, after, p, k, m, q);
      } else if q == m {
        var cs := after[m].children;
        forall i, j | 0 <= i < j < |cs|
          ensures cs[i] != cs[j]
        {
        }
      }
    }
  }

  lemma {:induction false} OwnedKept(n: Netlist, nodes: Nodes, after: Nodes, p: nat, k: nat, m: nat, q: nat)
    requires Shaped(n, nodes) && Owned(nodes) && Attached(nodes, after, p, k, m) && q < |nodes|
    ensures OwnsAt(after, q)
  {
    assert NodeOk(n, nodes, q);
    ChildrenInRange(n, nodes, q);
    hide NodeOk, NewChildren;
    var was, cs := nodes[q].children, after[q].children;
    assert KeptAt(nodes, after, p, k, m, q) && OwnsAt(nodes, q) && OwnsAt(nodes, p);
    forall j | 0 <= j < |cs| && LeafPos(after, q, j)
      ensures was[j] == cs[j] && LeafPos(nodes, q, j) && after[cs[j]].parents == [q]
    {
      LeafPosAfter(nodes, after, p, k, m, q, j);
      assert KeptAt(nodes, after, p, k, m, was[j]);
    }
    forall i, j | 0 <= i < j < |cs| && LeafPos(after, q, i)
      ensures cs[i] != cs[j]
    {
      LeafPosAfter(nodes, after, p, k, m, q, i);
      assert !after[cs[i]].kind.Leaf? == false;
    }
  }

  lemma {:induction false} LinkedAfter(n: Netlist, nodes: Nodes, after: Nodes, p: nat, k: nat, m: nat)
    requires Shaped(n, nodes) && Linked(nodes) && Attached(nodes, after, p, k, m)
    requires m > 0
    ensures Linked(after)
  {
    hide NodeOk;
    forall i | 0 <= i < |after|
      ensures LinkedAt(after, i)
    {
      if !after[i].kind.Leaf? {
        if i < |nodes| {
          assert KeptAt(nodes, after, p, k, m, i);
          LinkedKept(nodes, after, p, k, m, i);
        } else {
          NewIsLinked(n, nodes, after, p, k, m);
        }
      }
    }
  }

  lemma {:induction false} NewIsLinked(n: Netlist, nodes: Nodes, after: Nodes, p: nat, k: nat, m: nat)
    requires Shaped(n, nodes) && Attached(nodes, after, p, k, m) && m >= |nodes|
    ensures LinkedAt(after, m)
  {
    forall q | 0 <= q < |after| && m in after[q].children
      ensures q == p
    {
      if q < |nodes| {
        assert KeptAt(nodes, after, p, k, m, q) && NodeOk(n, nodes, q);
        ChildrenInRange(n, nodes, q);
      }
    }
    assert KeptAt(nodes, after, p, k, m, p);
    assert after[p].children[k] == m;
  }

  lemma {:induction false} LinkedKept(nodes: Nodes, after: Nodes, p: nat, k: nat, m: nat, i: nat)
    requires Linked(nodes) && Attached(nodes, after, p, k, m) && Inner(nodes, i) && m > 0
    ensures LinkedAt(after, i)
  {
    assert KeptAt(nodes, after, p, k, m, i) && LinkedAt(nodes, i);
    forall q | 0 <= q < |after|
      ensures q < |nodes| ==> (i in after[q].children <==> i in nodes[q].children || (q == p && i == m))
      ensures q >= |nodes| ==> i !in after[q].children
    {
      if q < |nodes| {
        assert KeptAt(nodes, after, p, k, m, q);
        ReplacedMembers(nodes[p].children, k, m, i);
        assert !nodes[nodes[p].children[k]].kind.Leaf? == false;
      } else if q == m {
        forall j | 0 <= j < |after[m].children|
          ensures after[m].children[j] != i
        {
          assert LeafPos(after, m, j);
        }
      }
    }
    assert after[i].parents == if i == m then nodes[i].parents + [p] else nodes[i].parents;
  }

  lemma {:induction false} ReplacedMembers(cs: seq<nat>, k: nat, m: nat, i: nat)
    requires k < |cs| && cs[k] != i
    ensures i in cs[k := m] <==> i in cs || i == m
  {
    if i in cs {
      var j :| 0 <= j < |cs| && cs[j] == i;
      assert cs[k := m][j] == i;
    }
    assert cs[k := m][k] == m;
  }

  lemma {:induction false} IndexedAfter(nodes: Nodes, after: Nodes, p: nat, k: nat, m: nat, tables: map<nat, nat>)
    requires Indexed(nodes, tables) && Attached(nodes, after, p, k, m)
    ensures m < |nodes| || after[m].kind.Port? ==> Indexed(after, tables)
    ensures m >= |nodes| && after[m].kind.Table? && after[m].term !in tables ==>
      Indexed(after, tables[after[m].term := m])
  {
    forall i | 0 <= i < |nodes|
      ensures after[i].kind == nodes[i].kind && after[i].term == nodes[i].term
    {
      assert KeptAt(nodes, after, p, k, m, i);
    }
  }

  /** The open positions of node m, in order. */
  function LeavesOf(nodes: Nodes, m: nat): (ls: seq<BorderLeaf>)
    requires m < |nodes| && forall j :: 0 <= j < |nodes[m].children| ==> nodes[m].children[j] < |nodes|
    ensures |ls| == |nodes[m].children|
    ensures forall j :: 0 <= j < |ls| ==> ls[j].parent == m && ls[j].pos == j
  {
    seq(|nodes[m].children|, j requires 0 <= j < |nodes[m].children| =>
        BorderLeaf(m, j, nodes[nodes[m].children[j]].index))
  }

  ghost predicate Replacement(nodes: Nodes, after: Nodes, m: nat, mid: seq<BorderLeaf>) {
    if m < |nodes| then mid == []
    else m < |after| && |mid| == |after[m].children| && forall j :: 0 <= j < |mid| ==>
        mid[j].parent == m && mid[j].pos == j
  }

  /** Replacing one entry of the border by the positions of the new node keeps the border exact. */
  lemma {:induction false} BorderAfter(n: Netlist, nodes: Nodes, after: Nodes, m: nat, left: seq<BorderLeaf>,
      l: BorderLeaf, mid: seq<BorderLeaf>, right: seq<BorderLeaf>)
    requires Shaped(n, nodes) && Attached(nodes, after, l.parent, l.pos, m)
    requires BorderOk(nodes, left + [l] + right) && Replacement(nodes, after, m, mid)
    ensures BorderOk(after, left + mid + right)
  {
    var old_, new_ := left + [l] + right, left + mid + right;
    BorderSound(n, nodes, after, m, left, l, mid, right);
    BorderDistinct(nodes, after, m, left, l, mid, right);
    forall p, k | LeafPos(after, p, k)
      ensures Listed(new_, p, k)
    {
      BorderComplete(n, nodes, after, m, left, l, mid, right, p, k);
    }
  }

  lemma {:induction false} OldEntry(left: seq<BorderLeaf>, l: BorderLeaf, right: seq<BorderLeaf>, mid: seq<BorderLeaf>,
      i: nat)
    requires i < |left + mid + right| && !(|left| <= i < |left| + |mid|)
    ensures var i' := if i < |left| then i else i - |mid| + 1;
      0 <= i' < |left + [l] + right| && (left + mid + right)[i] == (left + [l] + right)[i'] && i' != |left|
  {
  }

  lemma {:induction false} BorderSound(n: Netlist, nodes: Nodes, after: Nodes, m: nat, left: seq<BorderLeaf>,
      l: BorderLeaf, mid: seq<BorderLeaf>, right: seq<BorderLeaf>)
    requires Shaped(n, nodes) && Attached(nodes, after, l.parent, l.pos, m)
    requires BorderOk(nodes, left + [l] + right) && Replacement(nodes, after, m, mid)
    ensures forall i :: 0 <= i < |left + mid + right| ==>
      LeafPos(after, (left + mid + right)[i].parent, (left + mid + right)[i].pos)
  {
    hide NodeOk;
    var old_, new_ := left + [l] + right, left + mid + right;
    forall i | 0 <= i < |new_|
      ensures LeafPos(after, new_[i].parent, new_[i].pos)
    {
      if |left| <= i < |left| + |mid| {
        assert new_[i] == mid[i - |left|];
      } else {
        OldEntry(left, l, right, mid, i);
        var i' := if i < |left| then i else i - |mid| + 1;
        assert LeafPos(nodes, old_[i'].parent, old_[i'].pos) && old_[|left|] == l;
        assert !SamePos(old_[i'], l);
        assert NodeOk(n, nodes, new_[i].parent);
        ChildrenInRange(n, nodes, new_[i].parent);
        LeafPosAfter(nodes, after, l.parent, l.pos, m, new_[i].parent, new_[i].pos);
      }
    }
  }

  lemma {:induction false} BorderDistinct(nodes: Nodes, after: Nodes, m: nat, left: seq<BorderLeaf>, l: BorderLeaf,
      mid: seq<BorderLeaf>, right: seq<BorderLeaf>)
    requires Attached(nodes, after, l.parent, l.pos, m)
    requires BorderOk(nodes, left + [l] + right) && Replacement(nodes, after, m, mid)
    ensures forall i, j :: 0 <= i < j < |left + mid + right| ==>
      !SamePos((left + mid + right)[i], (left + mid + right)[j])
  {
    hide Attached;
    var old_, new_ := left + [l] + right, left + mid + right;
    forall i, j | 0 <= i < j < |new_|
      ensures !SamePos(new_[i], new_[j])
    {
      var iNew, jNew := |left| <= i < |left| + |mid|, |left| <= j < |left| + |mid|;
      if !iNew {
        OldEntry(left, l, right, mid, i);
      }
      if !jNew {
        OldEntry(left, l, right, mid, j);
      }
      var i', j' := if i < |left| then i else i - |mid| + 1, if j < |left| then j else j - |mid| + 1;
      if iNew {
        assert new_[i].parent == m >= |nodes| && new_[i].pos == i - |left|;
      } else {
        assert LeafPos(nodes, old_[i'].parent, old_[i'].pos);
      }
      if jNew {
        assert new_[j].parent == m >= |nodes| && new_[j].pos == j - |left|;
      } else {
        assert LeafPos(nodes, old_[j'].parent, old_[j'].pos);
      }
    }
  }

  lemma {:induction false} BorderComplete(n: Netlist, nodes: Nodes, after: Nodes, m: nat, left: seq<BorderLeaf>,
      l: BorderLeaf, mid: seq<BorderLeaf>, right: seq<BorderLeaf>, p: nat, k: nat)
    requires Shaped(n, nodes) && Attached(nodes, after, l.parent, l.pos, m)
    requires BorderOk(nodes, left + [l] + right) && Replacement(nodes, after, m, mid)
    requires LeafPos(after, p, k)
    ensures Listed(left + mid + right, p, k)
  {
    hide NodeOk;
    var old_, new_ := left + [l] + right, left + mid + right;
    if p < |nodes| {
      assert NodeOk(n, nodes, p);
      ChildrenInRange(n, nodes, p);
      LeafPosAfter(nodes, after, l.parent, l.pos, m, p, k);
      var i :| 0 <= i < |old_| && old_[i].parent == p && old_[i].pos == k;
      assert i != |left|;
      var i' := if i < |left| then i else i + |mid| - 1;
      assert new_[i'] == old_[i];
    } else {
      assert p == m;
      assert new_[|left| + k] == mid[k];
    }
  }

  /** Old positions keep their nets. */
  lemma {:induction false} NetKept(n: Netlist, nodes: Nodes, after: Nodes, p: nat, k: nat, m: nat, l: BorderLeaf,
      t: nat)
    requires Shaped(n, nodes) && Shaped(n, after) && Attached(nodes, after, p, k, m)
    requires NamesNet(n, nodes, l, t) && LeafPos(after, l.parent, l.pos)
    ensures NamesNet(n, after, l, t)
  {
    assert KeptAt(nodes, after, p, k, m, l.parent);
    assert NodeOk(n, after, l.parent);
    hide NodeOk;
  }

  // ----- one merge, by cases -----

  /** The merge names the driver or the port that the net asks for. */
  ghost predicate MergeOk(n: Netlist, t: nat, merge: Merge) {
    match merge
    case MergePort(x) => x < n.count && n.EndsAt(t, x)
    case MergeTable(d) => d < n.count && n.iso(d) == n.iso(t) && n.Expands(t, d)
  }

  predicate IsNew(tables: map<nat, nat>, merge: Merge) {
    merge.MergePort? || merge.term !in tables
  }

  /** The nets that a merge opens. */
  function Opened(n: Netlist, tables: map<nat, nat>, merge: Merge): seq<nat> {
    match merge
    case MergePort(x) => [x]
    case MergeTable(d) => if d in tables then [] else n.inputs(d)
  }

  ghost predicate Merged(n: Netlist, nodes: Nodes, tables: map<nat, nat>, after: Nodes, tables': map<nat, nat>, p: nat,
      k: nat, m: nat, merge: Merge) {
    && Attached(nodes, after, p, k, m)
    && (m >= |nodes| <==> IsNew(tables, merge))
    && after[m].term == merge.term && (after[m].kind.Port? <==> merge.MergePort?)
    && |after[m].children| == (if merge.MergePort? then 1 else |n.inputs(merge.term)|)
    && m > 0
    && tables' == if merge.MergeTable? && merge.term !in tables then tables[merge.term := m] else tables
  }

  lemma {:induction false} MergedNodeOk(n: Netlist, nodes: Nodes, tables: map<nat, nat>, after: Nodes,
      tables': map<nat, nat>, p: nat, k: nat, m: nat, merge: Merge, t: nat)
    requires Merged(n, nodes, tables, after, tables', p, k, m, merge) && MergeOk(n, t, merge)
    ensures ChildOk(n, after, t, m)
    ensures m >= |nodes| ==> NodeOk(n, after, m)
  {
    if m >= |nodes| {
      assert NewChildren(nodes, after, p, k, m);
      forall j | 0 <= j < |after[m].children|
        ensures LeafPos(after, m, j)
      {
      }
    }
  }

  /** A merge keeps the graph well formed. */
  lemma {:induction false} MergeKeepsGraph(n: Netlist, nodes: Nodes, tables: map<nat, nat>, after: Nodes,
      tables': map<nat, nat>, p: nat, k: nat, m: nat, merge: Merge)
    requires GraphOk(n, nodes, tables) && Merged(n, nodes, tables, after, tables', p, k, m, merge)
    requires nodes[p].kind.Table? && NodeOk(n, nodes, p) && MergeOk(n, n.inputs(nodes[p].term)[k], merge)
    ensures GraphOk(n, after, tables')
  {
    MergedNodeOk(n, nodes, tables, after, tables', p, k, m, merge, n.inputs(nodes[p].term)[k]);
    assert KeptAt(nodes, after, p, k, m, 0);
    hide NodeOk, OwnsAt, LinkedAt, ChildOk, Attached, NewChildren, MergeOk;
    ShapedAfter(n, nodes, after, p, k, m);
    OwnedAfter(n, nodes, after, p, k, m);
    LinkedAfter(n, nodes, after, p, k, m);
    IndexedAfter(nodes, after, p, k, m, tables);
  }

  /** The new positions name the nets that the merge opens. */
  lemma {:induction false} NewNets(n: Netlist, nodes: Nodes, tables: map<nat, nat>, after: Nodes,
      tables': map<nat, nat>, p: nat, k: nat, m: nat, merge: Merge, mid: seq<BorderLeaf>)
    requires Shaped(n, after) && Merged(n, nodes, tables, after, tables', p, k, m, merge)
    requires Replacement(nodes, after, m, mid)
    ensures Aligned(n, after, mid, Opened(n, tables, merge))
  {
    if m >= |nodes| {
      assert NodeOk(n, after, m) && NewChildren(nodes, after, p, k, m);
      hide NodeOk;
      assert |mid| == |Opened(n, tables, merge)|;
      forall j | 0 <= j < |mid|
        ensures NamesNet(n, after, mid[j], Opened(n, tables, merge)[j])
      {
        assert LeafPos(after, m, j);
      }
    }
  }

  /** A merge replaces the net of its leaf by the nets it opens, position by position. */
  lemma {:induction false} MergeKeepsAlignment(n: Netlist, nodes: Nodes, tables: map<nat, nat>, after: Nodes,
      tables': map<nat, nat>, m: nat, merge: Merge,
                                               left: seq<BorderLeaf>, l: BorderLeaf, mid: seq<BorderLeaf>,
                                               right: seq<BorderLeaf>, fl: seq<nat>, t: nat, fr: seq<nat>)
    requires Shaped(n, nodes) && Shaped(n, after) && Merged(n, nodes, tables, after, tables', l.parent, l.pos, m, merge)
    requires BorderOk(nodes, left + [l] + right) && Replacement(nodes, after, m, mid)
    requires BorderOk(after, left + mid + right)
    requires |fl| == |left| && Aligned(n, nodes, left + [l] + right, fl + [t] + fr)
    ensures Aligned(n, after, left + mid + right, fl + Opened(n, tables, merge) + fr)
  {
    var o := Opened(n, tables, merge);
    hide NodeOk, Merged, Attached, NetAt, Opened, Replacement, Shaped, BorderOk, NamesNet;
    NewNets(n, nodes, tables, after, tables', l.parent, l.pos, m, merge, mid);
    var ls, fs := left + mid + right, fl + o + fr;
    assert |mid| == |o| && |right| == |fr|;
    forall i | 0 <= i < |ls|
      ensures NamesNet(n, after, ls[i], fs[i])
    {
      if |left| <= i < |left| + |mid| {
        assert ls[i] == mid[i - |left|] && fs[i] == o[i - |left|];
      } else {
        OldNet(n, nodes, tables, after, tables', m, merge, left, l, mid, right, fl, t, o, fr, i);
      }
    }
  }

  lemma {:induction false} OldNet(n: Netlist, nodes: Nodes, tables: map<nat, nat>, after: Nodes,
      tables': map<nat, nat>, m: nat, merge: Merge,
                                  left: seq<BorderLeaf>, l: BorderLeaf, mid: seq<BorderLeaf>, right: seq<BorderLeaf>,
                                  fl: seq<nat>, t: nat, o: seq<nat>, fr: seq<nat>, i: nat)
    requires Shaped(n, nodes) && Shaped(n, after) && Merged(n, nodes, tables, after, tables', l.parent, l.pos, m, merge)
    requires BorderOk(after, left + mid + right) && |fl| == |left| && |o| == |mid| && |fr| == |right|
    requires Aligned(n, nodes, left + [l] + right, fl + [t] + fr)
    requires i < |left + mid + right| && !(|left| <= i < |left| + |mid|)
    ensures NamesNet(n, after, (left + mid + right)[i], (fl + o + fr)[i])
  {
    MergedIsAttached(n, nodes, tables, after, tables', l.parent, l.pos, m, merge);
    hide NodeOk, Merged, Attached, NetAt, Shaped;
    var ls, fs := left + mid + right, fl + o + fr;
    var ls0, fs0 := left + [l] + right, fl + [t] + fr;
    OldEntry(left, l, right, mid, i);
    var i' := if i < |left| then i else i - |mid| + 1;
    assert fs[i] == fs0[i'];
    assert NamesNet(n, nodes, ls0[i'], fs0[i']) && LeafPos(after, ls[i].parent, ls[i].pos);
    NetKept(n, nodes, after, l.parent, l.pos, m, ls[i], fs[i]);
  }

  lemma {:induction false} MergedIsAttached(n: Netlist, nodes: Nodes, tables: map<nat, nat>, after: Nodes,
      tables': map<nat, nat>, p: nat, k: nat, m: nat, merge: Merge)
    requires Merged(n, nodes, tables, after, tables', p, k, m, merge)
    ensures Attached(nodes, after, p, k, m)
  {
  }

  // ----- a batch of merges -----

  /** The table terms known after the first i merges. */
  function Known(tables: set<nat>, merges: seq<Merge>): set<nat> {
    if merges == [] then tables
    else
      var rest, last := merges[..|merges| - 1], merges[|merges| - 1];
      Known(tables, rest) + if last.MergeTable? then {last.term} else {}
  }

  /** The next frontier, computed from the terms alone. */
  function NextFrontier(n: Netlist, tables: set<nat>, merges: seq<Merge>): seq<nat> {
    if merges == [] then []
    else
      var rest, last := merges[..|merges| - 1], merges[|merges| - 1];
      NextFrontier(n, tables, rest) +
      (match last
       case MergePort(x) => [x]
       case MergeTable(d) => if d in Known(tables, rest) then [] else n.inputs(d))
  }

  /** What the cloud passes to a batch: one merge per leaf, ports stay ports, the root is not reused. */
  ghost predicate BatchOk(n: Netlist, nodes: Nodes, ls: seq<BorderLeaf>, frontier: seq<nat>, merges: seq<Merge>) {
    && |merges| == |ls| == |frontier| && |nodes| > 0
    && (forall i :: 0 <= i < |ls| ==> MergeOk(n, frontier[i], merges[i]))
    && (forall i :: 0 <= i < |ls| && ls[i].parent < |nodes| && nodes[ls[i].parent].kind.Port? ==>
         merges[i] == MergePort(frontier[i]))
    && (forall i :: 0 <= i < |ls| ==> merges[i] != MergeTable(nodes[0].term))
  }

  lemma {:induction false} BatchStep(n: Netlist, tables: set<nat>, known: map<nat, nat>, merges: seq<Merge>, i: nat)
    requires i < |merges| && known.Keys == Known(tables, merges[..i])
    ensures NextFrontier(n, tables, merges[..i + 1]) ==
      NextFrontier(n, tables, merges[..i]) + Opened(n, known, merges[i])
    ensures Known(tables, merges[..i + 1]) ==
      Known(tables, merges[..i]) + if merges[i].MergeTable? then {merges[i].term} else {}
  {
    assert merges[..i + 1][..i] == merges[..i];
    assert merges[..i + 1] != [];
  }

  ghost predicate Grew(nodes: Nodes, after: Nodes) {
    && |nodes| <= |after|
    && forall i :: 0 <= i < |nodes| ==> after[i].kind == nodes[i].kind && after[i].term == nodes[i].term
  }

  lemma {:induction false} MergedGrew(n: Netlist, nodes: Nodes, tables: map<nat, nat>, after: Nodes,
      tables': map<nat, nat>, p: nat, k: nat, m: nat, merge: Merge)
    requires Merged(n, nodes, tables, after, tables', p, k, m, merge)
    ensures Grew(nodes, after)
  {
    forall i | 0 <= i < |nodes|
      ensures after[i].kind == nodes[i].kind && after[i].term == nodes[i].term
    {
      assert KeptAt(nodes, after, p, k, m, i);
    }
  }

  // ----- the numbers of the external inputs -----

  /** What the graph stores about an open position: whether a port holds it, and its input number. */
  datatype Mark = Mark(port: bool, number: nat)

  ghost predicate HasMark(nodes: Nodes, l: BorderLeaf, mark: Mark) {
    && LeafPos(nodes, l.parent, l.pos) && l.ext == mark.number
    && mark == Mark(nodes[l.parent].kind.Port?, nodes[nodes[l.parent].children[l.pos]].index)
  }

  ghost predicate Marked(nodes: Nodes, ls: seq<BorderLeaf>, marks: seq<Mark>) {
    |marks| == |ls| && forall i :: 0 <= i < |ls| ==> HasMark(nodes, ls[i], marks[i])
  }

  /** New leaves take the next numbers in order. */
  function Numbering(port: bool, first: nat, count: nat): (r: seq<Mark>)
    ensures |r| == count && forall j :: 0 <= j < count ==> r[j] == Mark(port, first + j)
  {
    seq(count, j requires 0 <= j < count => Mark(port, first + j))
  }

  /** What a merge leaves at a position that was not yet at a port, when `first` numbers are taken. */
  function MergeMarks(n: Netlist, known: set<nat>, merge: Merge, first: nat): seq<Mark> {
    match merge
    case MergePort(_) => Numbering(true, first, 1)
    case MergeTable(d) => if d in known then [] else Numbering(false, first, |n.inputs(d)|)
  }

  /** The marks after a batch: a position at a port keeps its number, all others are numbered from 0. */
  function MarksAfter(n: Netlist, tables: set<nat>, marks: seq<Mark>, merges: seq<Merge>): seq<Mark>
    requires |merges| <= |marks|
  {
    if merges == [] then []
    else
      var i := |merges| - 1;
      MarksAfter(n, tables, marks, merges[..i]) + EntryMarks(n, tables, marks, merges, i)
  }

  function EntryMarks(n: Netlist, tables: set<nat>, marks: seq<Mark>, merges: seq<Merge>, i: nat): seq<Mark>
    requires i < |merges| <= |marks|
    decreases i, 1
  {
    if marks[i].port then [marks[i]]
    else MergeMarks(n, Known(tables, merges[..i]), merges[i], Taken(n, tables, marks, merges, i))
  }

  /** How many numbers the first i entries took. */
  function Taken(n: Netlist, tables: set<nat>, marks: seq<Mark>, merges: seq<Merge>, i: nat): nat
    requires i <= |merges| <= |marks|
    decreases i, 0
  {
    if i == 0 then 0
    else Taken(n, tables, marks, merges, i - 1) + if marks[i - 1].port then 0
        else |EntryMarks(n, tables, marks, merges, i - 1)|
  }

  /** A leaf that is not replaced keeps its mark: no two positions share a leaf. */
  lemma {:induction false} MarkKept(nodes: Nodes, after: Nodes, p: nat, k: nat, m: nat, l: BorderLeaf, mark: Mark)
    requires Owned(nodes) && Attached(nodes, after, p, k, m) && HasMark(nodes, l, mark)
    requires !(l.parent == p && l.pos == k) && LeafPos(after, l.parent, l.pos)
    ensures HasMark(after, l, mark)
  {
    assert OwnsAt(nodes, p) && OwnsAt(nodes, l.parent);
    assert KeptAt(nodes, after, p, k, m, l.parent);
    var c := nodes[l.parent].children[l.pos];
    assert KeptAt(nodes, after, p, k, m, c);
    assert c != nodes[p].children[k] by {
      assert nodes[c].parents == [l.parent] && nodes[nodes[p].children[k]].parents == [p];
    }
  }

  /** A new node's leaves carry the numbers from `first` on. */
  ghost predicate NumberedFrom(nodes: Nodes, after: Nodes, m: nat, first: nat) {
    m >= |nodes| ==>
      m < |after| && forall j :: 0 <= j < |after[m].children| ==>
        after[m].children[j] < |after| && after[after[m].children[j]].index == first + j
  }

  lemma {:induction false} NewMarked(n: Netlist, nodes: Nodes, tables: map<nat, nat>, after: Nodes,
                                     tables': map<nat, nat>, p: nat, k: nat, m: nat, merge: Merge, first: nat)
    requires Shaped(n, after) && Merged(n, nodes, tables, after, tables', p, k, m, merge)
    requires NumberedFrom(nodes, after, m, first)
    requires forall j :: 0 <= j < |after[m].children| ==> after[m].children[j] < |after|
    ensures var mid := if m < |nodes| then [] else LeavesOf(after, m);
      Marked(after, mid, MergeMarks(n, tables.Keys, merge, first))
  {
    if m >= |nodes| {
      var mid, marks := LeavesOf(after, m), MergeMarks(n, tables.Keys, merge, first);
      assert NewChildren(nodes, after, p, k, m);
      assert |marks| == |mid|;
      forall j | 0 <= j < |mid|
        ensures HasMark(after, mid[j], marks[j])
      {
        assert LeafPos(after, m, j);
      }
    }
  }

  /** A merge replaces the mark of its leaf by the marks of the positions it opens. */
  lemma {:induction false} MergeKeepsMarks(n: Netlist, nodes: Nodes, after: Nodes, m: nat,
                                           left: seq<BorderLeaf>, l: BorderLeaf, mid: seq<BorderLeaf>,
                                           right: seq<BorderLeaf>, ml: seq<Mark>, mark: Mark, mm: seq<Mark>,
                                           mr: seq<Mark>)
    requires Owned(nodes) && Attached(nodes, after, l.parent, l.pos, m) && |ml| == |left|
    requires BorderOk(nodes, left + [l] + right) && BorderOk(after, left + mid + right)
    requires Marked(nodes, left + [l] + right, ml + [mark] + mr) && Marked(after, mid, mm)
    ensures Marked(after, left + mid + right, ml + mm + mr)
  {
    hide Attached, Owned, HasMark, LeafPos;
    var ls, ms := left + mid + right, ml + mm + mr;
    var ls0, ms0 := left + [l] + right, ml + [mark] + mr;
    assert |right| == |mr|;
    forall i | 0 <= i < |ls|
      ensures HasMark(after, ls[i], ms[i])
    {
      if |left| <= i < |left| + |mid| {
        assert ls[i] == mid[i - |left|] && ms[i] == mm[i - |left|];
      } else {
        OldEntry(left, l, right, mid, i);
        var i' := if i < |left| then i else i - |mid| + 1;
        assert ms[i] == ms0[i'] && ls0[|left|] == l && HasMark(nodes, ls0[i'], ms0[i']);
        assert !SamePos(ls0[i'], ls0[|left|]);
        MarkKept(nodes, after, l.parent, l.pos, m, ls[i], ms[i]);
      }
    }
  }

  function Without(xs: seq<nat>, x: nat): seq<nat> {
    if xs == [] then [] else (if xs[0] == x then [] else [xs[0]]) + Without(xs[1..], x)
  }

  ghost predicate PortsOnly(nodes: Nodes, ls: seq<BorderLeaf>) {
    forall i :: 0 <= i < |ls| ==> ls[i].parent < |nodes| && nodes[ls[i].parent].kind.Port?
  }

  lemma {:induction false} EntrySplits<T>(left: seq<T>, xs: seq<T>, i: nat)
    requires i < |xs|
    ensures left + xs[i..] == left + [xs[i]] + xs[i + 1..]
  {
  }

  lemma {:induction false} BatchLength(n: Netlist, nodes: Nodes, ls: seq<BorderLeaf>, frontier: seq<nat>,
      merges: seq<Merge>)
    requires BatchOk(n, nodes, ls, frontier, merges)
    ensures |merges| == |ls| == |frontier| && Grew(nodes, nodes)
  {
  }

  lemma {:induction false} BatchEntry(n: Netlist, was: Nodes, now: Nodes, ls: seq<BorderLeaf>, frontier: seq<nat>,
      merges: seq<Merge>, i: nat)
    requires BatchOk(n, was, ls, frontier, merges) && Aligned(n, was, ls, frontier) && Grew(was, now) && i < |ls|
    ensures MergeOk(n, frontier[i], merges[i]) && |now| > 0 && merges[i] != MergeTable(now[0].term)
    ensures ls[i].parent < |now| && now[ls[i].parent].kind.Port? ==> merges[i] == MergePort(frontier[i])
  {
    hide MergeOk;
    LeafWasInRange(n, was, ls, frontier, i);
  }

  lemma {:induction false} NoPorts(nodes: Nodes)
    ensures PortsOnly(nodes, [])
  {
  }

  lemma {:induction false} PortsOnlyGrow(nodes: Nodes, left: seq<BorderLeaf>, after: Nodes, ls: seq<BorderLeaf>)
    requires Grew(nodes, after) && left <= ls
    ensures (PortsOnly(nodes, left)
             && forall i :: |left| <= i < |ls| ==> ls[i].parent < |after| && after[ls[i].parent].kind.Port?) ==>
      PortsOnly(after, ls)
  {
    assert forall i :: 0 <= i < |left| ==> ls[i] == left[i];
  }

  lemma {:induction false} LeafIsAtTable(n: Netlist, nodes: Nodes, tables: map<nat, nat>, left: seq<BorderLeaf>,
      leaf: BorderLeaf, right: seq<BorderLeaf>, fl: seq<nat>, t: nat, fr: seq<nat>)
    requires GraphOk(n, nodes, tables) && BorderOk(nodes, left + [leaf] + right) && |fl| == |left|
    requires Aligned(n, nodes, left + [leaf] + right, fl + [t] + fr)
    requires leaf.parent < |nodes| ==> !nodes[leaf.parent].kind.Port?
    ensures LeafPos(nodes, leaf.parent, leaf.pos) && nodes[leaf.parent].kind.Table? && NodeOk(n, nodes, leaf.parent)
    ensures n.inputs(nodes[leaf.parent].term)[leaf.pos] == t
  {
    var ls, fs := left + [leaf] + right, fl + [t] + fr;
    assert ls[|left|] == leaf && fs[|left|] == t;
    assert NamesNet(n, nodes, ls[|left|], fs[|left|]);
  }

  lemma {:induction false} LeafInRange(nodes: Nodes, left: seq<BorderLeaf>, leaf: BorderLeaf, right: seq<BorderLeaf>)
    requires BorderOk(nodes, left + [leaf] + right)
    ensures leaf.parent < |nodes|
  {
    assert (left + [leaf] + right)[|left|] == leaf;
  }

  lemma {:induction false} LeafWasInRange(n: Netlist, nodes: Nodes, ls: seq<BorderLeaf>, frontier: seq<nat>, i: nat)
    requires Aligned(n, nodes, ls, frontier) && i < |ls|
    ensures ls[i].parent < |nodes|
  {
    assert NamesNet(n, nodes, ls[i], frontier[i]);
  }

  lemma {:induction false} InRange(n: Netlist, nodes: Nodes, tables: map<nat, nat>, m: nat)
    requires GraphOk(n, nodes, tables) && m < |nodes|
    ensures forall j :: 0 <= j < |nodes[m].children| ==> nodes[m].children[j] < |nodes|
  {
    assert NodeOk(n, nodes, m);
  }

  lemma {:induction false} MarkIsPort(nodes: Nodes, left: seq<BorderLeaf>, leaf: BorderLeaf, right: seq<BorderLeaf>,
                                      ml: seq<Mark>, mark: Mark, mr: seq<Mark>)
    requires |ml| == |left| && Marked(nodes, left + [leaf] + right, ml + [mark] + mr)
    ensures leaf.parent < |nodes| && mark.port == nodes[leaf.parent].kind.Port?
  {
    var ls, ms := left + [leaf] + right, ml + [mark] + mr;
    assert ls[|left|] == leaf && ms[|left|] == mark;
    assert HasMark(nodes, ls[|left|], ms[|left|]);
  }

  lemma {:induction false} MarksLength(nodes: Nodes, ls: seq<BorderLeaf>, marks: seq<Mark>)
    requires Marked(nodes, ls, marks)
    ensures |marks| == |ls|
  {
  }

  lemma {:induction false} MarkedLength(nodes: Nodes, ls: seq<BorderLeaf>, right: seq<BorderLeaf>, ms: seq<Mark>,
      mr: seq<Mark>)
    requires Marked(nodes, ls + right, ms + mr) && |right| == |mr|
    ensures |ls| == |ms|
  {
  }

  lemma {:induction false} MarksStart(n: Netlist, tables: set<nat>, marks: seq<Mark>, merges: seq<Merge>)
    requires |merges| <= |marks|
    ensures MarksAfter(n, tables, marks, merges[..0]) == [] && Taken(n, tables, marks, merges, 0) == 0
    ensures [] + marks[0..] == marks
  {
  }

  lemma {:induction false} MarksStep(n: Netlist, tables: set<nat>, known: map<nat, nat>, marks: seq<Mark>,
                                     merges: seq<Merge>, i: nat)
    requires i < |merges| <= |marks| && known.Keys == Known(tables, merges[..i])
    ensures var taken := Taken(n, tables, marks, merges, i);
      && MarksAfter(n, tables, marks, merges[..i + 1]) == MarksAfter(n, tables, marks, merges[..i])
           + (if marks[i].port then [marks[i]] else MergeMarks(n, known.Keys, merges[i], taken))
      && Taken(n, tables, marks, merges, i + 1) == taken + if marks[i].port then 0 else |Opened(n, known, merges[i])|
  {
    var more := merges[..i + 1];
    assert more[..i] == merges[..i];
    TakenOfPrefix(n, tables, marks, more, merges, i);
    assert EntryMarks(n, tables, marks, more, i) == EntryMarks(n, tables, marks, merges, i);
  }

  lemma {:induction false} TakenOfPrefix(n: Netlist, tables: set<nat>, marks: seq<Mark>, a: seq<Merge>, b: seq<Merge>,
      i: nat)
    requires i <= |a| <= |marks| && i <= |b| <= |marks| && a[..i] == b[..i]
    ensures Taken(n, tables, marks, a, i) == Taken(n, tables, marks, b, i)
  {
    if i > 0 {
      assert a[..i][..i - 1] == a[..i - 1] && b[..i][..i - 1] == b[..i - 1] && a[i - 1] == a[..i][i - 1];
      assert b[i - 1] == b[..i][i - 1];
      TakenOfPrefix(n, tables, marks, a, b, i - 1);
    }
  }

  lemma {:induction false} GraphIsOwned(n: Netlist, nodes: Nodes, tables: map<nat, nat>)
    requires GraphOk(n, nodes, tables)
    ensures Owned(nodes)
  {
  }

  lemma {:induction false} GraphIsShaped(n: Netlist, nodes: Nodes, tables: map<nat, nat>)
    requires GraphOk(n, nodes, tables)
    ensures Shaped(n, nodes)
  {
  }

  lemma {:induction false} AlignedLength(n: Netlist, nodes: Nodes, ls: seq<BorderLeaf>, frontier: seq<nat>)
    requires Aligned(n, nodes, ls, frontier)
    ensures |ls| == |frontier|
  {
  }

  lemma {:induction false} OpenedPort(n: Netlist, tables: map<nat, nat>, x: nat)
    ensures Opened(n, tables, MergePort(x)) == [x]
  {
  }

  lemma {:induction false} BatchStarts(n: Netlist, tables: set<nat>, merges: seq<Merge>, ls: seq<BorderLeaf>,
      frontier: seq<nat>)
    ensures Known(tables, merges[..0]) == tables && NextFrontier(n, tables, merges[..0]) == []
    ensures [] + ls[0..] == ls && [] + frontier[0..] == frontier
  {
  }

  lemma {:induction false} GrewTransitive(a: Nodes, b: Nodes, c: Nodes)
    requires Grew(a, b) && Grew(b, c)
    ensures Grew(a, c)
  {
  }

  lemma {:induction false} NodeAdded(was: Nodes, base: Nodes, added: Nodes, after: Nodes, p: nat, k: nat, kind: Kind,
      term: nat, index: nat, children: seq<nat>)
    requires LeafPos(was, p, k) && Inner(was, p) && !kind.Leaf? && |children| == |added| + 1
    requires var c, id := was[p].children[k], |was|;
      && was[c].children == []
      && base == (was + [Node(kind, term, 0, [c], [])])[c := was[c].(parents := [id], index := index)]
      && (forall j :: 0 <= j < |added| ==> added[j] == Node(Leaf, 0, index + 1 + j, [], [id]))
      && (forall j :: 0 <= j < |children| ==> children[j] == if j == 0 then c else id + j)
      && after == (base + added)[id := Node(kind, term, 0, children, [p])]
                                [p := was[p].(children := was[p].children[k := id])]
    ensures Attached(was, after, p, k, |was|)
    ensures after[|was|] == Node(kind, term, 0, children, [p])
    ensures forall j :: 0 <= j < |children| ==> children[j] < |after| && after[children[j]].index == index + j
  {
    var c, id := was[p].children[k], |was|;
    forall i | 0 <= i < |was|
      ensures KeptAt(was, after, p, k, id, i)
    {
      assert after[i] == if i == p then was[p].(children := was[p].children[k := id]) else base[i];
    }
    forall i | id < i < |after|
      ensures after[i] == Node(Leaf, 0, index + (i - id), [], [id])
    {
      assert after[i] == added[i - id - 1];
    }
    forall j | 0 <= j < |children|
      ensures LeafPos(after, id, j) && after[children[j]].parents == [id] && after[children[j]].index == index + j
    {
      assert after[c] == base[c];
    }
  }

  /** The root over its open inputs. */
  function Seeded(kind: Kind, term: nat, arity: nat): Nodes {
    [Node(kind, term, 0, seq(arity, (j: nat) => j + 1), [])] + seq(arity, (j: nat) => Node(Leaf, 0, j, [], [0]))
  }

  function SeedBorder(arity: nat): seq<BorderLeaf> {
    seq(arity, (j: nat) => BorderLeaf(0, j, j))
  }

  lemma {:induction false} SeededIsGraph(n: Netlist, kind: Kind, term: nat, arity: nat)
    requires term < n.count && !kind.Leaf?
    requires kind.Port? ==> n.Stops(term) && arity == 1
    requires kind.Table? ==>
      n.Drivers(term) == [term] && n.ArityOk(term) && !n.isInput(term) && !n.isOpaque(term) && arity == |n.inputs(term)|
    ensures GraphOk(n, Seeded(kind, term, arity), if kind.Port? then map[] else map[term := 0])
    ensures BorderOk(Seeded(kind, term, arity), SeedBorder(arity))
  {
    var nodes := Seeded(kind, term, arity);
    SeededNodes(kind, term, arity);
    hide Seeded, SeedBorder;
    assert forall k :: 0 <= k < arity ==> LeafPos(nodes, 0, k);
    assert NodeOk(n, nodes, 0);
    assert OwnsAt(nodes, 0);
    assert LinkedAt(nodes, 0);
    SeedBorderIsExact(kind, term, arity);
  }

  lemma {:induction false} SeededNodes(kind: Kind, term: nat, arity: nat)
    ensures var nodes := Seeded(kind, term, arity);
      && |nodes| == arity + 1 && nodes[0].kind == kind && nodes[0].term == term && nodes[0].parents == []
      && |nodes[0].children| == arity
      && (forall k :: 0 <= k < arity ==> nodes[0].children[k] == k + 1)
      && (forall i :: 0 < i < |nodes| ==> nodes[i] == Node(Leaf, 0, i - 1, [], [0]))
  {
  }

  lemma {:induction false} SeededIsMarked(kind: Kind, term: nat, arity: nat)
    requires !kind.Leaf?
    ensures Marked(Seeded(kind, term, arity), SeedBorder(arity), Numbering(kind.Port?, 0, arity))
  {
    SeededNodes(kind, term, arity);
    hide Seeded;
  }

  lemma {:induction false} SeedBorderIsExact(kind: Kind, term: nat, arity: nat)
    ensures BorderOk(Seeded(kind, term, arity), SeedBorder(arity))
  {
    var nodes, ls := Seeded(kind, term, arity), SeedBorder(arity);
    SeededNodes(kind, term, arity);
    hide Seeded;
    forall i | 0 <= i < |ls|
      ensures LeafPos(nodes, ls[i].parent, ls[i].pos)
    {
    }
    forall p: nat, k: nat | LeafPos(nodes, p, k)
      ensures Listed(ls, p, k)
    {
      assert ls[k].parent == p && ls[k].pos == k;
    }
  }

  class TruthTableTree {
    const netlist: Netlist
    var nodes: Nodes
    var borderLeaves: seq<BorderLeaf>
    var tableNodes: map<nat, nat>
    var numExternalInputs: nat

    /** A graph with an exact border; an empty graph stands for no tree. */
    ghost predicate Valid()
      reads this
    {
      && netlist.WellFormed()
      && GraphOk(netlist, nodes, tableNodes) && BorderOk(nodes, borderLeaves)
      && numExternalInputs == |borderLeaves|
    }

    /** `SNLTruthTableTree(instid, termid, type)`: the root and its open inputs. */
    constructor (n: Netlist, term: nat, isPort: bool)
      requires n.WellFormed() && term < n.count
      requires isPort ==> n.isInput(term)
      requires !isPort ==> n.Drivers(term) == [term] && n.ArityOk(term) && !n.isInput(term) && !n.isOpaque(term)
      ensures netlist == n && Valid()
      ensures nodes[0].term == term && (nodes[0].kind.Port? <==> isPort)
      ensures |borderLeaves| == if isPort then 1 else |n.inputs(term)|
      ensures forall i :: 0 <= i < |borderLeaves| ==> borderLeaves[i] == BorderLeaf(0, i, i)
      ensures tableNodes == if isPort then map[] else map[term := 0]
      ensures Marked(nodes, borderLeaves, Numbering(isPort, 0, |borderLeaves|))
    {
      netlist := n;
      var arity := if isPort then 1 else Arity(n.table(term));
      var kind := if isPort then Port else Table;
      nodes := Seeded(kind, term, arity);
      tableNodes := if isPort then map[] else map[term := 0];
      numExternalInputs := arity;
      borderLeaves := SeedBorder(arity);
      SeededIsGraph(n, kind, term, arity);
      SeededIsMarked(kind, term, arity);
    }

    /** Connects p to an existing table node. */
    method Reuse(p: nat, k: nat, c: nat, id: nat)
      requires LeafPos(nodes, p, k) && c == nodes[p].children[k] && Inner(nodes, id) && Inner(nodes, p)
      modifies this
      ensures borderLeaves == old(borderLeaves) && tableNodes == old(tableNodes)
      ensures numExternalInputs == old(numExternalInputs)
      ensures Attached(old(nodes), nodes, p, k, id)
    {
      ghost var was := nodes;
      nodes := nodes[id := nodes[id].(parents := nodes[id].parents + [p])];
      nodes := nodes[p := nodes[p].(children := nodes[p].children[k := id])];
      if nodes[id].children == [] {
        nodes := nodes[c := nodes[c].(parents := Without(nodes[c].parents, p))];
      }
      forall i | 0 <= i < |was|
        ensures KeptAt(was, nodes, p, k, id, i)
      {
      }
    }

    /** A new constant: it closes its position. */
    method AddConstant(p: nat, k: nat, c: nat, term: nat) returns (id: nat)
      requires LeafPos(nodes, p, k) && c == nodes[p].children[k] && Inner(nodes, p)
      modifies this
      ensures borderLeaves == old(borderLeaves) && numExternalInputs == old(numExternalInputs)
      ensures tableNodes == old(tableNodes)[term := id]
      ensures id == |old(nodes)| && Attached(old(nodes), nodes, p, k, id)
      ensures nodes[id].kind.Table? && nodes[id].term == term && nodes[id].children == []
    {
      ghost var was := nodes;
      id := |nodes|;
      tableNodes := tableNodes[term := id];
      nodes := nodes + [Node(Table, term, 0, [], [])];
      nodes := nodes[c := nodes[c].(parents := Without(nodes[c].parents, p))];
      nodes := nodes[p := nodes[p].(children := nodes[p].children[k := id])];
      nodes := nodes[id := nodes[id].(parents := [p])];
      forall i | 0 <= i < |was|
        ensures KeptAt(was, nodes, p, k, id, i)
      {
      }
    }

    /** A new node over the replaced leaf and new leaves. */
    method AddNode(p: nat, k: nat, c: nat, kind: Kind, term: nat, arity: nat) returns (id: nat)
      requires LeafPos(nodes, p, k) && c == nodes[p].children[k] && Inner(nodes, p) && arity > 0 && !kind.Leaf?
      requires nodes[c].parents == [p] && nodes[c].children == []
      modifies this
      ensures borderLeaves == old(borderLeaves)
      ensures tableNodes == if kind.Table? then old(tableNodes)[term := id] else old(tableNodes)
      ensures numExternalInputs == old(numExternalInputs) + arity
      ensures id == |old(nodes)| && Attached(old(nodes), nodes, p, k, id)
      ensures nodes[id].kind == kind && nodes[id].term == term && |nodes[id].children| == arity
      ensures forall j :: 0 <= j < arity ==> nodes[nodes[id].children[j]].index == old(numExternalInputs) + j
    {
      ghost var was := nodes;
      id := |nodes|;
      if kind.Table? {
        tableNodes := tableNodes[term := id];
      }
      nodes := nodes + [Node(kind, term, 0, [c], [])];
      nodes := nodes[c := nodes[c].(parents := [id], index := numExternalInputs)];
      numExternalInputs := numExternalInputs + 1;
      ghost var base := nodes;
      var children := [c];
      ghost var added: Nodes := [];
      for i := 1 to arity
        invariant nodes == base + added && |added| == i - 1 && |children| == i
        invariant numExternalInputs == old(numExternalInputs) + i
        invariant borderLeaves == old(borderLeaves)
        invariant tableNodes == if kind.Table? then old(tableNodes)[term := id] else old(tableNodes)
        invariant forall j :: 0 <= j < |added| ==> added[j] == Node(Leaf, 0, old(numExternalInputs) + 1 + j, [], [id])
        invariant forall j :: 0 <= j < i ==> children[j] == if j == 0 then c else id + j
      {
        var leaf := Node(Leaf, 0, numExternalInputs, [], [id]);
        assert (base + added) + [leaf] == base + (added + [leaf]);
        nodes := nodes + [leaf];
        added := added + [leaf];
        children := children + [id + i];
        numExternalInputs := numExternalInputs + 1;
      }
      nodes := nodes[id := nodes[id].(children := children)];
      nodes := nodes[p := nodes[p].(children := nodes[p].children[k := id])];
      nodes := nodes[id := nodes[id].(parents := [p])];
      NodeAdded(was, base, added, nodes, p, k, kind, term, numExternalInputs - arity, children);
    }

    /** `concatBody`. */
    method ConcatBody(leaf: BorderLeaf, merge: Merge) returns (id: nat)
      requires GraphOk(netlist, nodes, tableNodes) && LeafPos(nodes, leaf.parent, leaf.pos)
      requires nodes[leaf.parent].kind.Table? && NodeOk(netlist, nodes, leaf.parent)
      requires MergeOk(netlist, netlist.inputs(nodes[leaf.parent].term)[leaf.pos], merge)
      requires merge != MergeTable(nodes[0].term)
      modifies this
      ensures borderLeaves == old(borderLeaves)
      ensures GraphOk(netlist, nodes, tableNodes)
      ensures Merged(netlist, old(nodes), old(tableNodes), nodes, tableNodes, leaf.parent, leaf.pos, id, merge)
      ensures |nodes[id].parents| <= 1 <==> IsNew(old(tableNodes), merge)
      ensures NumberedFrom(old(nodes), nodes, id, old(numExternalInputs))
      ensures numExternalInputs == old(numExternalInputs) + |Opened(netlist, old(tableNodes), merge)|
    {
      ghost var was, tables := nodes, tableNodes;
      var p, k := leaf.parent, leaf.pos;
      var c := nodes[p].children[k];
      assert OwnsAt(nodes, p) && NodeOk(netlist, nodes, c);
      if merge.MergeTable? && merge.term in tableNodes {
        id := tableNodes[merge.term];
        assert LinkedAt(nodes, id) && NodeOk(netlist, nodes, id);
        hide GraphOk, NodeOk, MergeOk;
        Reuse(p, k, c, id);
        assert KeptAt(was, nodes, p, k, id, id);
      } else {
        hide GraphOk, NodeOk, OwnsAt;
        if merge.MergePort? {
          id := AddNode(p, k, c, Port, merge.term, 1);
        } else if Arity(netlist.table(merge.term)) == 0 {
          id := AddConstant(p, k, c, merge.term);
        } else {
          id := AddNode(p, k, c, Table, merge.term, Arity(netlist.table(merge.term)));
        }
      }
      assert Merged(netlist, was, tables, nodes, tableNodes, p, k, id, merge);
      MergeKeepsGraph(netlist, was, tables, nodes, tableNodes, p, k, id, merge);
    }

    /** One entry of the batch whose leaf is not at a port: merge, then open the positions of a new node. */
    method ConcatOne(leaf: BorderLeaf, merge: Merge, left: seq<BorderLeaf>, ghost right: seq<BorderLeaf>,
                     ghost fl: seq<nat>, ghost t: nat, ghost fr: seq<nat>,
                     ghost ml: seq<Mark>, ghost mark: Mark, ghost mr: seq<Mark>) returns (newLeaves: seq<BorderLeaf>)
      requires GraphOk(netlist, nodes, tableNodes) && BorderOk(nodes, left + [leaf] + right)
      requires |fl| == |left| && Aligned(netlist, nodes, left + [leaf] + right, fl + [t] + fr)
      requires leaf.parent < |nodes| ==> !nodes[leaf.parent].kind.Port?
      requires MergeOk(netlist, t, merge) && merge != MergeTable(nodes[0].term)
      requires |ml| == |left| && Marked(nodes, left + [leaf] + right, ml + [mark] + mr)
      modifies this
      ensures borderLeaves == old(borderLeaves)
      ensures GraphOk(netlist, nodes, tableNodes) && BorderOk(nodes, newLeaves + right)
      ensures Aligned(netlist, nodes, newLeaves + right, fl + Opened(netlist, old(tableNodes), merge) + fr)
      ensures |newLeaves| == |fl + Opened(netlist, old(tableNodes), merge)|
      ensures Marked(nodes, newLeaves + right,
        ml + MergeMarks(netlist, old(tableNodes).Keys, merge, old(numExternalInputs)) + mr)
      ensures numExternalInputs == old(numExternalInputs) + |Opened(netlist, old(tableNodes), merge)|
      ensures tableNodes.Keys == old(tableNodes).Keys + if merge.MergeTable? then {merge.term} else {}
      ensures Grew(old(nodes), nodes)
      ensures left <= newLeaves
      ensures merge.MergePort? ==>
        forall i :: |left| <= i < |newLeaves| ==> newLeaves[i].parent < |nodes| && nodes[newLeaves[i].parent].kind.Port?
    {
      ghost var was, tables := nodes, tableNodes;
      LeafIsAtTable(netlist, nodes, tableNodes, left, leaf, right, fl, t, fr);
      hide GraphOk, NodeOk, MergeOk, BorderOk, Aligned, Attached, Known, Marked, NumberedFrom, MergeMarks;
      ghost var first := numExternalInputs;
      var id := ConcatBody(leaf, merge);
      MergedGrew(netlist, was, tables, nodes, tableNodes, leaf.parent, leaf.pos, id, merge);
      var mid: seq<BorderLeaf> := [];
      InRange(netlist, nodes, tableNodes, id);
      if |nodes[id].parents| <= 1 || nodes[id].kind.Port? {
        mid := LeavesOf(nodes, id);
      }
      newLeaves := left + mid;
      GraphIsShaped(netlist, was, tables);
      GraphIsShaped(netlist, nodes, tableNodes);
      BorderAfter(netlist, was, nodes, id, left, leaf, mid, right);
      MergeKeepsAlignment(netlist, was, tables, nodes, tableNodes, id, merge, left, leaf, mid, right, fl, t, fr);
      NewNets(netlist, was, tables, nodes, tableNodes, leaf.parent, leaf.pos, id, merge, mid);
      NewMarked(netlist, was, tables, nodes, tableNodes, leaf.parent, leaf.pos, id, merge, first);
      GraphIsOwned(netlist, was, tables);
      MergeKeepsMarks(netlist, was, nodes, id, left, leaf, mid, right, ml, mark,
                      MergeMarks(netlist, tables.Keys, merge, first), mr);
      AlignedLength(netlist, nodes, mid, Opened(netlist, tables, merge));
    }

    /** One entry of the batch: leaves at ports stay as they are. */
    method ConcatEntry(leaf: BorderLeaf, merge: Merge, left: seq<BorderLeaf>, ghost right: seq<BorderLeaf>,
                       ghost fl: seq<nat>, ghost t: nat, ghost fr: seq<nat>,
                       ghost ml: seq<Mark>, ghost mark: Mark, ghost mr: seq<Mark>) returns (newLeaves: seq<BorderLeaf>)
      requires GraphOk(netlist, nodes, tableNodes) && BorderOk(nodes, left + [leaf] + right)
      requires |fl| == |left| && Aligned(netlist, nodes, left + [leaf] + right, fl + [t] + fr)
      requires leaf.parent < |nodes| && nodes[leaf.parent].kind.Port? ==> merge == MergePort(t)
      requires MergeOk(netlist, t, merge) && |nodes| > 0 && merge != MergeTable(nodes[0].term)
      requires |ml| == |left| && Marked(nodes, left + [leaf] + right, ml + [mark] + mr)
      modifies this
      ensures borderLeaves == old(borderLeaves)
      ensures GraphOk(netlist, nodes, tableNodes) && BorderOk(nodes, newLeaves + right)
      ensures Aligned(netlist, nodes, newLeaves + right, fl + Opened(netlist, old(tableNodes), merge) + fr)
      ensures |newLeaves| == |fl + Opened(netlist, old(tableNodes), merge)|
      ensures var mm := if mark.port then [mark]
        else MergeMarks(netlist, old(tableNodes).Keys, merge, old(numExternalInputs));
        Marked(nodes, newLeaves + right, ml + mm + mr)
      ensures numExternalInputs == old(numExternalInputs) +
                if mark.port then 0 else |Opened(netlist, old(tableNodes), merge)|
      ensures tableNodes.Keys == old(tableNodes).Keys + if merge.MergeTable? then {merge.term} else {}
      ensures Grew(old(nodes), nodes) && left <= newLeaves
      ensures merge.MergePort? ==>
        forall i :: |left| <= i < |newLeaves| ==> newLeaves[i].parent < |nodes| && nodes[newLeaves[i].parent].kind.Port?
    {
      hide GraphOk, NodeOk, MergeOk, BorderOk, Aligned, Opened, Marked, MergeMarks;
      LeafInRange(nodes, left, leaf, right);
      MarkIsPort(nodes, left, leaf, right, ml, mark, mr);
      if nodes[leaf.parent].kind.Port? {
        OpenedPort(netlist, tableNodes, t);
        newLeaves := left + [leaf];
      } else {
        newLeaves := ConcatOne(leaf, merge, left, right, fl, t, fr, ml, mark, mr);
      }
    }

    /** `concatFull`: one merge per border leaf, in order. */
    method ConcatFull(merges: seq<Merge>, ghost frontier: seq<nat>, ghost marks: seq<Mark>)
      requires Valid() && Aligned(netlist, nodes, borderLeaves, frontier)
      requires BatchOk(netlist, nodes, borderLeaves, frontier, merges)
      requires Marked(nodes, borderLeaves, marks)
      modifies this
      ensures Valid() && Grew(old(nodes), nodes)
      ensures Aligned(netlist, nodes, borderLeaves, NextFrontier(netlist, old(tableNodes).Keys, merges))
      ensures Marked(nodes, borderLeaves, MarksAfter(netlist, old(tableNodes).Keys, marks, merges))
      ensures tableNodes.Keys == Known(old(tableNodes).Keys, merges)
      ensures (forall i :: 0 <= i < |merges| ==> merges[i].MergePort?) ==> PortsOnly(nodes, borderLeaves)
    {
      hide GraphOk, NodeOk, MergeOk, BorderOk, Aligned, NextFrontier, Known, Opened, PortsOnly, BatchOk, Grew;
      hide Marked, HasMark, MarksAfter, EntryMarks, Taken, MergeMarks;
      ghost var tables := tableNodes.Keys;
      ghost var was, ls := nodes, borderLeaves;
      BatchLength(netlist, was, ls, frontier, merges);
      var newLeaves: seq<BorderLeaf> := [];
      numExternalInputs := 0;
      BatchStarts(netlist, tables, merges, ls, frontier);
      MarksLength(was, ls, marks);
      MarksStart(netlist, tables, marks, merges);
      NoPorts(nodes);
      for i := 0 to |merges|
        invariant borderLeaves == ls && GraphOk(netlist, nodes, tableNodes) && Grew(was, nodes)
        invariant BorderOk(nodes, newLeaves + ls[i..])
        invariant |newLeaves| == |NextFrontier(netlist, tables, merges[..i])|
        invariant Aligned(netlist, nodes, newLeaves + ls[i..],
          NextFrontier(netlist, tables, merges[..i]) + frontier[i..])
        invariant tableNodes.Keys == Known(tables, merges[..i])
        invariant Marked(nodes, newLeaves + ls[i..], MarksAfter(netlist, tables, marks, merges[..i]) + marks[i..])
        invariant |newLeaves| == |MarksAfter(netlist, tables, marks, merges[..i])|
        invariant numExternalInputs == Taken(netlist, tables, marks, merges, i)
        invariant (forall j :: 0 <= j < i ==> merges[j].MergePort?) ==> PortsOnly(nodes, newLeaves)
      {
        BatchStep(netlist, tables, tableNodes, merges, i);
        ghost var fl := NextFrontier(netlist, tables, merges[..i]);
        EntrySplits(newLeaves, ls, i);
        EntrySplits(fl, frontier, i);
        ghost var ml := MarksAfter(netlist, tables, marks, merges[..i]);
        EntrySplits(ml, marks, i);
        MarksStep(netlist, tables, tableNodes, marks, merges, i);
        BatchEntry(netlist, was, nodes, ls, frontier, merges, i);
        ghost var before, sofar := nodes, newLeaves;
        newLeaves := ConcatEntry(borderLeaves[i], merges[i], newLeaves, ls[i + 1..], fl, frontier[i], frontier[i + 1..],
                                 ml, marks[i], marks[i + 1..]);
        MarkedLength(nodes, newLeaves, ls[i + 1..], MarksAfter(netlist, tables, marks, merges[..i + 1]),
            marks[i + 1..]);
        GrewTransitive(was, before, nodes);
        PortsOnlyGrow(before, sofar, nodes, newLeaves);
      }
      assert newLeaves + ls[|merges|..] == newLeaves && merges[..|merges|] == merges;
      assert NextFrontier(netlist, tables, merges) + frontier[|merges|..] == NextFrontier(netlist, tables, merges);
      assert MarksAfter(netlist, tables, marks, merges) + marks[|merges|..] ==
        MarksAfter(netlist, tables, marks, merges);
      numExternalInputs := |newLeaves|;
      borderLeaves := newLeaves;
    }
  }
}
