/**
 The numbers by which a leaf finds its external input. A batch numbers its new leaves from 0
 but leaves the numbers of the leaves at ports alone, so number and border position can differ.
 */
module CloudNumbers {
  import opened Options
  import opened TruthTables
  import opened Netlists
  import opened TruthTableTrees
  import opened AncestorLoops
  import opened LogicClouds
  import opened CloudMeaning

  // ----- number and position -----

  /** Every open position carries its own place in the border as its number. */
  ghost predicate InOrder(marks: seq<Mark>) {
    forall j :: 0 <= j < |marks| ==> marks[j].number == j
  }

  /**
   Entry i of a batch keeps the order: a leaf at a port comes out where its number says, and new
   leaves come before all leaves at ports.
   */
  ghost predicate KeepsOrderAt(n: Netlist, tables: set<nat>, marks: seq<Mark>, merges: seq<Merge>, i: nat)
    requires i < |merges| <= |marks|
  {
    if marks[i].port then marks[i].number == |MarksAfter(n, tables, marks, merges[..i])|
    else EntryMarks(n, tables, marks, merges, i) == [] || forall j :: 0 <= j < i ==> !marks[j].port
  }

  function PortsBefore(marks: seq<Mark>, i: nat): nat
    requires i <= |marks|
  {
    if i == 0 then 0 else PortsBefore(marks, i - 1) + if marks[i - 1].port then 1 else 0
  }

  lemma {:induction false} NoPortsBefore(marks: seq<Mark>, i: nat)
    requires i <= |marks|
    ensures PortsBefore(marks, i) == 0 <==> forall j :: 0 <= j < i ==> !marks[j].port
  {
    if i > 0 {
      NoPortsBefore(marks, i - 1);
    }
  }

  lemma {:induction false} MarksUpTo(n: Netlist, tables: set<nat>, marks: seq<Mark>, merges: seq<Merge>, i: nat)
    requires i < |merges| <= |marks|
    ensures MarksAfter(n, tables, marks, merges[..i + 1])
         == MarksAfter(n, tables, marks, merges[..i]) + EntryMarks(n, tables, marks, merges, i)
  {
    var more := merges[..i + 1];
    assert more[..i] == merges[..i];
    TakenOfPrefix(n, tables, marks, more, merges, i);
  }

  lemma {:induction false} MarksCount(n: Netlist, tables: set<nat>, marks: seq<Mark>, merges: seq<Merge>, i: nat)
    requires i <= |merges| <= |marks|
    ensures |MarksAfter(n, tables, marks, merges[..i])| == Taken(n, tables, marks, merges, i) + PortsBefore(marks, i)
  {
    hide EntryMarks;
    if i > 0 {
      MarksUpTo(n, tables, marks, merges, i - 1);
      MarksCount(n, tables, marks, merges, i - 1);
      PortEntry(n, tables, marks, merges, i - 1);
    }
  }

  lemma {:induction false} PortEntry(n: Netlist, tables: set<nat>, marks: seq<Mark>, merges: seq<Merge>, i: nat)
    requires i < |merges| <= |marks|
    ensures marks[i].port ==> EntryMarks(n, tables, marks, merges, i) == [marks[i]]
    ensures !marks[i].port ==> var r := EntryMarks(n, tables, marks, merges, i);
      forall j :: 0 <= j < |r| ==> r[j].number == Taken(n, tables, marks, merges, i) + j
  {
  }

  /** After i entries the order holds exactly when each of them kept it. */
  lemma {:induction false} OrderUpTo(n: Netlist, tables: set<nat>, marks: seq<Mark>, merges: seq<Merge>, i: nat)
    requires i <= |merges| <= |marks|
    ensures InOrder(MarksAfter(n, tables, marks, merges[..i]))
       <==> forall k :: 0 <= k < i ==> KeepsOrderAt(n, tables, marks, merges, k)
  {
    hide EntryMarks, KeepsOrderAt, MarksAfter;
    if i == 0 {
      MarksStart(n, tables, marks, merges);
    } else {
      OrderUpTo(n, tables, marks, merges, i - 1);
      EntryOrder(n, tables, marks, merges, i - 1);
    }
  }

  lemma {:induction false} EntryOrder(n: Netlist, tables: set<nat>, marks: seq<Mark>, merges: seq<Merge>, i: nat)
    requires i < |merges| <= |marks|
    ensures InOrder(MarksAfter(n, tables, marks, merges[..i + 1]))
       <==> InOrder(MarksAfter(n, tables, marks, merges[..i])) && KeepsOrderAt(n, tables, marks, merges, i)
  {
    hide EntryMarks, MarksAfter;
    MarksUpTo(n, tables, marks, merges, i);
    MarksCount(n, tables, marks, merges, i);
    PortEntry(n, tables, marks, merges, i);
    NoPortsBefore(marks, i);
    var a, b := MarksAfter(n, tables, marks, merges[..i]), EntryMarks(n, tables, marks, merges, i);
    assert forall j :: 0 <= j < |a| ==> (a + b)[j] == a[j];
    assert forall j :: 0 <= j < |b| ==> (a + b)[|a| + j] == b[j];
    if b != [] {
      assert (a + b)[|a|] == b[0];
    }
  }

  /** Exactly when a batch leaves every number equal to its border position. */
  lemma {:induction false} BatchInOrderIff(n: Netlist, tables: set<nat>, marks: seq<Mark>, merges: seq<Merge>)
    requires |merges| == |marks|
    ensures InOrder(MarksAfter(n, tables, marks, merges))
       <==> forall i :: 0 <= i < |merges| ==> KeepsOrderAt(n, tables, marks, merges, i)
  {
    assert merges[..|merges|] == merges;
    OrderUpTo(n, tables, marks, merges, |merges|);
  }

  // ----- evaluation by stored numbers -----

  /** `Node::eval`: each leaf reads the input with its number; none when a number is out of range. */
  ghost function Eval(n: Netlist, nodes: Nodes, rank: nat -> nat, ext: seq<bool>, i: nat): Option<bool>
    requires Shaped(n, nodes) && Ranked(nodes, rank) && i < |nodes|
    decreases rank(i)
  {
    var x := nodes[i];
    assert NodeOk(n, nodes, i) && RankedAt(nodes, rank, i);
    match x.kind
    case Leaf => if x.index < |ext| then Some(ext[x.index]) else None
    case Port => (assert x.children[0] in x.children; Eval(n, nodes, rank, ext, x.children[0]))
    case Table =>
      var args := seq(|x.children|, k requires 0 <= k < |x.children| =>
        assert x.children[k] in x.children;
        Eval(n, nodes, rank, ext, x.children[k]));
      if exists k :: 0 <= k < |args| && args[k].None? then None
      else Some(TableValue(n.table(x.term), seq(|args|, k requires 0 <= k < |args| => args[k].value)))
  }

  /** What the leaves read. */
  ghost function Stored(nodes: Nodes, ext: seq<bool>): nat -> bool {
    (c: nat) => c < |nodes| && nodes[c].index < |ext| && ext[nodes[c].index]
  }

  ghost predicate InRangeAt(nodes: Nodes, ext: seq<bool>, p: nat, k: nat) {
    LeafPos(nodes, p, k) ==> nodes[nodes[p].children[k]].index < |ext|
  }

  ghost predicate NumbersInRange(nodes: Nodes, ext: seq<bool>) {
    forall p: nat, k: nat :: InRangeAt(nodes, ext, p, k)
  }

  lemma {:induction false} EvalIsEvalNode(n: Netlist, nodes: Nodes, rank: nat -> nat, ext: seq<bool>, i: nat)
    requires Shaped(n, nodes) && Ranked(nodes, rank) && i < |nodes| && NumbersInRange(nodes, ext)
    requires nodes[i].kind.Leaf? ==> nodes[i].index < |ext|
    ensures Eval(n, nodes, rank, ext, i) == Some(EvalNode(n, nodes, rank, Stored(nodes, ext), i))
    decreases rank(i)
  {
    var x := nodes[i];
    assert NodeOk(n, nodes, i) && RankedAt(nodes, rank, i);
    if x.kind.Port? {
      assert InRangeAt(nodes, ext, i, 0) && x.children[0] in x.children;
      EvalIsEvalNode(n, nodes, rank, ext, x.children[0]);
    } else if x.kind.Table? {
      var args := seq(|x.children|, k requires 0 <= k < |x.children| =>
        assert x.children[k] in x.children;
        Eval(n, nodes, rank, ext, x.children[k]));
      var values := seq(|x.children|, k requires 0 <= k < |x.children| =>
        assert x.children[k] in x.children;
        EvalNode(n, nodes, rank, Stored(nodes, ext), x.children[k]));
      forall k | 0 <= k < |x.children|
        ensures args[k] == Some(values[k])
      {
        assert x.children[k] in x.children;
        assert InRangeAt(nodes, ext, i, k);
        ChildInRange(n, nodes, i, k);
        EvalIsEvalNode(n, nodes, rank, ext, x.children[k]);
      }
      assert seq(|args|, k requires 0 <= k < |args| => args[k].value) == values;
    }
  }

  lemma {:induction false} ChildInRange(n: Netlist, nodes: Nodes, i: nat, k: nat)
    requires Shaped(n, nodes) && i < |nodes| && nodes[i].kind.Table? && k < |nodes[i].children|
    ensures nodes[i].children[k] < |nodes|
    ensures nodes[nodes[i].children[k]].kind.Leaf? ==> LeafPos(nodes, i, k)
  {
    assert NodeOk(n, nodes, i);
  }

  /** Position j of the border reads input number `marks[j].number`, which has the value of its net. */
  ghost predicate ReadsNets(marks: seq<Mark>, frontier: seq<nat>, v: Valuation, ext: seq<bool>) {
    |marks| == |frontier| && forall j :: 0 <= j < |marks| ==>
        marks[j].number < |ext| && ext[marks[j].number] == v(frontier[j])
  }

  lemma {:induction false} StoredIsSet(n: Netlist, root: nat, a: Stage, v: Valuation, ext: seq<bool>)
    requires StageOk(n, root, a) && ReadsNets(a.marks, a.frontier, v, ext)
    ensures LeavesSet(a.nodes, a.ls, a.frontier, v, Stored(a.nodes, ext)) && NumbersInRange(a.nodes, ext)
  {
    forall j | 0 <= j < |a.ls|
      ensures HasMark(a.nodes, a.ls[j], a.marks[j])
    {
    }
    forall p: nat, k: nat
      ensures InRangeAt(a.nodes, ext, p, k)
    {
      if LeafPos(a.nodes, p, k) {
        assert Listed(a.ls, p, k);
        var j :| 0 <= j < |a.ls| && a.ls[j].parent == p && a.ls[j].pos == k;
        assert HasMark(a.nodes, a.ls[j], a.marks[j]);
      }
    }
  }

  /**
   In every round, evaluation by stored numbers gives the root's value in every consistent valuation in
   which each open net has the value of the input that its leaf's number selects.
   */
  lemma {:induction false} EvalIsValue(n: Netlist, root: nat, a: Stage, rank: nat -> nat, v: Valuation, ext: seq<bool>)
    requires n.WellFormed() && n.Consistent(v) && StageOk(n, root, a) && Ranked(a.nodes, rank)
    requires ReadsNets(a.marks, a.frontier, v, ext)
    ensures Eval(n, a.nodes, rank, ext, 0) == Some(v(root))
  {
    StoredIsSet(n, root, a, v, ext);
    EvalIsEvalNode(n, a.nodes, rank, ext, 0);
    RootValue(n, a.nodes, a.tables, a.ls, a.frontier, rank, v, Stored(a.nodes, ext));
  }

  /** With the numbers in order, input j is the value of border position j. */
  lemma {:induction false} InOrderEvalIsValue(n: Netlist, root: nat, a: Stage, rank: nat -> nat, v: Valuation)
    requires n.WellFormed() && n.Consistent(v) && StageOk(n, root, a) && Ranked(a.nodes, rank) && InOrder(a.marks)
    ensures Eval(n, a.nodes, rank, n.Values(v, a.frontier), 0) == Some(v(root))
  {
    EvalIsValue(n, root, a, rank, v, n.Values(v, a.frontier));
  }
}
