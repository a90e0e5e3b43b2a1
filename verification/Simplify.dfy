/**
 `simplify`: a post-order walk over the DAG followed by one rebuilding pass, and the fact
 that it changes nothing on expressions that the factories built.
 */
module Simplification {
  import opened BoolExprs
  import opened Traversals

  /** What simplification computes: the expression rebuilt bottom-up with the factories. */
  function Rebuilt(h: Mixer, e: Expr): (r: Expr)
    ensures forall env :: Eval(r, env) == Eval(e, env)
    ensures Support(r) <= Support(e) + {0, 1}
  {
    match e
    case Var(_) => e
    case Not(a) => MkNot(Rebuilt(h, a))
    case Bin(op, l, r) => MkGate(h, op, Rebuilt(h, l), Rebuilt(h, r))
  }

  ghost predicate ChildrenFirst(order: seq<Expr>) {
    forall i, c :: 0 <= i < |order| && IsChild(c, order[i]) ==> c in order[..i]
  }

  lemma {:induction false} ChildrenFirstGrows(order: seq<Expr>, n: Expr)
    requires ChildrenFirst(order)
    requires forall c :: IsChild(c, n) ==> c in order
    ensures ChildrenFirst(order + [n])
  {
    var order' := order + [n];
    forall i, c | 0 <= i < |order'| && IsChild(c, order'[i])
      ensures c in order'[..i]
    {
      if i < |order| {
        assert order'[..i] == order[..i];
      } else {
        assert order'[..i] == order;
      }
    }
  }

  lemma {:induction false} ChildrenOfListed(order: seq<Expr>, n: Expr)
    requires ChildrenFirst(order) && n in order
    ensures forall c :: IsChild(c, n) ==> c in order
  {
    var i :| 0 <= i < |order| && order[i] == n;
    assert forall c :: c in order[..i] ==> c in order;
  }

  function Elements(s: seq<Expr>): set<Expr> {
    set x | x in s
  }

  lemma {:induction false} ElementsGrow(s: seq<Expr>, n: Expr)
    ensures Elements(s + [n]) == Elements(s) + {n}
  {
  }

  /**
   The first half of `simplify`. A node that is met again while its state is set goes to
   the order at once; it is there already then, so children still come before parents.
   */
  method PostOrder(root: Expr) returns (order: seq<Expr>)
    ensures ChildrenFirst(order)
    ensures root in order
    ensures forall n :: n in order ==> n in Nodes(root)
  {
    hide Walk, Nodes;
    order := [];
    var stack := [root];
    var state: set<Expr> := {};
    ghost var frames := [Frame(root, false)];
    WalkStarts(root, Elements(order));
    NodesSelf(root);
    while stack != []
      invariant |frames| == |stack| && forall i :: 0 <= i < |stack| ==> frames[i].node == stack[i]
      invariant forall f :: f in frames && f.visited ==> f.node in state
      invariant forall n :: n in order ==> n in state
      invariant Walk(root, frames, Elements(order), state)
      invariant ChildrenFirst(order)
      invariant forall n :: n in order ==> n in Nodes(root)
      decreases Nodes(root) - state, |stack|
    {
      var n := stack[|stack| - 1];
      stack := stack[..|stack| - 1];
      ghost var top := frames[|frames| - 1];
      ghost var rest := frames[..|frames| - 1];
      assert frames == rest + [top];
      WalkTop(root, rest, top, Elements(order), state);
      if n !in state {
        assert top in frames;
        assert top == Frame(n, false);
        WalkOpens(root, rest, n, Elements(order), state, ChildFrames(n));
        state := state + {n};
        stack := stack + [n];
        frames := rest + [Frame(n, true)] + ChildFrames(n);
        match n {
          case Var(_) =>
          case Not(a) => stack := stack + [a];
          case Bin(_, l, r) => stack := stack + [r, l];
        }
      } else {
        if top.visited {
          WalkReady(root, rest, n, Elements(order), state);
        } else {
          if n !in order {
            WalkIsFresh(root, rest, n, Elements(order), state);
          }
          ChildrenOfListed(order, n);
        }
        ChildrenFirstGrows(order, n);
        ElementsGrow(order, n);
        WalkPops(root, rest, top, Elements(order), state, Elements(order + [n]));
        order := order + [n];
        frames := rest;
      }
    }
    WalkEnds(root, frames, Elements(order), state);
  }

  /** `simplify`: the memo is filled in post-order, so every child is there when it is needed. */
  method Simplify(h: Mixer, e: Expr) returns (r: Expr)
    ensures r == Rebuilt(h, e)
  {
    if e.Var? {
      return e;
    }
    var order := PostOrder(e);
    var memo: map<Expr, Expr> := map[];
    for i := 0 to |order|
      invariant forall n :: n in order[..i] ==> n in memo
      invariant forall n :: n in memo ==> memo[n] == Rebuilt(h, n)
    {
      var node := order[i];
      assert order[..i + 1] == order[..i] + [node];
      match node {
        case Var(_) => memo := memo[node := node];
        case Not(x) =>
          assert IsChild(x, node);
          var a := memo[x];
          if a == FALSE {
            memo := memo[node := Var(1)];
          } else if a == TRUE {
            memo := memo[node := Var(0)];
          } else if a.Not? {
            memo := memo[node := a.arg];
          } else {
            memo := memo[node := MkNot(a)];
          }
        case Bin(op, x, y) =>
          assert IsChild(x, node) && IsChild(y, node);
          memo := memo[node := SimplifyGate(h, op, memo[x], memo[y])];
      }
    }
    assert order[..|order|] == order;
    r := memo[e];
  }

  /** The folding rules of `simplify` for a gate are those of the factory it falls back to. */
  function SimplifyGate(h: Mixer, op: BinOp, a: Expr, b: Expr): (r: Expr)
    ensures r == MkGate(h, op, a, b)
  {
    match op
    case AND =>
      if a == FALSE || b == FALSE then Var(0)
      else if a == TRUE then b
      else if b == TRUE then a
      else if a == b then a
      else if a == Not(b) || b == Not(a) then Var(0)
      else MkAnd(h, a, b)
    case OR =>
      if a == TRUE || b == TRUE then Var(1)
      else if a == FALSE then b
      else if b == FALSE then a
      else if a == b then a
      else if a == Not(b) || b == Not(a) then Var(1)
      else MkOr(h, a, b)
    case XOR =>
      if a == FALSE then b
      else if b == FALSE then a
      else if a == TRUE then MkNot(b)
      else if b == TRUE then MkNot(a)
      else if a == b then Var(0)
      else MkXor(h, a, b)
  }

  // ----- simplification is idle on factory-built expressions -----

  /** No folding rule applies at any node. */
  ghost predicate Reduced(h: Mixer, e: Expr) {
    match e
    case Var(_) => true
    case Not(a) => MkNot(a) == e && Reduced(h, a)
    case Bin(op, l, r) => MkGate(h, op, l, r) == e && Reduced(h, l) && Reduced(h, r)
  }

  lemma {:induction false} NotKeepsReduced(h: Mixer, a: Expr)
    requires Reduced(h, a)
    ensures Reduced(h, MkNot(a))
  {
  }

  lemma {:induction false} GateKeepsReduced(h: Mixer, op: BinOp, a: Expr, b: Expr)
    requires Reduced(h, a) && Reduced(h, b)
    ensures Reduced(h, MkGate(h, op, a, b))
  {
    LessTotal(h, a, b);
    GateCommutes(h, op, a, b);
  }

  lemma {:induction false} RebuiltIsReduced(h: Mixer, e: Expr)
    ensures Reduced(h, Rebuilt(h, e))
  {
    match e
    case Var(_) =>
    case Not(a) =>
      RebuiltIsReduced(h, a);
      NotKeepsReduced(h, Rebuilt(h, a));
    case Bin(op, l, r) =>
      RebuiltIsReduced(h, l);
      RebuiltIsReduced(h, r);
      GateKeepsReduced(h, op, Rebuilt(h, l), Rebuilt(h, r));
  }

  /** `simplify` returns its argument exactly when no folding rule applies anywhere in it. */
  lemma {:induction false} SimplifyIsIdleIffReduced(h: Mixer, e: Expr)
    ensures Rebuilt(h, e) == e <==> Reduced(h, e)
  {
    RebuiltIsReduced(h, e);
    match e
    case Var(_) =>
    case Not(a) => SimplifyIsIdleIffReduced(h, a);
    case Bin(_, l, r) =>
      SimplifyIsIdleIffReduced(h, l);
      SimplifyIsIdleIffReduced(h, r);
  }

  /**
   The folding rules, written out: no constant, repeated or complementary operand, no double negation,
   and the smaller operand first.
   */
  ghost predicate FoldFree(h: Mixer, e: Expr) {
    match e
    case Var(_) => true
    case Not(a) => a != FALSE && a != TRUE && !a.Not? && FoldFree(h, a)
    case Bin(op, l, r) =>
      && l != FALSE && l != TRUE && r != FALSE && r != TRUE && Less(h, l, r)
      && (op != XOR ==> l != Not(r) && r != Not(l))
      && FoldFree(h, l) && FoldFree(h, r)
  }

  /** An expression is reduced exactly when no rule matches at any of its nodes. */
  lemma {:induction false} ReducedIsFoldFree(h: Mixer, e: Expr)
    ensures Reduced(h, e) <==> FoldFree(h, e)
  {
    match e
    case Var(_) =>
    case Not(a) => ReducedIsFoldFree(h, a);
    case Bin(op, l, r) =>
      ReducedIsFoldFree(h, l);
      ReducedIsFoldFree(h, r);
      GateIsStable(h, op, l, r);
  }

  lemma {:induction false} GateIsStable(h: Mixer, op: BinOp, l: Expr, r: Expr)
    ensures MkGate(h, op, l, r) == Bin(op, l, r)
       <==> l != FALSE && l != TRUE && r != FALSE && r != TRUE && Less(h, l, r)
            && (op != XOR ==> l != Not(r) && r != Not(l))
  {
    LessTotal(h, l, r);
    SizeOfFold(h, op, l, r);
  }

  /** A fold to one of the operands, or to its negation, is never the gate itself. */
  lemma {:induction false} SizeOfFold(h: Mixer, op: BinOp, l: Expr, r: Expr)
    ensures l != Bin(op, l, r) && r != Bin(op, l, r) && MkNot(l) != Bin(op, l, r) && MkNot(r) != Bin(op, l, r)
  {
    var e := Bin(op, l, r);
    assert Size(e) > Size(l) && Size(e) > Size(r);
    assert l.Not? ==> Size(l.arg) < Size(l);
    assert r.Not? ==> Size(r.arg) < Size(r);
  }
}
