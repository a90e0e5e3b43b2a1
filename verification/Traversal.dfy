/**
 The explicit-stack post-order walk over a shared DAG that the evaluator, the simplifier,
 the CNF writer and the BTOR2 writer all perform. A node waits on the stack as a visited
 frame until the frames of its children above it are gone.
 */
module Traversals {
  import opened BoolExprs

  datatype Frame = Frame(node: Expr, visited: bool)

  /** All nodes of the DAG below and including an expression. */
  ghost function Nodes(e: Expr): set<Expr> {
    match e
    case Var(_) => {e}
    case Not(a) => {e} + Nodes(a)
    case Bin(_, l, r) => {e} + Nodes(l) + Nodes(r)
  }

  lemma {:induction false} NodesClosed(root: Expr, n: Expr, c: Expr)
    requires n in Nodes(root) && IsChild(c, n)
    ensures c in Nodes(root)
  {
    match root
    case Var(_) =>
    case Not(a) => if n != root { NodesClosed(a, n, c); } else { NodesSelf(c); }
    case Bin(_, l, r) =>
      if n == root {
        NodesSelf(c);
      } else if n in Nodes(l) {
        NodesClosed(l, n, c);
      } else {
        NodesClosed(r, n, c);
      }
  }

  lemma {:induction false} NodesSelf(e: Expr)
    ensures e in Nodes(e)
  {
  }

  /** The support of a node of the DAG is part of the support of the whole. */
  lemma {:induction false} NodeSupport(root: Expr, n: Expr)
    requires n in Nodes(root)
    ensures Support(n) <= Support(root)
  {
    match root
    case Var(_) =>
    case Not(a) => if n != root { NodeSupport(a, n); }
    case Bin(_, l, r) =>
      if n != root {
        if n in Nodes(l) { NodeSupport(l, n); } else { NodeSupport(r, n); }
      }
  }

  ghost predicate Visited(stack: seq<Frame>, n: Expr) {
    Frame(n, true) in stack
  }

  /** Everything above a visited frame is a proper descendant, hence smaller. */
  ghost predicate Nested(stack: seq<Frame>) {
    forall i, j :: 0 <= i < j < |stack| && stack[i].visited ==> Size(stack[j].node) < Size(stack[i].node)
  }

  /** A visited frame finds each child among `avail` or in a frame above itself. */
  ghost predicate Waiting(stack: seq<Frame>, avail: set<Expr>)
    decreases |stack|
  {
    |stack| > 0 ==>
      var top, rest := stack[|stack| - 1], stack[..|stack| - 1];
      && (top.visited ==> forall c :: IsChild(c, top.node) ==> c in avail)
      && Waiting(rest, avail + {top.node})
  }

  /**
   The invariant of the walk. `done` holds the finished nodes and `begun` every node that
   was ever expanded.
   */
  ghost predicate Walk(root: Expr, stack: seq<Frame>, done: set<Expr>, begun: set<Expr>) {
    && (forall f :: f in stack ==> f.node in Nodes(root))
    && Nested(stack)
    && Waiting(stack, done)
    && (stack == [] ==> root in done)
    && (stack != [] ==> stack[0].node == root)
    && begun <= Nodes(root)
    && (forall n :: n in begun ==> n in done || Visited(stack, n))
  }

  lemma {:induction false} WalkStarts(root: Expr, done: set<Expr>)
    ensures Walk(root, [Frame(root, false)], done, {})
  {
    var stack := [Frame(root, false)];
    assert stack[..0] == [];
    NodesSelf(root);
  }

  lemma {:induction false} WaitingMonotone(stack: seq<Frame>, avail: set<Expr>, avail': set<Expr>)
    requires Waiting(stack, avail) && avail <= avail'
    ensures Waiting(stack, avail')
    decreases |stack|
  {
    if |stack| > 0 {
      var top := stack[|stack| - 1];
      WaitingMonotone(stack[..|stack| - 1], avail + {top.node}, avail' + {top.node});
    }
  }

  lemma {:induction false} WaitingTop(rest: seq<Frame>, top: Frame, avail: set<Expr>)
    ensures Waiting(rest + [top], avail) <==>
              (top.visited ==> forall c :: IsChild(c, top.node) ==> c in avail) && Waiting(rest, avail + {top.node})
  {
    var stack := rest + [top];
    assert stack[..|stack| - 1] == rest;
  }

  /** Dropping a frame whose node is finished. */
  lemma {:induction false} WalkPops(root: Expr, rest: seq<Frame>, top: Frame, done: set<Expr>, begun: set<Expr>,
      done': set<Expr>)
    requires Walk(root, rest + [top], done, begun)
    requires done <= done' && top.node in done'
    ensures Walk(root, rest, done', begun)
  {
    var stack := rest + [top];
    assert forall i :: 0 <= i < |rest| ==> stack[i] == rest[i];
    assert forall f :: f in rest ==> f in stack;
    WaitingTop(rest, top, done);
    WaitingMonotone(rest, done + {top.node}, done');
    if rest == [] {
      assert stack[0] == top;
    }
    assert forall n :: Visited(stack, n) ==> Visited(rest, n) || n == top.node;
  }

  /** A fresh frame never names a node in progress. */
  lemma {:induction false} WalkIsFresh(root: Expr, rest: seq<Frame>, n: Expr, done: set<Expr>, begun: set<Expr>)
    requires Walk(root, rest + [Frame(n, false)], done, begun)
    requires n !in done
    ensures n !in begun && n in Nodes(root)
    ensures !Visited(rest, n)
  {
    var stack := rest + [Frame(n, false)];
    assert stack[|rest|] == Frame(n, false);
    forall j | 0 <= j < |rest| && rest[j].visited
      ensures rest[j].node != n
    {
      assert stack[j] == rest[j];
      assert Size(stack[|rest|].node) < Size(stack[j].node);
    }
    assert Frame(n, false) in stack;
  }

  /** No visited frame below the top names the node on top. */
  lemma {:induction false} WalkIsDistinct(root: Expr, rest: seq<Frame>, top: Frame, done: set<Expr>, begun: set<Expr>)
    requires Walk(root, rest + [top], done, begun)
    ensures !Visited(rest, top.node)
  {
    var stack := rest + [top];
    assert stack[|rest|] == top;
    forall j | 0 <= j < |rest| && rest[j].visited
      ensures rest[j].node != top.node
    {
      assert stack[j] == rest[j];
      assert Size(stack[|rest|].node) < Size(stack[j].node);
    }
  }

  /** The frames above an expanded node: one fresh frame for each child, in either order. */
  ghost predicate IsExpansion(n: Expr, pushed: seq<Frame>) {
    match n
    case Var(_) => pushed == []
    case Not(a) => pushed == [Frame(a, false)]
    case Bin(_, l, r) =>
      pushed == [Frame(r, false), Frame(l, false)] || pushed == [Frame(l, false), Frame(r, false)]
  }

  lemma {:induction false} WaitingOpens(rest: seq<Frame>, n: Expr, avail: set<Expr>, pushed: seq<Frame>)
    requires Waiting(rest + [Frame(n, false)], avail)
    requires IsExpansion(n, pushed)
    ensures Waiting(rest + [Frame(n, true)] + pushed, avail)
  {
    var bottom := rest + [Frame(n, true)];
    var reach := avail + set f | f in pushed :: f.node;
    WaitingTop(rest, Frame(n, false), avail);
    WaitingMonotone(rest, avail + {n}, reach + {n});
    forall c | IsChild(c, n)
      ensures c in reach
    {
      assert Frame(c, false) in pushed;
    }
    WaitingTop(rest, Frame(n, true), reach);
    if |pushed| == 0 {
      assert reach == avail && bottom + pushed == bottom;
    } else if |pushed| == 1 {
      assert reach == avail + {pushed[0].node};
      assert bottom + pushed == bottom + [pushed[0]];
      WaitingTop(bottom, pushed[0], avail);
    } else {
      assert reach == avail + {pushed[1].node} + {pushed[0].node};
      assert bottom + pushed == bottom + [pushed[0]] + [pushed[1]];
      WaitingTop(bottom, pushed[0], avail + {pushed[1].node});
      WaitingTop(bottom + [pushed[0]], pushed[1], avail);
    }
  }

  lemma {:induction false} NestedOpens(rest: seq<Frame>, n: Expr, pushed: seq<Frame>)
    requires Nested(rest + [Frame(n, false)]) && IsExpansion(n, pushed)
    ensures Nested(rest + [Frame(n, true)] + pushed)
  {
    var stack := rest + [Frame(n, false)];
    var stack' := rest + [Frame(n, true)] + pushed;
    var m := |rest|;
    assert stack[m].node == n;
    assert forall i :: 0 <= i < m ==> stack[i] == stack'[i];
    assert forall k :: 0 <= k < |pushed| ==> stack'[m + 1 + k] == pushed[k] && Size(pushed[k].node) < Size(n);
    forall i, j | 0 <= i < j < |stack'| && stack'[i].visited
      ensures Size(stack'[j].node) < Size(stack'[i].node)
    {
      if j > m {
        assert stack'[j] == pushed[j - m - 1];
      }
      if i < m {
        assert Size(stack[m].node) < Size(stack[i].node);
      }
    }
  }

  /** Expanding a fresh frame keeps the walk. */
  lemma {:induction false} WalkOpens(root: Expr, rest: seq<Frame>, n: Expr, done: set<Expr>, begun: set<Expr>,
      pushed: seq<Frame>)
    requires Walk(root, rest + [Frame(n, false)], done, begun)
    requires n !in done && IsExpansion(n, pushed)
    ensures n !in begun && n in Nodes(root)
    ensures Walk(root, rest + [Frame(n, true)] + pushed, done, begun + {n})
  {
    WalkIsFresh(root, rest, n, done, begun);
    WaitingOpens(rest, n, done, pushed);
    NestedOpens(rest, n, pushed);
    var stack := rest + [Frame(n, false)];
    var stack' := rest + [Frame(n, true)] + pushed;
    forall f | f in stack'
      ensures f.node in Nodes(root)
    {
      if f in pushed {
        NodesClosed(root, n, f.node);
      } else if f in rest {
        assert f in stack;
      }
    }
    assert stack'[0].node == stack[0].node;
    assert forall x :: Visited(stack, x) ==> Visited(stack', x);
    assert Visited(stack', n);
  }

  /** The frames pushed above an expanded node: its right child, then its left child on top. */
  function ChildFrames(n: Expr): (fs: seq<Frame>)
    ensures IsExpansion(n, fs)
  {
    match n
    case Var(_) => []
    case Not(a) =>
      assert [Frame(a, false)][0].node == a;
      [Frame(a, false)]
    case Bin(_, l, r) =>
      var fs := [Frame(r, false), Frame(l, false)];
      assert fs[0].node == r && fs[1].node == l;
      fs
  }

  /** A visited frame on top has all its children finished. */
  lemma {:induction false} WalkReady(root: Expr, rest: seq<Frame>, n: Expr, done: set<Expr>, begun: set<Expr>)
    requires Walk(root, rest + [Frame(n, true)], done, begun)
    ensures forall c :: IsChild(c, n) ==> c in done
  {
    WaitingTop(rest, Frame(n, true), done);
  }

  lemma {:induction false} WalkTop(root: Expr, rest: seq<Frame>, top: Frame, done: set<Expr>, begun: set<Expr>)
    requires Walk(root, rest + [top], done, begun)
    ensures top.node in Nodes(root)
  {
    assert top in rest + [top];
  }

  lemma {:induction false} WalkEnds(root: Expr, stack: seq<Frame>, done: set<Expr>, begun: set<Expr>)
    requires Walk(root, stack, done, begun) && stack == []
    ensures root in done
  {
  }

  // ----- evaluate and getSupportVars -----

  datatype Evaluation = Evaluated(value: bool) | Missing(varId: nat)

  function Lift(env: map<nat, bool>): Env {
    v => v in env && env[v]
  }

  ghost predicate Covered(e: Expr, env: map<nat, bool>) {
    forall v :: v in Support(e) && v >= 2 ==> v in env
  }

  /**
   `evaluate`: an error exactly when some free variable has no value, and otherwise the
   meaning of the expression.
   */
  method Evaluate(root: Expr, env: map<nat, bool>) returns (result: Evaluation)
    ensures result.Evaluated? <==> Covered(root, env)
    ensures result.Evaluated? ==> result.value == Eval(root, Lift(env))
    ensures result.Missing? ==> result.varId in Support(root) && result.varId >= 2 && result.varId !in env
  {
    hide Walk, Nodes;
    var values: map<Expr, bool> := map[];
    var stack := [Frame(root, false)];
    ghost var begun: set<Expr> := {};
    WalkStarts(root, values.Keys);
    while stack != []
      invariant Walk(root, stack, values.Keys, begun)
      invariant forall n :: n in values ==> Covered(n, env) && values[n] == Eval(n, Lift(env))
      decreases Nodes(root) - begun, |stack|
    {
      var top := stack[|stack| - 1];
      var rest := stack[..|stack| - 1];
      assert stack == rest + [top];
      var node := top.node;
      if node in values {
        WalkPops(root, rest, top, values.Keys, begun, values.Keys);
        stack := rest;
      } else if node.Var? {
        if node.id >= 2 && node.id !in env {
          WalkTop(root, rest, top, values.Keys, begun);
          NodeSupport(root, node);
          return Missing(node.id);
        }
        WalkPops(root, rest, top, values.Keys, begun, values.Keys + {node});
        var v := if node.id == 0 then false else if node.id == 1 then true else env[node.id];
        assert values[node := v].Keys == values.Keys + {node};
        values := values[node := v];
        stack := rest;
      } else if !top.visited {
        WalkOpens(root, rest, node, values.Keys, begun, ChildFrames(node));
        stack := rest + [Frame(node, true)] + ChildFrames(node);
        begun := begun + {node};
      } else {
        WalkReady(root, rest, node, values.Keys, begun);
        WalkPops(root, rest, top, values.Keys, begun, values.Keys + {node});
        var v;
        match node {
          case Not(a) => v := !values[a];
          case Bin(op, l, r) => v := Apply(op, values[l], values[r]);
        }
        assert values[node := v].Keys == values.Keys + {node};
        values := values[node := v];
        stack := rest;
      }
    }
    WalkEnds(root, stack, values.Keys, begun);
    result := Evaluated(values[root]);
  }

  ghost predicate OnList(stack: seq<Expr>, c: Expr) {
    c in stack
  }

  /** `getSupportVars`: a worklist with a visited set. */
  method SupportVars(root: Expr) returns (support: set<nat>)
    ensures support == Support(root)
  {
    support := {};
    var visited: set<Expr> := {};
    var stack := [root];
    NodesSelf(root);
    while stack != []
      invariant forall i :: 0 <= i < |stack| ==> stack[i] in Nodes(root)
      invariant visited <= Nodes(root)
      invariant root in visited || root in stack
      invariant forall n, c :: n in visited && IsChild(c, n) ==> c in visited || OnList(stack, c)
      invariant forall n :: n in visited && n.Var? ==> n.id in support
      invariant support <= Support(root)
      decreases Nodes(root) - visited, |stack|
    {
      var node := stack[|stack| - 1];
      var rest := stack[..|stack| - 1];
      assert stack == rest + [node];
      assert forall c :: OnList(stack, c) ==> c == node || OnList(rest, c);
      if node in visited {
        stack := rest;
      } else {
        visited := visited + {node};
        NodeSupport(root, node);
        match node {
          case Var(id) =>
            support := support + {id};
            stack := rest;
          case Not(a) =>
            NodesClosed(root, node, a);
            stack := rest + [a];
          case Bin(_, l, r) =>
            NodesClosed(root, node, l);
            NodesClosed(root, node, r);
            stack := rest + [l, r];
        }
        assert forall c :: OnList(rest, c) ==> OnList(stack, c);
      }
    }
    ClosedSetHasSupport(root, visited, support);
  }

  lemma {:induction false} ClosedSetHasSupport(e: Expr, visited: set<Expr>, support: set<nat>)
    requires e in visited
    requires forall n, c :: n in visited && IsChild(c, n) ==> c in visited
    requires forall n :: n in visited && n.Var? ==> n.id in support
    ensures Support(e) <= support
  {
    match e
    case Var(_) =>
    case Not(a) =>
      assert IsChild(a, e);
      ClosedSetHasSupport(a, visited, support);
    case Bin(_, l, r) =>
      assert IsChild(l, e) && IsChild(r, e);
      ClosedSetHasSupport(l, visited, support);
      ClosedSetHasSupport(r, visited, support);
  }
}
