/**
 The hash-consing cache. Nodes live in an arena and are named by pointers; the table maps
 a canonical key to the one node that carries it.

 The canonical key sorts the children with the structural order, and that order is total
 only because the cache is canonical. `Valid` carries both facts at once, and every
 factory is proved to return the node of the corresponding pure factory in BoolExprs.
 */
module BoolExprCaching {
  import opened BoolExprs

  /** Pointer 0 is null; pointer p > 0 names node p - 1 of the arena. */
  type Ptr = nat

  datatype Node = Node(op: Op, varId: nat, left: Ptr, right: Ptr, hash: int)

  datatype Key = Key(op: Op, varId: nat, l: Ptr, r: Ptr)

  /** Every node has the shape of its operator, and its children are older than itself. */
  ghost predicate Arena(nodes: seq<Node>) {
    forall p: Ptr {:trigger NodeShape(nodes, p)} :: 0 < p <= |nodes| ==> NodeShape(nodes, p)
  }

  ghost predicate NodeShape(nodes: seq<Node>, p: Ptr)
    requires 0 < p <= |nodes|
  {
    var n := nodes[p - 1];
    match n.op
    case VAR => n.left == 0 && n.right == 0
    case NOT => n.varId == 0 && 0 < n.left < p && n.right == 0
    case Gate(_) => n.varId == 0 && 0 < n.left < p && 0 < n.right < p
  }

  /** The tree that a pointer stands for. */
  ghost function Unfold(nodes: seq<Node>, p: Ptr): Expr
    requires Arena(nodes) && 0 < p <= |nodes|
    decreases p
  {
    assert NodeShape(nodes, p);
    var n := nodes[p - 1];
    match n.op
    case VAR => Var(n.varId)
    case NOT => Not(Unfold(nodes, n.left))
    case Gate(op) => Bin(op, Unfold(nodes, n.left), Unfold(nodes, n.right))
  }

  /** The key under which a node is filed: the larger child comes first. */
  ghost function KeyOf(n: Node): Key {
    match n.op
    case VAR => Key(VAR, n.varId, 0, 0)
    case NOT => Key(NOT, 0, n.left, 0)
    case Gate(_) => Key(n.op, 0, n.right, n.left)
  }

  /** The stored hash is the hash of the tree, and children are sorted. */
  ghost predicate NodeSound(h: Mixer, nodes: seq<Node>, p: Ptr)
    requires Arena(nodes) && 0 < p <= |nodes|
  {
    && assert NodeShape(nodes, p);
       nodes[p - 1].hash == Hash(h, Unfold(nodes, p))
    && (nodes[p - 1].op.Gate? ==>
          LessEq(h, Unfold(nodes, nodes[p - 1].left), Unfold(nodes, nodes[p - 1].right)))
  }

  ghost predicate AllSound(h: Mixer, nodes: seq<Node>)
    requires Arena(nodes)
  {
    forall p: Ptr {:trigger NodeSound(h, nodes, p)} :: 0 < p <= |nodes| ==> NodeSound(h, nodes, p)
  }

  /** Every node is filed under its own key, and the table holds nothing else. */
  ghost predicate Filed(nodes: seq<Node>, table: map<Key, Ptr>) {
    && (forall k :: k in table ==> 0 < table[k] <= |nodes| && KeyOf(nodes[table[k] - 1]) == k)
    && (forall i :: 0 <= i < |nodes| ==> KeyOf(nodes[i]) in table && table[KeyOf(nodes[i])] == i + 1)
  }

  ghost predicate Canonical(h: Mixer, nodes: seq<Node>, table: map<Key, Ptr>) {
    Arena(nodes) && AllSound(h, nodes) && Filed(nodes, table)
  }

  /** Structurally equal interned nodes are the same node. */
  lemma {:induction false} UnfoldInjective(h: Mixer, nodes: seq<Node>, table: map<Key, Ptr>, p: Ptr, q: Ptr)
    requires Canonical(h, nodes, table)
    requires 0 < p <= |nodes| && 0 < q <= |nodes|
    requires Unfold(nodes, p) == Unfold(nodes, q)
    ensures p == q
    decreases p
  {
    assert NodeShape(nodes, p) && NodeShape(nodes, q);
    var n, m := nodes[p - 1], nodes[q - 1];
    if n.op == NOT {
      UnfoldInjective(h, nodes, table, n.left, m.left);
    } else if n.op.Gate? {
      UnfoldInjective(h, nodes, table, n.left, m.left);
      UnfoldInjective(h, nodes, table, n.right, m.right);
    }
    assert KeyOf(n) == KeyOf(m);
    assert table[KeyOf(nodes[p - 1])] == p - 1 + 1;
  }

  lemma {:induction false} UnfoldPrefix(nodes: seq<Node>, nodes': seq<Node>, p: Ptr)
    requires Arena(nodes) && Arena(nodes') && nodes <= nodes'
    requires 0 < p <= |nodes|
    ensures Unfold(nodes, p) == Unfold(nodes', p)
    decreases p
  {
    assert NodeShape(nodes, p) && NodeShape(nodes', p);
    assert nodes'[p - 1] == nodes[p - 1];
    var n := nodes[p - 1];
    match n.op
    case VAR =>
    case NOT => UnfoldPrefix(nodes, nodes', n.left);
    case Gate(_) =>
      UnfoldPrefix(nodes, nodes', n.left);
      UnfoldPrefix(nodes, nodes', n.right);
  }

  /** `operator<` as the code runs it: on pointers, comparing stored hashes first. */
  function PtrLess(nodes: seq<Node>, p: Ptr, q: Ptr): bool
    requires Arena(nodes)
    requires 0 < p <= |nodes| && 0 < q <= |nodes|
    decreases p + q
  {
    assert NodeShape(nodes, p) && NodeShape(nodes, q);
    var n, m := nodes[p - 1], nodes[q - 1];
    if p == q then false
    else if n.hash != m.hash then n.hash < m.hash
    else if n.op != m.op then OpRank(n.op) < OpRank(m.op)
    else if n.varId != m.varId then n.varId < m.varId
    else if n.left != m.left && (n.left == 0 || m.left == 0) then n.left == 0
    else if n.left != m.left && PtrLess(nodes, n.left, m.left) then true
    else if n.left != m.left && PtrLess(nodes, m.left, n.left) then false
    else if n.right != m.right && (n.right == 0 || m.right == 0) then n.right == 0
    else n.right != m.right && PtrLess(nodes, n.right, m.right)
  }

  /** On a canonical cache the pointer comparison is the structural order of the trees. */
  lemma {:induction false} PtrLessIsLess(h: Mixer, nodes: seq<Node>, table: map<Key, Ptr>, p: Ptr, q: Ptr)
    requires Canonical(h, nodes, table)
    requires 0 < p <= |nodes| && 0 < q <= |nodes|
    ensures PtrLess(nodes, p, q) == Less(h, Unfold(nodes, p), Unfold(nodes, q))
    decreases p + q
  {
    assert NodeShape(nodes, p) && NodeShape(nodes, q);
    assert NodeSound(h, nodes, p) && NodeSound(h, nodes, q);
    var n, m := nodes[p - 1], nodes[q - 1];
    if p != q {
      if Unfold(nodes, p) == Unfold(nodes, q) {
        UnfoldInjective(h, nodes, table, p, q);
      }
      if n.op == m.op && !n.op.VAR? {
        PtrLessIsLess(h, nodes, table, n.left, m.left);
        PtrLessIsLess(h, nodes, table, m.left, n.left);
        if Unfold(nodes, n.left) == Unfold(nodes, m.left) {
          UnfoldInjective(h, nodes, table, n.left, m.left);
        }
        if n.op.Gate? {
          PtrLessIsLess(h, nodes, table, n.right, m.right);
          if Unfold(nodes, n.right) == Unfold(nodes, m.right) {
            UnfoldInjective(h, nodes, table, n.right, m.right);
          }
        }
      }
    }
  }

  /** `operator<` is a strict total order on interned nodes, under any hash collisions. */
  lemma {:induction false} InternedOrderIsTotal(h: Mixer, nodes: seq<Node>, table: map<Key, Ptr>, p: Ptr, q: Ptr,
      r: Ptr)
    requires Canonical(h, nodes, table)
    requires 0 < p <= |nodes| && 0 < q <= |nodes| && 0 < r <= |nodes|
    ensures !PtrLess(nodes, p, p)
    ensures p != q ==> PtrLess(nodes, p, q) != PtrLess(nodes, q, p)
    ensures PtrLess(nodes, p, q) && PtrLess(nodes, q, r) ==> PtrLess(nodes, p, r)
  {
    PtrLessIsLess(h, nodes, table, p, q);
    PtrLessIsLess(h, nodes, table, q, p);
    PtrLessIsLess(h, nodes, table, q, r);
    PtrLessIsLess(h, nodes, table, p, r);
    var a, b, c := Unfold(nodes, p), Unfold(nodes, q), Unfold(nodes, r);
    if a == b {
      UnfoldInjective(h, nodes, table, p, q);
    }
    LessTotal(h, a, b);
    if PtrLess(nodes, p, q) && PtrLess(nodes, q, r) {
      LessTransitive(h, a, b, c);
    }
  }

  /** What the constructor builds: unary nodes as given, gates with sorted children. */
  function NewNode(h: Mixer, nodes: seq<Node>, op: Op, varId: nat, a: Ptr, b: Ptr): (n: Node)
    requires Arena(nodes) && a <= |nodes| && b <= |nodes|
    requires b != 0 ==> a != 0
  {
    var (l, r) := if b == 0 then (a, 0) else if !PtrLess(nodes, a, b) then (b, a) else (a, b);
    var hl := if l == 0 then NULL_LEFT else nodes[l - 1].hash;
    var hr := if r == 0 then NULL_RIGHT else nodes[r - 1].hash;
    Node(op, varId, l, r, h(op, varId, hl, hr))
  }

  /** Old nodes stay sound when the arena grows. */
  lemma {:induction false} NodeSoundKept(h: Mixer, nodes: seq<Node>, n: Node, p: Ptr)
    requires Arena(nodes) && Arena(nodes + [n]) && 0 < p <= |nodes|
    requires NodeSound(h, nodes, p)
    ensures NodeSound(h, nodes + [n], p)
  {
    var nodes' := nodes + [n];
    assert nodes'[p - 1] == nodes[p - 1];
    assert NodeShape(nodes, p);
    UnfoldPrefix(nodes, nodes', p);
    if nodes[p - 1].op.Gate? {
      UnfoldPrefix(nodes, nodes', nodes[p - 1].left);
      UnfoldPrefix(nodes, nodes', nodes[p - 1].right);
    }
  }

  /** Filing a new node under a fresh canonical key keeps the cache canonical. */
  lemma {:induction false} AppendKeepsCanonical(h: Mixer, nodes: seq<Node>, table: map<Key, Ptr>, n: Node, e: Expr)
    requires Canonical(h, nodes, table)
    requires KeyOf(n) !in table
    requires Arena(nodes + [n])
    requires Unfold(nodes + [n], |nodes| + 1) == e && n.hash == Hash(h, e)
    requires e.Bin? ==> LessEq(h, e.left, e.right)
    ensures Canonical(h, nodes + [n], table[KeyOf(n) := |nodes| + 1])
  {
    var nodes' := nodes + [n];
    assert NodeSound(h, nodes', |nodes'|) by {
      assert NodeShape(nodes', |nodes'|);
    }
    FiledGrows(nodes, table, n);
    hide NodeSound, NodeShape, Hash, Unfold, Filed;
    forall p: Ptr | 0 < p <= |nodes'|
      ensures NodeSound(h, nodes', p)
    {
      if p <= |nodes| {
        assert NodeSound(h, nodes, p);
        NodeSoundKept(h, nodes, n, p);
      }
    }
  }

  lemma {:induction false} FiledGrows(nodes: seq<Node>, table: map<Key, Ptr>, n: Node)
    requires Filed(nodes, table) && KeyOf(n) !in table
    ensures Filed(nodes + [n], table[KeyOf(n) := |nodes| + 1])
  {
  }

  /** The key sorted by the pointer order is the key under which the node would be filed. */
  lemma {:induction false} CanonicalGateKey(h: Mixer, nodes: seq<Node>, table: map<Key, Ptr>, op: BinOp, l: Ptr, r: Ptr)
    requires Canonical(h, nodes, table)
    requires 0 < l <= |nodes| && 0 < r <= |nodes|
    ensures var n := NewNode(h, nodes, Gate(op), 0, l, r);
      && Arena(nodes + [n])
      && KeyOf(n) == (if !PtrLess(nodes, r, l) then Key(Gate(op), 0, r, l) else Key(Gate(op), 0, l, r))
      && Unfold(nodes + [n], |nodes| + 1) == Ordered(h, op, Unfold(nodes, l), Unfold(nodes, r))
      && n.hash == Hash(h, Unfold(nodes + [n], |nodes| + 1))
      && LessEq(h, Unfold(nodes, n.left), Unfold(nodes, n.right))
  {
    var n := NewNode(h, nodes, Gate(op), 0, l, r);
    var nodes' := nodes + [n];
    InternedOrderIsTotal(h, nodes, table, l, r, l);
    PtrLessIsLess(h, nodes, table, l, r);
    PtrLessIsLess(h, nodes, table, r, l);
    LessTotal(h, Unfold(nodes, l), Unfold(nodes, r));
    ArenaExtends(nodes, n);
    assert NodeShape(nodes', |nodes'|);
    UnfoldPrefix(nodes, nodes', l);
    UnfoldPrefix(nodes, nodes', r);
    assert NodeSound(h, nodes, l) && NodeSound(h, nodes, r);
  }

  lemma {:induction false} ArenaExtends(nodes: seq<Node>, n: Node)
    requires Arena(nodes) && NodeShape(nodes + [n], |nodes| + 1)
    ensures Arena(nodes + [n])
  {
    forall p: Ptr | 0 < p <= |nodes + [n]|
      ensures NodeShape(nodes + [n], p)
    {
      if p <= |nodes| {
        assert NodeShape(nodes, p);
      }
    }
  }

  class BoolExprCache {
    const h: Mixer
    /** The machine address of each node: an arbitrary function, so raw pointer order is arbitrary. */
    const addr: nat -> int
    var nodes: seq<Node>
    var table: map<Key, Ptr>
    var lastId: nat
    var queries: nat
    var misses: nat
    var hits: nat

    ghost predicate Valid()
      reads this
    {
      Canonical(h, nodes, table) && queries == hits + misses && misses == |nodes| && lastId == 1 + queries
    }

    ghost predicate Interned(p: Ptr)
      reads this
    {
      0 < p <= |nodes|
    }

    ghost function Tree(p: Ptr): Expr
      requires Valid() && Interned(p)
      reads this
    {
      Unfold(nodes, p)
    }

    constructor (h: Mixer, addr: nat -> int)
      ensures Valid() && nodes == [] && table == map[]
      ensures this.h == h
    {
      this.h, this.addr := h, addr;
      nodes, table := [], map[];
      lastId, queries, misses, hits := 1, 0, 0, 0;
    }

    /** The three shapes the factories ask for: a variable, a negation, a gate over two nodes. */
    ghost predicate Request(op: Op, varId: nat, l: Ptr, r: Ptr)
      reads this
    {
      match op
      case VAR => l == 0 && r == 0
      case NOT => varId == 0 && Interned(l) && r == 0
      case Gate(_) => varId == 0 && Interned(l) && Interned(r)
    }

    ghost function Requested(op: Op, varId: nat, l: Ptr, r: Ptr): Expr
      requires Valid() && Request(op, varId, l, r)
      reads this
    {
      match op
      case VAR => Var(varId)
      case NOT => Not(Tree(l))
      case Gate(g) => Ordered(h, g, Tree(l), Tree(r))
    }

    /** The tuple key: children sorted by the pointer comparison, larger one first. */
    function TupleKey(op: Op, varId: nat, l: Ptr, r: Ptr): (k: Key)
      requires Valid() && Request(op, varId, l, r)
      reads this
    {
      if l == 0 then Key(op, varId, r, 0)
      else if r == 0 then Key(op, varId, l, 0)
      else if !PtrLess(nodes, r, l) then Key(op, varId, r, l)
      else Key(op, varId, l, r)
    }

    /** Look up a key or create its node. */
    method GetExpression(op: Op, varId: nat, l: Ptr, r: Ptr) returns (p: Ptr)
      requires Valid() && Request(op, varId, l, r)
      modifies this
      ensures Valid() && old(nodes) <= nodes && Interned(p)
      ensures Tree(p) == old(Requested(op, varId, l, r))
      ensures queries == old(queries) + 1
      ensures old(TupleKey(op, varId, l, r) in table) ==> nodes == old(nodes) && hits == old(hits) + 1
    {
      var tk := TupleKey(op, varId, l, r);
      var node := NewNode(h, nodes, op, varId, l, r);
      KeyMatches(op, varId, l, r);
      p := Intern(tk, node, Requested(op, varId, l, r));
    }

    method Intern(tk: Key, node: Node, ghost e: Expr) returns (p: Ptr)
      requires Valid()
      requires KeyOf(node) == tk && Arena(nodes + [node])
      requires Unfold(nodes + [node], |nodes| + 1) == e && node.hash == Hash(h, e)
      requires e.Bin? ==> LessEq(h, e.left, e.right)
      modifies this
      ensures Valid() && old(nodes) <= nodes && Interned(p)
      ensures Tree(p) == e
      ensures queries == old(queries) + 1
      ensures tk in old(table) ==> nodes == old(nodes) && hits == old(hits) + 1
    {
      queries := queries + 1;
      lastId := lastId + 1;
      if tk in table {
        hits := hits + 1;
        p := table[tk];
        SameKeySameTree(h, nodes, table, p, node, e);
      } else {
        AppendKeepsCanonical(h, nodes, table, node, e);
        nodes := nodes + [node];
        p := |nodes|;
        table := table[tk := p];
        misses := misses + 1;
      }
    }

    /** The node that the constructor would build is filed under the key being looked up. */
    lemma {:induction false} KeyMatches(op: Op, varId: nat, l: Ptr, r: Ptr)
      requires Valid() && Request(op, varId, l, r)
      ensures var n := NewNode(h, nodes, op, varId, l, r);
        var e := Requested(op, varId, l, r);
        && Arena(nodes + [n])
        && KeyOf(n) == TupleKey(op, varId, l, r)
        && Unfold(nodes + [n], |nodes| + 1) == e
        && n.hash == Hash(h, e)
        && (e.Bin? ==> LessEq(h, e.left, e.right))
    {
      var n := NewNode(h, nodes, op, varId, l, r);
      if op.Gate? {
        CanonicalGateKey(h, nodes, table, op.kind, l, r);
        LessTotal(h, Tree(l), Tree(r));
      } else {
        ArenaExtends(nodes, n);
        assert NodeShape(nodes + [n], |nodes| + 1);
        if op == NOT {
          UnfoldPrefix(nodes, nodes + [n], l);
          assert NodeSound(h, nodes, l);
        }
      }
    }

    method VarNode(id: nat) returns (p: Ptr)
      requires Valid()
      modifies this
      ensures Valid() && old(nodes) <= nodes && Interned(p)
      ensures Tree(p) == Var(id)
    {
      p := GetExpression(VAR, id, 0, 0);
    }

    method NotNode(a: Ptr) returns (p: Ptr)
      requires Valid() && Interned(a)
      modifies this
      ensures Valid() && old(nodes) <= nodes && Interned(p)
      ensures Tree(p) == MkNot(old(Tree(a)))
    {
      assert NodeShape(nodes, a);
      var n := nodes[a - 1];
      if n.op == VAR && n.varId < 2 {
        p := VarNode(1 - n.varId);
        return;
      }
      if n.op == NOT {
        p := n.left;
        return;
      }
      p := GetExpression(NOT, 0, a, 0);
    }

    /** `And`, `Or` and `Xor` after their folding rules: raw pointers decide the order of the call. */
    method GateNode(op: BinOp, a: Ptr, b: Ptr) returns (p: Ptr)
      requires Valid() && Interned(a) && Interned(b)
      modifies this
      ensures Valid() && old(nodes) <= nodes && Interned(p)
      ensures Tree(p) == Ordered(h, op, old(Tree(a)), old(Tree(b)))
    {
      LessTotal(h, Tree(a), Tree(b));
      if addr(b) < addr(a) {
        p := GetExpression(Gate(op), 0, a, b);
      } else {
        p := GetExpression(Gate(op), 0, b, a);
      }
    }

    predicate IsConstNode(p: Ptr, id: nat)
      requires 0 < p <= |nodes|
      reads this
    {
      nodes[p - 1].op == VAR && nodes[p - 1].varId == id
    }

    predicate IsNegationOf(p: Ptr, q: Ptr)
      requires 0 < p <= |nodes|
      reads this
    {
      nodes[p - 1].op == NOT && nodes[p - 1].left == q
    }

    /** The pointer tests of the folding rules decide exactly the tree tests. */
    lemma {:induction false} PointerTests(a: Ptr, b: Ptr)
      requires Valid() && Interned(a) && Interned(b)
      ensures forall id :: IsConstNode(a, id) <==> Tree(a) == Var(id)
      ensures a == b <==> Tree(a) == Tree(b)
      ensures IsNegationOf(a, b) <==> Tree(a) == Not(Tree(b))
    {
      assert NodeShape(nodes, a) && NodeShape(nodes, b);
      if Tree(a) == Tree(b) {
        UnfoldInjective(h, nodes, table, a, b);
      }
      if Tree(a) == Not(Tree(b)) {
        UnfoldInjective(h, nodes, table, nodes[a - 1].left, b);
      }
    }

    method And(a: Ptr, b: Ptr) returns (p: Ptr)
      requires Valid() && Interned(a) && Interned(b)
      modifies this
      ensures Valid() && old(nodes) <= nodes && Interned(p)
      ensures Tree(p) == MkAnd(h, old(Tree(a)), old(Tree(b)))
    {
      PointerTests(a, b);
      PointerTests(b, a);
      if IsConstNode(a, 0) || IsConstNode(b, 0) {
        p := VarNode(0);
      } else if IsConstNode(a, 1) {
        p := b;
      } else if IsConstNode(b, 1) {
        p := a;
      } else if a == b {
        p := a;
      } else if IsNegationOf(a, b) {
        p := VarNode(0);
      } else if IsNegationOf(b, a) {
        p := VarNode(0);
      } else {
        p := GateNode(AND, a, b);
      }
    }

    method Or(a: Ptr, b: Ptr) returns (p: Ptr)
      requires Valid() && Interned(a) && Interned(b)
      modifies this
      ensures Valid() && old(nodes) <= nodes && Interned(p)
      ensures Tree(p) == MkOr(h, old(Tree(a)), old(Tree(b)))
    {
      PointerTests(a, b);
      PointerTests(b, a);
      if IsConstNode(a, 1) || IsConstNode(b, 1) {
        p := VarNode(1);
      } else if IsConstNode(a, 0) {
        p := b;
      } else if IsConstNode(b, 0) {
        p := a;
      } else if a == b {
        p := a;
      } else if IsNegationOf(a, b) {
        p := VarNode(1);
      } else if IsNegationOf(b, a) {
        p := VarNode(1);
      } else {
        p := GateNode(OR, a, b);
      }
    }

    method Xor(a: Ptr, b: Ptr) returns (p: Ptr)
      requires Valid() && Interned(a) && Interned(b)
      modifies this
      ensures Valid() && old(nodes) <= nodes && Interned(p)
      ensures Tree(p) == MkXor(h, old(Tree(a)), old(Tree(b)))
    {
      PointerTests(a, b);
      PointerTests(b, a);
      if IsConstNode(a, 0) {
        p := b;
      } else if IsConstNode(b, 0) {
        p := a;
      } else if IsConstNode(a, 1) {
        p := NotNode(b);
      } else if IsConstNode(b, 1) {
        p := NotNode(a);
      } else if a == b {
        p := VarNode(0);
      } else {
        p := GateNode(XOR, a, b);
      }
    }

    method Gate2(op: BinOp, a: Ptr, b: Ptr) returns (p: Ptr)
      requires Valid() && Interned(a) && Interned(b)
      modifies this
      ensures Valid() && old(nodes) <= nodes && Interned(p)
      ensures Tree(p) == MkGate(h, op, old(Tree(a)), old(Tree(b)))
    {
      match op
      case AND => p := And(a, b);
      case OR => p := Or(a, b);
      case XOR => p := Xor(a, b);
    }

    /** Building a gate twice with its operands swapped yields the identical pointer. */
    method SwappedOperands(op: BinOp, a: Ptr, b: Ptr) returns (p: Ptr, q: Ptr)
      requires Valid() && Interned(a) && Interned(b)
      modifies this
      ensures Valid() && old(nodes) <= nodes && Interned(p)
      ensures p == q
    {
      GateCommutes(h, op, Tree(a), Tree(b));
      p := Gate2(op, a, b);
      UnfoldPrefix(old(nodes), nodes, a);
      UnfoldPrefix(old(nodes), nodes, b);
      ghost var mid := nodes;
      q := Gate2(op, b, a);
      UnfoldPrefix(mid, nodes, p);
      UnfoldInjective(h, nodes, table, p, q);
    }
  }

  /** Two nodes filed under the same key have the same tree. */
  lemma {:induction false} SameKeySameTree(h: Mixer, nodes: seq<Node>, table: map<Key, Ptr>, p: Ptr, n: Node, e: Expr)
    requires Canonical(h, nodes, table) && 0 < p <= |nodes|
    requires Arena(nodes + [n]) && Unfold(nodes + [n], |nodes| + 1) == e
    requires KeyOf(n) == KeyOf(nodes[p - 1])
    ensures Unfold(nodes, p) == e
  {
    assert NodeShape(nodes, p);
    assert NodeShape(nodes + [n], |nodes| + 1);
    var m := nodes[p - 1];
    assert n.op == m.op && n.left == m.left && n.right == m.right;
    if m.op == NOT {
      UnfoldPrefix(nodes, nodes + [n], m.left);
    } else if m.op.Gate? {
      UnfoldPrefix(nodes, nodes + [n], m.left);
      UnfoldPrefix(nodes, nodes + [n], m.right);
    }
  }
}
