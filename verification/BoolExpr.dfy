/**
 The Boolean expressions of the tool: their meaning, the structural order that the
 factories sort operands by, and the folding factories themselves.

 An expression is a tree here. A hash-consed node and its tree are interchangeable,
 because no two interned nodes have the same tree; module BoolExprCaching proves that.
 */
module BoolExprs {

  datatype BinOp = AND | OR | XOR

  datatype Op = VAR | NOT | Gate(kind: BinOp)

  /** Variable 0 is the constant false and variable 1 the constant true. */
  datatype Expr =
    | Var(id: nat)
    | Not(arg: Expr)
    | Bin(op: BinOp, left: Expr, right: Expr)

  type Env = nat -> bool

  const FALSE: Expr := Var(0)
  const TRUE: Expr := Var(1)

  predicate IsConst(e: Expr, value: bool) {
    e == if value then TRUE else FALSE
  }

  function Apply(op: BinOp, a: bool, b: bool): bool {
    match op
    case AND => a && b
    case OR => a || b
    case XOR => a != b
  }

  /** The meaning of an expression. */
  function Eval(e: Expr, env: Env): bool {
    match e
    case Var(id) => if id == 0 then false else if id == 1 then true else env(id)
    case Not(a) => !Eval(a, env)
    case Bin(op, l, r) => Apply(op, Eval(l, env), Eval(r, env))
  }

  ghost predicate Satisfiable(e: Expr) {
    exists env :: Eval(e, env)
  }

  function Support(e: Expr): set<nat> {
    match e
    case Var(id) => {id}
    case Not(a) => Support(a)
    case Bin(_, l, r) => Support(l) + Support(r)
  }

  function Size(e: Expr): nat {
    match e
    case Var(_) => 1
    case Not(a) => 1 + Size(a)
    case Bin(_, l, r) => 1 + Size(l) + Size(r)
  }

  predicate IsChild(c: Expr, e: Expr) {
    match e
    case Var(_) => false
    case Not(a) => c == a
    case Bin(_, l, r) => c == l || c == r
  }

  /** Two environments that agree on the free variables give the same value. */
  lemma {:induction false} EvalDependsOnSupport(e: Expr, env: Env, env': Env)
    requires forall v :: v in Support(e) && v >= 2 ==> env(v) == env'(v)
    ensures Eval(e, env) == Eval(e, env')
  {
    match e
    case Var(id) =>
    case Not(a) => EvalDependsOnSupport(a, env, env');
    case Bin(_, l, r) =>
      EvalDependsOnSupport(l, env, env');
      EvalDependsOnSupport(r, env, env');
  }

  // ----- the structural order -----

  /**
   The hash of a node is an arbitrary function of its operator, its variable and the
   hashes of its children, so every collision is possible.
   */
  type Mixer = (Op, nat, int, int) -> int

  const NULL_LEFT: int := 0x6a09e667f3bcc909
  const NULL_RIGHT: int := 0xbb67ae8584caa73b

  function OpOf(e: Expr): Op {
    match e
    case Var(_) => VAR
    case Not(_) => NOT
    case Bin(op, _, _) => Gate(op)
  }

  /** The position of an operator in the enumeration VAR, AND, OR, NOT, XOR. */
  function OpRank(op: Op): nat {
    match op
    case VAR => 0
    case Gate(AND) => 1
    case Gate(OR) => 2
    case NOT => 3
    case Gate(XOR) => 4
  }

  function Hash(h: Mixer, e: Expr): int {
    match e
    case Var(id) => h(VAR, id, NULL_LEFT, NULL_RIGHT)
    case Not(a) => h(NOT, 0, Hash(h, a), NULL_RIGHT)
    case Bin(op, l, r) => h(Gate(op), 0, Hash(h, l), Hash(h, r))
  }

  /** `operator<`: hash first, then operator, variable, left child and right child. */
  predicate Less(h: Mixer, a: Expr, b: Expr)
    decreases Size(a) + Size(b)
  {
    if a == b then false
    else if Hash(h, a) != Hash(h, b) then Hash(h, a) < Hash(h, b)
    else if OpOf(a) != OpOf(b) then OpRank(OpOf(a)) < OpRank(OpOf(b))
    else
      match a
      case Var(id) => id < b.id
      case Not(x) => Less(h, x, b.arg)
      case Bin(_, l, r) =>
        if l != b.left && Less(h, l, b.left) then true
        else if l != b.left && Less(h, b.left, l) then false
        else r != b.right && Less(h, r, b.right)
  }

  predicate LessEq(h: Mixer, a: Expr, b: Expr) {
    !Less(h, b, a)
  }

  /** Exactly one of two different expressions is the smaller one. */
  lemma {:induction false} LessTotal(h: Mixer, a: Expr, b: Expr)
    ensures a != b ==> Less(h, a, b) != Less(h, b, a)
    decreases Size(a) + Size(b)
  {
    if a != b && Hash(h, a) == Hash(h, b) && OpOf(a) == OpOf(b) {
      match a
      case Var(_) =>
      case Not(x) => LessTotal(h, x, b.arg);
      case Bin(_, l, r) =>
        LessTotal(h, l, b.left);
        LessTotal(h, r, b.right);
    }
  }

  lemma {:induction false} LessTransitive(h: Mixer, a: Expr, b: Expr, c: Expr)
    requires Less(h, a, b) && Less(h, b, c)
    ensures Less(h, a, c)
    decreases Size(a)
  {
    LessTotal(h, a, b);
    if Hash(h, a) == Hash(h, b) == Hash(h, c) && OpOf(a) == OpOf(b) == OpOf(c) {
      match a
      case Var(_) =>
      case Not(x) => LessTransitive(h, x, b.arg, c.arg);
      case Bin(_, l, r) =>
        LessTotal(h, l, b.left);
        LessTotal(h, b.left, c.left);
        LessTotal(h, l, c.left);
        if l != b.left && b.left != c.left {
          LessTransitive(h, l, b.left, c.left);
        } else if l == b.left == c.left {
          LessTransitive(h, r, b.right, c.right);
        }
    }
  }

  // ----- the factories -----

  /** The children of a gate are stored smaller one first, whatever order they come in. */
  function Ordered(h: Mixer, op: BinOp, a: Expr, b: Expr): (r: Expr)
    ensures forall env :: Eval(r, env) == Apply(op, Eval(a, env), Eval(b, env))
    ensures Support(r) == Support(a) + Support(b)
  {
    if LessEq(h, b, a) then Bin(op, b, a) else Bin(op, a, b)
  }

  function MkNot(a: Expr): (r: Expr)
    ensures forall env :: Eval(r, env) == !Eval(a, env)
    ensures Support(r) <= Support(a) + {0, 1}
  {
    if a.Var? && a.id < 2 then Var(1 - a.id)
    else if a.Not? then a.arg
    else Not(a)
  }

  function MkAnd(h: Mixer, a: Expr, b: Expr): (r: Expr)
    ensures forall env :: Eval(r, env) == (Eval(a, env) && Eval(b, env))
    ensures Support(r) <= Support(a) + Support(b) + {0, 1}
  {
    if a == FALSE || b == FALSE then FALSE
    else if a == TRUE then b
    else if b == TRUE then a
    else if a == b then a
    else if a == Not(b) || b == Not(a) then FALSE
    else Ordered(h, AND, a, b)
  }

  function MkOr(h: Mixer, a: Expr, b: Expr): (r: Expr)
    ensures forall env :: Eval(r, env) == (Eval(a, env) || Eval(b, env))
    ensures Support(r) <= Support(a) + Support(b) + {0, 1}
  {
    if a == TRUE || b == TRUE then TRUE
    else if a == FALSE then b
    else if b == FALSE then a
    else if a == b then a
    else if a == Not(b) || b == Not(a) then TRUE
    else Ordered(h, OR, a, b)
  }

  function MkXor(h: Mixer, a: Expr, b: Expr): (r: Expr)
    ensures forall env :: Eval(r, env) == (Eval(a, env) != Eval(b, env))
    ensures Support(r) <= Support(a) + Support(b) + {0, 1}
  {
    if a == FALSE then b
    else if b == FALSE then a
    else if a == TRUE then MkNot(b)
    else if b == TRUE then MkNot(a)
    else if a == b then FALSE
    else Ordered(h, XOR, a, b)
  }

  function MkGate(h: Mixer, op: BinOp, a: Expr, b: Expr): (r: Expr)
    ensures forall env :: Eval(r, env) == Apply(op, Eval(a, env), Eval(b, env))
    ensures Support(r) <= Support(a) + Support(b) + {0, 1}
  {
    match op
    case AND => MkAnd(h, a, b)
    case OR => MkOr(h, a, b)
    case XOR => MkXor(h, a, b)
  }

  /** `makeEqualityExpr`. */
  function MkEqual(h: Mixer, a: Expr, b: Expr): (r: Expr)
    ensures forall env :: Eval(r, env) == (Eval(a, env) == Eval(b, env))
    ensures Support(r) <= Support(a) + Support(b) + {0, 1}
  {
    MkNot(MkXor(h, a, b))
  }

  /** Swapping the operands of a gate gives the same expression, not just an equivalent one. */
  lemma {:induction false} GateCommutes(h: Mixer, op: BinOp, a: Expr, b: Expr)
    ensures MkGate(h, op, a, b) == MkGate(h, op, b, a)
  {
    LessTotal(h, a, b);
  }
}
