/** Clock event classification by specialising an expression at both values of its clock carrier. */
module ClockModel {
  import opened Options
  import opened BoolExprs
  import opened Traversals
  import opened Simplification
  import opened Sat

  datatype Phase = Pos | Neg

  datatype ClockEvent = ClockEvent(domain: string, phase: Phase, enable: Option<Expr>)

  // ----- memoised substitution -----

  /** The value of an expression when even the constants are looked up. */
  function EvalBy(e: Expr, value: nat -> bool): bool {
    match e
    case Var(id) => value(id)
    case Not(a) => !EvalBy(a, value)
    case Bin(op, l, r) => Apply(op, EvalBy(l, value), EvalBy(r, value))
  }

  ghost function Plain(env: Env): nat -> bool { (id: nat) => Eval(Var(id), env) }

  lemma {:induction false} EvalIsPlain(e: Expr, env: Env)
    ensures Eval(e, env) == EvalBy(e, Plain(env))
  {
    match e
    case Var(_) =>
    case Not(a) => EvalIsPlain(a, env);
    case Bin(_, l, r) =>
      EvalIsPlain(l, env);
      EvalIsPlain(r, env);
  }

  /** Replaces leaves and rebuilds only the nodes that change. */
  function Substituted(h: Mixer, e: Expr, leaf: nat -> Expr): Expr {
    match e
    case Var(id) => leaf(id)
    case Not(a) =>
      var a' := Substituted(h, a, leaf);
      if a' == a then e else MkNot(a')
    case Bin(op, l, r) =>
      var l', r' := Substituted(h, l, leaf), Substituted(h, r, leaf);
      if l' == l && r' == r then e else MkGate(h, op, l', r')
  }

  ghost function Leaves(leaf: nat -> Expr, env: Env): nat -> bool { (id: nat) => Eval(leaf(id), env) }

  /** Substitution composes with evaluation. */
  lemma {:induction false} SubstitutedMeans(h: Mixer, e: Expr, leaf: nat -> Expr, env: Env)
    ensures Eval(Substituted(h, e, leaf), env) == EvalBy(e, Leaves(leaf, env))
  {
    hide MkGate, MkNot;
    match e
    case Var(_) =>
    case Not(a) => SubstitutedMeans(h, a, leaf, env);
    case Bin(_, l, r) =>
      SubstitutedMeans(h, l, leaf, env);
      SubstitutedMeans(h, r, leaf, env);
  }

  type Memo = map<Expr, Expr>

  ghost predicate MemoOk(h: Mixer, memo: Memo, leaf: nat -> Expr) {
    forall e :: e in memo ==> memo[e] == Substituted(h, e, leaf)
  }

  /** The recursion shared by both substitutions; the memo is threaded through and grows. */
  method Substitute(h: Mixer, root: Expr, leaf: nat -> Expr, memo: Memo) returns (r: Expr, memo': Memo)
    requires MemoOk(h, memo, leaf)
    ensures r == Substituted(h, root, leaf)
    ensures MemoOk(h, memo', leaf) && root in memo' && memo.Keys <= memo'.Keys
  {
    if root in memo {
      return memo[root], memo;
    }
    memo' := memo;
    match root {
      case Var(id) => r := leaf(id);
      case Not(a) =>
        var a';
        a', memo' := Substitute(h, a, leaf, memo');
        r := if a' == a then root else MkNot(a');
      case Bin(op, left, right) =>
        var left', right';
        left', memo' := Substitute(h, left, leaf, memo');
        right', memo' := Substitute(h, right, leaf, memo');
        r := if left' == left && right' == right then root else MkGate(h, op, left', right');
    }
    memo' := memo'[root := r];
  }

  function ConstExpr(value: bool): Expr { if value then TRUE else FALSE }

  function AssignmentLeaf(assignments: map<nat, bool>): nat -> Expr {
    (id: nat) => if id >= 2 && id in assignments then ConstExpr(assignments[id]) else Var(id)
  }

  function ReplacementLeaf(replacements: map<nat, Expr>): nat -> Expr {
    (id: nat) => if id in replacements then replacements[id] else Var(id)
  }

  method SimplifyWhenChanged(h: Mixer, original: Expr, changed: Expr) returns (r: Expr)
    ensures r == if changed == original then original else Rebuilt(h, changed)
    ensures forall env :: Eval(r, env) == Eval(changed, env)
  {
    if changed == original {
      return original;
    }
    r := Simplify(h, changed);
  }

  /** `substituteBoolExprVariableExpressions`: variables take the values of their replacements. */
  method SubstituteVariableExpressions(h: Mixer, root: Expr, replacements: map<nat, Expr>) returns (r: Expr)
    ensures forall env :: Eval(r, env) == EvalBy(root, Leaves(ReplacementLeaf(replacements), env))
  {
    var leaf := ReplacementLeaf(replacements);
    if replacements == map[] {
      r := root;
      forall env
        ensures Eval(r, env) == EvalBy(root, Leaves(leaf, env))
      {
        EvalIsPlain(root, env);
        SameLeaves(root, Plain(env), Leaves(leaf, env));
      }
      return;
    }
    var changed, memo := Substitute(h, root, leaf, map[]);
    r := SimplifyWhenChanged(h, root, changed);
    forall env
      ensures Eval(r, env) == EvalBy(root, Leaves(leaf, env))
    {
      SubstitutedMeans(h, root, leaf, env);
    }
  }

  lemma {:induction false} SameLeaves(e: Expr, a: nat -> bool, b: nat -> bool)
    requires forall id: nat :: a(id) == b(id)
    ensures EvalBy(e, a) == EvalBy(e, b)
  {
    match e
    case Var(_) =>
    case Not(x) => SameLeaves(x, a, b);
    case Bin(_, l, r) =>
      SameLeaves(l, a, b);
      SameLeaves(r, a, b);
  }

  function Specialized(h: Mixer, e: Expr, carrier: nat, value: bool): Expr {
    var changed := Substituted(h, e, AssignmentLeaf(map[carrier := value]));
    if changed == e then e else Rebuilt(h, changed)
  }

  function RisingEnable(h: Mixer, e: Expr, carrier: nat): Expr {
    Rebuilt(h, MkAnd(h, MkNot(Specialized(h, e, carrier, false)), Specialized(h, e, carrier, true)))
  }

  function FallingEnable(h: Mixer, e: Expr, carrier: nat): Expr {
    Rebuilt(h, MkAnd(h, Specialized(h, e, carrier, false), MkNot(Specialized(h, e, carrier, true))))
  }

  /** One edge folds to false and the other does not. */
  predicate OneEdge(h: Mixer, e: Expr, carrier: nat) {
    (RisingEnable(h, e, carrier) == FALSE) != (FallingEnable(h, e, carrier) == FALSE)
  }

  /** `specializeClockCarrier`: the expression with the carrier fixed. */
  method SpecializeClockCarrier(h: Mixer, e: Expr, carrier: nat, value: bool) returns (r: Expr)
    ensures r == Specialized(h, e, carrier, value)
    ensures forall env :: Eval(r, env) == Eval(e, With(env, carrier, value))
  {
    var leaf := AssignmentLeaf(map[carrier := value]);
    var changed, memo := Substitute(h, e, leaf, map[]);
    r := SimplifyWhenChanged(h, e, changed);
    forall env
      ensures Eval(changed, env) == Eval(e, With(env, carrier, value))
    {
      SubstitutedMeans(h, e, leaf, env);
      EvalIsPlain(e, With(env, carrier, value));
      AssignedLeaves(carrier, value, env);
      SameLeaves(e, Leaves(leaf, env), Plain(With(env, carrier, value)));
    }
  }

  lemma {:induction false} AssignedLeaves(carrier: nat, value: bool, env: Env)
    ensures forall id: nat ::
      Leaves(AssignmentLeaf(map[carrier := value]), env)(id) == Plain(With(env, carrier, value))(id)
  {
    var leaf := AssignmentLeaf(map[carrier := value]);
    forall id: nat
      ensures Leaves(leaf, env)(id) == Plain(With(env, carrier, value))(id)
    {
      var other := With(env, carrier, value);
      if id >= 2 && id == carrier {
        assert leaf(id) == ConstExpr(value) && other(id) == value;
      } else {
        assert leaf(id) == Var(id);
        assert id >= 2 ==> other(id) == env(id);
      }
    }
  }

  // ----- edges -----

  /** The expression rises (falls) when the carrier rises, everything else fixed. */
  ghost predicate Rises(e: Expr, carrier: nat, env: Env) {
    !Eval(e, With(env, carrier, false)) && Eval(e, With(env, carrier, true))
  }

  ghost predicate Falls(e: Expr, carrier: nat, env: Env) {
    Eval(e, With(env, carrier, false)) && !Eval(e, With(env, carrier, true))
  }

  /** The only carrier among the free variables. */
  ghost predicate OnlyCarrier(e: Expr, carriers: map<nat, ClockEvent>, c: nat) {
    c in Support(e) && c in carriers && forall v :: v in Support(e) && v in carriers ==> v == c
  }

  /** `singleCarrierInSupport`, in whatever order the support is visited. */
  method SingleCarrierInSupport(e: Expr, carriers: map<nat, ClockEvent>) returns (r: Option<nat>)
    ensures r.Some? ==> OnlyCarrier(e, carriers, r.value)
    ensures r.None? ==> forall c :: !OnlyCarrier(e, carriers, c)
  {
    var support := SupportVars(e);
    var todo := support;
    r := None;
    while todo != {}
      invariant todo <= support
      invariant r.None? ==> forall v :: v in support - todo ==> v !in carriers
      invariant r.Some? ==>
        r.value in support && r.value in carriers && forall v :: v in support - todo && v in carriers ==> v == r.value
      decreases todo
    {
      var v :| v in todo;
      todo := todo - {v};
      if v in carriers {
        if r.Some? && r.value != v {
          return None;
        }
        r := Some(v);
      }
    }
  }

  function Invert(phase: Phase): Phase { if phase.Pos? then Neg else Pos }

  function EnableOrTrue(event: ClockEvent): Expr { if event.enable.None? then TRUE else event.enable.value }

  function NormalizeEnable(enable: Expr): Option<Expr> { if enable == TRUE then None else Some(enable) }

  /** The event at the one edge that does not fold to false, if exactly one does not. */
  function EdgeEvent(h: Mixer, e: Expr, carrier: nat, base: ClockEvent): Option<ClockEvent> {
    var rising, falling := RisingEnable(h, e, carrier), FallingEnable(h, e, carrier);
    if (rising == FALSE) == (falling == FALSE) then None
    else if rising != FALSE then Some(base.(enable := NormalizeEnable(rising)))
    else Some(base.(phase := Invert(base.phase), enable := NormalizeEnable(falling)))
  }

  /** What a classification promises about one carrier. */
  ghost predicate Classified(e: Expr, carrier: nat, base: ClockEvent, event: ClockEvent) {
    && event.domain == base.domain
    && (event.phase == base.phase || event.phase == Invert(base.phase))
    && (forall env :: Eval(EnableOrTrue(event), env)
                 <==> if event.phase == base.phase then Rises(e, carrier, env) else Falls(e, carrier, env))
    && (forall env :: if event.phase == base.phase then !Falls(e, carrier, env) else !Rises(e, carrier, env))
  }

  /** `classifyClockEventExpression`. */
  method ClassifyClockEventExpression(h: Mixer, e: Expr, carriers: map<nat, ClockEvent>) returns (r: Option<ClockEvent>)
    ensures r.Some? ==> exists c :: OnlyCarrier(e, carriers, c) && Classified(e, c, carriers[c], r.value)
    ensures r.Some? <==> exists c :: OnlyCarrier(e, carriers, c) && OneEdge(h, e, c)
    ensures forall c :: OnlyCarrier(e, carriers, c) ==> r == EdgeEvent(h, e, c, carriers[c])
  {
    hide Classified, Specialized;
    if carriers == map[] {
      return None;
    }
    var carrier := SingleCarrierInSupport(e, carriers);
    if carrier.None? {
      return None;
    }
    var c := carrier.value;
    assert forall d :: OnlyCarrier(e, carriers, d) ==> d == c;
    var low := SpecializeClockCarrier(h, e, c, false);
    var high := SpecializeClockCarrier(h, e, c, true);
    var rising := Simplify(h, MkAnd(h, MkNot(low), high));
    var falling := Simplify(h, MkAnd(h, low, MkNot(high)));
    assert forall env :: Eval(rising, env) <==> Rises(e, c, env);
    assert forall env :: Eval(falling, env) <==> Falls(e, c, env);
    var hasRising, hasFalling := !IsConst(rising, false), !IsConst(falling, false);
    if hasRising == hasFalling {
      return None;
    }
    var base := carriers[c];
    if hasRising {
      r := Some(base.(enable := NormalizeEnable(rising)));
      RisingIsClassified(e, c, base, rising, falling);
    } else {
      r := Some(base.(phase := Invert(base.phase), enable := NormalizeEnable(falling)));
      FallingIsClassified(e, c, base, rising, falling);
    }
  }

  lemma {:induction false} EnableMeans(event: ClockEvent, enable: Expr, env: Env)
    requires event.enable == NormalizeEnable(enable)
    ensures Eval(EnableOrTrue(event), env) == Eval(enable, env)
  {
  }

  lemma {:induction false} RisingIsClassified(e: Expr, c: nat, base: ClockEvent, rising: Expr, falling: Expr)
    requires forall env :: Eval(rising, env) <==> Rises(e, c, env)
    requires forall env :: Eval(falling, env) <==> Falls(e, c, env)
    requires falling == FALSE
    ensures Classified(e, c, base, base.(enable := NormalizeEnable(rising)))
  {
    hide Rises, Falls;
    forall env
      ensures !Falls(e, c, env)
    {
      assert !Eval(falling, env);
    }
    forall env
      ensures Eval(EnableOrTrue(base.(enable := NormalizeEnable(rising))), env) <==> Rises(e, c, env)
    {
      EnableMeans(base.(enable := NormalizeEnable(rising)), rising, env);
    }
  }

  lemma {:induction false} FallingIsClassified(e: Expr, c: nat, base: ClockEvent, rising: Expr, falling: Expr)
    requires forall env :: Eval(rising, env) <==> Rises(e, c, env)
    requires forall env :: Eval(falling, env) <==> Falls(e, c, env)
    requires rising == FALSE
    ensures Classified(e, c, base, base.(phase := Invert(base.phase), enable := NormalizeEnable(falling)))
  {
    hide Rises, Falls;
    var event := base.(phase := Invert(base.phase), enable := NormalizeEnable(falling));
    forall env
      ensures !Rises(e, c, env)
    {
      assert !Eval(rising, env);
    }
    forall env
      ensures Eval(EnableOrTrue(event), env) <==> Falls(e, c, env)
    {
      EnableMeans(event, falling, env);
    }
  }

  /**
   The enable of a classified event does not depend on the carrier: whatever the carrier's present
   value, it is true exactly when a change of the carrier changes the expression.
   */
  lemma {:induction false} EnableIgnoresCarrier(e: Expr, carrier: nat, base: ClockEvent, event: ClockEvent, env: Env,
      value: bool)
    requires Classified(e, carrier, base, event)
    ensures Eval(EnableOrTrue(event), With(env, carrier, value)) == Eval(EnableOrTrue(event), env)
    ensures Eval(EnableOrTrue(event), With(env, carrier, value))
       <==> Eval(e, With(env, carrier, false)) != Eval(e, With(env, carrier, true))
  {
    var other := With(env, carrier, value);
    OverwrittenTwice(e, env, carrier, value, false);
    OverwrittenTwice(e, env, carrier, value, true);
    assert Rises(e, carrier, other) == Rises(e, carrier, env) && Falls(e, carrier, other) == Falls(e, carrier, env);
  }

  lemma {:induction false} OverwrittenTwice(e: Expr, env: Env, v: nat, first: bool, second: bool)
    ensures Eval(e, With(With(env, v, first), v, second)) == Eval(e, With(env, v, second))
  {
    EvalDependsOnSupport(e, With(With(env, v, first), v, second), With(env, v, second));
  }
}
