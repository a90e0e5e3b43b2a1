/**
 Clock expressions that must be classified: a plain and an inverted clock, and clocks gated by a
 condition that does not depend on the carrier; and one that must not be, a clock of selectable phase.
 */
module ClockForms {
  import opened Options
  import opened BoolExprs
  import opened Traversals
  import opened Simplification
  import opened ClockModel

  // ----- specialising the operands -----

  /** Substitution leaves an expression without the carrier alone. */
  lemma {:induction false} FreeIsUnchanged(h: Mixer, e: Expr, c: nat, value: bool)
    requires c !in Support(e)
    ensures Substituted(h, e, AssignmentLeaf(map[c := value])) == e
  {
    match e
    case Var(_) =>
    case Not(a) => FreeIsUnchanged(h, a, c, value);
    case Bin(_, l, r) =>
      FreeIsUnchanged(h, l, c, value);
      FreeIsUnchanged(h, r, c, value);
  }

  function ClockOf(c: nat, inverted: bool): Expr { if inverted then Not(Var(c)) else Var(c) }

  lemma {:induction false} ClockIsConstant(h: Mixer, c: nat, inverted: bool, value: bool)
    requires c >= 2
    ensures Substituted(h, ClockOf(c, inverted), AssignmentLeaf(map[c := value])) == ConstExpr(value != inverted)
    ensures Specialized(h, ClockOf(c, inverted), c, value) == ConstExpr(value != inverted)
  {
    assert AssignmentLeaf(map[c := value])(c) == ConstExpr(value);
    if inverted {
      assert Substituted(h, Var(c), AssignmentLeaf(map[c := value])) == ConstExpr(value);
    }
  }

  /** A condition without the carrier is neither the clock nor its complement. */
  lemma {:induction false} ConditionIsOther(c: nat, inverted: bool, g: Expr)
    requires c !in Support(g)
    ensures var k := ClockOf(c, inverted); k != g && k != Not(g) && g != Not(k)
  {
    var k := ClockOf(c, inverted);
    assert c in Support(Var(c)) && c in Support(Not(Var(c))) && c in Support(Not(Not(Var(c))));
    assert k == Not(g) ==> Support(g) == Support(k);
  }

  lemma {:induction false} ClockIsNoConstant(c: nat, inverted: bool)
    requires c >= 2
    ensures ClockOf(c, inverted) != FALSE && ClockOf(c, inverted) != TRUE
  {
  }

  /** The gated clock really is a gate over both. */
  lemma {:induction false} GatedShape(h: Mixer, op: BinOp, c: nat, inverted: bool, g: Expr)
    requires c >= 2 && c !in Support(g) && g != FALSE && g != TRUE
    ensures MkGate(h, op, ClockOf(c, inverted), g) == Ordered(h, op, ClockOf(c, inverted), g)
  {
    ClockIsNoConstant(c, inverted);
    ConditionIsOther(c, inverted, g);
  }

  /** What a gated clock becomes when its carrier is fixed. */
  lemma {:induction false} GatedSpecializes(h: Mixer, op: BinOp, c: nat, inverted: bool, g: Expr, value: bool)
    requires c >= 2 && c !in Support(g) && g != FALSE && g != TRUE
    ensures Specialized(h, MkGate(h, op, ClockOf(c, inverted), g), c, value)
         == Rebuilt(h, MkGate(h, op, ConstExpr(value != inverted), g))
  {
    GatedShape(h, op, c, inverted, g);
    ClockIsConstant(h, c, inverted, value);
    FreeIsUnchanged(h, g, c, value);
    hide Less, Specialized, MkGate, Substituted, Rebuilt;
    SubstitutedGate(h, op, ClockOf(c, inverted), g, c, value);
    assert ClockOf(c, inverted) != ConstExpr(value != inverted) by {
      ClockIsNoConstant(c, inverted);
    }
    SpecializedChanged(h, MkGate(h, op, ClockOf(c, inverted), g), c, value);
    GateDropsClock(h, op, c, inverted, g, value);
  }

  lemma {:induction false} SubstitutedGate(h: Mixer, op: BinOp, k: Expr, g: Expr, c: nat, value: bool)
    requires var leaf := AssignmentLeaf(map[c := value]);
      Substituted(h, g, leaf) == g && Substituted(h, k, leaf) != k
    ensures var leaf := AssignmentLeaf(map[c := value]);
      Substituted(h, Ordered(h, op, k, g), leaf) == MkGate(h, op, Substituted(h, k, leaf), g)
  {
    hide Less, MkGate;
    GateCommutes(h, op, Substituted(h, k, AssignmentLeaf(map[c := value])), g);
  }

  lemma {:induction false} SpecializedChanged(h: Mixer, e: Expr, c: nat, value: bool)
    ensures var changed := Substituted(h, e, AssignmentLeaf(map[c := value]));
      changed != e ==> Specialized(h, e, c, value) == Rebuilt(h, changed)
  {
  }

  /** Fixing the carrier removes it, so the gate changes. */
  lemma {:induction false} GateDropsClock(h: Mixer, op: BinOp, c: nat, inverted: bool, g: Expr, value: bool)
    requires c >= 2 && c !in Support(g)
    ensures MkGate(h, op, ConstExpr(value != inverted), g) != Ordered(h, op, ClockOf(c, inverted), g)
  {
    hide MkGate, Ordered;
    assert c in Support(ClockOf(c, inverted));
    assert c in Support(Ordered(h, op, ClockOf(c, inverted), g));
    assert c !in Support(MkGate(h, op, ConstExpr(value != inverted), g));
  }

  // ----- the forms -----

  lemma {:induction false} RebuiltTwice(h: Mixer, e: Expr)
    ensures Rebuilt(h, Rebuilt(h, e)) == Rebuilt(h, e)
  {
    RebuiltIsReduced(h, e);
    SimplifyIsIdleIffReduced(h, Rebuilt(h, e));
  }

  lemma {:induction false} RebuiltNegated(h: Mixer, e: Expr)
    ensures Rebuilt(h, MkNot(Rebuilt(h, e))) == MkNot(Rebuilt(h, e))
  {
    RebuiltIsReduced(h, e);
    NotKeepsReduced(h, Rebuilt(h, e));
    SimplifyIsIdleIffReduced(h, MkNot(Rebuilt(h, e)));
  }

  /** The phase of the base event, inverted if asked, with the given enable. */
  function EventOf(base: ClockEvent, inverted: bool, enable: Option<Expr>): ClockEvent {
    base.(phase := if inverted then Invert(base.phase) else base.phase, enable := enable)
  }

  /** One specialisation is a constant: the other one, or its complement, is the enable. */
  lemma {:induction false} OneSideConstant(h: Mixer, e: Expr, c: nat, base: ClockEvent, x: Expr)
    requires Rebuilt(h, x) == x && Rebuilt(h, MkNot(x)) == MkNot(x)
    requires var low, high := Specialized(h, e, c, false), Specialized(h, e, c, true);
      || (low == FALSE && high == x) || (low == x && high == FALSE)
      || (low == TRUE && high == x) || (low == x && high == TRUE)
    ensures var low, high := Specialized(h, e, c, false), Specialized(h, e, c, true);
      && (low == FALSE && x != FALSE ==> EdgeEvent(h, e, c, base) == Some(EventOf(base, false, NormalizeEnable(x))))
      && (high == FALSE && x != FALSE ==> EdgeEvent(h, e, c, base) == Some(EventOf(base, true, NormalizeEnable(x))))
      && (high == TRUE && MkNot(x) != FALSE ==>
            EdgeEvent(h, e, c, base) == Some(EventOf(base, false, NormalizeEnable(MkNot(x)))))
      && (low == TRUE && MkNot(x) != FALSE ==>
            EdgeEvent(h, e, c, base) == Some(EventOf(base, true, NormalizeEnable(MkNot(x)))))
  {
    hide Specialized, Ordered;
    assert Rebuilt(h, FALSE) == FALSE && MkNot(FALSE) == TRUE && MkNot(TRUE) == FALSE;
  }

  /** An expression whose specialisations are the two constants is an ungated clock. */
  lemma {:induction false} ConstantsAreClock(h: Mixer, e: Expr, c: nat, base: ClockEvent, inverted: bool)
    requires Specialized(h, e, c, false) == ConstExpr(inverted) && Specialized(h, e, c, true) == ConstExpr(!inverted)
    ensures EdgeEvent(h, e, c, base) == Some(EventOf(base, inverted, None))
  {
    hide Specialized;
  }

  /** A plain clock keeps its phase, an inverted one has the other phase; neither has an enable. */
  lemma {:induction false} PlainClock(h: Mixer, c: nat, base: ClockEvent, inverted: bool)
    requires c >= 2
    ensures EdgeEvent(h, ClockOf(c, inverted), c, base) == Some(EventOf(base, inverted, None))
    ensures MkNot(Var(c)) == ClockOf(c, true)
  {
    ClockIsConstant(h, c, inverted, false);
    ClockIsConstant(h, c, inverted, true);
    ConstantsAreClock(h, ClockOf(c, inverted), c, base, inverted);
  }

  /** Both specialisations of a gated clock. */
  lemma {:induction false} GatedSides(h: Mixer, op: BinOp, c: nat, inverted: bool, g: Expr)
    requires c >= 2 && c !in Support(g) && g != FALSE && g != TRUE
    ensures var e, x := MkGate(h, op, ClockOf(c, inverted), g), Rebuilt(h, g);
      && Specialized(h, e, c, inverted) == (match op case AND => FALSE case OR => x case XOR => x)
      && Specialized(h, e, c, !inverted) == (match op case AND => x case OR => TRUE case XOR => Rebuilt(h, MkNot(g)))
  {
    hide Specialized, Ordered;
    GatedSpecializes(h, op, c, inverted, g, false);
    GatedSpecializes(h, op, c, inverted, g, true);
  }

  lemma {:induction false} RebuiltNot(h: Mixer, g: Expr)
    ensures Rebuilt(h, MkNot(g)) == MkNot(Rebuilt(h, g))
    ensures MkNot(Rebuilt(h, g)) == FALSE <==> Rebuilt(h, g) == TRUE
    ensures MkNot(Rebuilt(h, g)) == TRUE <==> Rebuilt(h, g) == FALSE
    ensures MkNot(MkNot(Rebuilt(h, g))) == Rebuilt(h, g)
  {
    RebuiltIsReduced(h, g);
    ReducedIsFoldFree(h, Rebuilt(h, g));
    if g.Not? {
      RebuiltIsReduced(h, g.arg);
      ReducedIsFoldFree(h, Rebuilt(h, g.arg));
    }
  }

  /** Clock and condition: the condition is the enable. */
  lemma {:induction false} AndGatedClock(h: Mixer, c: nat, base: ClockEvent, inverted: bool, g: Expr)
    requires c >= 2 && c !in Support(g) && g != TRUE && Rebuilt(h, g) != FALSE
    ensures EdgeEvent(h, MkAnd(h, ClockOf(c, inverted), g), c, base)
         == Some(EventOf(base, inverted, NormalizeEnable(Rebuilt(h, g))))
  {
    hide Specialized, Ordered, EdgeEvent;
    assert MkAnd(h, ClockOf(c, inverted), g) == MkGate(h, AND, ClockOf(c, inverted), g) && g != FALSE;
    hide MkGate, MkAnd;
    GatedSides(h, AND, c, inverted, g);
    RebuiltTwice(h, g);
    RebuiltNegated(h, g);
    OneSideConstant(h, MkGate(h, AND, ClockOf(c, inverted), g), c, base, Rebuilt(h, g));
  }

  /** Clock or condition: the complement of the condition is the enable. */
  lemma {:induction false} OrGatedClock(h: Mixer, c: nat, base: ClockEvent, inverted: bool, g: Expr)
    requires c >= 2 && c !in Support(g) && g != FALSE && Rebuilt(h, g) != TRUE
    ensures EdgeEvent(h, MkOr(h, ClockOf(c, inverted), g), c, base)
         == Some(EventOf(base, inverted, NormalizeEnable(MkNot(Rebuilt(h, g)))))
  {
    hide Specialized, Ordered, EdgeEvent;
    assert MkOr(h, ClockOf(c, inverted), g) == MkGate(h, OR, ClockOf(c, inverted), g) && g != TRUE;
    hide MkGate, MkOr;
    GatedSides(h, OR, c, inverted, g);
    RebuiltTwice(h, g);
    RebuiltNegated(h, g);
    RebuiltNot(h, g);
    OneSideConstant(h, MkGate(h, OR, ClockOf(c, inverted), g), c, base, Rebuilt(h, g));
  }

  /** A clock of selectable phase is refused. */
  lemma {:induction false} XorClockIsRefused(h: Mixer, c: nat, base: ClockEvent, inverted: bool, g: Expr)
    requires c >= 2 && c !in Support(g) && Rebuilt(h, g) != FALSE && Rebuilt(h, g) != TRUE
    ensures EdgeEvent(h, MkXor(h, ClockOf(c, inverted), g), c, base) == None
  {
    hide Specialized, Ordered, EdgeEvent;
    assert MkXor(h, ClockOf(c, inverted), g) == MkGate(h, XOR, ClockOf(c, inverted), g) && g != TRUE && g != FALSE;
    hide MkGate, MkXor;
    GatedSides(h, XOR, c, inverted, g);
    RebuiltNot(h, g);
    ComplementsAreRefused(h, MkGate(h, XOR, ClockOf(c, inverted), g), c, base, g);
  }

  lemma {:induction false} ComplementsAreRefused(h: Mixer, e: Expr, c: nat, base: ClockEvent, g: Expr)
    requires var x := Rebuilt(h, g);
      && x != FALSE && x != TRUE && MkNot(MkNot(x)) == x && MkNot(x) != FALSE
      && ((Specialized(h, e, c, false) == x && Specialized(h, e, c, true) == MkNot(x))
          || (Specialized(h, e, c, false) == MkNot(x) && Specialized(h, e, c, true) == x))
    ensures EdgeEvent(h, e, c, base) == None
  {
    var x := Rebuilt(h, g);
    assert MkAnd(h, x, x) == x && MkAnd(h, MkNot(x), MkNot(x)) == MkNot(x);
    RebuiltTwice(h, g);
    RebuiltNegated(h, g);
    hide Specialized, Ordered, MkAnd, MkNot, Rebuilt;
  }

  // ----- whole classifications -----

  lemma {:induction false} OnlyClockCarrier(h: Mixer, op: BinOp, c: nat, inverted: bool, g: Expr,
      carriers: map<nat, ClockEvent>)
    requires c >= 2 && c in carriers && g != FALSE && g != TRUE && forall v :: v in Support(g) ==> v !in carriers
    ensures OnlyCarrier(MkGate(h, op, ClockOf(c, inverted), g), carriers, c)
    ensures OnlyCarrier(ClockOf(c, inverted), carriers, c)
  {
    GatedShape(h, op, c, inverted, g);
    var k := ClockOf(c, inverted);
    assert Support(k) == {c};
    hide MkGate;
    assert Support(Ordered(h, op, k, g)) == Support(k) + Support(g);
  }

  /** The classifier on a plain or inverted carrier. */
  method ClassifyPlain(h: Mixer, c: nat, inverted: bool, carriers: map<nat, ClockEvent>) returns (r: Option<ClockEvent>)
    requires c >= 2 && c in carriers
    ensures r == Some(EventOf(carriers[c], inverted, None))
  {
    hide EdgeEvent;
    PlainClock(h, c, carriers[c], inverted);
    assert OnlyCarrier(ClockOf(c, inverted), carriers, c);
    r := ClassifyClockEventExpression(h, ClockOf(c, inverted), carriers);
  }

  /** The classifier on a carrier gated by a condition without carriers, by conjunction or disjunction. */
  method ClassifyGated(h: Mixer, c: nat, inverted: bool, g: Expr, disjunction: bool, carriers: map<nat, ClockEvent>)
      returns (r: Option<ClockEvent>)
    requires c >= 2 && c in carriers && forall v :: v in Support(g) ==> v !in carriers
    requires g != FALSE && g != TRUE && Rebuilt(h, g) != FALSE && Rebuilt(h, g) != TRUE
    ensures r.Some? && r.value.domain == carriers[c].domain && r.value.enable.Some?
    ensures r.value.phase == if inverted then Invert(carriers[c].phase) else carriers[c].phase
    ensures forall env :: Eval(r.value.enable.value, env) == (Eval(g, env) != disjunction)
  {
    hide EdgeEvent, Rebuilt;
    OnlyClockCarrier(h, if disjunction then OR else AND, c, inverted, g, carriers);
    if disjunction {
      OrGatedClock(h, c, carriers[c], inverted, g);
      RebuiltNot(h, g);
    } else {
      AndGatedClock(h, c, carriers[c], inverted, g);
    }
    var e := if disjunction then MkOr(h, ClockOf(c, inverted), g) else MkAnd(h, ClockOf(c, inverted), g);
    r := ClassifyClockEventExpression(h, e, carriers);
  }
}
