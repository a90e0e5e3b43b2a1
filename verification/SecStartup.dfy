/**
 Startup, reset and bad gating of the exported model. What every piece of text adds to the
 transition system is stated exactly, and from that what every run of the model does.
 */
module SecStartup {
  import opened BoolExprs
  import opened Btor2
  import opened SecExport

  type Step = (Vals, Vals, Vals) -> bool

  /** What a stretch of text adds: initial, step and invariant conditions, and bad states. */
  datatype Sys = Sys(init: Signal, next: Step, cons: Signal, bad: Signal)

  ghost predicate AddsAt(f: Fields, g: Fields, s: Sys, inp: Vals, st: Vals, st': Vals) {
    && (Inits(g.lines, inp, st) <==> Inits(f.lines, inp, st) && s.init(inp, st))
    && (Nexts(g.lines, inp, st, st') <==> Nexts(f.lines, inp, st, st') && s.next(inp, st, st'))
    && (Constraints(g.lines, inp, st) <==> Constraints(f.lines, inp, st) && s.cons(inp, st))
    && (Bads(g.lines, inp, st) <==> Bads(f.lines, inp, st) || s.bad(inp, st))
  }

  ghost predicate Adds(f: Fields, g: Fields, s: Sys) {
    && f.lines <= g.lines && g.variables == f.variables
    && (f.constants.0 != 0 ==> g.constants.0 == f.constants.0)
    && (f.constants.1 != 0 ==> g.constants.1 == f.constants.1)
    && forall inp, st, st' :: AddsAt(f, g, s, inp, st, st')
  }

  ghost function InitSys(f: Signal): Sys {
    Sys(f, (inp: Vals, st: Vals, st': Vals) => true, ConstFn(true), ConstFn(false))
  }

  ghost function NextSys(f: Step): Sys {
    Sys(ConstFn(true), f, ConstFn(true), ConstFn(false))
  }

  ghost function ConsSys(f: Signal): Sys {
    Sys(ConstFn(true), (inp: Vals, st: Vals, st': Vals) => true, f, ConstFn(false))
  }

  ghost function BadSys(f: Signal): Sys {
    Sys(ConstFn(true), (inp: Vals, st: Vals, st': Vals) => true, ConstFn(true), f)
  }

  ghost function Nothing(): Sys { ConsSys(ConstFn(true)) }

  ghost function Both(s: Sys, t: Sys): Sys {
    Sys((inp: Vals, st: Vals) => s.init(inp, st) && t.init(inp, st),
        (inp: Vals, st: Vals, st': Vals) => s.next(inp, st, st') && t.next(inp, st, st'),
        (inp: Vals, st: Vals) => s.cons(inp, st) && t.cons(inp, st),
        (inp: Vals, st: Vals) => s.bad(inp, st) || t.bad(inp, st))
  }

  ghost predicate SysEqualAt(s: Sys, t: Sys, inp: Vals, st: Vals, st': Vals) {
    && s.init(inp, st) == t.init(inp, st) && s.next(inp, st, st') == t.next(inp, st, st')
    && s.cons(inp, st) == t.cons(inp, st) && s.bad(inp, st) == t.bad(inp, st)
  }

  lemma {:induction false} AddsSame(f: Fields, g: Fields, s: Sys, t: Sys)
    requires Adds(f, g, s)
    requires forall inp, st, st' :: SysEqualAt(s, t, inp, st, st')
    ensures Adds(f, g, t)
  {
    forall inp, st, st'
      ensures AddsAt(f, g, t, inp, st, st')
    {
      assert AddsAt(f, g, s, inp, st, st') && SysEqualAt(s, t, inp, st, st');
    }
  }

  lemma {:induction false} AddsThen(f: Fields, g: Fields, k: Fields, s: Sys, t: Sys)
    requires Adds(f, g, s) && Adds(g, k, t)
    ensures Adds(f, k, Both(s, t))
  {
    hide Inits, Nexts, Constraints, Bads;
    forall inp, st, st'
      ensures AddsAt(f, k, Both(s, t), inp, st, st')
    {
      assert AddsAt(f, g, s, inp, st, st') && AddsAt(g, k, t, inp, st, st');
    }
  }

  /** Value lines add nothing. */
  lemma {:induction false} LogicAdds(f: Fields, g: Fields)
    requires Consistent(f) && Consistent(g) && Added(f, g)
    ensures Adds(f, g, Nothing())
  {
    hide Inits, Nexts, Constraints, Bads;
    forall inp, st, st'
      ensures AddsAt(f, g, Nothing(), inp, st, st')
    {
      ValuesAreNeutral(f.lines, g.lines, inp, st, st');
    }
  }

  lemma {:induction false} ThenNothing(f: Fields, g: Fields, k: Fields, s: Sys)
    requires Adds(f, g, s) && Adds(g, k, Nothing())
    ensures Adds(f, k, s)
  {
    hide AddsAt;
    AddsThen(f, g, k, s, Nothing());
    forall inp, st, st'
      ensures SysEqualAt(Both(s, Nothing()), s, inp, st, st')
    {
    }
    AddsSame(f, k, Both(s, Nothing()), s);
  }

  lemma {:induction false} NothingThen(f: Fields, g: Fields, k: Fields, s: Sys)
    requires Adds(f, g, Nothing()) && Adds(g, k, s)
    ensures Adds(f, k, s)
  {
    hide AddsAt;
    AddsThen(f, g, k, Nothing(), s);
    forall inp, st, st'
      ensures SysEqualAt(Both(Nothing(), s), s, inp, st, st')
    {
    }
    AddsSame(f, k, Both(Nothing(), s), s);
  }

  // ----- single directives -----

  ghost function AssignFn(n: nat, f: Signal): Signal { (inp: Vals, st: Vals) => st(n) == f(inp, st) }

  ghost function StepFn(n: nat, f: Signal): Step { (inp: Vals, st: Vals, st': Vals) => st'(n) == f(inp, st) }

  lemma {:induction false} DirectiveAdds(f: Fields, l: Line, v: nat, sig: Signal)
    requires Consistent(f) && Denotes(f.lines, v, sig)
    ensures l.Init? && l.source == v ==> Adds(f, Emitted(f, l), InitSys(AssignFn(l.target, sig)))
    ensures l.Next? && l.source == v ==> Adds(f, Emitted(f, l), NextSys(StepFn(l.target, sig)))
    ensures l == Constraint(v) ==> Adds(f, Emitted(f, l), ConsSys(sig))
    ensures l.Bad? && l.cond == v ==> Adds(f, Emitted(f, l), BadSys(sig))
    ensures l.State? ==> Adds(f, Emitted(f, l), Nothing())
  {
    hide Inits, Nexts, Constraints, Bads;
    var g := Emitted(f, l);
    DenotesGrows(f.lines, g.lines, v, sig);
    forall inp, st, st'
      ensures l.Init? && l.source == v ==> AddsAt(f, g, InitSys(AssignFn(l.target, sig)), inp, st, st')
      ensures l.Next? && l.source == v ==> AddsAt(f, g, NextSys(StepFn(l.target, sig)), inp, st, st')
      ensures l == Constraint(v) ==> AddsAt(f, g, ConsSys(sig), inp, st, st')
      ensures l.Bad? && l.cond == v ==> AddsAt(f, g, BadSys(sig), inp, st, st')
      ensures l.State? ==> AddsAt(f, g, Nothing(), inp, st, st')
    {
      DirectivesGrow(f.lines, l, inp, st, st');
      assert LineVal(g.lines, v, inp, st) == sig(inp, st);
    }
  }

  method InitOf(w: Btor2Writer, state: nat, value: nat, ghost sig: Signal) returns (r: Result)
    requires w.Valid() && Denotes(w.lines, value, sig)
    modifies w
    ensures w.Valid()
    ensures r.Err? ==> w.All() == old(w.All())
    ensures r.Ok? ==> w.All() == Emitted(old(w.All()), Init(state, value))
    ensures r.Ok? ==> Adds(old(w.All()), w.All(), InitSys(AssignFn(state, sig)))
    ensures r.Err? ==> (r.error == Overflow <==> InitAllowed(old(w.All()), state, value))
    ensures r == Err(Overflow) ==> |w.lines| >= MAX_NODES
  {
    hide Consistent, Denotes, Adds, Emitted;
    DirectiveAdds(w.All(), Init(state, value), value, sig);
    r := w.NewInit(state, value);
  }

  method NextOf(w: Btor2Writer, state: nat, value: nat, ghost sig: Signal) returns (r: Result)
    requires w.Valid() && Denotes(w.lines, value, sig)
    modifies w
    ensures w.Valid()
    ensures r.Err? ==> w.All() == old(w.All())
    ensures r.Ok? ==> w.All() == Emitted(old(w.All()), Next(state, value))
    ensures r.Ok? ==> Adds(old(w.All()), w.All(), NextSys(StepFn(state, sig)))
    ensures IsState(old(w.lines), state) && state !in old(w.transitioned) && r.Err? ==> r.error == Overflow
    ensures r == Err(Overflow) ==> |w.lines| >= MAX_NODES
  {
    assert IsValue(w.lines, value);
    hide Consistent, Denotes, Adds, Emitted;
    DirectiveAdds(w.All(), Next(state, value), value, sig);
    r := w.NewNext(state, value);
  }

  method ConstrainTo(w: Btor2Writer, value: nat, ghost sig: Signal) returns (r: Result)
    requires w.Valid() && Denotes(w.lines, value, sig)
    modifies w
    ensures w.Valid()
    ensures r.Ok? ==> Adds(old(w.All()), w.All(), ConsSys(sig))
    ensures r.Err? ==> r.error == Overflow
    ensures r == Err(Overflow) ==> |w.lines| >= MAX_NODES
  {
    assert IsValue(w.lines, value);
    hide Consistent, Denotes, Adds, Emitted;
    DirectiveAdds(w.All(), Constraint(value), value, sig);
    r := w.NewConstraint(value);
  }

  method BadOf(w: Btor2Writer, value: nat, symbol: string, ghost sig: Signal) returns (r: Result)
    requires w.Valid() && Denotes(w.lines, value, sig)
    modifies w
    ensures w.Valid()
    ensures r.Ok? ==> Adds(old(w.All()), w.All(), BadSys(sig))
    ensures r.Err? ==> r.error == Overflow
    ensures r == Err(Overflow) ==> |w.lines| >= MAX_NODES
  {
    assert IsValue(w.lines, value);
    hide Consistent, Denotes, Adds, Emitted;
    DirectiveAdds(w.All(), Bad(value, symbol), value, sig);
    r := w.NewBad(value, symbol);
  }

  /** A new state with an initial value that was written before it. */
  method NewInitialized(w: Btor2Writer, symbol: string, value: bool) returns (r: Result)
    requires w.Valid() && (if value then w.constants.1 else w.constants.0) != 0
    modifies w
    ensures w.Valid()
    ensures r.Err? ==> r.error == Overflow
    ensures r == Err(Overflow) ==> |w.lines| >= MAX_NODES
    ensures r.Ok? ==> r.id == |old(w.lines)| && IsState(w.lines, r.id)
    ensures r.Ok? ==> Adds(old(w.All()), w.All(), InitSys(BitFn(r.id, value)))
    ensures r.Ok? ==> r.id !in w.transitioned
    ensures r.Ok? ==> w.transitioned == old(w.transitioned) && w.initialized == old(w.initialized) + {r.id}
  {
    hide Consistent, Denotes, Adds, SysEqualAt, InitAllowed, InitSys, BitFn, AssignFn, ConstFn;
    ghost var f := w.All();
    var c := if value then w.constants.1 else w.constants.0;
    ConstantDenotes(f, value);
    FreshIsUnassigned(f, |f.lines|);
    DirectiveAdds(f, State(symbol), c, ConstFn(value));
    r := w.NewState(symbol);
    if r.Err? {
      return;
    }
    ghost var g := w.All();
    DenotesGrows(f.lines, g.lines, c, ConstFn(value));
    var known := w.NewConst(value);
    assert known.Ok? && known.id == c && w.All() == g;
    InitIsAllowed(f, g, symbol, value, r.id, c);
    var done := InitOf(w, r.id, c, ConstFn(value));
    if done.Err? {
      return done;
    }
    assert w.lines == g.lines + [Init(r.id, c)];
    NothingThen(f, g, w.All(), InitSys(AssignFn(r.id, ConstFn(value))));
    SameInit(r.id, value);
    AddsSame(f, w.All(), InitSys(AssignFn(r.id, ConstFn(value))), InitSys(BitFn(r.id, value)));
  }

  lemma {:induction false} SameInit(n: nat, value: bool)
    ensures forall inp, st, st' ::
      SysEqualAt(InitSys(AssignFn(n, ConstFn(value))), InitSys(BitFn(n, value)), inp, st, st')
  {
    forall inp: Vals, st: Vals, st': Vals
      ensures SysEqualAt(InitSys(AssignFn(n, ConstFn(value))), InitSys(BitFn(n, value)), inp, st, st')
    {
      assert ConstFn(value)(inp, st) == value;
      assert AssignFn(n, ConstFn(value))(inp, st) == (st(n) == value);
      assert BitFn(n, value)(inp, st) == (st(n) == value);
    }
  }

  lemma {:induction false} ConstantDenotes(f: Fields, value: bool)
    requires Consistent(f) && (if value then f.constants.1 else f.constants.0) != 0
    ensures var c := if value then f.constants.1 else f.constants.0;
      c < |f.lines| && f.lines[c] == Const(value) && Denotes(f.lines, c, ConstFn(value))
  {
  }

  lemma {:induction false} InitIsAllowed(f: Fields, g: Fields, symbol: string, value: bool, n: nat, c: nat)
    requires c < |f.lines| && f.lines[c] == Const(value) && n == |f.lines| && n !in f.initialized
    requires g == Emitted(f, State(symbol))
    ensures InitAllowed(g, n, c)
  {
    assert g.lines[c] == f.lines[c];
  }

  // ----- the timeline -----

  ghost function ZeroFn(bits: seq<nat>): Signal { (inp: Vals, st: Vals) => forall b :: b in bits ==> !st(b) }

  lemma {:induction false} ZeroMeansCounterZero(bits: seq<nat>, st: Vals)
    ensures (forall b :: b in bits ==> !st(b)) <==> Counter(bits, st) == 0
  {
    if bits != [] {
      ZeroMeansCounterZero(bits[1..], st);
      assert bits == [bits[0]] + bits[1..];
    }
  }

  lemma {:induction false} ZeroGrows(f: Fields, g: Fields, k: Fields, bits: seq<nat>, n: nat)
    requires Adds(f, g, InitSys(ZeroFn(bits))) && Adds(g, k, InitSys(BitFn(n, false)))
    ensures Adds(f, k, InitSys(ZeroFn(bits + [n])))
  {
    hide AddsAt;
    AddsThen(f, g, k, InitSys(ZeroFn(bits)), InitSys(BitFn(n, false)));
    forall inp: Vals, st: Vals, st': Vals
      ensures SysEqualAt(Both(InitSys(ZeroFn(bits)), InitSys(BitFn(n, false))), InitSys(ZeroFn(bits + [n])), inp, st,
        st')
    {
      assert forall b :: b in bits + [n] <==> b in bits || b == n;
    }
    AddsSame(f, k, Both(InitSys(ZeroFn(bits)), InitSys(BitFn(n, false))), InitSys(ZeroFn(bits + [n])));
  }

  lemma {:induction false} NothingAdded(f: Fields)
    ensures Adds(f, f, InitSys(ZeroFn([]))) && Adds(f, f, Nothing())
  {
    forall inp: Vals, st: Vals, st': Vals
      ensures AddsAt(f, f, InitSys(ZeroFn([])), inp, st, st') && AddsAt(f, f, Nothing(), inp, st, st')
    {
    }
  }

  ghost predicate FreshBits(f: Fields, g: Fields, bits: seq<nat>) {
    && BitsOk(g.lines, bits)
    && (forall i :: 0 <= i < |bits| ==> bits[i] >= |f.lines| && bits[i] !in g.transitioned)
    && (forall i, j :: 0 <= i < j < |bits| ==> bits[i] != bits[j])
  }

  lemma {:induction false} FreshBitsGrow(f: Fields, g: Fields, k: Fields, bits: seq<nat>)
    requires FreshBits(f, g, bits) && f.lines <= g.lines <= k.lines && k.transitioned == g.transitioned
    requires |g.lines| < |k.lines| && IsState(k.lines, |g.lines|) && |g.lines| !in k.transitioned
    ensures FreshBits(f, k, bits + [|g.lines|])
  {
    BitsOkGrows(g.lines, k.lines, bits);
  }

  /** Only states declared since then have got new initial values. */
  ghost predicate OnlyFreshInits(f: Fields, g: Fields) {
    f.lines <= g.lines && forall s :: s in g.initialized ==> s in f.initialized || s >= |f.lines|
  }

  /** The states of the timeline, all initially false. */
  method DeclareBits(w: Btor2Writer, width: nat) returns (r: Result, bits: seq<nat>)
    requires w.Valid() && w.constants.0 != 0
    modifies w
    ensures w.Valid()
    ensures r.Err? ==> r.error == Overflow
    ensures r == Err(Overflow) ==> |w.lines| >= MAX_NODES
    ensures r.Ok? ==> |bits| == width && FreshBits(old(w.All()), w.All(), bits)
    ensures r.Ok? ==> OnlyFreshInits(old(w.All()), w.All())
    ensures r.Ok? ==> Adds(old(w.All()), w.All(), InitSys(ZeroFn(bits)))
  {
    hide Consistent, AddsAt, Denotes, InitSys, ZeroFn;
    ghost var f := w.All();
    bits, r := [], Ok(0);
    NothingAdded(f);
    for i := 0 to width
      invariant w.Valid() && |bits| == i && r.Ok?
      invariant FreshBits(f, w.All(), bits) && OnlyFreshInits(f, w.All())
      invariant Adds(f, w.All(), InitSys(ZeroFn(bits)))
    {
      ghost var g := w.All();
      r := NewInitialized(w, "kf_export_cycle", false);
      if r.Err? {
        return;
      }
      FreshBitsGrow(f, g, w.All(), bits);
      ZeroGrows(f, g, w.All(), bits, r.id);
      bits := bits + [r.id];
    }
  }

  ghost function CarryFn(bits: seq<nat>, i: nat): Signal { (inp: Vals, st: Vals) => Carry(bits, st, i) }

  ghost function AdvanceFn(bits: seq<nat>, last: nat): Signal { (inp: Vals, st: Vals) => Counter(bits, st) != last }

  ghost function NextBitFn(bits: seq<nat>, i: nat, last: nat): Signal
    requires i < |bits|
  {
    (inp: Vals, st: Vals) => NextBit(bits, st, i, last)
  }

  ghost function StepsFn(bits: seq<nat>, n: nat, last: nat): Step {
    (inp: Vals, st: Vals, st': Vals) => forall j :: 0 <= j < n && j < |bits| ==>
        st'(bits[j]) == NextBit(bits, st, j, last)
  }

  lemma {:induction false} AdvanceMeans(bits: seq<nat>, last: nat, lines: seq<Line>, n: nat)
    requires Shift(last, |bits|) == 0 && Denotes(lines, n, NotFn(MatchFn(bits, last, |bits|)))
    ensures Denotes(lines, n, AdvanceFn(bits, last))
  {
    forall inp: Vals, st: Vals
      ensures LineVal(lines, n, inp, st) == (Counter(bits, st) != last)
    {
      MatchesMeansEqual(bits, st, last, 0);
      assert bits[0..] == bits;
      assert MatchFn(bits, last, |bits|)(inp, st) == Matches(bits, st, last, |bits|);
      assert LineVal(lines, n, inp, st) == NotFn(MatchFn(bits, last, |bits|))(inp, st);
    }
  }

  lemma {:induction false} NextBitMeans(bits: seq<nat>, i: nat, last: nat, lines: seq<Line>, n: nat)
    requires i < |bits|
    requires Denotes(lines, n,
      ConnFn(ConnXor, BitFn(bits[i], true), ConnFn(ConnAnd, CarryFn(bits, i), AdvanceFn(bits, last))))
    ensures Denotes(lines, n, NextBitFn(bits, i, last))
  {
    forall inp: Vals, st: Vals
      ensures LineVal(lines, n, inp, st) == NextBit(bits, st, i, last)
    {
      var c, a, b := CarryFn(bits, i), AdvanceFn(bits, last), BitFn(bits[i], true);
      assert LineVal(lines, n, inp, st) == ConnFn(ConnXor, b, ConnFn(ConnAnd, c, a))(inp, st);
      assert c(inp, st) == Carry(bits, st, i) && a(inp, st) == (Counter(bits, st) != last);
      assert ConnFn(ConnAnd, c, a)(inp, st) == (Carry(bits, st, i) && Counter(bits, st) != last);
      assert b(inp, st) == st(bits[i]);
    }
  }

  lemma {:induction false} CarryMeans(bits: seq<nat>, i: nat, lines: seq<Line>, n: nat)
    requires i < |bits| && Denotes(lines, n, ConnFn(ConnAnd, CarryFn(bits, i), BitFn(bits[i], true)))
    ensures Denotes(lines, n, CarryFn(bits, i + 1))
  {
    forall inp: Vals, st: Vals
      ensures LineVal(lines, n, inp, st) == Carry(bits, st, i + 1)
    {
      assert LineVal(lines, n, inp, st) == ConnFn(ConnAnd, CarryFn(bits, i), BitFn(bits[i], true))(inp, st);
      assert CarryFn(bits, i)(inp, st) == Carry(bits, st, i) && BitFn(bits[i], true)(inp, st) == st(bits[i]);
    }
  }

  lemma {:induction false} CarryStarts(bits: seq<nat>, lines: seq<Line>, n: nat)
    requires Denotes(lines, n, ConstFn(true))
    ensures Denotes(lines, n, CarryFn(bits, 0))
  {
  }

  lemma {:induction false} StepsGrow(f: Fields, g: Fields, k: Fields, bits: seq<nat>, i: nat, last: nat)
    requires i < |bits|
    requires Adds(f, g, NextSys(StepsFn(bits, i, last)))
    requires Adds(g, k, NextSys(StepFn(bits[i], NextBitFn(bits, i, last))))
    ensures Adds(f, k, NextSys(StepsFn(bits, i + 1, last)))
  {
    hide AddsAt;
    var s, t, u := NextSys(StepsFn(bits, i, last)), NextSys(StepFn(bits[i], NextBitFn(bits, i, last))),
        NextSys(StepsFn(bits, i + 1, last));
    AddsThen(f, g, k, s, t);
    forall inp: Vals, st: Vals, st': Vals
      ensures SysEqualAt(Both(s, t), u, inp, st, st')
    {
      assert NextBitFn(bits, i, last)(inp, st) == NextBit(bits, st, i, last);
      assert t.next(inp, st, st') == (st'(bits[i]) == NextBit(bits, st, i, last));
      assert s.next(inp, st, st') == forall j :: 0 <= j < i && j < |bits| ==>
        st'(bits[j]) == NextBit(bits, st, j, last);
      assert u.next(inp, st, st') == forall j :: 0 <= j < i + 1 && j < |bits| ==>
        st'(bits[j]) == NextBit(bits, st, j, last);
      hide NextBit;
    }
    AddsSame(f, k, Both(s, t), u);
  }

  lemma {:induction false} NoStepsAdded(f: Fields, bits: seq<nat>, last: nat)
    ensures Adds(f, f, NextSys(StepsFn(bits, 0, last)))
  {
    forall inp: Vals, st: Vals, st': Vals
      ensures AddsAt(f, f, NextSys(StepsFn(bits, 0, last)), inp, st, st')
    {
    }
  }

  /** One bit of the ripple: `next = bit ^ (carry & advance)`, then `carry & bit`. */
  method RippleBit(w: Btor2Writer, bits: seq<nat>, i: nat, last: nat, carry: nat, advance: nat) returns (r: Result)
    requires w.Valid() && i < |bits| && IsState(w.lines, bits[i]) && bits[i] !in w.transitioned
    requires Denotes(w.lines, carry, CarryFn(bits, i)) && Denotes(w.lines, advance, AdvanceFn(bits, last))
    modifies w
    ensures w.Valid()
    ensures r.Err? ==> r.error == Overflow
    ensures r == Err(Overflow) ==> |w.lines| >= MAX_NODES
    ensures r.Ok? ==> Adds(old(w.All()), w.All(), NextSys(StepFn(bits[i], NextBitFn(bits, i, last))))
    ensures r.Ok? ==> Denotes(w.lines, r.id, CarryFn(bits, i + 1))
    ensures r.Ok? ==> w.transitioned == old(w.transitioned) + {bits[i]} && w.initialized == old(w.initialized)
  {
    hide Consistent, AddsAt, Denotes, NextSys, StepFn, NextBitFn, CarryFn, AdvanceFn, Logic, Adds;
    ghost var f := w.All();
    StateDenotes(w.lines, bits[i]);
    ghost var bit, step := BitFn(bits[i], true), ConnFn(ConnAnd, CarryFn(bits, i), AdvanceFn(bits, last));
    var masked := BinaryOf(w, ConnAnd, carry, advance, CarryFn(bits, i), AdvanceFn(bits, last));
    if masked.Err? {
      return masked;
    }
    ghost var g := w.All();
    LogicKeepsDenotes(f, g, bits[i], bit);
    var next := BinaryOf(w, ConnXor, bits[i], masked.id, bit, step);
    if next.Err? {
      return next;
    }
    LogicTransitive(f, g, w.All());
    g := w.All();
    LogicOnlyValues(f, g);
    NextBitMeans(bits, i, last, w.lines, next.id);
    LogicKeepsState(f, g, bits[i]);
    r := NextOf(w, bits[i], next.id, NextBitFn(bits, i, last));
    if r.Err? {
      return;
    }
    ghost var k := w.All();
    NothingThen(f, g, k, NextSys(StepFn(bits[i], NextBitFn(bits, i, last))));
    DenotesStay(f, k, carry, CarryFn(bits, i));
    DenotesStay(f, k, bits[i], bit);
    r := BinaryOf(w, ConnAnd, carry, bits[i], CarryFn(bits, i), bit);
    LogicOnlyValues(k, w.All());
    if r.Ok? {
      CarryMeans(bits, i, w.lines, r.id);
      ThenNothing(f, k, w.All(), NextSys(StepFn(bits[i], NextBitFn(bits, i, last))));
    }
  }

  lemma {:induction false} DenotesStay(f: Fields, g: Fields, n: nat, s: Signal)
    requires f.lines <= g.lines && Denotes(f.lines, n, s)
    ensures Denotes(g.lines, n, s)
  {
    DenotesGrows(f.lines, g.lines, n, s);
  }

  lemma {:induction false} LogicOnlyValues(f: Fields, g: Fields)
    requires Consistent(f) && Consistent(g) && Logic(f, g)
    ensures Adds(f, g, Nothing()) && f.lines <= g.lines && g.transitioned == f.transitioned
    ensures g.initialized == f.initialized && g.variables == f.variables
  {
    LogicAdds(f, g);
  }

  ghost function TimelineSys(bits: seq<nat>, last: nat): Sys {
    Sys((inp: Vals, st: Vals) => Counter(bits, st) == 0,
        (inp: Vals, st: Vals, st': Vals) => TimelineNext(bits, st, st', last),
        ConstFn(true), ConstFn(false))
  }

  lemma {:induction false} TimelineAssembled(f: Fields, g: Fields, k: Fields, bits: seq<nat>, last: nat)
    requires Adds(f, g, InitSys(ZeroFn(bits))) && Adds(g, k, NextSys(StepsFn(bits, |bits|, last)))
    ensures Adds(f, k, TimelineSys(bits, last))
  {
    hide AddsAt;
    var s, t, u := InitSys(ZeroFn(bits)), NextSys(StepsFn(bits, |bits|, last)), TimelineSys(bits, last);
    AddsThen(f, g, k, s, t);
    forall inp: Vals, st: Vals, st': Vals
      ensures SysEqualAt(Both(s, t), u, inp, st, st')
    {
      ZeroMeansCounterZero(bits, st);
      assert s.init(inp, st) == forall b :: b in bits ==> !st(b);
      assert t.next(inp, st, st') == forall j :: 0 <= j < |bits| && j < |bits| ==>
        st'(bits[j]) == NextBit(bits, st, j, last);
      hide NextBit;
    }
    AddsSame(f, k, Both(s, t), u);
  }

  /** The next values of all bits, lowest first. */
  method RippleAll(w: Btor2Writer, bits: seq<nat>, last: nat, start: nat, advance: nat, ghost g: Fields)
      returns (r: Result)
    requires w.Valid() && g.lines <= w.lines && BitsOk(w.lines, bits) && w.initialized == g.initialized
    requires Adds(g, w.All(), NextSys(StepsFn(bits, 0, last)))
    requires Denotes(w.lines, start, CarryFn(bits, 0)) && Denotes(w.lines, advance, AdvanceFn(bits, last))
    requires forall j :: 0 <= j < |bits| ==> bits[j] !in w.transitioned
    requires forall i, j :: 0 <= i < j < |bits| ==> bits[i] != bits[j]
    modifies w
    ensures w.Valid()
    ensures r.Err? ==> r.error == Overflow
    ensures r == Err(Overflow) ==> |w.lines| >= MAX_NODES
    ensures r.Ok? ==> g.lines <= w.lines && BitsOk(w.lines, bits) && w.initialized == g.initialized
    ensures r.Ok? ==> Adds(g, w.All(), NextSys(StepsFn(bits, |bits|, last)))
  {
    hide Consistent, AddsAt, Denotes, NextSys, StepsFn, CarryFn, AdvanceFn;
    r := Ok(start);
    for i := 0 to |bits|
      invariant w.Valid() && r.Ok? && g.lines <= w.lines && BitsOk(w.lines, bits) && w.initialized == g.initialized
      invariant Adds(g, w.All(), NextSys(StepsFn(bits, i, last)))
      invariant Denotes(w.lines, r.id, CarryFn(bits, i)) && Denotes(w.lines, advance, AdvanceFn(bits, last))
      invariant forall j :: i <= j < |bits| ==> bits[j] !in w.transitioned
    {
      ghost var m := w.All();
      r := RippleBit(w, bits, i, last, r.id, advance);
      if r.Err? {
        return;
      }
      StepsGrow(g, m, w.All(), bits, i, last);
      DenotesStay(m, w.All(), advance, AdvanceFn(bits, last));
      BitsOkGrows(m.lines, w.lines, bits);
    }
  }

  /** `ExportTimeline`: a saturating binary counter up to the last frame. */
  method BuildTimeline(w: Btor2Writer, last: nat) returns (r: Result, bits: seq<nat>)
    requires w.Valid() && w.constants.0 != 0
    modifies w
    ensures w.Valid()
    ensures r.Err? ==> r.error == Overflow
    ensures r == Err(Overflow) ==> |w.lines| >= MAX_NODES
    ensures r.Ok? ==> |bits| == BitWidth(last) && BitsOk(w.lines, bits)
    ensures r.Ok? ==> forall i :: 0 <= i < |bits| ==> bits[i] >= |old(w.lines)|
    ensures r.Ok? ==> forall i, j :: 0 <= i < j < |bits| ==> bits[i] != bits[j]
    ensures r.Ok? ==> OnlyFreshInits(old(w.All()), w.All())
    ensures r.Ok? ==> Adds(old(w.All()), w.All(), TimelineSys(bits, last))
  {
    hide Consistent, AddsAt, Denotes, InitSys, NextSys, ZeroFn, StepsFn, TimelineSys, MatchFn, CarryFn;
    hide AdvanceFn, Logic, Matches, Nothing;
    ghost var f := w.All();
    r, bits := DeclareBits(w, BitWidth(last));
    if r.Err? {
      return;
    }
    BitWidthSuffices(last);
    ghost var g := w.All();
    NoStepsAdded(g, bits, last);
    if bits == [] {
      TimelineAssembled(f, g, g, bits, last);
      return;
    }
    var here := At(w, bits, last);
    if here.Err? {
      return here, bits;
    }
    LogicOnlyValues(g, w.All());
    ghost var k := w.All();
    var advance := NotOf(w, here.id, MatchFn(bits, last, |bits|));
    if advance.Err? {
      return advance, bits;
    }
    LogicOnlyValues(k, w.All());
    ThenNothing(g, k, w.All(), Nothing());
    AdvanceMeans(bits, last, w.lines, advance.id);
    k := w.All();
    var carry := ConstOf(w, true);
    if carry.Err? {
      return carry, bits;
    }
    LogicOnlyValues(k, w.All());
    ThenNothing(g, k, w.All(), Nothing());
    DenotesStay(k, w.All(), advance.id, AdvanceFn(bits, last));
    k := w.All();
    CarryStarts(bits, w.lines, carry.id);
    ThenNothing(g, g, k, NextSys(StepsFn(bits, 0, last)));
    BitsOkGrows(g.lines, k.lines, bits);
    r := RippleAll(w, bits, last, carry.id, advance.id, g);
    if r.Err? {
      return;
    }
    r := Ok(0);
    TimelineAssembled(f, g, w.All(), bits, last);
  }
}
