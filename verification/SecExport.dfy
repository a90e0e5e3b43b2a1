/**
 The exported SEC obligation: a saturating ripple counter of 1-bit states gives every run
 its time, and startup, reset and bad conditions are gated by comparisons with it.
 */
module SecExport {
  import opened BoolExprs
  import opened Btor2

  // ----- numbers and bits -----

  /** `f >> i`. */
  function Shift(f: nat, i: nat): nat {
    if i == 0 then f else Shift(f, i - 1) / 2
  }

  predicate FrameBit(f: nat, i: nat) {
    Shift(f, i) % 2 == 1
  }

  /** `std::bit_width`. */
  function BitWidth(n: nat): nat {
    if n == 0 then 0 else 1 + BitWidth(n / 2)
  }

  /** The number that a list of state bits holds, least significant bit first. */
  function Counter(bits: seq<nat>, st: Vals): nat {
    if bits == [] then 0 else (if st(bits[0]) then 1 else 0) + 2 * Counter(bits[1..], st)
  }

  lemma {:induction false} ShiftOfHalf(f: nat, i: nat)
    ensures Shift(f, i + 1) == Shift(f / 2, i)
    decreases i
  {
    if i > 0 {
      ShiftOfHalf(f, i - 1);
    }
  }

  lemma {:induction false} BitWidthSuffices(n: nat)
    ensures Shift(n, BitWidth(n)) == 0
  {
    if n > 0 {
      BitWidthSuffices(n / 2);
      ShiftOfHalf(n, BitWidth(n / 2));
    }
  }

  lemma {:induction false} ShiftMonotone(f: nat, g: nat, i: nat)
    requires f <= g
    ensures Shift(f, i) <= Shift(g, i)
    decreases i
  {
    if i > 0 {
      ShiftMonotone(f, g, i - 1);
    }
  }

  lemma {:induction false} CounterFrom(bits: seq<nat>, st: Vals, i: nat)
    requires i < |bits|
    ensures Counter(bits[i..], st) == (if st(bits[i]) then 1 else 0) + 2 * Counter(bits[i + 1..], st)
  {
    assert bits[i..][1..] == bits[i + 1..];
  }

  lemma {:induction false} ShiftFrom(f: nat, i: nat)
    ensures Shift(f, i) == (if FrameBit(f, i) then 1 else 0) + 2 * Shift(f, i + 1)
  {
  }

  /** The low bits agree with those of the frame number. */
  ghost predicate Matches(bits: seq<nat>, st: Vals, frame: nat, n: nat) {
    forall j :: 0 <= j < n && j < |bits| ==> st(bits[j]) == FrameBit(frame, j)
  }

  /** All bits agree exactly when the counter holds the frame number. */
  lemma {:induction false} MatchesMeansEqual(bits: seq<nat>, st: Vals, frame: nat, i: nat)
    requires i <= |bits| && Shift(frame, |bits|) == 0
    ensures (forall j :: i <= j < |bits| ==> st(bits[j]) == FrameBit(frame, j)) <==>
            Counter(bits[i..], st) == Shift(frame, i)
    decreases |bits| - i
  {
    if i < |bits| {
      CounterFrom(bits, st, i);
      ShiftFrom(frame, i);
      MatchesMeansEqual(bits, st, frame, i + 1);
    }
  }

  /** Carry into bit i: all lower bits are set. */
  ghost predicate Carry(bits: seq<nat>, st: Vals, i: nat) {
    forall j :: 0 <= j < i && j < |bits| ==> st(bits[j])
  }

  /** The next value of bit i of the ripple counter. */
  ghost predicate NextBit(bits: seq<nat>, st: Vals, i: nat, last: nat)
    requires i < |bits|
  {
    st(bits[i]) != (Carry(bits, st, i) && Counter(bits, st) != last)
  }

  ghost predicate TimelineNext(bits: seq<nat>, st: Vals, st': Vals, last: nat) {
    forall i :: 0 <= i < |bits| ==> st'(bits[i]) == NextBit(bits, st, i, last)
  }

  lemma {:induction false} AllOnesIsLargest(bits: seq<nat>, st: Vals, f: nat, i: nat)
    requires i <= |bits| && Shift(f, |bits|) == 0
    requires forall j :: i <= j < |bits| ==> st(bits[j])
    ensures Shift(f, i) <= Counter(bits[i..], st)
    decreases |bits| - i
  {
    if i < |bits| {
      AllOnesIsLargest(bits, st, f, i + 1);
      CounterFrom(bits, st, i);
      ShiftFrom(f, i);
    }
  }

  /** The ripple adds its carry from bit i up, unless the carry runs off the end. */
  lemma {:induction false} RippleAdds(bits: seq<nat>, st: Vals, st': Vals, last: nat, i: nat)
    requires i <= |bits| && TimelineNext(bits, st, st', last) && Counter(bits, st) != last
    requires Carry(bits, st, i) ==> !(forall j :: i <= j < |bits| ==> st(bits[j]))
    ensures Counter(bits[i..], st') == Counter(bits[i..], st) + if Carry(bits, st, i) then 1 else 0
    decreases |bits| - i
  {
    if i < |bits| {
      CounterFrom(bits, st, i);
      CounterFrom(bits, st', i);
      assert Carry(bits, st, i + 1) <==> Carry(bits, st, i) && st(bits[i]);
      if Carry(bits, st, i + 1) {
        assert !(forall j :: i + 1 <= j < |bits| ==> st(bits[j]));
      }
      RippleAdds(bits, st, st', last, i + 1);
    }
  }

  lemma {:induction false} SaturatedKeeps(bits: seq<nat>, st: Vals, st': Vals, last: nat, i: nat)
    requires i <= |bits| && TimelineNext(bits, st, st', last) && Counter(bits, st) == last
    ensures Counter(bits[i..], st') == Counter(bits[i..], st)
    decreases |bits| - i
  {
    if i < |bits| {
      CounterFrom(bits, st, i);
      CounterFrom(bits, st', i);
      SaturatedKeeps(bits, st, st', last, i + 1);
    }
  }

  /** One step of the timeline: count up to the last frame and stay there. */
  lemma {:induction false} TimelineStep(bits: seq<nat>, st: Vals, st': Vals, last: nat)
    requires TimelineNext(bits, st, st', last)
    requires Shift(last, |bits|) == 0 && Counter(bits, st) <= last
    ensures Counter(bits, st') == if Counter(bits, st) == last then last else Counter(bits, st) + 1
  {
    assert bits[0..] == bits;
    if Counter(bits, st) == last {
      SaturatedKeeps(bits, st, st', last, 0);
    } else {
      if forall j :: 0 <= j < |bits| ==> st(bits[j]) {
        AllOnesIsLargest(bits, st, last, 0);
      }
      RippleAdds(bits, st, st', last, 0);
    }
  }

  // ----- nodes with a known meaning -----

  type Signal = (Vals, Vals) -> bool

  ghost function NotFn(f: Signal): Signal { (inp: Vals, st: Vals) => !f(inp, st) }

  ghost function ConnFn(c: Connective, f: Signal, g: Signal): Signal {
    (inp: Vals, st: Vals) => Connect(c, f(inp, st), g(inp, st))
  }

  ghost function ConstFn(value: bool): Signal { (inp: Vals, st: Vals) => value }

  ghost function BitFn(bit: nat, value: bool): Signal { (inp: Vals, st: Vals) => st(bit) == value }

  ghost predicate Denotes(lines: seq<Line>, n: nat, f: Signal) {
    IsValue(lines, n) && forall inp, st :: LineVal(lines, n, inp, st) == f(inp, st)
  }

  lemma {:induction false} DenotesGrows(lines: seq<Line>, more: seq<Line>, n: nat, f: Signal)
    requires lines <= more && Denotes(lines, n, f)
    ensures Denotes(more, n, f)
  {
    assert more[n] == lines[n];
    forall inp, st
      ensures LineVal(more, n, inp, st) == f(inp, st)
    {
      ValGrows(lines, more, n, inp, st);
    }
  }

  lemma {:induction false} DenotesSame(lines: seq<Line>, n: nat, f: Signal, g: Signal)
    requires Denotes(lines, n, f) && forall inp, st :: f(inp, st) == g(inp, st)
    ensures Denotes(lines, n, g)
  {
  }

  lemma {:induction false} AppendedNot(lines: seq<Line>, x: nat, f: Signal)
    requires Denotes(lines, x, f)
    ensures Denotes(lines + [Negation(x)], |lines|, NotFn(f))
  {
    DenotesGrows(lines, lines + [Negation(x)], x, f);
  }

  lemma {:induction false} AppendedBinary(lines: seq<Line>, c: Connective, x: nat, y: nat, f: Signal, g: Signal)
    requires Denotes(lines, x, f) && Denotes(lines, y, g)
    ensures Denotes(lines + [Binary(c, x, y)], |lines|, ConnFn(c, f, g))
  {
    DenotesGrows(lines, lines + [Binary(c, x, y)], x, f);
    DenotesGrows(lines, lines + [Binary(c, x, y)], y, g);
  }

  /** Value lines and constants only; the recorded expressions are untouched. */
  ghost predicate Logic(f: Fields, g: Fields) {
    Added(f, g) && g.expressions == f.expressions
  }

  lemma {:induction false} LogicTransitive(f: Fields, g: Fields, k: Fields)
    requires Logic(f, g) && Logic(g, k)
    ensures Logic(f, k)
  {
    AddedTransitive(f, g, k);
  }

  method NotOf(w: Btor2Writer, x: nat, ghost f: Signal) returns (r: Result)
    requires w.Valid() && Denotes(w.lines, x, f)
    modifies w
    ensures w.Valid() && Logic(old(w.All()), w.All())
    ensures r.Err? ==> r.error == Overflow
    ensures r == Err(Overflow) ==> |w.lines| >= MAX_NODES
    ensures r.Ok? ==> Denotes(w.lines, r.id, NotFn(f))
  {
    AppendedNot(w.lines, x, f);
    AddedByLine(w.All(), Negation(x));
    hide Consistent, Denotes, Added;
    r := w.LogicalNot(x);
  }

  method BinaryOf(w: Btor2Writer, c: Connective, x: nat, y: nat, ghost f: Signal, ghost g: Signal) returns (r: Result)
    requires w.Valid() && Denotes(w.lines, x, f) && Denotes(w.lines, y, g)
    modifies w
    ensures w.Valid() && Logic(old(w.All()), w.All())
    ensures r.Err? ==> r.error == Overflow
    ensures r == Err(Overflow) ==> |w.lines| >= MAX_NODES
    ensures r.Ok? ==> Denotes(w.lines, r.id, ConnFn(c, f, g))
  {
    AppendedBinary(w.lines, c, x, y, f, g);
    AddedByLine(w.All(), Binary(c, x, y));
    hide Consistent, Denotes, Added;
    r := w.NewBinary(c, x, y);
  }

  method ConstOf(w: Btor2Writer, value: bool) returns (r: Result)
    requires w.Valid()
    modifies w
    ensures w.Valid() && Logic(old(w.All()), w.All())
    ensures r.Err? ==> r.error == Overflow
    ensures r == Err(Overflow) ==> |w.lines| >= MAX_NODES
    ensures r.Ok? ==> Denotes(w.lines, r.id, ConstFn(value))
  {
    hide Consistent, Added;
    r := w.NewConst(value);
  }

  ghost predicate BitsOk(lines: seq<Line>, bits: seq<nat>) {
    forall i :: 0 <= i < |bits| ==> IsState(lines, bits[i])
  }

  lemma {:induction false} BitsOkGrows(lines: seq<Line>, more: seq<Line>, bits: seq<nat>)
    requires BitsOk(lines, bits) && lines <= more
    ensures BitsOk(more, bits)
  {
    assert forall i :: 0 <= i < |bits| ==> more[bits[i]] == lines[bits[i]];
  }

  lemma {:induction false} StateDenotes(lines: seq<Line>, n: nat)
    requires IsState(lines, n)
    ensures Denotes(lines, n, BitFn(n, true))
  {
  }

  ghost function MatchFn(bits: seq<nat>, frame: nat, n: nat): Signal {
    (inp: Vals, st: Vals) => Matches(bits, st, frame, n)
  }

  /** One literal of the comparison: the bit itself or its negation. */
  method BitLiteral(w: Btor2Writer, bit: nat, value: bool) returns (r: Result)
    requires w.Valid() && IsState(w.lines, bit)
    modifies w
    ensures w.Valid() && Logic(old(w.All()), w.All())
    ensures r.Err? ==> r.error == Overflow
    ensures r == Err(Overflow) ==> |w.lines| >= MAX_NODES
    ensures r.Ok? ==> Denotes(w.lines, r.id, BitFn(bit, value))
  {
    StateDenotes(w.lines, bit);
    if value {
      assert Logic(w.All(), w.All());
      r := Ok(bit);
    } else {
      hide Consistent;
      r := NotOf(w, bit, BitFn(bit, true));
    }
  }

  /** `at`: the counter holds the given frame number. */
  method At(w: Btor2Writer, bits: seq<nat>, frame: nat) returns (r: Result)
    requires w.Valid() && BitsOk(w.lines, bits)
    modifies w
    ensures w.Valid() && Logic(old(w.All()), w.All())
    ensures r.Err? ==> r.error == Overflow
    ensures r == Err(Overflow) ==> |w.lines| >= MAX_NODES
    ensures r.Ok? ==> Denotes(w.lines, r.id, MatchFn(bits, frame, |bits|))
  {
    hide Consistent, Denotes, Logic, Added, BitsOk, Matches, MatchFn;
    ghost var start := w.All();
    r := ConstOf(w, true);
    if r.Err? {
      return;
    }
    MatchesNothing(bits, frame, w.lines, r.id);
    for i := 0 to |bits|
      invariant w.Valid() && Logic(start, w.All()) && r.Ok?
      invariant Denotes(w.lines, r.id, MatchFn(bits, frame, i))
    {
      ghost var before := w.All();
      LogicKeepsBits(start, before, bits);
      var lit := BitLiteral(w, bits[i], FrameBit(frame, i));
      LogicTransitive(start, before, w.All());
      if lit.Err? {
        return lit;
      }
      LogicKeepsDenotes(before, w.All(), r.id, MatchFn(bits, frame, i));
      ghost var mid := w.All();
      r := BinaryOf(w, ConnAnd, r.id, lit.id, MatchFn(bits, frame, i), BitFn(bits[i], FrameBit(frame, i)));
      LogicTransitive(start, mid, w.All());
      if r.Err? {
        return;
      }
      MatchesStep(bits, frame, i, w.lines, r.id);
    }
  }

  lemma {:induction false} MatchesNothing(bits: seq<nat>, frame: nat, lines: seq<Line>, n: nat)
    requires Denotes(lines, n, ConstFn(true))
    ensures Denotes(lines, n, MatchFn(bits, frame, 0))
  {
  }

  lemma {:induction false} MatchesStep(bits: seq<nat>, frame: nat, i: nat, lines: seq<Line>, n: nat)
    requires i < |bits|
    requires Denotes(lines, n, ConnFn(ConnAnd, MatchFn(bits, frame, i), BitFn(bits[i], FrameBit(frame, i))))
    ensures Denotes(lines, n, MatchFn(bits, frame, i + 1))
  {
    forall inp: Vals, st: Vals
      ensures LineVal(lines, n, inp, st) == Matches(bits, st, frame, i + 1)
    {
      var m, b := MatchFn(bits, frame, i), BitFn(bits[i], FrameBit(frame, i));
      assert LineVal(lines, n, inp, st) == ConnFn(ConnAnd, m, b)(inp, st);
      assert m(inp, st) == Matches(bits, st, frame, i) && b(inp, st) == (st(bits[i]) == FrameBit(frame, i));
    }
  }

  lemma {:induction false} LogicKeepsBits(f: Fields, g: Fields, bits: seq<nat>)
    requires Logic(f, g) && BitsOk(f.lines, bits)
    ensures BitsOk(g.lines, bits)
    ensures forall i :: 0 <= i < |bits| ==> IsState(g.lines, bits[i])
  {
    BitsOkGrows(f.lines, g.lines, bits);
  }

  lemma {:induction false} LogicKeepsDenotes(f: Fields, g: Fields, n: nat, s: Signal)
    requires Logic(f, g) && Denotes(f.lines, n, s)
    ensures Denotes(g.lines, n, s)
  {
    DenotesGrows(f.lines, g.lines, n, s);
  }

  ghost function LessFn(bits: seq<nat>, frame: nat, i: nat): Signal
    requires i <= |bits|
  {
    (inp: Vals, st: Vals) => Counter(bits[i..], st) < Shift(frame, i)
  }

  ghost function EqualFn(bits: seq<nat>, frame: nat, i: nat): Signal
    requires i <= |bits|
  {
    (inp: Vals, st: Vals) => Counter(bits[i..], st) == Shift(frame, i)
  }

  ghost function LessStepFn(bits: seq<nat>, frame: nat, i: nat): Signal
    requires i < |bits|
  {
    ConnFn(ConnOr, LessFn(bits, frame, i + 1), ConnFn(ConnAnd, EqualFn(bits, frame, i + 1), BitFn(bits[i], false)))
  }

  /** Comparing one more bit, from the top: smaller already, or equal so far and smaller here. */
  lemma {:induction false} CompareStep(bits: seq<nat>, frame: nat, i: nat, inp: Vals, st: Vals)
    requires i < |bits|
    ensures LessFn(bits, frame, i)(inp, st) ==
            if FrameBit(frame, i) then LessStepFn(bits, frame, i)(inp, st) else LessFn(bits, frame, i + 1)(inp, st)
    ensures EqualFn(bits, frame, i)(inp, st) ==
            ConnFn(ConnAnd, EqualFn(bits, frame, i + 1), BitFn(bits[i], FrameBit(frame, i)))(inp, st)
  {
    CounterFrom(bits, st, i);
    ShiftFrom(frame, i);
    var c, s := Counter(bits[i + 1..], st), Shift(frame, i + 1);
    var lt, eq := LessFn(bits, frame, i + 1), EqualFn(bits, frame, i + 1);
    var no, yes := BitFn(bits[i], false), BitFn(bits[i], FrameBit(frame, i));
    assert lt(inp, st) == (c < s) && eq(inp, st) == (c == s);
    assert no(inp, st) == !st(bits[i]) && yes(inp, st) == (st(bits[i]) == FrameBit(frame, i));
    assert ConnFn(ConnAnd, eq, no)(inp, st) == (c == s && !st(bits[i]));
    assert LessStepFn(bits, frame, i)(inp, st) == (c < s || (c == s && !st(bits[i])));
    assert ConnFn(ConnAnd, eq, yes)(inp, st) == (c == s && st(bits[i]) == FrameBit(frame, i));
    assert LessFn(bits, frame, i)(inp, st) == (Counter(bits[i..], st) < Shift(frame, i));
    assert EqualFn(bits, frame, i)(inp, st) == (Counter(bits[i..], st) == Shift(frame, i));
  }

  lemma {:induction false} CompareStarts(bits: seq<nat>, frame: nat, inp: Vals, st: Vals)
    requires Shift(frame, |bits|) == 0
    ensures LessFn(bits, frame, |bits|)(inp, st) == ConstFn(false)(inp, st)
    ensures EqualFn(bits, frame, |bits|)(inp, st) == ConstFn(true)(inp, st)
  {
  }

  /** `before`: the counter is below the given frame number. */
  method Before(w: Btor2Writer, bits: seq<nat>, frame: nat) returns (r: Result)
    requires w.Valid() && BitsOk(w.lines, bits) && Shift(frame, |bits|) == 0
    modifies w
    ensures w.Valid() && Logic(old(w.All()), w.All())
    ensures r.Err? ==> r.error == Overflow
    ensures r == Err(Overflow) ==> |w.lines| >= MAX_NODES
    ensures r.Ok? ==> Denotes(w.lines, r.id, LessFn(bits, frame, 0))
  {
    hide Consistent, Denotes, Logic, Added, BitsOk, LessFn, EqualFn, LessStepFn, ConnFn, ConstFn, BitFn;
    ghost var start := w.All();
    var less := ConstOf(w, false);
    if less.Err? {
      return less;
    }
    ghost var mid := w.All();
    var equal := ConstOf(w, true);
    LogicTransitive(start, mid, w.All());
    if equal.Err? {
      return equal;
    }
    LogicKeepsDenotes(mid, w.All(), less.id, ConstFn(false));
    forall inp: Vals, st: Vals
      ensures LessFn(bits, frame, |bits|)(inp, st) == ConstFn(false)(inp, st)
      ensures EqualFn(bits, frame, |bits|)(inp, st) == ConstFn(true)(inp, st)
    {
      CompareStarts(bits, frame, inp, st);
    }
    DenotesSame(w.lines, less.id, ConstFn(false), LessFn(bits, frame, |bits|));
    DenotesSame(w.lines, equal.id, ConstFn(true), EqualFn(bits, frame, |bits|));
    var i := |bits|;
    while i > 0
      invariant 0 <= i <= |bits| && less.Ok? && equal.Ok?
      invariant w.Valid() && Logic(start, w.All())
      invariant Denotes(w.lines, less.id, LessFn(bits, frame, i)) && Denotes(w.lines, equal.id, EqualFn(bits, frame, i))
    {
      i := i - 1;
      ghost var before := w.All();
      LogicKeepsBits(start, before, bits);
      less, equal := CompareBit(w, bits, frame, i, less.id, equal.id);
      LogicTransitive(start, before, w.All());
      if less.Err? {
        return less;
      }
      if equal.Err? {
        return equal;
      }
    }
    r := less;
  }

  /** One iteration of `before`. */
  method CompareBit(w: Btor2Writer, bits: seq<nat>, frame: nat, i: nat, less: nat, equal: nat)
      returns (less': Result, equal': Result)
    requires w.Valid() && i < |bits| && IsState(w.lines, bits[i])
    requires Denotes(w.lines, less, LessFn(bits, frame, i + 1)) && Denotes(w.lines, equal, EqualFn(bits, frame, i + 1))
    modifies w
    ensures w.Valid() && Logic(old(w.All()), w.All())
    ensures (less'.Err? ==> less'.error == Overflow) && (equal'.Err? ==> equal'.error == Overflow)
    ensures (less' == Err(Overflow) ==> |w.lines| >= MAX_NODES) && (equal' == Err(Overflow) ==> |w.lines| >= MAX_NODES)
    ensures less'.Ok? && equal'.Ok? ==>
      Denotes(w.lines, less'.id, LessFn(bits, frame, i)) && Denotes(w.lines, equal'.id, EqualFn(bits, frame, i))
  {
    hide Consistent, Denotes, Logic, Added, LessFn, EqualFn, LessStepFn, ConnFn, ConstFn, BitFn;
    forall inp: Vals, st: Vals
      ensures LessFn(bits, frame, i)(inp, st) ==
              if FrameBit(frame, i) then LessStepFn(bits, frame, i)(inp, st) else LessFn(bits, frame, i + 1)(inp, st)
      ensures EqualFn(bits, frame, i)(inp, st) ==
              ConnFn(ConnAnd, EqualFn(bits, frame, i + 1), BitFn(bits[i], FrameBit(frame, i)))(inp, st)
    {
      CompareStep(bits, frame, i, inp, st);
    }
    ghost var start := w.All();
    var lt, eq := LessFn(bits, frame, i + 1), EqualFn(bits, frame, i + 1);
    less', equal' := Ok(less), Ok(equal);
    LogicReflexive(start);
    if FrameBit(frame, i) {
      less' := LowerHere(w, bits[i], less, equal, lt, eq);
      if less'.Err? {
        return;
      }
      LogicKeepsDenotes(start, w.All(), equal, eq);
      DenotesSame(w.lines, less'.id, ConnFn(ConnOr, lt, ConnFn(ConnAnd, eq, BitFn(bits[i], false))),
          LessFn(bits, frame, i)) by {
        LessStepIs(bits, frame, i);
      }
    } else {
      DenotesSame(w.lines, less'.id, lt, LessFn(bits, frame, i));
    }
    ghost var mid := w.All();
    LogicKeepsState(start, mid, bits[i]);
    equal' := AndBit(w, bits[i], FrameBit(frame, i), equal, eq);
    LogicTransitive(start, mid, w.All());
    if equal'.Ok? {
      LogicKeepsDenotes(mid, w.All(), less'.id, LessFn(bits, frame, i));
      DenotesSame(w.lines, equal'.id, ConnFn(ConnAnd, eq, BitFn(bits[i], FrameBit(frame, i))), EqualFn(bits, frame, i));
    }
  }

  lemma {:induction false} LessStepIs(bits: seq<nat>, frame: nat, i: nat)
    requires i < |bits|
    ensures LessStepFn(bits, frame, i) ==
            ConnFn(ConnOr, LessFn(bits, frame, i + 1),
                ConnFn(ConnAnd, EqualFn(bits, frame, i + 1), BitFn(bits[i], false)))
  {
  }

  lemma {:induction false} LogicReflexive(f: Fields)
    ensures Logic(f, f)
  {
  }

  lemma {:induction false} LogicKeepsState(f: Fields, g: Fields, n: nat)
    requires Logic(f, g) && IsState(f.lines, n)
    ensures IsState(g.lines, n)
  {
    assert g.lines[n] == f.lines[n];
  }

  /** `x & literal(bit)`. */
  method AndBit(w: Btor2Writer, bit: nat, value: bool, x: nat, ghost f: Signal) returns (r: Result)
    requires w.Valid() && IsState(w.lines, bit) && Denotes(w.lines, x, f)
    modifies w
    ensures w.Valid() && Logic(old(w.All()), w.All())
    ensures r.Err? ==> r.error == Overflow
    ensures r == Err(Overflow) ==> |w.lines| >= MAX_NODES
    ensures r.Ok? ==> Denotes(w.lines, r.id, ConnFn(ConnAnd, f, BitFn(bit, value)))
  {
    hide Consistent, Denotes, Logic, Added, ConnFn, BitFn;
    ghost var start := w.All();
    r := BitLiteral(w, bit, value);
    if r.Ok? {
      ghost var mid := w.All();
      LogicKeepsDenotes(start, mid, x, f);
      r := BinaryOf(w, ConnAnd, x, r.id, f, BitFn(bit, value));
      LogicTransitive(start, mid, w.All());
    }
  }

  /** `less | (equal & !bit)`. */
  method LowerHere(w: Btor2Writer, bit: nat, less: nat, equal: nat, ghost lt: Signal, ghost eq: Signal)
      returns (r: Result)
    requires w.Valid() && IsState(w.lines, bit) && Denotes(w.lines, less, lt) && Denotes(w.lines, equal, eq)
    modifies w
    ensures w.Valid() && Logic(old(w.All()), w.All())
    ensures r.Err? ==> r.error == Overflow
    ensures r == Err(Overflow) ==> |w.lines| >= MAX_NODES
    ensures r.Ok? ==> Denotes(w.lines, r.id, ConnFn(ConnOr, lt, ConnFn(ConnAnd, eq, BitFn(bit, false))))
  {
    hide Consistent, Denotes, Logic, Added, ConnFn, BitFn;
    ghost var start := w.All();
    r := AndBit(w, bit, false, equal, eq);
    if r.Ok? {
      ghost var mid := w.All();
      LogicKeepsDenotes(start, mid, less, lt);
      r := BinaryOf(w, ConnOr, less, r.id, lt, ConnFn(ConnAnd, eq, BitFn(bit, false)));
      LogicTransitive(start, mid, w.All());
    }
  }
}
