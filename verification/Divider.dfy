/**
 The bit-blasted restoring divider: bit vectors of expressions, least significant bit
 first, and the numbers they stand for in an environment.
 */
module Divider {
  import opened Options
  import opened BoolExprs

  type Bits = seq<Expr>

  datatype DivMod = DivMod(quotient: Bits, remainder: Bits)

  function Pow2(n: nat): (p: int)
    ensures p > 0
  {
    if n == 0 then 1 else 2 * Pow2(n - 1)
  }

  lemma {:induction false} Pow2Doubles(n: nat)
    ensures Pow2(n + 1) == 2 * Pow2(n)
  {
  }

  /** The unsigned number of a bit vector. */
  function Value(bits: Bits, env: Env): (v: int)
    ensures 0 <= v < Pow2(|bits|)
  {
    if |bits| == 0 then 0
    else
      var n := |bits| - 1;
      Value(bits[..n], env) + if Eval(bits[n], env) then Pow2(n) else 0
  }

  lemma {:induction false} ValuePrefix(bits: Bits, i: nat, env: Env)
    requires i < |bits|
    ensures Value(bits[..i + 1], env) == Value(bits[..i], env) + if Eval(bits[i], env) then Pow2(i) else 0
  {
    assert bits[..i + 1][..i] == bits[..i];
  }

  lemma {:induction false} ValueAppend(bits: Bits, b: Expr, env: Env)
    ensures Value(bits + [b], env) == Value(bits, env) + if Eval(b, env) then Pow2(|bits|) else 0
  {
    assert (bits + [b])[..|bits|] == bits;
  }

  /** A new lowest bit doubles the number and adds the bit. */
  lemma {:induction false} ValueShift(b: Expr, bits: Bits, env: Env)
    ensures Value([b] + bits, env) == 2 * Value(bits, env) + if Eval(b, env) then 1 else 0
    decreases |bits|
  {
    if |bits| == 0 {
      assert [b] + bits == [] + [b];
      ValueAppend([], b, env);
    } else {
      var n := |bits| - 1;
      ValueShift(b, bits[..n], env);
      assert [b] + bits == ([b] + bits[..n]) + [bits[n]];
      ValueAppend([b] + bits[..n], bits[n], env);
    }
  }

  /** Clearing the top bit of a small number loses nothing. */
  lemma {:induction false} ValueSmall(bits: Bits, env: Env)
    requires |bits| > 0 && Value(bits, env) < Pow2(|bits| - 1)
    ensures Value(bits[..|bits| - 1], env) == Value(bits, env)
  {
  }

  function MkIte(h: Mixer, c: Expr, t: Expr, f: Expr): (r: Expr)
    ensures forall env :: Eval(r, env) == if Eval(c, env) then Eval(t, env) else Eval(f, env)
  {
    if t == f then t else MkOr(h, MkAnd(h, c, t), MkAnd(h, MkNot(c), f))
  }

  // ----- subtraction -----

  /** A ripple subtraction so far: left operand plus borrow equals right operand plus difference. */
  ghost predicate Subtracted(lhs: Bits, rhs: Bits, diff: Bits, borrow: Expr, env: Env) {
    Value(lhs, env) + (if Eval(borrow, env) then Pow2(|lhs|) else 0) == Value(rhs, env) + Value(diff, env)
  }

  /** One full subtractor on numbers. */
  lemma {:induction false} FullSubtractor(x: int, y: int, z: int, p: int, l: bool, r: bool, bin: bool, d: bool,
      bout: bool)
    requires x + (if bin then p else 0) == y + z
    requires d == ((l != r) != bin)
    requires bout == ((!l && (r || bin)) || (r && bin))
    ensures (x + if l then p else 0) + (if bout then 2 * p else 0) ==
      (y + if r then p else 0) + (z + if d then p else 0)
  {
  }

  lemma {:induction false} SubtractStep(lhs: Bits, rhs: Bits, diff: Bits, borrow: Expr, l: Expr, r: Expr, d: Expr,
      borrow': Expr, env: Env)
    requires |lhs| == |rhs| == |diff| && Subtracted(lhs, rhs, diff, borrow, env)
    requires Eval(d, env) == ((Eval(l, env) != Eval(r, env)) != Eval(borrow, env))
    requires Eval(borrow', env) ==
             ((!Eval(l, env) && (Eval(r, env) || Eval(borrow, env))) || (Eval(r, env) && Eval(borrow, env)))
    ensures Subtracted(lhs + [l], rhs + [r], diff + [d], borrow', env)
  {
    hide Eval, Value, Pow2;
    ValueAppend(lhs, l, env);
    ValueAppend(rhs, r, env);
    ValueAppend(diff, d, env);
    Pow2Doubles(|lhs|);
    FullSubtractor(Value(lhs, env), Value(rhs, env), Value(diff, env), Pow2(|lhs|),
                   Eval(l, env), Eval(r, env), Eval(borrow, env), Eval(d, env), Eval(borrow', env));
  }

  method SubtractBits(h: Mixer, lhs: Bits, rhs: Bits) returns (diff: Bits, borrow: Expr)
    requires |lhs| == |rhs|
    ensures |diff| == |lhs|
    ensures forall env ::
      Value(lhs, env) + (if Eval(borrow, env) then Pow2(|lhs|) else 0) == Value(rhs, env) + Value(diff, env)
    ensures forall env :: Eval(borrow, env) <==> Value(lhs, env) < Value(rhs, env)
    ensures forall env :: Value(lhs, env) >= Value(rhs, env) ==> Value(diff, env) == Value(lhs, env) - Value(rhs, env)
  {
    diff, borrow := [], FALSE;
    for i := 0 to |lhs|
      invariant |diff| == i
      invariant forall env :: Subtracted(lhs[..i], rhs[..i], diff, borrow, env)
    {
      hide Subtracted;
      var d := MkXor(h, MkXor(h, lhs[i], rhs[i]), borrow);
      var borrow' := MkOr(h, MkAnd(h, MkNot(lhs[i]), MkOr(h, rhs[i], borrow)), MkAnd(h, rhs[i], borrow));
      var lhs', rhs' := lhs[..i] + [lhs[i]], rhs[..i] + [rhs[i]];
      assert lhs[..i + 1] == lhs' && rhs[..i + 1] == rhs';
      forall env
        ensures Subtracted(lhs', rhs', diff + [d], borrow', env)
      {
        SubtractStep(lhs[..i], rhs[..i], diff, borrow, lhs[i], rhs[i], d, borrow', env);
      }
      diff, borrow := diff + [d], borrow';
    }
    assert lhs[..|lhs|] == lhs && rhs[..|rhs|] == rhs;
    forall env
      ensures Value(lhs, env) + (if Eval(borrow, env) then Pow2(|lhs|) else 0) == Value(rhs, env) + Value(diff, env)
      ensures Eval(borrow, env) <==> Value(lhs, env) < Value(rhs, env)
      ensures Value(lhs, env) >= Value(rhs, env) ==> Value(diff, env) == Value(lhs, env) - Value(rhs, env)
    {
      assert Subtracted(lhs, rhs, diff, borrow, env);
      hide Pow2, Eval;
    }
  }

  // ----- two's-complement negation -----

  ghost predicate Negated(bits: Bits, negate: Expr, result: Bits, carry: Expr, env: Env) {
    if Eval(negate, env)
    then Value(result, env) + (if Eval(carry, env) then Pow2(|bits|) else 0) == Pow2(|bits|) - Value(bits, env)
    else !Eval(carry, env) && Value(result, env) == Value(bits, env)
  }

  /** One half adder over an inverted bit, on numbers. */
  lemma {:induction false} HalfAdder(x: int, y: int, p: int, negate: bool, b: bool, cin: bool, r: bool, cout: bool)
    requires if negate then y + (if cin then p else 0) == p - x else !cin && y == x
    requires r == ((b != negate) != cin)
    requires cout == ((b != negate) && cin)
    ensures var x', y' := x + (if b then p else 0), y + (if r then p else 0);
      if negate then y' + (if cout then 2 * p else 0) == 2 * p - x' else !cout && y' == x'
  {
  }

  lemma {:induction false} NegateStep(bits: Bits, negate: Expr, result: Bits, carry: Expr, b: Expr, r: Expr,
      carry': Expr, env: Env)
    requires |bits| == |result| && Negated(bits, negate, result, carry, env)
    requires Eval(r, env) == ((Eval(b, env) != Eval(negate, env)) != Eval(carry, env))
    requires Eval(carry', env) == ((Eval(b, env) != Eval(negate, env)) && Eval(carry, env))
    ensures Negated(bits + [b], negate, result + [r], carry', env)
  {
    hide Eval, Value, Pow2;
    ValueAppend(bits, b, env);
    ValueAppend(result, r, env);
    Pow2Doubles(|bits|);
    HalfAdder(Value(bits, env), Value(result, env), Pow2(|bits|),
              Eval(negate, env), Eval(b, env), Eval(carry, env), Eval(r, env), Eval(carry', env));
  }

  /** Two's complement of x at width n. */
  function Complement(x: int, n: nat): int
    requires 0 <= x < Pow2(n)
  {
    if x == 0 then 0 else Pow2(n) - x
  }

  method ConditionalNegate(h: Mixer, bits: Bits, negate: Expr) returns (result: Bits)
    ensures |result| == |bits|
    ensures forall env :: Value(result, env) ==
              if Eval(negate, env) then Complement(Value(bits, env), |bits|) else Value(bits, env)
  {
    var carry := negate;
    result := [];
    for i := 0 to |bits|
      invariant |result| == i
      invariant forall env :: Negated(bits[..i], negate, result, carry, env)
    {
      hide Negated;
      var inverted := MkXor(h, bits[i], negate);
      var r := MkXor(h, inverted, carry);
      var carry' := MkAnd(h, inverted, carry);
      var bits' := bits[..i] + [bits[i]];
      assert bits[..i + 1] == bits';
      forall env
        ensures Negated(bits', negate, result + [r], carry', env)
      {
        NegateStep(bits[..i], negate, result, carry, bits[i], r, carry', env);
      }
      result, carry := result + [r], carry';
    }
    assert bits[..|bits|] == bits;
    forall env
      ensures Value(result, env) ==
              if Eval(negate, env) then Complement(Value(bits, env), |bits|) else Value(bits, env)
    {
      assert Negated(bits, negate, result, carry, env);
      hide Pow2, Eval;
    }
  }

  // ----- the unsigned divider -----

  method ShiftIn(b: Expr, remainder: Bits) returns (shifted: Bits)
    requires |remainder| > 0
    ensures shifted == [b] + remainder[..|remainder| - 1]
  {
    shifted := [b];
    for i := 1 to |remainder|
      invariant shifted == [b] + remainder[..i - 1]
    {
      assert remainder[..i] == remainder[..i - 1] + [remainder[i - 1]];
      shifted := shifted + [remainder[i - 1]];
    }
  }

  method SelectBits(h: Mixer, c: Expr, t: Bits, f: Bits) returns (r: Bits)
    requires |t| == |f|
    ensures |r| == |t|
    ensures forall env :: Value(r, env) == if Eval(c, env) then Value(t, env) else Value(f, env)
  {
    r := [];
    for i := 0 to |t|
      invariant |r| == i
      invariant forall env :: Value(r, env) == if Eval(c, env) then Value(t[..i], env) else Value(f[..i], env)
    {
      var b := MkIte(h, c, t[i], f[i]);
      forall env
        ensures Value(r + [b], env) == if Eval(c, env) then Value(t[..i + 1], env) else Value(f[..i + 1], env)
      {
        ValueAppend(r, b, env);
        ValuePrefix(t, i, env);
        ValuePrefix(f, i, env);
      }
      r := r + [b];
    }
    assert t[..|t|] == t && f[..|f|] == f;
  }

  /**
   The state of long division after the dividend bits from `top` up: for a nonzero divisor
   the usual equation with a small remainder, for a zero divisor all ones and the dividend.
   */
  predicate LongDivision(high: int, v: int, q: int, r: int, qbits: nat) {
    if v == 0 then r == high && q + 1 == Pow2(qbits)
    else high == q * v + r && 0 <= r < v
  }

  /** One restoring step keeps the long-division equation. */
  lemma {:induction false} LongDivisionStep(high: int, v: int, q: int, r: int, d: int, qbits: nat)
    requires LongDivision(high, v, q, r, qbits) && 0 <= d <= 1 && v >= 0 && r >= 0
    ensures var s := 2 * r + d;
      LongDivision(2 * high + d, v, 2 * q + if s >= v then 1 else 0, if s >= v then s - v else s, qbits + 1)
  {
    var s := 2 * r + d;
    if v != 0 {
      assert 2 * high + d == (2 * q) * v + s by {
        assert (2 * q) * v == 2 * (q * v);
      }
      if s >= v {
        assert (2 * q + 1) * v == (2 * q) * v + v;
      }
    }
  }

  /** The state of the loop: the dividend bits consumed so far, and the quotient bits they gave. */
  ghost predicate Divided(high: Bits, divisor: Bits, quotient: Bits, remainder: Bits, env: Env) {
    && LongDivision(Value(high, env), Value(divisor, env), Value(quotient, env), Value(remainder, env), |high|)
    && Value(remainder, env) < Pow2(|divisor|)
  }

  lemma {:induction false} Pow2Monotone(a: nat, b: nat)
    requires a <= b
    ensures Pow2(a) <= Pow2(b)
    decreases b - a
  {
    if a < b {
      Pow2Monotone(a + 1, b);
    }
  }

  lemma {:induction false} DividedStep(high: Bits, divisor: Bits, quotient: Bits, remainder: Bits, d: Expr,
                    shifted: Bits, take: Expr, remainder': Bits, env: Env)
    requires |high| < |divisor| && |remainder| == |divisor| + 1
    requires Divided(high, divisor, quotient, remainder, env)
    requires shifted == [d] + remainder[..|divisor|]
    requires Eval(take, env) <==> Value(shifted, env) >= Value(divisor, env)
    requires Value(remainder', env) ==
             if Eval(take, env) then Value(shifted, env) - Value(divisor, env) else Value(shifted, env)
    ensures Value(shifted, env) == 2 * Value(remainder, env) + if Eval(d, env) then 1 else 0
    ensures Divided([d] + high, divisor, [take] + quotient, remainder', env)
  {
    hide Value, Eval, Pow2, LongDivision;
    ValueSmall(remainder, env);
    ValueShift(d, remainder[..|divisor|], env);
    ValueShift(d, high, env);
    ValueShift(take, quotient, env);
    LongDivisionStep(Value(high, env), Value(divisor, env), Value(quotient, env), Value(remainder, env),
                     if Eval(d, env) then 1 else 0, |high|);
    Pow2Monotone(|high| + 1, |divisor|);
    RemainderIsSmall(Value([d] + high, env), Value(divisor, env), Value([take] + quotient, env),
                     Value(remainder', env), |high| + 1);
  }

  lemma {:induction false} RemainderIsSmall(high: int, v: int, q: int, r: int, qbits: nat)
    requires LongDivision(high, v, q, r, qbits) && v >= 0
    ensures r <= if v == 0 then high else v - 1
  {
  }

  /** One iteration of the division loop, on expressions. */
  method DivideBit(h: Mixer, ghost high: Bits, divisor: Bits, extended: Bits, ghost quotient: Bits, remainder: Bits,
      d: Expr)
    returns (take: Expr, remainder': Bits)
    requires |high| < |divisor| && |remainder| == |divisor| + 1
    requires extended == divisor + [FALSE]
    requires forall env :: Divided(high, divisor, quotient, remainder, env)
    ensures |remainder'| == |remainder|
    ensures forall env :: Divided([d] + high, divisor, [take] + quotient, remainder', env)
  {
    hide Divided;
    var shifted := ShiftIn(d, remainder);
    var diff, borrow := SubtractBits(h, shifted, extended);
    take := MkNot(borrow);
    remainder' := SelectBits(h, take, diff, shifted);
    forall env
      ensures Divided([d] + high, divisor, [take] + quotient, remainder', env)
    {
      ValueAppend(divisor, FALSE, env);
      DividedStep(high, divisor, quotient, remainder, d, shifted, take, remainder', env);
    }
  }

  /** What the divider promises for one environment. */
  predicate UnsignedResult(a: int, b: int, q: int, r: int, width: nat) {
    if b == 0 then q == Pow2(width) - 1 && r == a
    else a == q * b + r && 0 <= r < b
  }

  method UnsignedDivMod(h: Mixer, dividend: Bits, divisor: Bits) returns (result: Option<DivMod>)
    ensures result.None? <==> dividend == [] || |dividend| != |divisor|
    ensures result.Some? ==>
              && |result.value.quotient| == |dividend| == |result.value.remainder|
              && forall env :: UnsignedResult(Value(dividend, env), Value(divisor, env),
                   Value(result.value.quotient, env), Value(result.value.remainder, env), |dividend|)
  {
    if dividend == [] || |dividend| != |divisor| {
      return None;
    }
    var width := |dividend|;
    var quotient := seq(width, i => FALSE);
    var remainder := seq(width + 1, i => FALSE);
    var extended := divisor + [FALSE];
    forall env
      ensures Divided(dividend[width..], divisor, quotient[width..], remainder, env)
    {
      ValueOfZeros(remainder, env);
    }
    var top := width;
    while top > 0
      invariant 0 <= top <= width && |quotient| == width && |remainder| == width + 1
      invariant forall env :: Divided(dividend[top..], divisor, quotient[top..], remainder, env)
    {
      hide Divided;
      var take;
      take, remainder := DivideBit(h, dividend[top..], divisor, extended, quotient[top..], remainder,
          dividend[top - 1]);
      ghost var before := quotient;
      top := top - 1;
      quotient := quotient[top := take];
      assert dividend[top..] == [dividend[top]] + dividend[top + 1..];
      assert quotient[top..] == [take] + before[top + 1..];
    }
    result := Some(DivMod(quotient, remainder[..width]));
    assert dividend[0..] == dividend && quotient[0..] == quotient;
    forall env
      ensures UnsignedResult(Value(dividend, env), Value(divisor, env), Value(quotient, env),
                             Value(remainder[..width], env), width)
    {
      assert Divided(dividend, divisor, quotient, remainder, env);
      ValueSmall(remainder, env);
      hide Value, Pow2;
    }
  }

  lemma {:induction false} ValueOfZeros(bits: Bits, env: Env)
    requires forall i :: 0 <= i < |bits| ==> bits[i] == FALSE
    ensures Value(bits, env) == 0
    decreases |bits|
  {
    if |bits| > 0 {
      ValueOfZeros(bits[..|bits| - 1], env);
    }
  }

  // ----- the signed divider -----

  /** The two's-complement number of a bit vector. */
  function SignedValue(bits: Bits, env: Env): int
    requires |bits| > 0
  {
    if Eval(bits[|bits| - 1], env) then Value(bits, env) - Pow2(|bits|) else Value(bits, env)
  }

  lemma {:induction false} SignedRange(bits: Bits, env: Env)
    requires |bits| > 0
    ensures 0 - Pow2(|bits| - 1) <= SignedValue(bits, env) < Pow2(|bits| - 1)
    ensures Eval(bits[|bits| - 1], env) <==> SignedValue(bits, env) < 0
  {
  }

  function Abs(x: int): int {
    if x < 0 then 0 - x else x
  }

  /** Conditional negation by its own sign bit yields the magnitude, even for the most negative number. */
  lemma {:induction false} MagnitudeOf(bits: Bits, magnitude: int, env: Env)
    requires |bits| > 0
    requires magnitude == if Eval(bits[|bits| - 1], env) then Complement(Value(bits, env), |bits|) else Value(bits, env)
    ensures magnitude == Abs(SignedValue(bits, env))
  {
    SignedRange(bits, env);
  }

  /**
   Division as section 11.4.3 of IEEE 1800-2017 defines it: the quotient is truncated
   toward zero and a nonzero remainder has the sign of the dividend.
   */
  predicate Truncates(a: int, b: int, q: int, r: int)
    requires b != 0
  {
    && a == q * b + r
    && Abs(r) < Abs(b)
    && (r != 0 ==> (r < 0 <==> a < 0))
  }

  lemma {:induction false} MulAbs(x: int, y: int)
    ensures Abs(x * y) == Abs(x) * Abs(y)
  {
    if x >= 0 && y >= 0 {
    } else if x < 0 && y < 0 {
      assert (0 - x) * (0 - y) == x * y;
    } else if x < 0 {
      assert (0 - x) * y == 0 - x * y;
    } else {
      assert x * (0 - y) == 0 - x * y;
    }
  }

  lemma {:induction false} MulGrows(x: int, y: int, k: int)
    requires x >= k >= 0 && y >= 0
    ensures x * y >= k * y
  {
    assert x * y - k * y == (x - k) * y;
  }

  /** Quotient and remainder are unique. */
  lemma {:induction false} TruncationIsUnique(a: int, b: int, q: int, r: int, q': int, r': int)
    requires b != 0 && Truncates(a, b, q, r) && Truncates(a, b, q', r')
    ensures q == q' && r == r'
  {
    var k := q - q';
    assert k * b == r' - r by {
      assert q * b - q' * b == k * b;
    }
    MulAbs(k, b);
    if k != 0 {
      MulGrows(Abs(k), Abs(b), 1);
    }
  }

  function WithSign(negative: bool, magnitude: int): int {
    if negative then 0 - magnitude else magnitude
  }

  lemma {:induction false} WithSignMul(negative: bool, q: int, b: int)
    ensures WithSign(negative, q) * b == WithSign(negative != (b < 0), q * Abs(b))
  {
    assert (0 - q) * b == 0 - q * b;
    assert q * (0 - b) == 0 - q * b;
  }

  /** Dividing magnitudes and restoring the signs truncates toward zero. */
  lemma {:induction false} SignedFromMagnitudes(a: int, b: int, q: int, r: int)
    requires b != 0 && Abs(a) == q * Abs(b) + r && 0 <= r < Abs(b)
    ensures Truncates(a, b, WithSign((a < 0) != (b < 0), q), WithSign(a < 0, r))
  {
    WithSignMul((a < 0) != (b < 0), q, b);
  }

  /** The remainder of a Euclidean division is pinned down by any decomposition. */
  lemma {:induction false} ModIs(x: int, p: int, k: int, y: int)
    requires 0 <= y < p && x == k * p + y
    ensures x % p == y
  {
    var d := x / p - k;
    assert d * p == y - x % p by {
      assert (x / p) * p - k * p == d * p;
    }
    MulAbs(d, p);
    if d != 0 {
      MulGrows(Abs(d), p, 1);
    }
  }

  /** Negating a number at a width changes its sign modulo the width. */
  lemma {:induction false} ComplementIsNegation(x: int, negate: bool, n: nat)
    requires 0 <= x < Pow2(n)
    ensures (if negate then Complement(x, n) else x) == WithSign(negate, x) % Pow2(n)
  {
    if negate && x != 0 {
      ModIs(0 - x, Pow2(n), -1, Pow2(n) - x);
    } else {
      ModIs(x, Pow2(n), 0, x);
    }
  }

  /** The signed result for every pair of operands, the most negative number and zero included. */
  ghost predicate SignedResult(a: int, b: int, q: int, r: int, width: nat) {
    if b == 0 then q == (if a < 0 then 1 else -1) % Pow2(width) && r == a % Pow2(width)
    else exists tq, tr :: Truncates(a, b, tq, tr) && q == tq % Pow2(width) && r == tr % Pow2(width)
  }

  method SignedDivMod(h: Mixer, dividend: Bits, divisor: Bits) returns (result: Option<DivMod>)
    requires dividend != [] && divisor != []
    ensures result.None? <==> |dividend| != |divisor|
    ensures result.Some? ==>
              && |result.value.quotient| == |dividend| == |result.value.remainder|
              && forall env :: SignedResult(SignedValue(dividend, env), SignedValue(divisor, env),
                   Value(result.value.quotient, env), Value(result.value.remainder, env), |dividend|)
  {
    var dividendSign := dividend[|dividend| - 1];
    var divisorSign := divisor[|divisor| - 1];
    var a := ConditionalNegate(h, dividend, dividendSign);
    var b := ConditionalNegate(h, divisor, divisorSign);
    var magnitude := UnsignedDivMod(h, a, b);
    if magnitude.None? {
      return None;
    }
    var q := ConditionalNegate(h, magnitude.value.quotient, MkXor(h, dividendSign, divisorSign));
    var r := ConditionalNegate(h, magnitude.value.remainder, dividendSign);
    result := Some(DivMod(q, r));
    forall env
      ensures SignedResult(SignedValue(dividend, env), SignedValue(divisor, env), Value(q, env), Value(r, env),
        |dividend|)
    {
      MagnitudeOf(dividend, Value(a, env), env);
      MagnitudeOf(divisor, Value(b, env), env);
      SignedRange(dividend, env);
      SignedRange(divisor, env);
      hide SignedValue, Value, Eval, Pow2, UnsignedResult, SignedResult, Complement;
      SignsRestored(SignedValue(dividend, env), SignedValue(divisor, env),
                    Value(magnitude.value.quotient, env), Value(magnitude.value.remainder, env),
                    Value(q, env), Value(r, env), |dividend|);
    }
  }

  lemma {:induction false} SignsRestored(a: int, b: int, mq: int, mr: int, q: int, r: int, width: nat)
    requires width > 0 && 0 <= mq < Pow2(width) && 0 <= mr < Pow2(width)
    requires UnsignedResult(Abs(a), Abs(b), mq, mr, width)
    requires q == if (a < 0) != (b < 0) then Complement(mq, width) else mq
    requires r == if a < 0 then Complement(mr, width) else mr
    ensures SignedResult(a, b, q, r, width)
  {
    ComplementIsNegation(mq, (a < 0) != (b < 0), width);
    ComplementIsNegation(mr, a < 0, width);
    if b == 0 {
      Pow2Monotone(1, width);
      ModIs(1, Pow2(width), 0, 1);
      ModIs(-1, Pow2(width), -1, Pow2(width) - 1);
      assert q == if a < 0 then 1 else Pow2(width) - 1;
    } else {
      SignedFromMagnitudes(a, b, mq, mr);
      assert Truncates(a, b, WithSign((a < 0) != (b < 0), mq), WithSign(a < 0, mr));
    }
  }

  /** The quotient fits its width unless the most negative number is divided by -1. */
  lemma {:induction false} SignedQuotientFits(a: int, b: int, q: int, r: int, width: nat)
    requires width > 0 && b != 0 && Truncates(a, b, q, r)
    requires 0 - Pow2(width - 1) <= a < Pow2(width - 1)
    ensures 0 - Pow2(width - 1) <= q < Pow2(width - 1) <==> !(a == 0 - Pow2(width - 1) && b == -1)
  {
    hide Pow2;
    var p := Pow2(width - 1);
    SameSigns(a, b, q, r);
    MulAbs(q, b);
    if b == 1 {
      assert q == a;
    } else if b == -1 {
      assert q == 0 - a;
    } else {
      MulGrows(Abs(b), Abs(q), 2);
      assert Abs(b) * Abs(q) == Abs(q) * Abs(b);
      assert 2 * Abs(q) <= Abs(a) <= p;
    }
  }

  /** Quotient times divisor never has the opposite sign of the dividend. */
  lemma {:induction false} SameSigns(a: int, b: int, q: int, r: int)
    requires b != 0 && Truncates(a, b, q, r)
    ensures Abs(a) == Abs(q * b) + Abs(r)
  {
    MulAbs(q, b);
    if q != 0 {
      MulGrows(Abs(q), Abs(b), 1);
    }
  }

  /** `buildDivMod`. */
  method BuildDivMod(h: Mixer, dividend: Bits, divisor: Bits, isSigned: bool) returns (result: Option<DivMod>)
    requires isSigned ==> dividend != [] && divisor != []
    ensures result.None? <==> dividend == [] || |dividend| != |divisor|
    ensures result.Some? ==> |result.value.quotient| == |dividend| == |result.value.remainder|
    ensures result.Some? && !isSigned ==> forall env :: UnsignedResult(Value(dividend, env), Value(divisor, env),
              Value(result.value.quotient, env), Value(result.value.remainder, env), |dividend|)
    ensures result.Some? && isSigned ==>
      forall env :: SignedResult(SignedValue(dividend, env), SignedValue(divisor, env),
              Value(result.value.quotient, env), Value(result.value.remainder, env), |dividend|)
  {
    if isSigned {
      result := SignedDivMod(h, dividend, divisor);
    } else {
      result := UnsignedDivMod(h, dividend, divisor);
    }
  }
}
