/** The divider as a table: operands arrive most significant bit first, one output bit per table. */
module TableDivider {
  import opened BoolExprs
  import opened TruthTables
  import opened TableExprs
  import D = Divider

  lemma {:induction false} ReversedValue(bits: seq<Expr>, children: seq<Expr>, env: Env)
    requires |bits| == |children| && forall i :: 0 <= i < |bits| ==> bits[i] == children[|bits| - 1 - i]
    ensures D.Value(bits, env) == Address(Args(children, env))
  {
    if bits != [] {
      var n := |bits| - 1;
      ReversedValue(bits[..n], children[1..], env);
      var args := Args(children, env);
      assert args == [args[0]] + Args(children[1..], env);
      AddressHead(args[0], Args(children[1..], env));
    }
  }

  // ----- bits of a number -----

  lemma {:induction false} Pow2Splits(a: nat, b: nat)
    ensures D.Pow2(a + b) == D.Pow2(a) * D.Pow2(b)
  {
    if b > 0 {
      Pow2Splits(a, b - 1);
      D.Pow2Doubles(a + b - 1);
      assert D.Pow2(a) * (2 * D.Pow2(b - 1)) == 2 * (D.Pow2(a) * D.Pow2(b - 1));
    }
  }

  lemma {:induction false} QuotientIs(x: int, p: int, q: int, r: int)
    requires 0 <= r < p && x == q * p + r
    ensures x / p == q
  {
    D.ModIs(x, p, q, r);
    assert (x / p) * p == q * p;
    CancelFactor(x / p, q, p);
  }

  lemma {:induction false} CancelFactor(a: int, b: int, p: int)
    requires p > 0 && a * p == b * p
    ensures a == b
  {
    assert (a - b) * p == 0;
  }

  /** Higher bits do not change a lower one. */
  lemma {:induction false} HighBitIgnored(x: int, n: nat, i: nat)
    requires i < n && x >= 0
    ensures BitOf(x + D.Pow2(n), i) == BitOf(x, i)
  {
    hide D.Pow2;
    var p, m := D.Pow2(i), D.Pow2(n - i - 1);
    Pow2Splits(i, n - i);
    D.Pow2Doubles(n - i - 1);
    Regroup(p, m);
    EvenMultiple(x, p, m);
  }

  lemma {:induction false} Regroup(p: int, m: int)
    ensures p * (2 * m) == (2 * m) * p
  {
  }

  lemma {:induction false} EvenMultiple(x: int, p: int, m: int)
    requires p > 0
    ensures (x + (2 * m) * p) / p % 2 == x / p % 2
  {
    ShiftedQuotient(x, p, 2 * m);
  }

  lemma {:induction false} ShiftedQuotient(x: int, p: int, k: int)
    requires p > 0
    ensures (x + k * p) / p == x / p + k
  {
    var q, r := x / p, x % p;
    Distribute(q, k, p);
    QuotientIs(x + k * p, p, q + k, r);
  }

  lemma {:induction false} Distribute(a: int, b: int, p: int)
    ensures (a + b) * p == a * p + b * p
  {
  }

  /** Bit i of the number of a word is the value of its bit i. */
  lemma {:induction false} WordBit(word: seq<Expr>, i: nat, env: Env)
    requires i < |word|
    ensures BitOf(D.Value(word, env), i) == Eval(word[i], env)
  {
    hide D.Pow2;
    var n := |word| - 1;
    var low := D.Value(word[..n], env);
    if i < n {
      WordBit(word[..n], i, env);
      if Eval(word[n], env) {
        hide BitOf;
        HighBitIgnored(low, n, i);
      }
    } else {
      QuotientIs(D.Value(word, env), D.Pow2(n), if Eval(word[n], env) then 1 else 0, low);
    }
  }

  // ----- the words are unique -----

  lemma {:induction false} EuclidIsUnique(b: int, q: int, r: int, q': int, r': int)
    requires b > 0 && q * b + r == q' * b + r' && 0 <= r < b && 0 <= r' < b
    ensures q == q' && r == r'
  {
    QuotientIs(q * b + r, b, q, r);
    QuotientIs(q * b + r, b, q', r');
  }

  lemma {:induction false} WordsAreUnique(width: nat, signed: bool, args: seq<bool>, q: int, r: int, q': int, r': int)
    requires |args| == 2 * width && DivModWords(width, signed, args, q, r) && DivModWords(width, signed, args, q', r')
    ensures q == q' && r == r'
  {
    hide D.Pow2;
    var a, b: int := Address(args[..width]), Address(args[width..]);
    if signed && width > 0 {
      var sa, sb := if args[0] then a - D.Pow2(width) else a, if args[width] then b - D.Pow2(width) else b;
      if sb != 0 {
        var tq, tr :| D.Truncates(sa, sb, tq, tr) && q == tq % D.Pow2(width) && r == tr % D.Pow2(width);
        var tq', tr' :| D.Truncates(sa, sb, tq', tr') && q' == tq' % D.Pow2(width) && r' == tr' % D.Pow2(width);
        D.TruncationIsUnique(sa, sb, tq, tr, tq', tr');
      }
    } else if b != 0 {
      EuclidIsUnique(b, q, r, q', r');
    }
  }

  /** One output bit of the built words is the table's value. */
  lemma {:induction false} OutputBit(width: nat, signed: bool, result: DivModResult, bit: nat, children: seq<Expr>,
      quotient: seq<Expr>, remainder: seq<Expr>, env: Env)
    requires |children| == 2 * width && |quotient| == |remainder| == width && bit < width
    requires DivModWords(width, signed, Args(children, env), D.Value(quotient, env), D.Value(remainder, env))
    ensures Eval((if result.Quotient? then quotient else remainder)[bit], env) ==
      DivModValue(width, signed, result, bit, Args(children, env))
  {
    hide DivModWords, BitOf;
    var args, q, r := Args(children, env), D.Value(quotient, env), D.Value(remainder, env);
    WordBit(quotient, bit, env);
    WordBit(remainder, bit, env);
    forall q', r' | DivModWords(width, signed, args, q', r')
      ensures q' == q && r' == r
    {
      WordsAreUnique(width, signed, args, q', r', q, r);
    }
  }

  /** `buildDivModTruthTableExpr`, up to the lookup of the outputs: all bits of both words. */
  method BuildDivModWords(h: Mixer, width: nat, signed: bool, children: seq<Expr>) returns (words: D.DivMod)
    requires width > 0 && |children| == 2 * width
    ensures |words.quotient| == |words.remainder| == width
    ensures forall i :: 0 <= i < width ==> Computes(words.quotient[i], DivMod(width, signed, Quotient, i), children)
    ensures forall i :: 0 <= i < width ==> Computes(words.remainder[i], DivMod(width, signed, Remainder, i), children)
  {
    hide DivModWords, DivModValue;
    var dividend := seq(width, bit requires 0 <= bit < width => children[width - 1 - bit]);
    var divisor := seq(width, bit requires 0 <= bit < width => children[2 * width - 1 - bit]);
    var built := D.BuildDivMod(h, dividend, divisor, signed);
    words := built.value;
    forall env
      ensures DivModWords(width, signed, Args(children, env), D.Value(words.quotient, env),
        D.Value(words.remainder, env))
    {
      WordsHold(width, signed, children, dividend, divisor, words, env);
    }
    forall i, env | 0 <= i < width
      ensures Eval(words.quotient[i], env) == TableValue(DivMod(width, signed, Quotient, i), Args(children, env))
      ensures Eval(words.remainder[i], env) == TableValue(DivMod(width, signed, Remainder, i), Args(children, env))
    {
      OutputBit(width, signed, Quotient, i, children, words.quotient, words.remainder, env);
      OutputBit(width, signed, Remainder, i, children, words.quotient, words.remainder, env);
    }
  }

  lemma {:induction false} WordsHold(width: nat, signed: bool, children: seq<Expr>, dividend: seq<Expr>,
      divisor: seq<Expr>, words: D.DivMod, env: Env)
    requires width > 0 && |children| == 2 * width && |dividend| == |divisor| == width
    requires |words.quotient| == |words.remainder| == width
    requires forall bit :: 0 <= bit < width ==> dividend[bit] == children[width - 1 - bit]
    requires forall bit :: 0 <= bit < width ==> divisor[bit] == children[2 * width - 1 - bit]
    requires !signed ==>
      D.UnsignedResult(D.Value(dividend, env), D.Value(divisor, env), D.Value(words.quotient, env),
          D.Value(words.remainder, env), width)
    requires signed ==>
      D.SignedResult(D.SignedValue(dividend, env), D.SignedValue(divisor, env), D.Value(words.quotient, env),
          D.Value(words.remainder, env), width)
    ensures DivModWords(width, signed, Args(children, env), D.Value(words.quotient, env), D.Value(words.remainder, env))
  {
    hide D.UnsignedResult, D.SignedResult, D.Pow2, D.Value, Address, Eval;
    var args := Args(children, env);
    assert args[..width] == Args(children[..width], env) && args[width..] == Args(children[width..], env);
    ReversedValue(dividend, children[..width], env);
    ReversedValue(divisor, children[width..], env);
    assert args[0] == Eval(dividend[width - 1], env) && args[width] == Eval(divisor[width - 1], env);
  }
}
