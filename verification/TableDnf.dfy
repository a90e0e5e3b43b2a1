/** The disjunctive form of an explicit table over its relevant inputs. */
module TableDnf {
  import opened BoolExprs
  import opened TruthTables
  import opened TableExprs
  import D = Divider

  ghost predicate RowsOk(t: TruthTable) {
    t.Rows? && |t.bits| == D.Pow2(t.size)
  }

  // ----- rows as bit vectors -----

  lemma {:induction false} RowBound(a: seq<bool>)
    ensures RowOf(a) < D.Pow2(|a|)
  {
    if a != [] {
      RowBound(a[1..]);
      D.Pow2Doubles(|a| - 1);
    }
  }

  /** Bit j of a row number. */
  predicate RowBit(m: nat, j: nat) {
    if j == 0 then m % 2 == 1 else RowBit(m / 2, j - 1)
  }

  /** `m ^ (1 << j)`. */
  function FlipBit(m: nat, j: nat): nat {
    if j == 0 then (if m % 2 == 1 then m - 1 else m + 1) else m % 2 + 2 * FlipBit(m / 2, j - 1)
  }

  function VectorOf(m: nat, k: nat): (a: seq<bool>)
    ensures |a| == k
  {
    if k == 0 then [] else [m % 2 == 1] + VectorOf(m / 2, k - 1)
  }

  lemma {:induction false} VectorRoundTrip(m: nat, k: nat)
    requires m < D.Pow2(k)
    ensures RowOf(VectorOf(m, k)) == m
    ensures forall j :: 0 <= j < k ==> VectorOf(m, k)[j] == RowBit(m, j)
  {
    if k > 0 {
      D.Pow2Doubles(k - 1);
      VectorRoundTrip(m / 2, k - 1);
      var a := VectorOf(m, k);
      assert a[1..] == VectorOf(m / 2, k - 1);
      forall j | 0 <= j < k
        ensures a[j] == RowBit(m, j)
      {
        if j > 0 {
          assert a[j] == VectorOf(m / 2, k - 1)[j - 1];
        }
      }
    }
  }

  lemma {:induction false} RowBits(a: seq<bool>, j: nat)
    requires j < |a|
    ensures RowBit(RowOf(a), j) == a[j]
  {
    assert RowOf(a) % 2 == (if a[0] then 1 else 0) && RowOf(a) / 2 == RowOf(a[1..]);
    if j > 0 {
      RowBits(a[1..], j - 1);
    }
  }

  lemma {:induction false} RowFlip(a: seq<bool>, j: nat)
    requires j < |a|
    ensures RowOf(a[j := !a[j]]) == FlipBit(RowOf(a), j)
  {
    var b := a[j := !a[j]];
    assert RowOf(a) % 2 == (if a[0] then 1 else 0) && RowOf(a) / 2 == RowOf(a[1..]);
    if j == 0 {
      assert b[1..] == a[1..];
    } else {
      assert b[1..] == a[1..][j - 1 := !a[1..][j - 1]];
      RowFlip(a[1..], j - 1);
    }
  }

  // ----- relevant inputs -----

  /** Flipping input j changes the output at row m. */
  predicate Matters(t: TruthTable, j: nat, m: nat) {
    t.Rows? && m < |t.bits| && FlipBit(m, j) < |t.bits| && t.bits[m] != t.bits[FlipBit(m, j)]
  }

  ghost predicate Relevant(t: TruthTable, j: nat) {
    exists m :: Matters(t, j, m)
  }

  ghost predicate Output(t: TruthTable, a: seq<bool>)
    requires RowsOk(t) && |a| == t.size
  {
    RowBound(a);
    t.bits[RowOf(a)]
  }

  lemma {:induction false} IrrelevantFlip(t: TruthTable, a: seq<bool>, j: nat)
    requires RowsOk(t) && |a| == t.size && j < t.size && !Relevant(t, j)
    ensures Output(t, a[j := !a[j]]) == Output(t, a)
  {
    RowFlip(a, j);
    RowBound(a);
    RowBound(a[j := !a[j]]);
    assert !Matters(t, j, RowOf(a));
  }

  /** Changing any set of irrelevant inputs cannot change the output. */
  lemma {:induction false} IrrelevantInputs(t: TruthTable, a: seq<bool>, b: seq<bool>, n: nat)
    requires RowsOk(t) && |a| == |b| == t.size && n <= t.size
    requires forall j :: 0 <= j < t.size && Relevant(t, j) ==> a[j] == b[j]
    ensures Output(t, b[..n] + a[n..]) == Output(t, a)
  {
    if n == 0 {
      assert b[..0] + a[0..] == a;
    } else {
      IrrelevantInputs(t, a, b, n - 1);
      var was, now := b[..n - 1] + a[n - 1..], b[..n] + a[n..];
      if a[n - 1] == b[n - 1] {
        assert was == now;
      } else {
        assert now == was[n - 1 := !was[n - 1]];
        IrrelevantFlip(t, was, n - 1);
      }
    }
  }

  lemma {:induction false} AgreeOnRelevant(t: TruthTable, a: seq<bool>, b: seq<bool>)
    requires RowsOk(t) && |a| == |b| == t.size
    requires forall j :: 0 <= j < t.size && Relevant(t, j) ==> a[j] == b[j]
    ensures Output(t, a) == Output(t, b)
  {
    IrrelevantInputs(t, a, b, t.size);
    assert b[..t.size] + a[t.size..] == b;
  }

  /** A table that is not constant has a relevant input. */
  lemma {:induction false} NonConstantHasRelevant(t: TruthTable, m: nat, m': nat)
    requires RowsOk(t) && m < |t.bits| && m' < |t.bits| && t.bits[m] != t.bits[m']
    ensures exists j :: 0 <= j < t.size && Relevant(t, j)
  {
    VectorRoundTrip(m, t.size);
    VectorRoundTrip(m', t.size);
    var a, b := VectorOf(m, t.size), VectorOf(m', t.size);
    if forall j :: 0 <= j < t.size ==> !Relevant(t, j) {
      AgreeOnRelevant(t, a, b);
    }
  }

  lemma {:induction false} FlipInRange(m: nat, j: nat, k: nat)
    requires j < k && m < D.Pow2(k)
    ensures FlipBit(m, j) < D.Pow2(k)
  {
    D.Pow2Doubles(k - 1);
    if j > 0 {
      FlipInRange(m / 2, j - 1, k - 1);
    }
  }

  method FindRelevant(t: TruthTable) returns (relevant: seq<bool>)
    requires RowsOk(t)
    ensures |relevant| == t.size && forall j :: 0 <= j < t.size ==> (relevant[j] <==> Relevant(t, j))
  {
    relevant := [];
    for j := 0 to t.size
      invariant |relevant| == j
      invariant forall i :: 0 <= i < j ==> (relevant[i] <==> Relevant(t, i))
    {
      var found := false;
      for m := 0 to |t.bits|
        invariant found <==> exists i :: 0 <= i < m && Matters(t, j, i)
      {
        FlipInRange(m, j, t.size);
        if t.bits[m] != t.bits[FlipBit(m, j)] {
          assert Matters(t, j, m);
          found := true;
          break;
        }
      }
      relevant := relevant + [found];
    }
  }

  // ----- the terms -----

  /** The literals of one row over the relevant inputs hold. */
  ghost predicate RowHolds(relevant: seq<bool>, children: seq<Expr>, m: nat, n: nat, env: Env) {
    forall j :: 0 <= j < n && j < |relevant| && j < |children| && relevant[j] ==> Eval(children[j], env) == RowBit(m, j)
  }

  /** The conjunction of one row, or nothing when no input is relevant. */
  method BuildTerm(h: Mixer, relevant: seq<bool>, children: seq<Expr>, m: nat) returns (some: bool, term: Expr)
    requires |relevant| == |children|
    ensures some <==> exists j :: 0 <= j < |relevant| && relevant[j]
    ensures some ==> forall env :: Eval(term, env) <==> RowHolds(relevant, children, m, |relevant|, env)
  {
    some, term := false, FALSE;
    for j := 0 to |relevant|
      invariant some <==> exists i :: 0 <= i < j && relevant[i]
      invariant some ==> forall env :: Eval(term, env) <==> RowHolds(relevant, children, m, j, env)
    {
      if relevant[j] {
        var lit := if RowBit(m, j) then children[j] else MkNot(children[j]);
        assert forall env :: Eval(lit, env) <==> Eval(children[j], env) == RowBit(m, j);
        ghost var had, was := some, term;
        term := if some then MkAnd(h, term, lit) else lit;
        some := true;
        forall env
          ensures Eval(term, env) <==> RowHolds(relevant, children, m, j + 1, env)
        {
          assert had ==> (Eval(was, env) <==> RowHolds(relevant, children, m, j, env));
          RowHoldsStep(relevant, children, m, j, env);
        }
      } else {
        forall env
          ensures RowHolds(relevant, children, m, j, env) <==> RowHolds(relevant, children, m, j + 1, env)
        {
          RowHoldsStep(relevant, children, m, j, env);
        }
      }
    }
  }

  lemma {:induction false} RowHoldsStep(relevant: seq<bool>, children: seq<Expr>, m: nat, j: nat, env: Env)
    requires j < |relevant| == |children|
    ensures RowHolds(relevant, children, m, j + 1, env) <==>
            RowHolds(relevant, children, m, j, env) && (relevant[j] ==> Eval(children[j], env) == RowBit(m, j))
    ensures (forall i :: 0 <= i < j ==> !relevant[i]) ==> RowHolds(relevant, children, m, j, env)
  {
  }

  /** Some row below n that outputs 1 holds. */
  ghost predicate SomeRow(t: TruthTable, relevant: seq<bool>, children: seq<Expr>, n: nat, env: Env) {
    t.Rows? && exists m :: 0 <= m < n && m < |t.bits| && t.bits[m] && RowHolds(relevant, children, m, |relevant|, env)
  }

  lemma {:induction false} SomeRowStep(t: TruthTable, relevant: seq<bool>, children: seq<Expr>, n: nat, env: Env)
    requires t.Rows? && n < |t.bits|
    ensures SomeRow(t, relevant, children, n + 1, env) <==>
            SomeRow(t, relevant, children, n, env) || (t.bits[n] && RowHolds(relevant, children, n, |relevant|, env))
  {
    hide RowHolds;
    if SomeRow(t, relevant, children, n + 1, env) {
      var m :| 0 <= m < n + 1 && m < |t.bits| && t.bits[m] && RowHolds(relevant, children, m, |relevant|, env);
      assert m < n || m == n;
    }
  }

  lemma {:induction false} SomeRowIsOutput(t: TruthTable, relevant: seq<bool>, children: seq<Expr>, env: Env)
    requires RowsOk(t) && |relevant| == |children| == t.size
    requires forall j :: 0 <= j < t.size ==> (relevant[j] <==> Relevant(t, j))
    ensures SomeRow(t, relevant, children, |t.bits|, env) <==> TableValue(t, Args(children, env))
  {
    var args := Args(children, env);
    RowBound(args);
    if TableValue(t, args) {
      forall j | 0 <= j < t.size && relevant[j]
        ensures Eval(children[j], env) == RowBit(RowOf(args), j)
      {
        RowBits(args, j);
      }
      assert RowHolds(relevant, children, RowOf(args), |relevant|, env);
    }
    forall m | 0 <= m < |t.bits| && t.bits[m] && RowHolds(relevant, children, m, |relevant|, env)
      ensures TableValue(t, args)
    {
      VectorRoundTrip(m, t.size);
      AgreeOnRelevant(t, VectorOf(m, t.size), args);
    }
  }

  ghost predicate AnyOf(terms: seq<Expr>, env: Env) {
    exists i :: 0 <= i < |terms| && Eval(terms[i], env)
  }

  /** The DNF: one term per row that outputs 1, or-ed in order. */
  method BuildDnf(h: Mixer, t: TruthTable, children: seq<Expr>) returns (e: Expr)
    requires RowsOk(t) && |children| == t.size
    requires exists m, m' :: 0 <= m < |t.bits| && 0 <= m' < |t.bits| && t.bits[m] && !t.bits[m']
    ensures Computes(e, t, children)
  {
    ghost var one, zero :| 0 <= one < |t.bits| && 0 <= zero < |t.bits| && t.bits[one] && !t.bits[zero];
    NonConstantHasRelevant(t, one, zero);
    var relevant := FindRelevant(t);
    hide RowHolds, SomeRow, Relevant, RowsOk, AnyOf;
    var terms: seq<Expr> := [];
    forall env
      ensures !SomeRow(t, relevant, children, 0, env) && !AnyOf(terms, env)
    {
      AnyTerm(terms, FALSE, env);
      NoRows(t, relevant, children, env);
    }
    for m := 0 to |t.bits|
      invariant forall env :: AnyOf(terms, env) <==> SomeRow(t, relevant, children, m, env)
      invariant one < m ==> terms != []
    {
      ghost var was := terms;
      if t.bits[m] {
        var some, term := BuildTerm(h, relevant, children, m);
        if some {
          terms := terms + [term];
        }
        forall env
          ensures AnyOf(terms, env) <==> SomeRow(t, relevant, children, m + 1, env)
        {
          SomeRowStep(t, relevant, children, m, env);
          AnyTerm(was, term, env);
        }
      } else {
        forall env
          ensures SomeRow(t, relevant, children, m, env) <==> SomeRow(t, relevant, children, m + 1, env)
        {
          SomeRowStep(t, relevant, children, m, env);
        }
      }
    }
    e := terms[0];
    forall env
      ensures Eval(e, env) <==> AnyOf(terms[..1], env)
    {
      assert terms[..1] == [] + [terms[0]];
      AnyTerm([], terms[0], env);
    }
    for i := 1 to |terms|
      invariant forall env :: Eval(e, env) <==> AnyOf(terms[..i], env)
    {
      ghost var was := e;
      e := MkOr(h, e, terms[i]);
      forall env
        ensures Eval(e, env) <==> AnyOf(terms[..i + 1], env)
      {
        assert terms[..i + 1] == terms[..i] + [terms[i]];
        AnyTerm(terms[..i], terms[i], env);
        assert Eval(was, env) <==> AnyOf(terms[..i], env);
      }
    }
    assert terms[..|terms|] == terms;
    forall env
      ensures Eval(e, env) == TableValue(t, Args(children, env))
    {
      SomeRowIsOutput(t, relevant, children, env);
    }
  }

  lemma {:induction false} NoRows(t: TruthTable, relevant: seq<bool>, children: seq<Expr>, env: Env)
    ensures !SomeRow(t, relevant, children, 0, env)
  {
  }

  lemma {:induction false} AnyTerm(terms: seq<Expr>, term: Expr, env: Env)
    ensures AnyOf(terms + [term], env) <==> AnyOf(terms, env) || Eval(term, env)
    ensures terms == [] ==> !AnyOf(terms, env)
  {
    var more := terms + [term];
    assert more[|terms|] == term;
    assert forall i :: 0 <= i < |terms| ==> more[i] == terms[i];
  }
}
