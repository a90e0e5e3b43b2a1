/** The exact interpolant: an enumeration of the shared assignments that the left side allows. */
module Interpolants {
  import opened Options
  import opened BoolExprs
  import opened Simplification
  import opened TruthTables
  import opened TableDnf
  import opened Sat
  import D = Divider

  // ----- cubes -----

  ghost predicate CubeUpTo(symbols: seq<nat>, assignment: nat, n: nat, env: Env) {
    forall b :: 0 <= b < n && b < |symbols| ==> env(symbols[b]) == RowBit(assignment, b)
  }

  ghost predicate InCube(symbols: seq<nat>, assignment: nat, env: Env) {
    CubeUpTo(symbols, assignment, |symbols|, env)
  }

  ghost predicate AreSymbols(symbols: seq<nat>) {
    forall i :: 0 <= i < |symbols| ==> symbols[i] >= 2
  }

  /** `buildAssignmentCube`, and `buildStateAssignmentCube`. */
  method BuildAssignmentCube(h: Mixer, symbols: seq<nat>, assignment: nat) returns (cube: Expr)
    requires AreSymbols(symbols)
    ensures forall env :: Eval(cube, env) <==> InCube(symbols, assignment, env)
    ensures forall v :: v in Support(cube) ==> v < 2 || v in symbols
  {
    hide CubeUpTo, MkAnd, MkNot;
    cube := TRUE;
    forall env: Env
      ensures CubeUpTo(symbols, assignment, 0, env)
    {
      EmptyCube(symbols, assignment, env);
    }
    for bit := 0 to |symbols|
      invariant forall env :: Eval(cube, env) <==> CubeUpTo(symbols, assignment, bit, env)
      invariant forall v :: v in Support(cube) ==> v < 2 || v in symbols
    {
      ghost var was := cube;
      var literal := Var(symbols[bit]);
      var signed := if RowBit(assignment, bit) then literal else MkNot(literal);
      assert symbols[bit] in symbols && symbols[bit] >= 2;
      cube := MkAnd(h, cube, signed);
      forall env: Env
        ensures Eval(cube, env) <==> CubeUpTo(symbols, assignment, bit + 1, env)
      {
        CubeGrows(symbols, assignment, bit, env);
        LiteralMeans(symbols[bit], env);
        assert Eval(was, env) <==> CubeUpTo(symbols, assignment, bit, env);
      }
    }
    cube := Simplify(h, cube);
  }

  lemma {:induction false} EmptyCube(symbols: seq<nat>, assignment: nat, env: Env)
    ensures CubeUpTo(symbols, assignment, 0, env)
  {
  }

  lemma {:induction false} LiteralMeans(symbol: nat, env: Env)
    requires symbol >= 2
    ensures Eval(Var(symbol), env) == env(symbol)
  {
  }

  lemma {:induction false} CubeGrows(symbols: seq<nat>, assignment: nat, n: nat, env: Env)
    requires n < |symbols|
    ensures CubeUpTo(symbols, assignment, n + 1, env)
         <==> CubeUpTo(symbols, assignment, n, env) && env(symbols[n]) == RowBit(assignment, n)
  {
  }

  /** Every environment lies in exactly the cube of its own values. */
  ghost function ValuesOf(symbols: seq<nat>, env: Env): (r: seq<bool>)
    ensures |r| == |symbols| && forall i :: 0 <= i < |r| ==> r[i] == env(symbols[i])
  {
    seq(|symbols|, i requires 0 <= i < |symbols| => env(symbols[i]))
  }

  lemma {:induction false} OwnCube(symbols: seq<nat>, env: Env) returns (a: nat)
    ensures a < D.Pow2(|symbols|) && InCube(symbols, a, env)
  {
    var values := ValuesOf(symbols, env);
    a := RowOf(values);
    RowBound(values);
    forall b | 0 <= b < |symbols|
      ensures env(symbols[b]) == RowBit(a, b)
    {
      RowBits(values, b);
    }
  }

  /** Two environments in one cube agree on the symbols, and the other way round. */
  lemma {:induction false} SameCube(symbols: seq<nat>, a: nat, env: Env, env': Env)
    requires InCube(symbols, a, env)
    ensures InCube(symbols, a, env') <==> AgreeOn(symbols, env, env')
  {
    if InCube(symbols, a, env') {
      forall v | v in symbols
        ensures env(v) == env'(v)
      {
        var b :| 0 <= b < |symbols| && symbols[b] == v;
      }
    } else {
      var b :| 0 <= b < |symbols| && env'(symbols[b]) != RowBit(a, b);
      assert symbols[b] in symbols;
    }
  }

  // ----- projection -----

  /** Some environment with the same shared values satisfies the formula. */
  ghost predicate Projects(e: Expr, shared: seq<nat>, env: Env) {
    exists env' :: AgreeOn(shared, env, env') && Eval(e, env')
  }

  ghost predicate CubeMeets(e: Expr, symbols: seq<nat>, a: nat) {
    exists env :: InCube(symbols, a, env) && Eval(e, env)
  }

  /** A kept cube below n contains the environment. */
  ghost predicate Covered(e: Expr, symbols: seq<nat>, n: nat, env: Env) {
    exists a :: 0 <= a < n && CubeMeets(e, symbols, a) && InCube(symbols, a, env)
  }

  lemma {:induction false} CoveredGrows(e: Expr, symbols: seq<nat>, n: nat, env: Env)
    ensures Covered(e, symbols, n + 1, env)
         <==> Covered(e, symbols, n, env) || (CubeMeets(e, symbols, n) && InCube(symbols, n, env))
  {
    hide CubeMeets, InCube;
    if Covered(e, symbols, n + 1, env) {
      var a :| 0 <= a < n + 1 && CubeMeets(e, symbols, a) && InCube(symbols, a, env);
      assert a < n || a == n;
    }
  }

  lemma {:induction false} CoveredIsProjection(e: Expr, symbols: seq<nat>, env: Env)
    ensures Covered(e, symbols, D.Pow2(|symbols|), env) <==> Projects(e, symbols, env)
  {
    hide InCube;
    if Covered(e, symbols, D.Pow2(|symbols|), env) {
      var a :| 0 <= a < D.Pow2(|symbols|) && CubeMeets(e, symbols, a) && InCube(symbols, a, env);
      var env' :| InCube(symbols, a, env') && Eval(e, env');
      SameCube(symbols, a, env, env');
    }
    if Projects(e, symbols, env) {
      var env' :| AgreeOn(symbols, env, env') && Eval(e, env');
      var a := OwnCube(symbols, env);
      SameCube(symbols, a, env, env');
      assert CubeMeets(e, symbols, a);
    }
  }

  /** All kept cubes, or-ed in order. */
  method EnumerateCubes(h: Mixer, e: Expr, symbols: seq<nat>) returns (r: Expr)
    requires AreSymbols(symbols)
    ensures forall env :: Eval(r, env) <==> Projects(e, symbols, env)
    ensures forall v :: v in Support(r) ==> v < 2 || v in symbols
  {
    hide CubeMeets, InCube, Covered, Projects;
    r := FALSE;
    forall env
      ensures !Covered(e, symbols, 0, env)
    {
      NothingCovered(e, symbols, env);
    }
    for a := 0 to D.Pow2(|symbols|)
      invariant forall env :: Eval(r, env) <==> Covered(e, symbols, a, env)
      invariant forall v :: v in Support(r) ==> v < 2 || v in symbols
    {
      ghost var was := r;
      var cube := BuildAssignmentCube(h, symbols, a);
      KeptCube(h, e, symbols, a, cube);
      if IsSat(MkAnd(h, e, cube)) {
        r := MkOr(h, r, cube);
      }
      forall env
        ensures Eval(r, env) <==> Covered(e, symbols, a + 1, env)
      {
        CoveredGrows(e, symbols, a, env);
        assert Eval(was, env) <==> Covered(e, symbols, a, env);
      }
    }
    r := Simplify(h, r);
    forall env
      ensures Eval(r, env) <==> Projects(e, symbols, env)
    {
      CoveredIsProjection(e, symbols, env);
    }
  }

  lemma {:induction false} NothingCovered(e: Expr, symbols: seq<nat>, env: Env)
    ensures !Covered(e, symbols, 0, env)
  {
  }

  lemma {:induction false} KeptCube(h: Mixer, e: Expr, symbols: seq<nat>, a: nat, cube: Expr)
    requires forall env :: Eval(cube, env) <==> InCube(symbols, a, env)
    ensures IsSat(MkAnd(h, e, cube)) <==> CubeMeets(e, symbols, a)
  {
    hide InCube, MkAnd, IsSat;
    IsSatIsExact(MkAnd(h, e, cube));
    if CubeMeets(e, symbols, a) {
      var env :| InCube(symbols, a, env) && Eval(e, env);
      assert Eval(MkAnd(h, e, cube), env);
    }
    if Satisfiable(MkAnd(h, e, cube)) {
      var env :| Eval(MkAnd(h, e, cube), env);
      assert InCube(symbols, a, env) && Eval(e, env);
    }
  }

  // ----- the interpolant -----

  ghost predicate OnlyShare(lhs: Expr, rhs: Expr, shared: seq<nat>) {
    forall v :: v in Support(lhs) && v in Support(rhs) && v >= 2 ==> v in shared
  }

  ghost predicate Disjoint(a: Expr, b: Expr) {
    forall env :: !(Eval(a, env) && Eval(b, env))
  }

  ghost predicate Implies(a: Expr, b: Expr) {
    forall env :: Eval(a, env) ==> Eval(b, env)
  }

  lemma {:induction false} IsSatOfBoth(h: Mixer, a: Expr, b: Expr)
    ensures IsSat(MkAnd(h, a, b)) <==> !Disjoint(a, b)
  {
    hide MkAnd, IsSat;
    IsSatIsExact(MkAnd(h, a, b));
  }

  /** Left values on the left side's variables, right values elsewhere. */
  ghost function Mixed(e: Expr, a: Env, b: Env): Env {
    (v: nat) => if v in Support(e) then a(v) else b(v)
  }

  /** The projection meets the right side only if the left side does. */
  lemma {:induction false} ProjectionSeparates(lhs: Expr, rhs: Expr, shared: seq<nat>, env: Env)
    requires OnlyShare(lhs, rhs, shared) && Disjoint(lhs, rhs) && Eval(rhs, env)
    ensures !Projects(lhs, shared, env)
  {
    forall env' | AgreeOn(shared, env, env')
      ensures !Eval(lhs, env')
    {
      var both := Mixed(lhs, env', env);
      EvalDependsOnSupport(lhs, both, env');
      EvalDependsOnSupport(rhs, both, env);
      assert !(Eval(lhs, both) && Eval(rhs, both));
    }
  }

  /** `computeExactInterpolant`. Both re-checks are kept; neither can reject when only the shared symbols are shared. */
  method ComputeExactInterpolant(h: Mixer, lhs: Expr, rhs: Expr, shared: seq<nat>) returns (r: Option<Expr>)
    requires AreSymbols(shared)
    ensures r.Some? ==> Disjoint(lhs, rhs) && shared != []
    ensures r.Some? ==> forall env :: Eval(r.value, env) <==> Projects(lhs, shared, env)
    ensures r.Some? ==> forall v :: v in Support(r.value) ==> v < 2 || v in shared
    ensures r.Some? ==> Implies(lhs, r.value) && Disjoint(r.value, rhs)
    ensures OnlyShare(lhs, rhs, shared) ==> (r.Some? <==> shared != [] && Disjoint(lhs, rhs))
  {
    hide IsSat, Disjoint, Implies, Projects, OnlyShare, MkAnd, MkNot;
    if shared == [] {
      return None;
    }
    IsSatOfBoth(h, lhs, rhs);
    if IsSat(MkAnd(h, lhs, rhs)) {
      return None;
    }
    var interpolant := EnumerateCubes(h, lhs, shared);
    ProjectionIsImplied(lhs, interpolant, shared);
    NegationIsEscape(h, lhs, interpolant);
    if IsSat(MkAnd(h, lhs, MkNot(interpolant))) {
      return None;
    }
    IsSatOfBoth(h, interpolant, rhs);
    if OnlyShare(lhs, rhs, shared) {
      InterpolantSeparates(lhs, rhs, shared, interpolant);
    }
    if IsSat(MkAnd(h, interpolant, rhs)) {
      return None;
    }
    r := Some(interpolant);
  }

  lemma {:induction false} ProjectionIsImplied(lhs: Expr, interpolant: Expr, shared: seq<nat>)
    requires forall env :: Eval(interpolant, env) <==> Projects(lhs, shared, env)
    ensures Implies(lhs, interpolant)
  {
    forall env | Eval(lhs, env)
      ensures Eval(interpolant, env)
    {
      assert AgreeOn(shared, env, env);
    }
  }

  lemma {:induction false} NegationIsEscape(h: Mixer, a: Expr, b: Expr)
    ensures IsSat(MkAnd(h, a, MkNot(b))) <==> !Implies(a, b)
  {
    hide MkAnd, MkNot, IsSat;
    IsSatIsExact(MkAnd(h, a, MkNot(b)));
  }

  lemma {:induction false} InterpolantSeparates(lhs: Expr, rhs: Expr, shared: seq<nat>, interpolant: Expr)
    requires forall env :: Eval(interpolant, env) <==> Projects(lhs, shared, env)
    requires OnlyShare(lhs, rhs, shared) && Disjoint(lhs, rhs)
    ensures Disjoint(interpolant, rhs)
  {
    hide OnlyShare, Projects;
    forall env
      ensures !(Eval(interpolant, env) && Eval(rhs, env))
    {
      if Eval(rhs, env) {
        ProjectionSeparates(lhs, rhs, shared, env);
      }
    }
  }

  /** It is the strongest: any formula over the shared symbols that the left side implies is weaker. */
  lemma {:induction false} InterpolantIsStrongest(lhs: Expr, interpolant: Expr, shared: seq<nat>, other: Expr)
    requires forall env :: Eval(interpolant, env) <==> Projects(lhs, shared, env)
    requires Implies(lhs, other) && forall v :: v in Support(other) ==> v < 2 || v in shared
    ensures Implies(interpolant, other)
  {
    forall env | Eval(interpolant, env)
      ensures Eval(other, env)
    {
      var env' :| AgreeOn(shared, env, env') && Eval(lhs, env');
      EvalDependsOnSupport(other, env, env');
    }
  }
}
