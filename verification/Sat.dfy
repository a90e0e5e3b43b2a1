/**
 Exact satisfiability, as a search over the variables in use, and constraints over several
 copies (frames) of the symbols.
 */
module Sat {
  import opened BoolExprs

  // ----- search over assignments -----

  function With(env: Env, v: nat, value: bool): Env {
    (x: nat) => if x == v then value else env(x)
  }

  ghost predicate AgreeOn(vars: seq<nat>, a: Env, b: Env) {
    forall v :: v in vars ==> a(v) == b(v)
  }

  predicate AllHold(cs: seq<Expr>, env: Env) {
    forall i :: 0 <= i < |cs| ==> Eval(cs[i], env)
  }

  /** Some assignment to the listed variables satisfies all constraints. */
  predicate Search(cs: seq<Expr>, vars: seq<nat>, env: Env) {
    if vars == [] then AllHold(cs, env)
    else Search(cs, vars[1..], With(env, vars[0], false)) || Search(cs, vars[1..], With(env, vars[0], true))
  }

  lemma {:induction false} SearchFinds(cs: seq<Expr>, vars: seq<nat>, env: Env)
    requires Search(cs, vars, env)
    ensures exists e :: AllHold(cs, e)
  {
    if vars != [] {
      if Search(cs, vars[1..], With(env, vars[0], false)) {
        SearchFinds(cs, vars[1..], With(env, vars[0], false));
      } else {
        SearchFinds(cs, vars[1..], With(env, vars[0], true));
      }
    }
  }

  /** The search cannot miss: agreeing outside the variables and holding is enough. */
  lemma {:induction false} SearchIsComplete(cs: seq<Expr>, vars: seq<nat>, env: Env, e: Env)
    requires AllHold(cs, e)
    requires forall i, v :: 0 <= i < |cs| && v in Support(cs[i]) && v >= 2 && v !in vars ==> env(v) == e(v)
    ensures Search(cs, vars, env)
  {
    if vars == [] {
      forall i | 0 <= i < |cs|
        ensures Eval(cs[i], env)
      {
        EvalDependsOnSupport(cs[i], env, e);
      }
    } else {
      var next := With(env, vars[0], e(vars[0]));
      assert vars == [vars[0]] + vars[1..];
      SearchIsComplete(cs, vars[1..], next, e);
    }
  }

  function SupportList(e: Expr): (r: seq<nat>)
    ensures forall v :: v in r <==> v in Support(e)
  {
    match e
    case Var(id) => [id]
    case Not(a) => SupportList(a)
    case Bin(_, l, r) => SupportList(l) + SupportList(r)
  }

  function SupportLists(cs: seq<Expr>): (r: seq<nat>)
    ensures forall i, v :: 0 <= i < |cs| && v in Support(cs[i]) ==> v in r
  {
    if cs == [] then []
    else
      assert forall i :: 0 < i < |cs| ==> cs[i] == cs[1..][i - 1];
      SupportList(cs[0]) + SupportLists(cs[1..])
  }

  /** The solver: satisfiable exactly when an environment exists. */
  predicate Solve(cs: seq<Expr>) {
    Search(cs, SupportLists(cs), (v: nat) => false)
  }

  lemma {:induction false} SolveIsExact(cs: seq<Expr>)
    ensures Solve(cs) <==> exists env :: AllHold(cs, env)
  {
    var env0: Env := (v: nat) => false;
    if Solve(cs) {
      SearchFinds(cs, SupportLists(cs), env0);
    }
    if exists env :: AllHold(cs, env) {
      var env :| AllHold(cs, env);
      SearchIsComplete(cs, SupportLists(cs), env0, env);
    }
  }

  /** `isProofFormulaSatisfiable`. */
  predicate IsSat(e: Expr)
  {
    Solve([e])
  }

  lemma {:induction false} IsSatIsExact(e: Expr)
    ensures IsSat(e) <==> Satisfiable(e)
  {
    SolveIsExact([e]);
    if IsSat(e) {
      var env :| AllHold([e], env);
      assert Eval([e][0], env);
    }
    if Satisfiable(e) {
      var env :| Eval(e, env);
      assert AllHold([e], env);
    }
  }

  // ----- renaming -----

  function Rename(e: Expr, code: nat -> nat): Expr {
    match e
    case Var(id) => if id < 2 then e else Var(code(id))
    case Not(a) => Not(Rename(a, code))
    case Bin(op, l, r) => Bin(op, Rename(l, code), Rename(r, code))
  }

  ghost function Through(env: Env, code: nat -> nat): Env { (v: nat) => env(code(v)) }

  lemma {:induction false} RenameMeans(e: Expr, code: nat -> nat, env: Env)
    requires forall v: nat :: v >= 2 ==> code(v) >= 2
    ensures Eval(Rename(e, code), env) == Eval(e, Through(env, code))
  {
    match e
    case Var(_) =>
    case Not(a) => RenameMeans(a, code, env);
    case Bin(_, l, r) =>
      RenameMeans(l, code, env);
      RenameMeans(r, code, env);
  }

  // ----- frames -----

  /** The variable of a symbol in a frame, one of `count` frames. */
  function Code(count: nat, frame: nat, v: nat): nat { v * count + frame + 2 }

  function CodeAt(count: nat, frame: nat): nat -> nat { (v: nat) => Code(count, frame, v) }

  function InFrame(e: Expr, count: nat, frame: nat): Expr { Rename(e, CodeAt(count, frame)) }

  type Frames = nat -> Env

  /** The frames that an environment of the coded variables stands for. */
  ghost function Decoded(env: Env, count: nat): Frames {
    (frame: nat) => Through(env, CodeAt(count, frame))
  }

  ghost function Encoded(frames: Frames, count: nat): Env
    requires count > 0
  {
    (x: nat) => x >= 2 && frames((x - 2) % count)((x - 2) / count)
  }

  lemma {:induction false} CodeRoundTrip(count: nat, frame: nat, v: nat)
    requires frame < count
    ensures (Code(count, frame, v) - 2) % count == frame && (Code(count, frame, v) - 2) / count == v
  {
    DivModOf(v, count, frame);
  }

  lemma {:induction false} DivModOf(q: int, p: int, r: int)
    requires 0 <= r < p
    ensures (q * p + r) / p == q && (q * p + r) % p == r
  {
    var x := q * p + r;
    var d := x / p - q;
    assert d * p == r - x % p by {
      assert (x / p) * p - q * p == d * p;
    }
    if d > 0 {
      MulAtLeast(d, p);
    } else if d < 0 {
      NegatedFactor(d, p);
      MulAtLeast(0 - d, p);
    }
  }

  lemma {:induction false} NegatedFactor(d: int, p: int)
    ensures (0 - d) * p == 0 - d * p
  {
  }

  lemma {:induction false} MulAtLeast(d: int, p: int)
    requires d >= 1 && p > 0
    ensures d * p >= p
  {
    assert (d - 1) * p >= 0;
  }

  lemma {:induction false} InFrameMeans(e: Expr, count: nat, frame: nat, env: Env)
    ensures Eval(InFrame(e, count, frame), env) == Eval(e, Decoded(env, count)(frame))
  {
    hide Code;
    CodesAreVariables(count, frame);
    RenameMeans(e, CodeAt(count, frame), env);
  }

  lemma {:induction false} CodesAreVariables(count: nat, frame: nat)
    ensures forall v: nat :: Code(count, frame, v) >= 2
    ensures forall v: nat :: CodeAt(count, frame)(v) >= 2
  {
  }

  lemma {:induction false} EncodedMeans(e: Expr, count: nat, frame: nat, frames: Frames)
    requires frame < count
    ensures Eval(InFrame(e, count, frame), Encoded(frames, count)) == Eval(e, frames(frame))
  {
    hide Code, Eval, Rename;
    CodesAreVariables(count, frame);
    var env := Encoded(frames, count);
    RenameMeans(e, CodeAt(count, frame), env);
    forall v: nat
      ensures Through(env, CodeAt(count, frame))(v) == frames(frame)(v)
    {
      CodeRoundTrip(count, frame, v);
    }
    EvalDependsOnSupport(e, Through(env, CodeAt(count, frame)), frames(frame));
  }

  // ----- constraints over frames -----

  /** One constraint over frames: a formula at a frame, or a symbol that equals a formula one frame before. */
  datatype Constraint =
    | Holds(e: Expr, frame: nat)
    | Follows(symbol: nat, e: Expr, frame: nat)

  function Compile(c: Constraint, count: nat): Expr {
    match c
    case Holds(e, frame) => InFrame(e, count, frame)
    case Follows(symbol, e, frame) =>
      Not(Bin(XOR, Var(Code(count, frame + 1, symbol)), InFrame(e, count, frame)))
  }

  ghost predicate Meets(c: Constraint, frames: Frames) {
    match c
    case Holds(e, frame) => Eval(e, frames(frame))
    case Follows(symbol, e, frame) => frames(frame + 1)(symbol) == Eval(e, frames(frame))
  }

  predicate Fits(c: Constraint, count: nat) {
    match c
    case Holds(_, frame) => frame < count
    case Follows(_, _, frame) => frame + 1 < count
  }

  predicate AllFit(cs: seq<Constraint>, count: nat) {
    forall i :: 0 <= i < |cs| ==> Fits(cs[i], count)
  }

  ghost predicate MeetsAll(cs: seq<Constraint>, frames: Frames) {
    forall i :: 0 <= i < |cs| ==> Meets(cs[i], frames)
  }

  function CompileAll(cs: seq<Constraint>, count: nat): (r: seq<Expr>)
    ensures |r| == |cs| && forall i :: 0 <= i < |r| ==> r[i] == Compile(cs[i], count)
  {
    seq(|cs|, i requires 0 <= i < |cs| => Compile(cs[i], count))
  }

  /** The frame query of a solver. */
  predicate SolveFrames(cs: seq<Constraint>, count: nat) { Solve(CompileAll(cs, count)) }

  lemma {:induction false} EqualityMeans(a: Expr, b: Expr, env: Env)
    ensures Eval(Not(Bin(XOR, a, b)), env) == (Eval(a, env) == Eval(b, env))
  {
  }

  lemma {:induction false} CompileDecodes(c: Constraint, count: nat, env: Env)
    requires count > 0
    ensures Eval(Compile(c, count), env) == Meets(c, Decoded(env, count))
  {
    hide Code, InFrame, Decoded, Eval;
    match c
    case Holds(e, frame) => InFrameMeans(e, count, frame, env);
    case Follows(symbol, e, frame) =>
      InFrameMeans(e, count, frame, env);
      FollowsDecodes(count, frame + 1, symbol, env);
      EqualityMeans(Var(Code(count, frame + 1, symbol)), InFrame(e, count, frame), env);
  }

  lemma {:induction false} FollowsDecodes(count: nat, frame: nat, symbol: nat, env: Env)
    ensures Eval(Var(Code(count, frame, symbol)), env) == Decoded(env, count)(frame)(symbol)
  {
    hide Code;
    CodesAreVariables(count, frame);
  }

  lemma {:induction false} FollowsEncodes(count: nat, frame: nat, symbol: nat, frames: Frames)
    requires frame < count
    ensures Eval(Var(Code(count, frame, symbol)), Encoded(frames, count)) == frames(frame)(symbol)
  {
    hide Code;
    CodesAreVariables(count, frame);
    CodeRoundTrip(count, frame, symbol);
  }

  lemma {:induction false} CompileEncodes(c: Constraint, count: nat, frames: Frames)
    requires Fits(c, count)
    ensures Eval(Compile(c, count), Encoded(frames, count)) == Meets(c, frames)
  {
    hide Code, InFrame, Encoded, Eval;
    match c
    case Holds(e, frame) => EncodedMeans(e, count, frame, frames);
    case Follows(symbol, e, frame) =>
      EncodedMeans(e, count, frame, frames);
      FollowsEncodes(count, frame + 1, symbol, frames);
      EqualityMeans(Var(Code(count, frame + 1, symbol)), InFrame(e, count, frame), Encoded(frames, count));
  }

  /** A frame query is satisfiable exactly when a sequence of frames meets all its constraints. */
  lemma {:induction false} SolveFramesIsExact(cs: seq<Constraint>, count: nat)
    requires count > 0 && AllFit(cs, count)
    ensures SolveFrames(cs, count) <==> exists frames :: MeetsAll(cs, frames)
  {
    var es := CompileAll(cs, count);
    SolveIsExact(es);
    if SolveFrames(cs, count) {
      var env :| AllHold(es, env);
      forall i | 0 <= i < |cs|
        ensures Meets(cs[i], Decoded(env, count))
      {
        CompileDecodes(cs[i], count, env);
        assert Eval(es[i], env);
      }
      assert MeetsAll(cs, Decoded(env, count));
    }
    if exists frames :: MeetsAll(cs, frames) {
      var frames :| MeetsAll(cs, frames);
      forall i | 0 <= i < |es|
        ensures Eval(es[i], Encoded(frames, count))
      {
        CompileEncodes(cs[i], count, frames);
      }
      assert AllHold(es, Encoded(frames, count));
    }
  }

  lemma {:induction false} MeetsBoth(cs: seq<Constraint>, ds: seq<Constraint>, frames: Frames)
    ensures MeetsAll(cs + ds, frames) <==> MeetsAll(cs, frames) && MeetsAll(ds, frames)
    ensures forall count :: AllFit(cs, count) && AllFit(ds, count) ==> AllFit(cs + ds, count)
  {
    var all := cs + ds;
    assert forall i :: 0 <= i < |cs| ==> all[i] == cs[i];
    assert forall i :: 0 <= i < |ds| ==> all[|cs| + i] == ds[i];
  }
}
