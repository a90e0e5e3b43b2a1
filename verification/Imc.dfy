/**
 The explicit IMC engine: exact bounded frontiers by enumeration, and the invariant check
 that turns one of them into an unbounded proof.
 */
module Imc {
  import opened Options
  import opened BoolExprs
  import opened Simplification
  import opened TableDnf
  import opened Sat
  import opened Interpolants
  import D = Divider

  type Moves = seq<(nat, Expr)>

  datatype Problem = Problem(
    states: seq<nat>,
    transitions: Moves,
    auxiliary: Moves,
    complements: seq<(nat, nat)>,
    rails: seq<(nat, nat)>,
    resetCycles: nat,
    resetInputs: seq<(nat, bool)>,
    bad: Expr,
    learned: Option<Expr>)

  // ----- the transition system -----

  ghost predicate Step(moves: Moves, e: Env, e': Env) {
    forall i :: 0 <= i < |moves| ==> e'(moves[i].0) == Eval(moves[i].1, e)
  }

  ghost predicate Complemented(pairs: seq<(nat, nat)>, e: Env) {
    forall i :: 0 <= i < |pairs| ==> e(pairs[i].1) == !e(pairs[i].0)
  }

  ghost predicate RailsValid(rails: seq<(nat, nat)>, e: Env) {
    forall i :: 0 <= i < |rails| ==> e(rails[i].0) || e(rails[i].1)
  }

  ghost predicate Released(p: Problem, e: Env) {
    p.resetCycles != 0 ==> forall i :: 0 <= i < |p.resetInputs| ==> e(p.resetInputs[i].0) == !p.resetInputs[i].1
  }

  ghost predicate Certified(p: Problem, e: Env) {
    p.learned.Some? ==> Eval(p.learned.value, e)
  }

  ghost predicate ArePairs(pairs: seq<(nat, nat)>) {
    forall i :: 0 <= i < |pairs| ==> pairs[i].0 >= 2 && pairs[i].1 >= 2
  }

  ghost predicate WellFormed(p: Problem) {
    && AreSymbols(p.states) && ArePairs(p.complements) && ArePairs(p.rails)
    && (forall i :: 0 <= i < |p.resetInputs| ==> p.resetInputs[i].0 >= 2)
  }

  // ----- collecting constraints -----

  ghost predicate Extends(before: seq<Constraint>, after: seq<Constraint>, count: nat, more: Frames -> bool) {
    && (AllFit(before, count) ==> AllFit(after, count))
    && forall frames :: MeetsAll(after, frames) <==> MeetsAll(before, frames) && more(frames)
  }

  ghost function EachComplemented(pairs: seq<(nat, nat)>, n: nat): Frames -> bool {
    (frames: Frames) => forall f :: 0 <= f < n ==> Complemented(pairs, frames(f))
  }

  lemma {:induction false} ExtendsNothing(cs: seq<Constraint>, count: nat, more: Frames -> bool)
    requires forall frames :: more(frames)
    ensures Extends(cs, cs, count, more)
  {
  }

  /** One more constraint. */
  lemma {:induction false} ExtendsOne(before: seq<Constraint>, cs: seq<Constraint>, c: Constraint, count: nat,
      more: Frames -> bool, more': Frames -> bool)
    requires Extends(before, cs, count, more) && Fits(c, count)
    requires forall frames :: more'(frames) <==> more(frames) && Meets(c, frames)
    ensures Extends(before, cs + [c], count, more')
  {
    hide Meets;
    forall frames
      ensures MeetsAll(cs + [c], frames) <==> MeetsAll(before, frames) && more'(frames)
    {
      MeetsBoth(cs, [c], frames);
      MeetsSingle(c, frames);
    }
    assert AllFit([c], count);
    MeetsBoth(cs, [c], (f: nat) => (v: nat) => false);
  }

  lemma {:induction false} MeetsSingle(c: Constraint, frames: Frames)
    ensures MeetsAll([c], frames) <==> Meets(c, frames)
  {
    assert [c][0] == c;
  }

  lemma {:induction false} ExtendsThen(a: seq<Constraint>, b: seq<Constraint>, c: seq<Constraint>, count: nat,
      m: Frames -> bool, m': Frames -> bool, m'': Frames -> bool)
    requires Extends(a, b, count, m) && Extends(b, c, count, m')
    requires forall frames :: m''(frames) <==> m(frames) && m'(frames)
    ensures Extends(a, c, count, m'')
  {
  }

  // ----- reachability at a depth -----

  ghost function ComplementedUpTo(pairs: seq<(nat, nat)>, k: nat, f: nat): Frames -> bool {
    (frames: Frames) => forall i :: 0 <= i < k && i < |pairs| ==> frames(f)(pairs[i].1) == !frames(f)(pairs[i].0)
  }

  function ComplementExpr(h: Mixer, pair: (nat, nat)): Expr { MkEqual(h, Var(pair.1), MkNot(Var(pair.0))) }

  lemma {:induction false} ComplementMeans(h: Mixer, pair: (nat, nat), env: Env)
    requires pair.0 >= 2 && pair.1 >= 2
    ensures Eval(ComplementExpr(h, pair), env) <==> env(pair.1) == !env(pair.0)
  {
    hide MkEqual, MkNot;
    LiteralMeans(pair.0, env);
    LiteralMeans(pair.1, env);
  }

  method AddComplementsAt(h: Mixer, cs: seq<Constraint>, pairs: seq<(nat, nat)>, frame: nat, ghost count: nat)
      returns (r: seq<Constraint>)
    requires ArePairs(pairs) && frame < count
    ensures Extends(cs, r, count, ComplementedUpTo(pairs, |pairs|, frame))
  {
    r := cs;
    ExtendsNothing(cs, count, ComplementedUpTo(pairs, 0, frame));
    for i := 0 to |pairs|
      invariant Extends(cs, r, count, ComplementedUpTo(pairs, i, frame))
    {
      var c := Holds(ComplementExpr(h, pairs[i]), frame);
      ComplementStep(h, pairs, i, frame);
      hide Extends, ComplementedUpTo;
      ExtendsOne(cs, r, c, count, ComplementedUpTo(pairs, i, frame), ComplementedUpTo(pairs, i + 1, frame));
      r := r + [c];
    }
  }

  lemma {:induction false} ComplementStep(h: Mixer, pairs: seq<(nat, nat)>, i: nat, frame: nat)
    requires ArePairs(pairs) && i < |pairs|
    ensures forall frames: Frames :: ComplementedUpTo(pairs, i + 1, frame)(frames) <==>
              ComplementedUpTo(pairs, i, frame)(frames) && Meets(Holds(ComplementExpr(h, pairs[i]), frame), frames)
  {
    forall frames: Frames
      ensures ComplementedUpTo(pairs, i + 1, frame)(frames) <==>
              ComplementedUpTo(pairs, i, frame)(frames) && Meets(Holds(ComplementExpr(h, pairs[i]), frame), frames)
    {
      ComplementMeans(h, pairs[i], frames(frame));
      hide ComplementExpr;
    }
  }

  method AddComplements(h: Mixer, cs: seq<Constraint>, pairs: seq<(nat, nat)>, n: nat) returns (r: seq<Constraint>)
    requires ArePairs(pairs)
    ensures Extends(cs, r, n, EachComplemented(pairs, n))
  {
    r := cs;
    ExtendsNothing(cs, n, EachComplemented(pairs, 0));
    for f := 0 to n
      invariant Extends(cs, r, n, EachComplemented(pairs, f))
    {
      ghost var was := r;
      r := AddComplementsAt(h, r, pairs, f, n);
      EachStep(pairs, f);
      hide Extends, EachComplemented, ComplementedUpTo;
      ExtendsThen(cs, was, r, n, EachComplemented(pairs, f), ComplementedUpTo(pairs, |pairs|, f),
          EachComplemented(pairs, f + 1));
    }
  }

  lemma {:induction false} EachStep(pairs: seq<(nat, nat)>, f: nat)
    ensures forall frames: Frames :: EachComplemented(pairs, f + 1)(frames) <==>
              EachComplemented(pairs, f)(frames) && ComplementedUpTo(pairs, |pairs|, f)(frames)
  {
    forall frames: Frames
      ensures EachComplemented(pairs, f + 1)(frames)
           <==> EachComplemented(pairs, f)(frames) && ComplementedUpTo(pairs, |pairs|, f)(frames)
    {
      assert ComplementedUpTo(pairs, |pairs|, f)(frames) <==> Complemented(pairs, frames(f));
      hide Complemented;
    }
  }

  ghost function MovesUpTo(moves: Moves, k: nat, f: nat): Frames -> bool {
    (frames: Frames) => forall i :: 0 <= i < k && i < |moves| ==>
        frames(f + 1)(moves[i].0) == Eval(moves[i].1, frames(f))
  }

  method AddMovesAt(cs: seq<Constraint>, moves: Moves, frame: nat, ghost count: nat) returns (r: seq<Constraint>)
    requires frame + 1 < count
    ensures Extends(cs, r, count, MovesUpTo(moves, |moves|, frame))
  {
    r := cs;
    ExtendsNothing(cs, count, MovesUpTo(moves, 0, frame));
    for i := 0 to |moves|
      invariant Extends(cs, r, count, MovesUpTo(moves, i, frame))
    {
      var c := Follows(moves[i].0, moves[i].1, frame);
      MoveStep(moves, i, frame);
      hide Extends, MovesUpTo;
      ExtendsOne(cs, r, c, count, MovesUpTo(moves, i, frame), MovesUpTo(moves, i + 1, frame));
      r := r + [c];
    }
  }

  lemma {:induction false} MoveStep(moves: Moves, i: nat, frame: nat)
    requires i < |moves|
    ensures forall frames: Frames :: MovesUpTo(moves, i + 1, frame)(frames) <==>
              MovesUpTo(moves, i, frame)(frames) && Meets(Follows(moves[i].0, moves[i].1, frame), frames)
  {
  }

  ghost function EachMoves(moves: Moves, n: nat): Frames -> bool {
    (frames: Frames) => forall f :: 0 <= f < n ==> StepAt(moves, frames, f)
  }

  ghost predicate StepAt(moves: Moves, frames: Frames, f: nat) { Step(moves, frames(f), frames(f + 1)) }

  method AddTransitions(cs: seq<Constraint>, moves: Moves, depth: nat) returns (r: seq<Constraint>)
    ensures Extends(cs, r, depth + 1, EachMoves(moves, depth))
  {
    r := cs;
    ExtendsNothing(cs, depth + 1, EachMoves(moves, 0));
    for f := 0 to depth
      invariant Extends(cs, r, depth + 1, EachMoves(moves, f))
    {
      ghost var was := r;
      r := AddMovesAt(r, moves, f, depth + 1);
      EachMoveStep(moves, f);
      hide Extends, EachMoves, MovesUpTo;
      ExtendsThen(cs, was, r, depth + 1, EachMoves(moves, f), MovesUpTo(moves, |moves|, f), EachMoves(moves, f + 1));
    }
  }

  lemma {:induction false} EachMoveStep(moves: Moves, f: nat)
    ensures forall frames: Frames ::
      EachMoves(moves, f + 1)(frames) <==> EachMoves(moves, f)(frames) && MovesUpTo(moves, |moves|, f)(frames)
  {
    forall frames: Frames
      ensures EachMoves(moves, f + 1)(frames) <==> EachMoves(moves, f)(frames) && MovesUpTo(moves, |moves|, f)(frames)
    {
      assert MovesUpTo(moves, |moves|, f)(frames) <==> StepAt(moves, frames, f);
      hide StepAt;
    }
  }

  ghost function EachHolds(e: Expr, n: nat): Frames -> bool {
    (frames: Frames) => forall f :: 0 <= f < n ==> Eval(e, frames(f))
  }

  method AddHolds(cs: seq<Constraint>, e: Expr, n: nat) returns (r: seq<Constraint>)
    ensures Extends(cs, r, n, EachHolds(e, n))
  {
    r := cs;
    ExtendsNothing(cs, n, EachHolds(e, 0));
    for f := 0 to n
      invariant Extends(cs, r, n, EachHolds(e, f))
    {
      HoldsStep(e, f);
      hide Extends, EachHolds;
      ExtendsOne(cs, r, Holds(e, f), n, EachHolds(e, f), EachHolds(e, f + 1));
      r := r + [Holds(e, f)];
    }
  }

  lemma {:induction false} HoldsStep(e: Expr, f: nat)
    ensures forall frames: Frames ::
      EachHolds(e, f + 1)(frames) <==> EachHolds(e, f)(frames) && Meets(Holds(e, f), frames)
  {
    hide Eval;
  }

  /** A path of the explicit transitions from the initial frontier, legal at every frame. */
  ghost predicate IsPath(p: Problem, init: Expr, frames: Frames, depth: nat) {
    && Eval(init, frames(0))
    && (forall f :: 0 <= f < depth ==> StepAt(p.transitions, frames, f))
    && (forall f :: 0 <= f < depth + 1 ==> Complemented(p.complements, frames(f)))
    && (p.learned.Some? ==> forall f :: 0 <= f < depth + 1 ==> Eval(p.learned.value, frames(f)))
  }

  ghost predicate ReachesIn(p: Problem, init: Expr, env: Env, depth: nat) {
    exists frames :: IsPath(p, init, frames, depth) && AgreeOn(p.states, env, frames(depth))
  }

  ghost predicate CubeReached(p: Problem, init: Expr, a: nat, depth: nat) {
    exists frames :: IsPath(p, init, frames, depth) && InCube(p.states, a, frames(depth))
  }

  /** The path constraints, without the target. */
  method PathConstraints(h: Mixer, p: Problem, init: Expr, depth: nat) returns (cs: seq<Constraint>)
    requires WellFormed(p)
    ensures AllFit(cs, depth + 1)
    ensures forall frames :: MeetsAll(cs, frames) <==> IsPath(p, init, frames, depth)
  {
    hide Complemented, StepAt, Eval;
    var n := depth + 1;
    var a := AddComplements(h, [], p.complements, n);
    var b := a;
    if p.learned.Some? {
      b := AddHolds(a, p.learned.value, n);
    }
    var c := AddTransitions(b, p.transitions, depth);
    cs := c + [Holds(init, 0)];
    assert AllFit([], n) && AllFit([Holds(init, 0)], n);
    MeetsBoth(c, [Holds(init, 0)], (f: nat) => (v: nat) => false);
    forall frames
      ensures MeetsAll(cs, frames) <==> IsPath(p, init, frames, depth)
    {
      MeetsBoth(c, [Holds(init, 0)], frames);
      MeetsSingle(Holds(init, 0), frames);
      assert MeetsAll([], frames);
      assert MeetsAll(a, frames) <==> EachComplemented(p.complements, n)(frames);
      assert p.learned.Some? ==>
        (MeetsAll(b, frames) <==> MeetsAll(a, frames) && EachHolds(p.learned.value, n)(frames));
      assert MeetsAll(c, frames) <==> MeetsAll(b, frames) && EachMoves(p.transitions, depth)(frames);
    }
  }

  /** `isStateReachableAtDepth`. */
  method IsStateReachableAtDepth(h: Mixer, p: Problem, init: Expr, assignment: nat, depth: nat) returns (r: bool)
    requires WellFormed(p)
    ensures r <==> CubeReached(p, init, assignment, depth)
  {
    hide IsPath, InCube, Eval, WellFormed;
    SymbolsOf(p);
    var path := PathConstraints(h, p, init, depth);
    var cube := BuildAssignmentCube(h, p.states, assignment);
    var cs := path + [Holds(cube, depth)];
    assert AllFit([Holds(cube, depth)], depth + 1);
    MeetsBoth(path, [Holds(cube, depth)], (f: nat) => (v: nat) => false);
    SolveFramesIsExact(cs, depth + 1);
    forall frames
      ensures MeetsAll(cs, frames) <==> IsPath(p, init, frames, depth) && InCube(p.states, assignment, frames(depth))
    {
      MeetsBoth(path, [Holds(cube, depth)], frames);
      MeetsSingle(Holds(cube, depth), frames);
    }
    r := SolveFrames(cs, depth + 1);
  }

  lemma {:induction false} SymbolsOf(p: Problem)
    requires WellFormed(p)
    ensures AreSymbols(p.states)
  {
  }

  // ----- the frontier -----

  ghost predicate ReachedWithin(p: Problem, init: Expr, env: Env, depth: nat) {
    exists d :: 0 <= d <= depth && ReachesIn(p, init, env, d)
  }

  ghost predicate CubeWithin(p: Problem, init: Expr, a: nat, depth: nat) {
    exists d :: 0 <= d <= depth && CubeReached(p, init, a, d)
  }

  ghost predicate CoveredBy(p: Problem, init: Expr, depth: nat, n: nat, env: Env) {
    exists a :: 0 <= a < n && CubeWithin(p, init, a, depth) && InCube(p.states, a, env)
  }

  lemma {:induction false} CubeIsState(p: Problem, init: Expr, a: nat, env: Env, d: nat)
    requires InCube(p.states, a, env)
    ensures CubeReached(p, init, a, d) <==> ReachesIn(p, init, env, d)
  {
    hide IsPath, InCube;
    forall frames: Frames
      ensures InCube(p.states, a, frames(d)) <==> AgreeOn(p.states, env, frames(d))
    {
      SameCube(p.states, a, env, frames(d));
    }
  }

  lemma {:induction false} CoveredIsReached(p: Problem, init: Expr, depth: nat, env: Env)
    ensures CoveredBy(p, init, depth, D.Pow2(|p.states|), env) <==> ReachedWithin(p, init, env, depth)
  {
    hide InCube, CubeReached, ReachesIn;
    if CoveredBy(p, init, depth, D.Pow2(|p.states|), env) {
      var a :| 0 <= a < D.Pow2(|p.states|) && CubeWithin(p, init, a, depth) && InCube(p.states, a, env);
      var d :| 0 <= d <= depth && CubeReached(p, init, a, d);
      CubeIsState(p, init, a, env, d);
    }
    if ReachedWithin(p, init, env, depth) {
      var d :| 0 <= d <= depth && ReachesIn(p, init, env, d);
      var a := OwnCube(p.states, env);
      CubeIsState(p, init, a, env, d);
      assert CubeWithin(p, init, a, depth);
    }
  }

  lemma {:induction false} CoveredByGrows(p: Problem, init: Expr, depth: nat, n: nat, env: Env)
    ensures CoveredBy(p, init, depth, n + 1, env)
         <==> CoveredBy(p, init, depth, n, env) || (CubeWithin(p, init, n, depth) && InCube(p.states, n, env))
    ensures !CoveredBy(p, init, depth, 0, env)
  {
    hide InCube, CubeWithin;
    if CoveredBy(p, init, depth, n + 1, env) {
      var a :| 0 <= a < n + 1 && CubeWithin(p, init, a, depth) && InCube(p.states, a, env);
      assert a < n || a == n;
    }
  }

  method IsReachedWithin(h: Mixer, p: Problem, init: Expr, assignment: nat, depth: nat) returns (r: bool)
    requires WellFormed(p)
    ensures r <==> CubeWithin(p, init, assignment, depth)
  {
    hide CubeReached, WellFormed;
    r := false;
    for frame := 0 to depth + 1
      invariant !r && forall d :: 0 <= d < frame ==> !CubeReached(p, init, assignment, d)
    {
      r := IsStateReachableAtDepth(h, p, init, assignment, frame);
      if r {
        break;
      }
    }
  }

  /** `buildExactReachableStateInvariant`: none when there is nothing to enumerate or to keep. */
  method BuildExactReachableStateInvariant(h: Mixer, p: Problem, init: Option<Expr>, depth: nat, maxStateBits: nat)
      returns (r: Option<Expr>)
    requires WellFormed(p)
    ensures r.Some? ==> init.Some? && forall env :: Eval(r.value, env) <==> ReachedWithin(p, init.value, env, depth)
    ensures r.None?
         <==> init.None? || p.states == [] || |p.states| > maxStateBits
              || forall env :: !ReachedWithin(p, init.value, env, depth)
  {
    hide CubeWithin, InCube, CoveredBy, ReachedWithin, WellFormed;
    if init.None? || p.states == [] || |p.states| > maxStateBits {
      return None;
    }
    SymbolsOf(p);
    var reachable := FALSE;
    var found := false;
    forall env
      ensures !CoveredBy(p, init.value, depth, 0, env)
    {
      CoveredByGrows(p, init.value, depth, 0, env);
    }
    for a := 0 to D.Pow2(|p.states|)
      invariant forall env :: Eval(reachable, env) <==> CoveredBy(p, init.value, depth, a, env)
      invariant found <==> exists env :: CoveredBy(p, init.value, depth, a, env)
    {
      ghost var was, had := reachable, found;
      var within := IsReachedWithin(h, p, init.value, a, depth);
      if within {
        found := true;
        var cube := BuildAssignmentCube(h, p.states, a);
        reachable := MkOr(h, reachable, cube);
        CubeIsInhabited(p, init.value, a, depth);
      }
      forall env
        ensures CoveredBy(p, init.value, depth, a + 1, env)
             <==> CoveredBy(p, init.value, depth, a, env) || (within && InCube(p.states, a, env))
        ensures Eval(reachable, env) <==> CoveredBy(p, init.value, depth, a + 1, env)
      {
        CoveredByGrows(p, init.value, depth, a, env);
        assert Eval(was, env) <==> CoveredBy(p, init.value, depth, a, env);
      }
    }
    forall env
      ensures CoveredBy(p, init.value, depth, D.Pow2(|p.states|), env) <==> ReachedWithin(p, init.value, env, depth)
    {
      CoveredIsReached(p, init.value, depth, env);
    }
    if !found {
      return None;
    }
    reachable := Simplify(h, reachable);
    r := Some(reachable);
  }

  lemma {:induction false} CubeIsInhabited(p: Problem, init: Expr, a: nat, depth: nat)
    requires CubeWithin(p, init, a, depth)
    ensures exists env :: InCube(p.states, a, env)
  {
    hide IsPath, InCube;
    var d :| 0 <= d <= depth && CubeReached(p, init, a, d);
    var frames: Frames :| IsPath(p, init, frames, d) && InCube(p.states, a, frames(d));
  }

  /** The frontier grows with the depth. */
  lemma {:induction false} FrontierGrows(p: Problem, init: Expr, env: Env, depth: nat, more: nat)
    requires depth <= more && ReachedWithin(p, init, env, depth)
    ensures ReachedWithin(p, init, env, more)
  {
  }

  /** One more step of the explicit transitions stays within one more depth. */
  lemma {:induction false} FrontierSteps(p: Problem, init: Expr, frames: Frames, depth: nat)
    requires IsPath(p, init, frames, depth)
    ensures ReachedWithin(p, init, frames(depth), depth)
  {
    assert AgreeOn(p.states, frames(depth), frames(depth));
    assert ReachesIn(p, init, frames(depth), depth);
  }

  // ----- saturation -----

  /** Init is a state formula, and transitions set only state symbols. */
  ghost predicate StateBased(p: Problem, init: Expr) {
    && (forall v :: v in Support(init) && v >= 2 ==> v in p.states)
    && (forall i :: 0 <= i < |p.transitions| ==> p.transitions[i].0 in p.states)
  }

  ghost predicate Saturated(p: Problem, init: Expr, depth: nat) {
    forall env :: ReachedWithin(p, init, env, depth + 1) ==> ReachedWithin(p, init, env, depth)
  }

  /** The path with its last frame replaced and one frame added. */
  ghost function Redirected(frames: Frames, d: nat, e: Env, e': Env): Frames {
    (f: nat) => if f < d then frames(f) else if f == d then e else e'
  }

  /** A path to the same state can be continued by the same step. */
  lemma {:induction false} Continue(p: Problem, init: Expr, frames: Frames, d: nat, e: Env, e': Env)
    requires StateBased(p, init) && IsPath(p, init, frames, d) && AgreeOn(p.states, e, frames(d))
    requires Step(p.transitions, e, e') && Complemented(p.complements, e) && Complemented(p.complements, e')
    requires Certified(p, e) && Certified(p, e')
    ensures IsPath(p, init, Redirected(frames, d, e, e'), d + 1)
  {
    var other := Redirected(frames, d, e, e');
    if d == 0 {
      EvalDependsOnSupport(init, frames(0), e);
    }
    forall f | 0 <= f < d + 1
      ensures StepAt(p.transitions, other, f)
    {
      if f < d {
        assert StepAt(p.transitions, frames, f);
        forall i | 0 <= i < |p.transitions|
          ensures other(f + 1)(p.transitions[i].0) == Eval(p.transitions[i].1, other(f))
        {
          assert frames(f + 1)(p.transitions[i].0) == Eval(p.transitions[i].1, frames(f));
        }
      }
    }
  }

  /** Once the frontier stops growing it holds every reachable state. */
  lemma {:induction false} SaturatedIsAll(p: Problem, init: Expr, depth: nat, frames: Frames, k: nat)
    requires StateBased(p, init) && Saturated(p, init, depth) && IsPath(p, init, frames, k)
    ensures ReachedWithin(p, init, frames(k), depth)
  {
    if k == 0 {
      FrontierSteps(p, init, frames, 0);
      FrontierGrows(p, init, frames(0), 0, depth);
    } else {
      PathPrefix(p, init, frames, k);
      SaturatedIsAll(p, init, depth, frames, k - 1);
      var d := ShallowPath(p, init, frames(k - 1), depth);
      var other: Frames :| IsPath(p, init, other, d) && AgreeOn(p.states, frames(k - 1), other(d));
      assert StepAt(p.transitions, frames, k - 1);
      assert Complemented(p.complements, frames(k - 1)) && Complemented(p.complements, frames(k));
      Continue(p, init, other, d, frames(k - 1), frames(k));
      var longer := Redirected(other, d, frames(k - 1), frames(k));
      FrontierSteps(p, init, longer, d + 1);
      FrontierGrows(p, init, longer(d + 1), d + 1, depth + 1);
      assert longer(d + 1) == frames(k);
    }
  }

  lemma {:induction false} ShallowPath(p: Problem, init: Expr, env: Env, depth: nat) returns (d: nat)
    requires ReachedWithin(p, init, env, depth)
    ensures d <= depth && ReachesIn(p, init, env, d)
  {
    hide ReachesIn;
    d :| 0 <= d <= depth && ReachesIn(p, init, env, d);
  }

  lemma {:induction false} PathPrefix(p: Problem, init: Expr, frames: Frames, k: nat)
    requires k > 0 && IsPath(p, init, frames, k)
    ensures IsPath(p, init, frames, k - 1)
  {
  }

  // ----- the invariant check -----

  function PrimaryOf(pairs: seq<(nat, nat)>, symbol: nat): Option<nat> {
    if pairs == [] then None
    else if pairs[0].1 == symbol then Some(pairs[0].0)
    else PrimaryOf(pairs[1..], symbol)
  }

  /** The first transition of a symbol, as a lookup table keeps it. */
  function MoveOf(moves: Moves, symbol: nat): Option<Expr> {
    if moves == [] then None
    else if moves[0].0 == symbol then Some(moves[0].1)
    else MoveOf(moves[1..], symbol)
  }

  lemma {:induction false} MoveOfIsMove(moves: Moves, symbol: nat)
    ensures MoveOf(moves, symbol).Some? ==> (symbol, MoveOf(moves, symbol).value) in moves
  {
    if moves != [] && moves[0].0 != symbol {
      MoveOfIsMove(moves[1..], symbol);
    }
  }

  /** `expandTransitionTargets` for one requested symbol: itself, or its complement's primary. */
  function TargetOf(p: Problem, symbol: nat): Option<nat> {
    var moves := p.transitions + p.auxiliary;
    if MoveOf(moves, symbol).Some? then Some(symbol)
    else
      var primary := PrimaryOf(p.complements, symbol);
      if primary.Some? && MoveOf(moves, primary.value).Some? then primary else None
  }

  /** The equations that the query carries. */
  function TargetMoves(p: Problem, requested: seq<nat>): (r: Moves)
    ensures forall i :: 0 <= i < |r| ==> r[i] in p.transitions + p.auxiliary
  {
    if requested == [] then []
    else
      var moves := p.transitions + p.auxiliary;
      var target := TargetOf(p, requested[0]);
      var rest := TargetMoves(p, requested[1..]);
      if target.Some? then
        MoveOfIsMove(moves, target.value);
        [(target.value, MoveOf(moves, target.value).value)] + rest
      else rest
  }

  /** Pairs with both symbols among the query symbols. */
  function Known(pairs: seq<(nat, nat)>, symbols: set<nat>): (r: seq<(nat, nat)>)
    ensures forall i :: 0 <= i < |r| ==> r[i] in pairs
  {
    if pairs == [] then []
    else (if pairs[0].0 in symbols && pairs[0].1 in symbols then [pairs[0]] else []) + Known(pairs[1..], symbols)
  }

  function RailExpr(h: Mixer, pair: (nat, nat)): Expr { MkOr(h, Var(pair.0), Var(pair.1)) }

  function ResetExpr(input: (nat, bool)): Expr { if input.1 then MkNot(Var(input.0)) else Var(input.0) }

  function Hypothesis(h: Mixer, p: Problem, invariant_: Expr): Expr {
    if p.learned.Some? then MkAnd(h, invariant_, p.learned.value) else invariant_
  }

  function RailConstraints(h: Mixer, rails: seq<(nat, nat)>, frame: nat): (r: seq<Constraint>)
    ensures |r| == |rails| && forall i :: 0 <= i < |r| ==> r[i] == Holds(RailExpr(h, rails[i]), frame)
  {
    seq(|rails|, i requires 0 <= i < |rails| => Holds(RailExpr(h, rails[i]), frame))
  }

  function ComplementConstraints(h: Mixer, pairs: seq<(nat, nat)>, frame: nat): (r: seq<Constraint>)
    ensures |r| == |pairs| && forall i :: 0 <= i < |r| ==> r[i] == Holds(ComplementExpr(h, pairs[i]), frame)
  {
    seq(|pairs|, i requires 0 <= i < |pairs| => Holds(ComplementExpr(h, pairs[i]), frame))
  }

  function ResetConstraints(p: Problem): (r: seq<Constraint>)
    ensures |r| == if p.resetCycles == 0 then 0 else |p.resetInputs|
    ensures forall i :: 0 <= i < |r| ==> r[i] == Holds(ResetExpr(p.resetInputs[i]), 0)
  {
    if p.resetCycles == 0 then []
    else seq(|p.resetInputs|, i requires 0 <= i < |p.resetInputs| => Holds(ResetExpr(p.resetInputs[i]), 0))
  }

  function MoveConstraints(moves: Moves): (r: seq<Constraint>)
    ensures |r| == |moves| && forall i :: 0 <= i < |r| ==> r[i] == Follows(moves[i].0, moves[i].1, 0)
  {
    seq(|moves|, i requires 0 <= i < |moves| => Follows(moves[i].0, moves[i].1, 0))
  }

  /** The two-frame query of `isInductiveInvariant`, for the symbols it declares and the targets it needs. */
  function InductionQuery(h: Mixer, p: Problem, inv: Expr, symbols: set<nat>, requested: seq<nat>): seq<Constraint> {
    var pairs, rails := Known(p.complements, symbols), Known(p.rails, symbols);
    ComplementConstraints(h, pairs, 0) + ComplementConstraints(h, pairs, 1)
    + RailConstraints(h, rails, 0) + RailConstraints(h, rails, 1)
    + ResetConstraints(p) + MoveConstraints(TargetMoves(p, requested))
    + [Holds(Hypothesis(h, p, inv), 0), Holds(MkNot(inv), 1)]
  }

  predicate IsInductiveInvariant(h: Mixer, p: Problem, inv: Expr, symbols: set<nat>, requested: seq<nat>) {
    !SolveFrames(InductionQuery(h, p, inv, symbols, requested), 2)
  }

  /** A state that a run of the problem can be in. */
  ghost predicate Legal(p: Problem, e: Env) {
    Complemented(p.complements, e) && RailsValid(p.rails, e) && Released(p, e) && Certified(p, e)
  }

  lemma {:induction false} MeetsEachBoth(cs: seq<Constraint>, ds: seq<Constraint>, frames: Frames)
    requires AllFit(cs, 2) && AllFit(ds, 2)
    ensures AllFit(cs + ds, 2)
    ensures MeetsAll(cs + ds, frames) <==> MeetsAll(cs, frames) && MeetsAll(ds, frames)
  {
    MeetsBoth(cs, ds, frames);
  }

  lemma {:induction false} KnownArePairs(pairs: seq<(nat, nat)>, symbols: set<nat>)
    requires ArePairs(pairs)
    ensures ArePairs(Known(pairs, symbols))
  {
    var known := Known(pairs, symbols);
    forall i | 0 <= i < |known|
      ensures known[i].0 >= 2 && known[i].1 >= 2
    {
      assert known[i] in pairs;
    }
  }

  lemma {:induction false} ComplementsMet(h: Mixer, pairs: seq<(nat, nat)>, frames: Frames, f: nat)
    requires ArePairs(pairs) && f < 2
    ensures AllFit(ComplementConstraints(h, pairs, f), 2)
    ensures MeetsAll(ComplementConstraints(h, pairs, f), frames) <==> Complemented(pairs, frames(f))
  {
    var cs := ComplementConstraints(h, pairs, f);
    hide ComplementExpr;
    forall i | 0 <= i < |pairs|
      ensures Meets(cs[i], frames) <==> frames(f)(pairs[i].1) == !frames(f)(pairs[i].0)
    {
      ComplementMeans(h, pairs[i], frames(f));
    }
  }

  lemma {:induction false} RailsMet(h: Mixer, rails: seq<(nat, nat)>, frames: Frames, f: nat)
    requires ArePairs(rails) && f < 2
    ensures AllFit(RailConstraints(h, rails, f), 2)
    ensures MeetsAll(RailConstraints(h, rails, f), frames) <==> RailsValid(rails, frames(f))
  {
    var cs := RailConstraints(h, rails, f);
    hide MkOr;
    forall i | 0 <= i < |rails|
      ensures Meets(cs[i], frames) <==> frames(f)(rails[i].0) || frames(f)(rails[i].1)
    {
      LiteralMeans(rails[i].0, frames(f));
      LiteralMeans(rails[i].1, frames(f));
    }
  }

  lemma {:induction false} ResetsMet(p: Problem, frames: Frames)
    requires WellFormed(p)
    ensures AllFit(ResetConstraints(p), 2)
    ensures MeetsAll(ResetConstraints(p), frames) <==> Released(p, frames(0))
  {
    var cs := ResetConstraints(p);
    hide MkNot;
    forall i | 0 <= i < |cs|
      ensures Meets(cs[i], frames) <==> frames(0)(p.resetInputs[i].0) == !p.resetInputs[i].1
    {
      LiteralMeans(p.resetInputs[i].0, frames(0));
    }
  }

  lemma {:induction false} MovesMet(moves: Moves, frames: Frames)
    ensures AllFit(MoveConstraints(moves), 2)
    ensures MeetsAll(MoveConstraints(moves), frames) <==> Step(moves, frames(0), frames(1))
  {
    var cs := MoveConstraints(moves);
    assert forall i :: 0 <= i < |moves| ==>
      (Meets(cs[i], frames) <==> frames(1)(moves[i].0) == Eval(moves[i].1, frames(0)));
  }

  lemma {:induction false} LastMet(h: Mixer, p: Problem, inv: Expr, frames: Frames)
    ensures var last := [Holds(Hypothesis(h, p, inv), 0), Holds(MkNot(inv), 1)];
      && AllFit(last, 2)
      && (MeetsAll(last, frames) <==> Eval(inv, frames(0)) && Certified(p, frames(0)) && !Eval(inv, frames(1)))
  {
    hide MkAnd, MkNot;
    var last := [Holds(Hypothesis(h, p, inv), 0), Holds(MkNot(inv), 1)];
    assert MeetsAll(last, frames) <==> Meets(last[0], frames) && Meets(last[1], frames);
  }

  /**
   A step as the query sees it: only pairs whose two symbols it declares, resets at the first
   frame only, and only the equations of the requested targets.
   */
  ghost predicate QueryStep(p: Problem, symbols: set<nat>, requested: seq<nat>, e: Env, e': Env) {
    && Complemented(Known(p.complements, symbols), e) && Complemented(Known(p.complements, symbols), e')
    && RailsValid(Known(p.rails, symbols), e) && RailsValid(Known(p.rails, symbols), e')
    && Released(p, e) && Step(TargetMoves(p, requested), e, e')
  }

  lemma {:induction false} QueryMeans(h: Mixer, p: Problem, inv: Expr, symbols: set<nat>, requested: seq<nat>,
      frames: Frames)
    requires WellFormed(p)
    ensures AllFit(InductionQuery(h, p, inv, symbols, requested), 2)
    ensures MeetsAll(InductionQuery(h, p, inv, symbols, requested), frames)
       <==> QueryStep(p, symbols, requested, frames(0), frames(1))
            && Eval(inv, frames(0)) && Certified(p, frames(0)) && !Eval(inv, frames(1))
  {
    var pairs, rails := Known(p.complements, symbols), Known(p.rails, symbols);
    KnownArePairs(p.complements, symbols);
    KnownArePairs(p.rails, symbols);
    ResetsMet(p, frames);
    hide WellFormed, Complemented, RailsValid, Released, Step, TargetMoves, Known, MeetsAll, AllFit, ArePairs;
    hide ComplementConstraints, RailConstraints, ResetConstraints, MoveConstraints;
    var a0, a1 := ComplementConstraints(h, pairs, 0), ComplementConstraints(h, pairs, 1);
    var b0, b1 := RailConstraints(h, rails, 0), RailConstraints(h, rails, 1);
    var c, d := ResetConstraints(p), MoveConstraints(TargetMoves(p, requested));
    var last := [Holds(Hypothesis(h, p, inv), 0), Holds(MkNot(inv), 1)];
    ComplementsMet(h, pairs, frames, 0);
    ComplementsMet(h, pairs, frames, 1);
    RailsMet(h, rails, frames, 0);
    RailsMet(h, rails, frames, 1);
    MovesMet(TargetMoves(p, requested), frames);
    LastMet(h, p, inv, frames);
    MeetsEachBoth(a0, a1, frames);
    MeetsEachBoth(a0 + a1, b0, frames);
    MeetsEachBoth(a0 + a1 + b0, b1, frames);
    MeetsEachBoth(a0 + a1 + b0 + b1, c, frames);
    MeetsEachBoth(a0 + a1 + b0 + b1 + c, d, frames);
    MeetsEachBoth(a0 + a1 + b0 + b1 + c + d, last, frames);
  }

  /** Exactly which invariants the query accepts: those kept by every step that it sees. */
  lemma {:induction false} AcceptedIffKept(h: Mixer, p: Problem, inv: Expr, symbols: set<nat>, requested: seq<nat>)
    requires WellFormed(p)
    ensures IsInductiveInvariant(h, p, inv, symbols, requested)
       <==> forall e, e' :: QueryStep(p, symbols, requested, e, e') && Certified(p, e) && Eval(inv, e) ==> Eval(inv, e')
  {
    hide WellFormed, QueryStep, Certified, InductionQuery, SolveFrames, MeetsAll, AllFit;
    var cs := InductionQuery(h, p, inv, symbols, requested);
    QueryMeans(h, p, inv, symbols, requested, (f: nat) => (v: nat) => false);
    SolveFramesIsExact(cs, 2);
    if SolveFrames(cs, 2) {
      var frames: Frames :| MeetsAll(cs, frames);
      QueryMeans(h, p, inv, symbols, requested, frames);
      assert QueryStep(p, symbols, requested, frames(0), frames(1));
    } else {
      forall e, e' | QueryStep(p, symbols, requested, e, e') && Certified(p, e) && Eval(inv, e)
        ensures Eval(inv, e')
      {
        QueryMeans(h, p, inv, symbols, requested, (f: nat) => if f == 0 then e else e');
      }
    }
  }

  /** A legal step of the problem is a step that the query sees. */
  lemma {:induction false} LegalStepIsSeen(p: Problem, symbols: set<nat>, requested: seq<nat>, e: Env, e': Env)
    requires Step(p.transitions + p.auxiliary, e, e') && Legal(p, e) && Legal(p, e')
    ensures QueryStep(p, symbols, requested, e, e')
  {
    var pairs, rails, moves := Known(p.complements, symbols), Known(p.rails, symbols), TargetMoves(p, requested);
    var all := p.transitions + p.auxiliary;
    forall i | 0 <= i < |pairs|
      ensures e(pairs[i].1) == !e(pairs[i].0) && e'(pairs[i].1) == !e'(pairs[i].0)
    {
      assert pairs[i] in p.complements;
    }
    forall i | 0 <= i < |rails|
      ensures (e(rails[i].0) || e(rails[i].1)) && (e'(rails[i].0) || e'(rails[i].1))
    {
      assert rails[i] in p.rails;
    }
    forall i | 0 <= i < |moves|
      ensures e'(moves[i].0) == Eval(moves[i].1, e)
    {
      assert moves[i] in all;
      var j :| 0 <= j < |all| && all[j] == moves[i];
    }
  }

  /** So an accepted invariant is kept by every legal step. */
  lemma {:induction false} AcceptedIsKept(h: Mixer, p: Problem, inv: Expr, symbols: set<nat>, requested: seq<nat>,
      e: Env, e': Env)
    requires WellFormed(p) && IsInductiveInvariant(h, p, inv, symbols, requested)
    requires Step(p.transitions + p.auxiliary, e, e') && Legal(p, e) && Legal(p, e') && Eval(inv, e)
    ensures Eval(inv, e')
  {
    hide WellFormed, IsInductiveInvariant, Step, QueryStep;
    AcceptedIffKept(h, p, inv, symbols, requested);
    LegalStepIsSeen(p, symbols, requested, e, e');
  }

  function BadQuery(h: Mixer, p: Problem, inv: Expr): Expr {
    var query := MkAnd(h, inv, p.bad);
    if p.learned.Some? then MkAnd(h, query, p.learned.value) else query
  }

  /** `provesImcInvariant`. */
  predicate ProvesImcInvariant(h: Mixer, p: Problem, init: Expr, inv: Expr, symbols: set<nat>, requested: seq<nat>) {
    && !IsSat(MkAnd(h, init, MkNot(inv)))
    && IsInductiveInvariant(h, p, inv, symbols, requested)
    && !IsSat(BadQuery(h, p, inv))
  }

  /** An unbounded run from the initial frontier. */
  ghost predicate IsRun(p: Problem, init: Expr, run: Frames) {
    && Eval(init, run(0))
    && (forall t: nat :: Legal(p, run(t)))
    && (forall t: nat :: StepAt(p.transitions + p.auxiliary, run, t))
  }

  ghost predicate Safe(p: Problem, init: Expr) {
    forall run: Frames, t: nat :: IsRun(p, init, run) ==> !Eval(p.bad, run(t))
  }

  lemma {:induction false} InvariantHolds(h: Mixer, p: Problem, init: Expr, inv: Expr, symbols: set<nat>,
      requested: seq<nat>, run: Frames, t: nat)
    requires WellFormed(p) && ProvesImcInvariant(h, p, init, inv, symbols, requested) && IsRun(p, init, run)
    ensures Eval(inv, run(t))
  {
    hide WellFormed, IsInductiveInvariant, BadQuery, IsSat, Legal, Step, MkAnd, MkNot;
    if t == 0 {
      NegationIsEscape(h, init, inv);
    } else {
      InvariantHolds(h, p, init, inv, symbols, requested, run, t - 1);
      assert StepAt(p.transitions + p.auxiliary, run, t - 1);
      AcceptedIsKept(h, p, inv, symbols, requested, run(t - 1), run(t));
    }
  }

  lemma {:induction false} BadIsExcluded(h: Mixer, p: Problem, inv: Expr, e: Env)
    requires !IsSat(BadQuery(h, p, inv)) && Eval(inv, e) && Certified(p, e)
    ensures !Eval(p.bad, e)
  {
    hide MkAnd, IsSat;
    IsSatIsExact(BadQuery(h, p, inv));
  }

  /** Whenever the check accepts, no unbounded run from the initial frontier reaches a bad state. */
  lemma {:induction false} AcceptedProvesSafety(h: Mixer, p: Problem, init: Expr, inv: Expr, symbols: set<nat>,
      requested: seq<nat>)
    requires WellFormed(p) && ProvesImcInvariant(h, p, init, inv, symbols, requested)
    ensures Safe(p, init)
  {
    hide WellFormed, IsInductiveInvariant, IsSat, Complemented, RailsValid, Released;
    forall run: Frames, t: nat | IsRun(p, init, run)
      ensures !Eval(p.bad, run(t))
    {
      InvariantHolds(h, p, init, inv, symbols, requested, run, t);
      assert Legal(p, run(t));
      BadIsExcluded(h, p, inv, run(t));
    }
  }

  // ----- the engine -----

  datatype Status = Equivalent(bound: nat) | Different(frame: nat) | Inconclusive(bound: nat)

  /** The frontier at depth k, with the strengthening. */
  ghost predicate IsCandidate(p: Problem, init: Expr, strengthening: Option<Expr>, k: nat, inv: Expr) {
    forall env :: Eval(inv, env)
             <==> ReachedWithin(p, init, env, k) && (strengthening.Some? ==> Eval(strengthening.value, env))
  }

  /** No frontier can be built at this depth, or its invariant was rejected. */
  ghost predicate Rejected(h: Mixer, p: Problem, init: Expr, strengthening: Option<Expr>, symbols: Expr -> set<nat>,
      requested: Expr -> seq<nat>, k: nat) {
    || |p.states| > MAX_STATE_BITS
    || (forall env :: !ReachedWithin(p, init, env, k))
    || exists inv :: IsCandidate(p, init, strengthening, k, inv) &&
        !ProvesImcInvariant(h, p, init, inv, symbols(inv), requested(inv))
  }

  /** The frontier at this depth was accepted. */
  ghost predicate ProvedAt(h: Mixer, p: Problem, init: Expr, strengthening: Option<Expr>, symbols: Expr -> set<nat>,
      requested: Expr -> seq<nat>, k: nat) {
    exists inv :: IsCandidate(p, init, strengthening, k, inv)
                  && ProvesImcInvariant(h, p, init, inv, symbols(inv), requested(inv))
  }

  const MAX_STATE_BITS: nat := 12

  /** The startup condition, restricted to what is learned. */
  function InitFormula(h: Mixer, p: Problem, startup: Option<Expr>): (init: Option<Expr>)
    ensures init.Some? <==> startup.Some?
    ensures startup.Some? ==> forall env ::
      Eval(init.value, env) <==> Eval(startup.value, env) && (p.learned.Some? ==> Eval(p.learned.value, env))
  {
    if startup.Some? && p.learned.Some? then Some(MkAnd(h, startup.value, p.learned.value)) else startup
  }

  /** Legal frames satisfy what is learned, so the restriction excludes no run. */
  lemma {:induction false} SafeFromStartup(h: Mixer, p: Problem, startup: Option<Expr>)
    requires startup.Some?
    ensures Safe(p, InitFormula(h, p, startup).value) <==> Safe(p, startup.value)
  {
    hide InitFormula, Complemented, RailsValid, Released, Step;
    var init := InitFormula(h, p, startup).value;
    forall run: Frames
      ensures IsRun(p, init, run) <==> IsRun(p, startup.value, run)
    {
      if IsRun(p, startup.value, run) {
        assert Legal(p, run(0));
      }
    }
  }

  /** One depth of the engine: build the frontier and check it. */
  method TryFrontier(h: Mixer, p: Problem, init: Expr, strengthening: Option<Expr>, symbols: Expr -> set<nat>,
      requested: Expr -> seq<nat>, k: nat) returns (proved: bool)
    requires WellFormed(p) && p.states != []
    ensures proved ==> Safe(p, init) && ProvedAt(h, p, init, strengthening, symbols, requested, k)
    ensures !proved ==> Rejected(h, p, init, strengthening, symbols, requested, k)
  {
    hide Safe, ProvesImcInvariant, WellFormed, ReachedWithin, MkAnd;
    var frontier := BuildExactReachableStateInvariant(h, p, Some(init), k, MAX_STATE_BITS);
    if frontier.None? {
      return false;
    }
    var inv := frontier.value;
    if strengthening.Some? {
      inv := Simplify(h, MkAnd(h, frontier.value, strengthening.value));
    }
    assert IsCandidate(p, init, strengthening, k, inv);
    proved := ProvesImcInvariant(h, p, init, inv, symbols(inv), requested(inv));
    if proved {
      AcceptedProvesSafety(h, p, init, inv, symbols(inv), requested(inv));
    }
  }

  /**
   `run`, for problems with explicit state. The counterexample search and the startup
   strengthening are arbitrary; so are the symbols that an invariant check declares.
   */
  method RunImc(h: Mixer, p: Problem, startup: Option<Expr>, strengthening: Option<Expr>,
      counterexample: nat -> Option<nat>,
                symbols: Expr -> set<nat>, requested: Expr -> seq<nat>, maxK: nat) returns (s: Status)
    requires WellFormed(p) && p.states != []
    ensures s.Equivalent? ==> startup.Some? && Safe(p, startup.value)
    ensures s.Equivalent? ==> var init := InitFormula(h, p, startup).value;
      || (s.bound == 1 && strengthening.Some? && counterexample(0).None?
          && ProvesImcInvariant(h, p, init, strengthening.value, symbols(strengthening.value),
                                requested(strengthening.value)))
      || (1 <= s.bound <= maxK && ProvedAt(h, p, init, strengthening, symbols, requested, s.bound)
          && (forall k :: 0 <= k <= s.bound ==> counterexample(k).None?)
          && (forall k :: 1 <= k < s.bound ==> Rejected(h, p, init, strengthening, symbols, requested, k)))
    ensures s.Different? ==> exists k :: 0 <= k <= maxK && counterexample(k) == Some(s.frame)
    ensures s.Inconclusive? ==> s.bound == maxK && forall k :: 0 <= k <= maxK ==> counterexample(k).None?
    ensures s.Inconclusive? && startup.Some? ==>
      forall k :: 1 <= k <= maxK ==>
        Rejected(h, p, InitFormula(h, p, startup).value, strengthening, symbols, requested, k)
    ensures s.Inconclusive? && startup.Some? && strengthening.Some? ==>
      !ProvesImcInvariant(h, p, InitFormula(h, p, startup).value, strengthening.value, symbols(strengthening.value),
          requested(strengthening.value))
  {
    hide Safe, ProvesImcInvariant, WellFormed, Rejected, ProvedAt, MkAnd;
    if counterexample(0).Some? {
      return Different(counterexample(0).value);
    }
    var init := InitFormula(h, p, startup);
    if init.Some? && strengthening.Some? &&
        ProvesImcInvariant(h, p, init.value, strengthening.value, symbols(strengthening.value),
        requested(strengthening.value)) {
      AcceptedProvesSafety(h, p, init.value, strengthening.value, symbols(strengthening.value),
          requested(strengthening.value));
      SafeFromStartup(h, p, startup);
      return Equivalent(1);
    }
    for k := 1 to maxK + 1
      invariant forall i :: 0 <= i < k ==> counterexample(i).None?
      invariant init.Some? ==>
        forall i :: 1 <= i < k ==> Rejected(h, p, init.value, strengthening, symbols, requested, i)
    {
      if counterexample(k).Some? {
        return Different(counterexample(k).value);
      }
      if init.Some? {
        var proved := TryFrontier(h, p, init.value, strengthening, symbols, requested, k);
        if proved {
          SafeFromStartup(h, p, startup);
          return Equivalent(k);
        }
      }
    }
    return Inconclusive(maxK);
  }
}
