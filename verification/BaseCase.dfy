/**
 The startup rules as the bounded base-case query states them, frame by frame and over the fields of
 the problem. The exported model and this query refute the same frames.
 */
module BaseCases {
  import opened Options
  import opened BoolExprs
  import opened Btor2
  import opened SecExport
  import opened SecStartup
  import opened SecGating
  import opened SecRuns

  datatype InitialMode = NoConstraint | ObservationOnly | PartialInit | CompleteInit

  /** `determineInitialConstraintMode`. */
  function ModeOf(p: Problem): InitialMode {
    if p.stateCount == 0 then NoConstraint
    else if p.initializedStates == 0 then ObservationOnly
    else if p.initializedStates == p.totalStates then CompleteInit
    else PartialInit
  }

  predicate KnowsWholeState(p: Problem) { p.initializedStates > 0 && p.totalStates == p.initializedStates }

  /** `resetBootstrapFrames`: a reset prefix, unless a binary problem knows its whole initial state. */
  function PrefixOf(p: Problem): nat {
    if p.resetInputs != [] && (p.dualRail || !KnowsWholeState(p)) then p.resetCycles else 0
  }

  /** The number of states that bootstrap values would have to name. */
  function StatesToName(p: Problem): nat {
    if p.totalStates == 0 then p.stateCount else p.totalStates
  }

  /** `usesResetBootstrapObservationFrontier`, after a reset prefix. */
  predicate ObservesFrontier(p: Problem) {
    && PrefixOf(p) > 0 && !p.dualRail && p.stateCount > 0
    && (StatesToName(p) == 0 || |p.bootstrapAssignments| < StatesToName(p))
  }

  /** The frame on which the property is assumed instead of checked, if there is one. */
  function Observed(p: Problem): Option<nat> {
    if ObservesFrontier(p) then Some(PrefixOf(p))
    else if PrefixOf(p) == 0 && (ModeOf(p).ObservationOnly? || ModeOf(p).PartialInit?) then Some(0)
    else None
  }

  ghost function EnvAt(f: Fields, run: Run, t: nat): Env { EnvOf(f, run.inp(t), run.st(t)) }

  ghost predicate AllSet(xs: Assignments, env: Env) {
    forall a :: a in xs ==> env(a.0) == a.1
  }

  ghost predicate AllOpposite(xs: Assignments, env: Env) {
    forall a :: a in xs ==> env(a.0) == !a.1
  }

  /** `addInitialConstraints`, and the initial rails of a dual-rail prefix. */
  ghost predicate InitialAt(p: Problem, env: Env) {
    if PrefixOf(p) > 0 then p.dualRail ==> AllSet(p.initialAssignments, env)
    else ModeOf(p) in {CompleteInit, PartialInit} && p.initialCondition.Some? ==>
      if p.initialAssignments != [] then AllSet(p.initialAssignments, env) else Eval(p.initialCondition.value, env)
  }

  /** The constraints of the query on frame t. */
  ghost predicate QueryAt(p: Problem, t: nat, env: Env) {
    && (PrefixOf(p) > 0 ==> if t < PrefixOf(p) then AllSet(p.resetInputs, env) else AllOpposite(p.resetInputs, env))
    && (t == 0 ==> InitialAt(p, env))
    && (Observed(p) == Some(t) ==> Eval(p.property, env))
    && (PrefixOf(p) > 0 && t == PrefixOf(p) && !p.dualRail ==> AllSet(p.bootstrapAssignments, env))
  }

  ghost predicate FollowsQuery(f: Fields, p: Problem, run: Run, last: nat) {
    forall t: nat :: t <= last ==> QueryAt(p, t, EnvAt(f, run, t))
  }

  /** A frame that the query may find bad: past the prefix, and past the observed frame. */
  predicate Checked(p: Problem, t: nat) {
    t >= PrefixOf(p) && (Observed(p).Some? ==> t > Observed(p).value)
  }

  /** A model of the query for k frames after the prefix, with its bad frame. */
  ghost predicate Refutes(f: Fields, p: Problem, run: Run, k: nat, t: nat) {
    && IsRun(f.lines, run, k + PrefixOf(p)) && FollowsQuery(f, p, run, k + PrefixOf(p))
    && t <= k + PrefixOf(p) && Checked(p, t) && Eval(p.bad, EnvAt(f, run, t))
  }

  /** `findBaseCounterexampleImpl`: some checked frame up to k is bad, or exactly the given one. */
  ghost predicate FindsBase(f: Fields, p: Problem, k: nat, exact: Option<nat>) {
    exists run: Run, t: nat :: Refutes(f, p, run, k, t) && (exact.Some? ==> t == exact.value + PrefixOf(p))
  }

  // ----- the query and the exporter agree -----

  lemma {:induction false} SamePrefix(p: Problem)
    ensures PrefixOf(p) == ResetFrames(p)
    ensures ObservesFrontier(p) <==> ResetFrames(p) != 0 && ResetObservation(p)
    ensures Observed(p) == Some(0) && PrefixOf(p) == 0 <==> InitialObservation(p)
  {
  }

  lemma {:induction false} SameBadFrame(p: Problem, t: nat)
    ensures Checked(p, t) <==> t >= FirstBadFrame(p)
  {
    SamePrefix(p);
    hide CompleteBootstrap, CompleteInitialState;
  }

  lemma {:induction false} InputsAreSet(f: Fields, xs: Assignments, inp: Vals, st: Vals, active: bool)
    requires forall a :: a in xs ==> InputSymbol(f, a.0)
    ensures ResetDriven(f, xs, inp, active)
       <==> if active then AllSet(xs, EnvOf(f, inp, st)) else AllOpposite(xs, EnvOf(f, inp, st))
  {
    forall a | a in xs
      ensures a.0 in f.variables && EnvOf(f, inp, st)(a.0) == inp(f.variables[a.0])
    {
      assert LineVal(f.lines, f.variables[a.0], inp, st) == inp(f.variables[a.0]);
    }
  }

  lemma {:induction false} StatesAreSet(f: Fields, xs: Assignments, inp: Vals, st: Vals)
    requires forall a :: a in xs ==> StateSymbol(f, a.0)
    ensures SecGating.Assigned(f, xs, st) <==> AllSet(xs, EnvOf(f, inp, st))
  {
    forall a | a in xs
      ensures a.0 in f.variables && EnvOf(f, inp, st)(a.0) == st(f.variables[a.0])
    {
      assert LineVal(f.lines, f.variables[a.0], inp, st) == st(f.variables[a.0]);
    }
  }

  lemma {:induction false} SameInitial(f: Fields, p: Problem, inp: Vals, st: Vals)
    requires Declared(f, p)
    ensures InitialAt(p, EnvOf(f, inp, st))
       <==> (WritesInits(p) ==> SecGating.Assigned(f, p.initialAssignments, st))
            && (WritesCondition(p) ==> Eval(p.initialCondition.value, EnvOf(f, inp, st)))
  {
    SamePrefix(p);
    if WritesInits(p) {
      StatesAreSet(f, p.initialAssignments, inp, st);
    }
    hide EnvOf, SecGating.Assigned, AllSet, ResetDeclared, ObservesFrontier;
    assert Eval(TRUE, EnvOf(f, inp, st));
    assert p.initialAssignments == [] ==> AllSet(p.initialAssignments, EnvOf(f, inp, st)) by {
      NothingToSet(EnvOf(f, inp, st));
    }
  }

  lemma {:induction false} NothingToSet(env: Env)
    ensures AllSet([], env)
  {
  }

  /** On every frame the exporter's rules are the constraints of the query. */
  lemma {:induction false} StartupIsQuery(f: Fields, p: Problem, t: nat, inp: Vals, st: Vals)
    requires Declared(f, p)
    ensures StartupAt(f, p, t, inp, st) <==> QueryAt(p, t, EnvOf(f, inp, st))
  {
    SamePrefix(p);
    SameInitial(f, p, inp, st);
    if ResetFrames(p) != 0 {
      InputsAreSet(f, p.resetInputs, inp, st, t < ResetFrames(p));
      if !p.dualRail {
        StatesAreSet(f, p.bootstrapAssignments, inp, st);
      }
    }
    hide EnvOf, SecGating.Assigned, AllSet, AllOpposite, ResetDriven, InitialAt, WritesInits, WritesCondition;
    hide ResetFrames, ResetObservation, InitialObservation, ObservesFrontier;
  }

  /** A run follows the exporter's rules exactly when it is a model of the query. */
  lemma {:induction false} StartupRunIsQuery(f: Fields, p: Problem, run: Run, last: nat)
    requires Declared(f, p)
    ensures FollowsStartup(f, p, run, last) <==> FollowsQuery(f, p, run, last)
  {
    hide StartupAt, QueryAt, Declared, EnvOf;
    forall t: nat
      ensures StartupAt(f, p, t, run.inp(t), run.st(t)) <==> QueryAt(p, t, EnvAt(f, run, t))
    {
      StartupIsQuery(f, p, t, run.inp(t), run.st(t));
    }
  }

  /** The prelude has no bad line of its own. */
  ghost predicate NoBadLine(f: Fields) {
    forall i :: 0 <= i < |f.lines| ==> !f.lines[i].Bad?
  }

  lemma {:induction false} NoBadLineNoBad(f: Fields, inp: Vals, st: Vals)
    requires NoBadLine(f)
    ensures !Bads(f.lines, inp, st)
  {
  }

  /** In every exported run: which frames are bad, and what the query says about the run. */
  lemma {:induction false} ExportedRunIsQuery(f: Fields, g: Fields, p: Problem, bits: seq<nat>, first: nat, run: Run,
      k: nat)
    requires Adds(f, g, StartSys(f, p, bits, first)) && Monitor(f, p, bits, first) && Declared(f, p) && NoBadLine(f)
    requires IsRun(g.lines, run, k)
    ensures IsRun(f.lines, run, k) && FollowsQuery(f, p, run, k)
    ensures forall t: nat :: t <= k ==>
      (BadAtFrame(g.lines, run, t) <==> Checked(p, t) && Eval(p.bad, EnvAt(f, run, t)))
  {
    hide Adds, Monitor, Declared, NoBadLine, StartSys, Inits, Nexts, Constraints, Bads, Checked, FollowsQuery;
    hide FirstBadFrame, StartupAt;
    ExportedRunIsStartupRun(f, g, p, bits, first, run, k);
    StartupRunIsQuery(f, p, run, k);
    forall t: nat | t <= k
      ensures BadAtFrame(g.lines, run, t) <==> Checked(p, t) && Eval(p.bad, EnvAt(f, run, t))
    {
      ShorterRun(g.lines, run, k, t);
      ExportedRunIsStartupRun(f, g, p, bits, first, run, t);
      SameBadFrame(p, t);
      NoBadLineNoBad(f, run.inp(t), run.st(t));
    }
  }

  lemma {:induction false} ShorterRun(lines: seq<Line>, run: Run, k: nat, t: nat)
    requires IsRun(lines, run, k) && t <= k
    ensures IsRun(lines, run, t)
  {
    hide Inits, StepAt, HoldsAt;
  }

  /** The exported model has a run of k frames after the prefix that is bad at frame t, the given one if any. */
  ghost predicate ModelRefutes(lines: seq<Line>, p: Problem, k: nat, exact: Option<nat>, run: Run, t: nat) {
    && IsRun(lines, run, k + PrefixOf(p)) && BadAtFrame(lines, run, t) && t <= k + PrefixOf(p)
    && (exact.Some? ==> t == exact.value + PrefixOf(p))
  }

  /** The exported model and the base-case query refute the same frames. */
  lemma {:induction false} ExportIsBaseCase(f: Fields, g: Fields, p: Problem, bits: seq<nat>, first: nat, k: nat,
      exact: Option<nat>)
    requires Consistent(f) && Adds(f, g, StartSys(f, p, bits, first)) && Monitor(f, p, bits, first)
    requires Declared(f, p) && NoBadLine(f)
    ensures FindsBase(f, p, k, exact)
       <==> exists run: Run, t: nat :: ModelRefutes(g.lines, p, k, exact, run, t)
  {
    hide Consistent, Adds, Monitor, Declared, NoBadLine, StartSys, IsRun, FollowsQuery, FollowsStartup, BadAtFrame;
    hide Checked, PrefixOf, FirstBadFrame;
    var last := k + PrefixOf(p);
    if FindsBase(f, p, k, exact) {
      var run: Run, t: nat :| Refutes(f, p, run, k, t) && (exact.Some? ==> t == exact.value + PrefixOf(p));
      StartupRunIsQuery(f, p, run, last);
      var more := MonitoredRun(f, p, bits, first, run);
      StartupRunIsExported(f, g, p, bits, first, run, last);
      MonitoredBad(f, g, p, bits, first, run, last, t);
      assert ModelRefutes(g.lines, p, k, exact, more, t);
    }
    if exists run: Run, t: nat :: ModelRefutes(g.lines, p, k, exact, run, t) {
      var run: Run, t: nat :| ModelRefutes(g.lines, p, k, exact, run, t);
      ExportedRunIsQuery(f, g, p, bits, first, run, last);
      assert Refutes(f, p, run, k, t);
    }
  }

  lemma {:induction false} MonitoredBad(f: Fields, g: Fields, p: Problem, bits: seq<nat>, first: nat, run: Run,
      last: nat, t: nat)
    requires Consistent(f) && Adds(f, g, StartSys(f, p, bits, first)) && Monitor(f, p, bits, first)
    requires IsRun(f.lines, run, last) && FollowsStartup(f, p, run, last) && t <= last
    requires Checked(p, t) && Eval(p.bad, EnvAt(f, run, t))
    ensures BadAtFrame(g.lines, MonitoredRun(f, p, bits, first, run), t)
  {
    hide Consistent, Adds, Monitor, StartSys, StartupAt, BadAtFrame, FirstBadFrame, Checked, MonitoredRun;
    ShorterRun(f.lines, run, last, t);
    SameBadFrame(p, t);
    StartupRunIsExported(f, g, p, bits, first, run, t);
  }

  // ----- the reset prefix, field by field -----

  /** Reset ports are driven for `resetCycles` frames: the initial state is not fully known, or rails carry it. */
  ghost predicate HasPrefix(p: Problem) {
    && p.resetInputs != [] && p.resetCycles > 0
    && (p.dualRail || p.initializedStates == 0 || p.initializedStates != p.totalStates)
  }

  /** The states after the prefix are compared across the designs only through the property. */
  ghost predicate StatesUnnamed(p: Problem) {
    && !p.dualRail && p.stateCount > 0
    && |p.bootstrapAssignments| < (if p.totalStates > 0 then p.totalStates else p.stateCount)
  }

  /**
   With a reset prefix: the ports are active before frame `resetCycles` and inactive from it on, and a
   frame is bad exactly when it is a mismatch that does not lie in the prefix, nor at its end when the
   states there are unnamed; then the property held at the end of the prefix.
   */
  lemma {:induction false} BadAfterPrefix(f: Fields, g: Fields, p: Problem, bits: seq<nat>, first: nat, run: Run,
      k: nat)
    requires Adds(f, g, StartSys(f, p, bits, first)) && Monitor(f, p, bits, first) && Declared(f, p) && NoBadLine(f)
    requires IsRun(g.lines, run, k) && HasPrefix(p)
    ensures forall t: nat, a :: t <= k && a in p.resetInputs ==> EnvAt(f, run, t)(a.0) == (a.1 == (t < p.resetCycles))
    ensures BadAtFrame(g.lines, run, k)
       <==> Eval(p.bad, EnvAt(f, run, k)) && k >= p.resetCycles && (StatesUnnamed(p) ==> k > p.resetCycles)
    ensures k >= p.resetCycles && StatesUnnamed(p) ==> Eval(p.property, EnvAt(f, run, p.resetCycles))
    ensures k >= p.resetCycles && !p.dualRail ==> AllSet(p.bootstrapAssignments, EnvAt(f, run, p.resetCycles))
    ensures p.dualRail ==> AllSet(p.initialAssignments, EnvAt(f, run, 0))
  {
    ExportedRunIsQuery(f, g, p, bits, first, run, k);
    hide Adds, StartSys, Monitor, Declared, NoBadLine, IsRun, BadAtFrame, EnvAt;
    assert PrefixOf(p) == p.resetCycles;
    forall t: nat, a | t <= k && a in p.resetInputs
      ensures EnvAt(f, run, t)(a.0) == (a.1 == (t < p.resetCycles))
    {
      assert QueryAt(p, t, EnvAt(f, run, t));
    }
    assert QueryAt(p, 0, EnvAt(f, run, 0));
    if k >= p.resetCycles {
      assert QueryAt(p, p.resetCycles, EnvAt(f, run, p.resetCycles));
    }
  }

  /**
   Without a reset prefix: frame 0 has the initial values, or the initial condition; and a frame is bad
   exactly when it is a mismatch, except at frame 0 of a state that is not fully known, where the property
   is assumed.
   */
  lemma {:induction false} BadWithoutPrefix(f: Fields, g: Fields, p: Problem, bits: seq<nat>, first: nat, run: Run,
      k: nat)
    requires Adds(f, g, StartSys(f, p, bits, first)) && Monitor(f, p, bits, first) && Declared(f, p) && NoBadLine(f)
    requires IsRun(g.lines, run, k) && !HasPrefix(p)
    ensures var unknown := p.stateCount > 0 && (p.initializedStates == 0 || p.initializedStates != p.totalStates);
      && (BadAtFrame(g.lines, run, k) <==> Eval(p.bad, EnvAt(f, run, k)) && (unknown ==> k > 0))
      && (unknown ==> Eval(p.property, EnvAt(f, run, 0)))
    ensures p.stateCount > 0 && p.initializedStates > 0 && p.initialCondition.Some? ==>
      if p.initialAssignments != [] then AllSet(p.initialAssignments, EnvAt(f, run, 0))
      else Eval(p.initialCondition.value, EnvAt(f, run, 0))
  {
    ExportedRunIsQuery(f, g, p, bits, first, run, k);
    hide Adds, StartSys, Monitor, Declared, NoBadLine, IsRun, BadAtFrame, EnvAt;
    assert PrefixOf(p) == 0;
    assert QueryAt(p, 0, EnvAt(f, run, 0));
  }
}
