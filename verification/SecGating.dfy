/**
 The startup rules of the exported SEC obligation: initial values, the observation frontier,
 the reset prefix, the bootstrap frontier and the gated bad condition. The text written is
 proved to add exactly `StartSys`, and every run of the exported model is characterised.
 */
module SecGating {
  import opened Options
  import opened BoolExprs
  import opened Btor2
  import opened SecExport
  import opened SecStartup

  type Assignments = seq<(nat, bool)>

  datatype Problem = Problem(
    dualRail: bool,
    stateCount: nat,
    initializedStates: nat,
    totalStates: nat,
    resetCycles: nat,
    resetInputs: Assignments,
    initialAssignments: Assignments,
    bootstrapAssignments: Assignments,
    initialCondition: Option<Expr>,
    property: Expr,
    bad: Expr)

  predicate CompleteInitialState(p: Problem) {
    p.initializedStates != 0 && p.initializedStates == p.totalStates
  }

  function ResetFrames(p: Problem): nat {
    if (!CompleteInitialState(p) || p.dualRail) && p.resetInputs != [] then p.resetCycles else 0
  }

  predicate CompleteBootstrap(p: Problem) {
    var count := if p.totalStates != 0 then p.totalStates else p.stateCount;
    count != 0 && |p.bootstrapAssignments| >= count
  }

  predicate ResetObservation(p: Problem) {
    ResetFrames(p) != 0 && !p.dualRail && p.stateCount != 0 && p.resetInputs != [] && p.resetCycles != 0 &&
        !CompleteBootstrap(p)
  }

  predicate InitialObservation(p: Problem) {
    ResetFrames(p) == 0 && p.stateCount != 0 && !CompleteInitialState(p)
  }

  function FirstBadFrame(p: Problem): nat {
    if ResetFrames(p) != 0 then ResetFrames(p) + (if ResetObservation(p) then 1 else 0)
    else if InitialObservation(p) then 1 else 0
  }

  function LastFrame(p: Problem): nat {
    if ResetFrames(p) != 0 then (if FirstBadFrame(p) > ResetFrames(p) + 1 then FirstBadFrame(p) else ResetFrames(p) + 1)
    else FirstBadFrame(p)
  }

  predicate Initializes(p: Problem) {
    && (if ResetFrames(p) != 0 then p.dualRail else p.stateCount != 0 && p.initializedStates != 0)
    && (ResetFrames(p) != 0 || p.initialCondition.Some?)
  }

  /** The initial values are written as init lines. */
  predicate WritesInits(p: Problem) {
    Initializes(p) && p.initialAssignments != []
  }

  /** The initial condition is written as a constraint on the first frame. */
  predicate WritesCondition(p: Problem) {
    Initializes(p) && p.initialAssignments == [] && ResetFrames(p) == 0 && p.initialCondition != Some(TRUE)
  }

  // ----- signals of the problem -----

  ghost function EnvOf(f: Fields, inp: Vals, st: Vals): Env {
    (v: nat) => v in f.variables && LineVal(f.lines, f.variables[v], inp, st)
  }

  ghost function ExprFn(f: Fields, e: Expr): Signal {
    (inp: Vals, st: Vals) => Eval(e, EnvOf(f, inp, st))
  }

  predicate StateSymbol(f: Fields, s: nat) {
    s in f.variables && IsState(f.lines, f.variables[s])
  }

  predicate InputSymbol(f: Fields, s: nat) {
    s in f.variables && f.variables[s] < |f.lines| && f.lines[f.variables[s]].Input?
  }

  /** All listed states have their values. */
  ghost predicate Assigned(f: Fields, xs: Assignments, st: Vals) {
    forall a :: a in xs && a.0 in f.variables ==> st(f.variables[a.0]) == a.1
  }

  ghost predicate ResetDriven(f: Fields, xs: Assignments, inp: Vals, active: bool) {
    forall a :: a in xs && a.0 in f.variables ==> inp(f.variables[a.0]) == (a.1 == active)
  }

  /** The first frame: the counter is zero, or the marker state is still set. */
  ghost predicate IsFirst(bits: seq<nat>, first: nat, st: Vals) {
    if bits != [] then Counter(bits, st) == 0 else st(first)
  }

  ghost function FirstFn(bits: seq<nat>, first: nat): Signal { (inp: Vals, st: Vals) => IsFirst(bits, first, st) }

  ghost function ImpliesFn(a: Signal, b: Signal): Signal { (inp: Vals, st: Vals) => a(inp, st) ==> b(inp, st) }

  ghost function AssignedFn(f: Fields, xs: Assignments): Signal { (inp: Vals, st: Vals) => Assigned(f, xs, st) }

  ghost function AtFn(bits: seq<nat>, frame: nat): Signal { (inp: Vals, st: Vals) => Counter(bits, st) == frame }

  ghost function BeforeFn(bits: seq<nat>, frame: nat): Signal { (inp: Vals, st: Vals) => Counter(bits, st) < frame }

  ghost function ResetFn(f: Fields, xs: Assignments, bits: seq<nat>, frames: nat): Signal {
    (inp: Vals, st: Vals) => ResetDriven(f, xs, inp, Counter(bits, st) < frames)
  }

  ghost predicate Grown(f: Fields, g: Fields) {
    f.lines <= g.lines && g.variables == f.variables
  }

  lemma {:induction false} ExpressionDenotes(f: Fields, g: Fields, n: nat, e: Expr)
    requires Consistent(f) && Grown(f, g) && NodeMeans(g, n, e)
    ensures Denotes(g.lines, n, ExprFn(f, e))
  {
    forall inp: Vals, st: Vals
      ensures LineVal(g.lines, n, inp, st) == ExprFn(f, e)(inp, st)
    {
      var env := EnvOf(f, inp, st);
      forall v | v in g.variables
        ensures env(v) == LineVal(g.lines, g.variables[v], inp, st)
      {
        ValGrows(f.lines, g.lines, f.variables[v], inp, st);
      }
      assert Binds(g, inp, st, env);
    }
  }

  /** An expression of the problem, under the bindings of the prelude. */
  method ExpressionOf(w: Btor2Writer, e: Expr, ghost f: Fields) returns (r: Result)
    requires w.Valid() && Consistent(f) && Grown(f, w.All())
    modifies w
    ensures w.Valid() && Grown(f, w.All())
    ensures Adds(old(w.All()), w.All(), Nothing())
    ensures w.initialized == old(w.initialized)
    ensures r.Ok? ==> Denotes(w.lines, r.id, ExprFn(f, e))
    ensures r.Err? ==> r.error == Overflow || !Bound(e, f.variables)
    ensures r == Err(Overflow) ==> |w.lines| >= MAX_NODES
  {
    hide Consistent, NodeMeans, Denotes, AddsAt, ExprFn, Nothing, Bound;
    ghost var g := w.All();
    r := w.Expression(e);
    LogicAdds(g, w.All());
    if r.Ok? {
      ExpressionDenotes(f, w.All(), r.id, e);
    }
  }

  lemma {:induction false} AtMeans(bits: seq<nat>, frame: nat, lines: seq<Line>, n: nat)
    requires Shift(frame, |bits|) == 0 && Denotes(lines, n, MatchFn(bits, frame, |bits|))
    ensures Denotes(lines, n, AtFn(bits, frame))
  {
    forall inp: Vals, st: Vals
      ensures LineVal(lines, n, inp, st) == (Counter(bits, st) == frame)
    {
      MatchesMeansEqual(bits, st, frame, 0);
      assert bits[0..] == bits;
      assert MatchFn(bits, frame, |bits|)(inp, st) == Matches(bits, st, frame, |bits|);
    }
  }

  lemma {:induction false} BeforeMeans(bits: seq<nat>, frame: nat, lines: seq<Line>, n: nat)
    requires Denotes(lines, n, LessFn(bits, frame, 0))
    ensures Denotes(lines, n, BeforeFn(bits, frame))
  {
    forall inp: Vals, st: Vals
      ensures LineVal(lines, n, inp, st) == (Counter(bits, st) < frame)
    {
      assert bits[0..] == bits;
      assert LessFn(bits, frame, 0)(inp, st) == (Counter(bits, st) < frame);
    }
  }

  /** `at` and `before`, as comparisons of the counter for every frame the timeline can show. */
  method TimelineAt(w: Btor2Writer, bits: seq<nat>, frame: nat) returns (r: Result)
    requires w.Valid() && BitsOk(w.lines, bits) && Shift(frame, |bits|) == 0
    modifies w
    ensures w.Valid() && Logic(old(w.All()), w.All())
    ensures r.Err? ==> r.error == Overflow
    ensures r == Err(Overflow) ==> |w.lines| >= MAX_NODES
    ensures r.Ok? ==> Denotes(w.lines, r.id, AtFn(bits, frame))
  {
    hide Consistent, Denotes, Logic, AtFn, MatchFn;
    r := At(w, bits, frame);
    if r.Ok? {
      AtMeans(bits, frame, w.lines, r.id);
    }
  }

  method TimelineBefore(w: Btor2Writer, bits: seq<nat>, frame: nat) returns (r: Result)
    requires w.Valid() && BitsOk(w.lines, bits) && Shift(frame, |bits|) == 0
    modifies w
    ensures w.Valid() && Logic(old(w.All()), w.All())
    ensures r.Err? ==> r.error == Overflow
    ensures r == Err(Overflow) ==> |w.lines| >= MAX_NODES
    ensures r.Ok? ==> Denotes(w.lines, r.id, BeforeFn(bits, frame))
  {
    hide Consistent, Denotes, Logic, BeforeFn, LessFn;
    r := Before(w, bits, frame);
    if r.Ok? {
      BeforeMeans(bits, frame, w.lines, r.id);
    }
  }

  /** `constrainWhen`. */
  method ConstrainWhen(w: Btor2Writer, when: nat, cond: nat, ghost a: Signal, ghost b: Signal) returns (r: Result)
    requires w.Valid() && Denotes(w.lines, when, a) && Denotes(w.lines, cond, b)
    modifies w
    ensures w.Valid()
    ensures r.Err? ==> r.error == Overflow
    ensures r == Err(Overflow) ==> |w.lines| >= MAX_NODES
    ensures r.Ok? ==> Adds(old(w.All()), w.All(), ConsSys(ImpliesFn(a, b)))
  {
    hide Consistent, Denotes, AddsAt, Adds, Logic, ConsSys, Nothing;
    ghost var f := w.All();
    var off := NotOf(w, when, a);
    if off.Err? {
      return off;
    }
    ghost var g := w.All();
    LogicKeepsDenotes(f, g, cond, b);
    var either := BinaryOf(w, ConnOr, off.id, cond, NotFn(a), b);
    if either.Err? {
      return either;
    }
    LogicTransitive(f, g, w.All());
    g := w.All();
    LogicOnlyValues(f, g);
    ImpliesMeans(a, b, w.lines, either.id);
    r := ConstrainTo(w, either.id, ImpliesFn(a, b));
    if r.Ok? {
      NothingThen(f, g, w.All(), ConsSys(ImpliesFn(a, b)));
    }
  }

  lemma {:induction false} ImpliesMeans(a: Signal, b: Signal, lines: seq<Line>, n: nat)
    requires Denotes(lines, n, ConnFn(ConnOr, NotFn(a), b))
    ensures Denotes(lines, n, ImpliesFn(a, b))
  {
    forall inp: Vals, st: Vals
      ensures LineVal(lines, n, inp, st) == ImpliesFn(a, b)(inp, st)
    {
      assert LineVal(lines, n, inp, st) == ConnFn(ConnOr, NotFn(a), b)(inp, st);
      assert NotFn(a)(inp, st) == !a(inp, st);
    }
  }

  ghost function MarkerSys(first: nat): Sys {
    Sys((inp: Vals, st: Vals) => first != 0 ==> st(first),
        (inp: Vals, st: Vals, st': Vals) => first != 0 ==> !st'(first),
        ConstFn(true), ConstFn(false))
  }

  lemma {:induction false} MarkerAssembled(f: Fields, g: Fields, k: Fields, first: nat)
    requires first != 0
    requires Adds(f, g, InitSys(BitFn(first, true))) && Adds(g, k, NextSys(StepFn(first, ConstFn(false))))
    ensures Adds(f, k, MarkerSys(first))
  {
    hide AddsAt;
    var s, t, u := InitSys(BitFn(first, true)), NextSys(StepFn(first, ConstFn(false))), MarkerSys(first);
    AddsThen(f, g, k, s, t);
    forall inp: Vals, st: Vals, st': Vals
      ensures SysEqualAt(Both(s, t), u, inp, st, st')
    {
      assert ConstFn(false)(inp, st) == false;
      assert BitFn(first, true)(inp, st) == st(first);
      assert StepFn(first, ConstFn(false))(inp, st, st') == (st'(first) == false);
    }
    AddsSame(f, k, Both(s, t), u);
  }

  lemma {:induction false} MarkerUnused(f: Fields, g: Fields)
    requires Adds(f, g, Nothing())
    ensures Adds(f, g, MarkerSys(0))
  {
    hide AddsAt;
    forall inp: Vals, st: Vals, st': Vals
      ensures SysEqualAt(Nothing(), MarkerSys(0), inp, st, st')
    {
    }
    AddsSame(f, g, Nothing(), MarkerSys(0));
  }

  lemma {:induction false} FirstByCounter(bits: seq<nat>, lines: seq<Line>, n: nat)
    requires bits != [] && Denotes(lines, n, AtFn(bits, 0))
    ensures Denotes(lines, n, FirstFn(bits, 0))
  {
  }

  lemma {:induction false} FirstByMarker(lines: seq<Line>, first: nat)
    requires IsState(lines, first)
    ensures Denotes(lines, first, FirstFn([], first))
  {
  }

  lemma {:induction false} ShiftOfZero(n: nat)
    ensures Shift(0, n) == 0
  {
    if n > 0 {
      ShiftOfZero(n - 1);
    }
  }

  /** `firstFrame` for a fresh timeline: a marker state is made only when there are no counter bits. */
  method FirstFrame(w: Btor2Writer, bits: seq<nat>) returns (r: Result, first: nat)
    requires w.Valid() && BitsOk(w.lines, bits) && w.constants.0 != 0 && w.constants.1 != 0
    modifies w
    ensures w.Valid()
    ensures r.Err? ==> r.error == Overflow
    ensures r == Err(Overflow) ==> |w.lines| >= MAX_NODES
    ensures bits != [] ==> first == 0
    ensures r.Ok? ==> (bits == [] ==> first >= |old(w.lines)| > 0)
    ensures r.Ok? ==> Adds(old(w.All()), w.All(), MarkerSys(first))
    ensures r.Ok? ==> Denotes(w.lines, r.id, FirstFn(bits, first))
  {
    hide Consistent, Denotes, AddsAt, Logic, MarkerSys, Nothing, AtFn, FirstFn, InitSys, NextSys, BitFn;
    hide StepFn, ConstFn;
    ghost var f := w.All();
    first := 0;
    if bits != [] {
      ShiftOfZero(|bits|);
      r := TimelineAt(w, bits, 0);
      LogicOnlyValues(f, w.All());
      MarkerUnused(f, w.All());
      if r.Ok? {
        FirstByCounter(bits, w.lines, r.id);
      }
      return;
    }
    r := NewInitialized(w, "kf_export_initial_frame", true);
    if r.Err? {
      return;
    }
    first := r.id;
    ghost var g := w.All();
    ConstantsKept(f, g);
    ConstantDenotes(g, false);
    TextIsNonempty(f);
    var next := NextOf(w, first, w.constants.0, ConstFn(false));
    if next.Err? {
      return next, first;
    }
    MarkerAssembled(f, g, w.All(), first);
    StateKept(g, w.All(), first);
    FirstByMarker(w.lines, first);
  }

  lemma {:induction false} ConstantsKept(f: Fields, g: Fields)
    requires f.constants.0 != 0 && exists s :: Adds(f, g, s)
    ensures g.constants.0 == f.constants.0
  {
  }

  lemma {:induction false} TextIsNonempty(f: Fields)
    requires Consistent(f)
    ensures |f.lines| >= 2
  {
  }

  lemma {:induction false} StateKept(f: Fields, g: Fields, n: nat)
    requires f.lines <= g.lines && IsState(f.lines, n)
    ensures IsState(g.lines, n)
  {
    assert g.lines[n] == f.lines[n];
  }

  // ----- the stages of the export -----

  ghost predicate NoConflict(xs: Assignments) {
    forall a, b :: a in xs && b in xs && a.0 == b.0 ==> a.1 == b.1
  }

  /** Every listed value can be written as an init line. */
  ghost predicate InitsPossible(f: Fields, xs: Assignments) {
    && NoConflict(xs)
    && (forall a :: a in xs ==> StateSymbol(f, a.0) && f.variables[a.0] !in f.initialized
                                && f.constants.0 < f.variables[a.0] && f.constants.1 < f.variables[a.0])
    && (forall a, b :: a in xs && b in xs && a.0 in f.variables && b.0 in f.variables && a.0 != b.0 ==>
          f.variables[a.0] != f.variables[b.0])
  }

  method FindConflict(xs: Assignments) returns (conflict: bool)
    ensures conflict <==> !NoConflict(xs)
  {
    var values: map<nat, bool> := map[];
    for i := 0 to |xs|
      invariant forall a :: a in xs[..i] ==> a.0 in values && values[a.0] == a.1
      invariant forall s :: s in values ==> (s, values[s]) in xs[..i]
    {
      assert xs[..i + 1] == xs[..i] + [xs[i]];
      if xs[i].0 in values {
        if values[xs[i].0] != xs[i].1 {
          assert (xs[i].0, values[xs[i].0]) in xs && xs[i] in xs;
          return true;
        }
      } else {
        values := values[xs[i].0 := xs[i].1];
      }
    }
    assert xs[..|xs|] == xs;
    conflict := false;
  }

  lemma {:induction false} AssignedStep(g: Fields, k: Fields, m: Fields, f: Fields, xs: Assignments, a: (nat, bool))
    requires a.0 in f.variables
    requires Adds(g, k, InitSys(AssignedFn(f, xs)))
    requires Adds(k, m, InitSys(AssignFn(f.variables[a.0], ConstFn(a.1))))
    ensures Adds(g, m, InitSys(AssignedFn(f, xs + [a])))
  {
    hide AddsAt;
    var s, t, u := InitSys(AssignedFn(f, xs)), InitSys(AssignFn(f.variables[a.0], ConstFn(a.1))),
        InitSys(AssignedFn(f, xs + [a]));
    AddsThen(g, k, m, s, t);
    forall inp: Vals, st: Vals, st': Vals
      ensures SysEqualAt(Both(s, t), u, inp, st, st')
    {
      assert ConstFn(a.1)(inp, st) == a.1;
      assert t.init(inp, st) == (st(f.variables[a.0]) == a.1);
      assert s.init(inp, st) == Assigned(f, xs, st) && u.init(inp, st) == Assigned(f, xs + [a], st);
      assert forall x :: x in xs + [a] <==> x in xs || x == a;
    }
    AddsSame(g, m, Both(s, t), u);
  }

  lemma {:induction false} AssignedAgain(g: Fields, k: Fields, f: Fields, xs: Assignments, a: (nat, bool))
    requires Adds(g, k, InitSys(AssignedFn(f, xs))) && a in xs
    ensures Adds(g, k, InitSys(AssignedFn(f, xs + [a])))
  {
    hide AddsAt;
    var s, u := InitSys(AssignedFn(f, xs)), InitSys(AssignedFn(f, xs + [a]));
    forall inp: Vals, st: Vals, st': Vals
      ensures SysEqualAt(s, u, inp, st, st')
    {
      assert s.init(inp, st) == Assigned(f, xs, st) && u.init(inp, st) == Assigned(f, xs + [a], st);
      assert forall x :: x in xs + [a] <==> x in xs || x == a;
    }
    AddsSame(g, k, s, u);
  }

  lemma {:induction false} AssignedNone(f: Fields, g: Fields)
    ensures Adds(g, g, InitSys(AssignedFn(f, [])))
  {
    forall inp: Vals, st: Vals, st': Vals
      ensures AddsAt(g, g, InitSys(AssignedFn(f, [])), inp, st, st')
    {
      assert AssignedFn(f, [])(inp, st) == Assigned(f, [], st);
    }
  }

  /** The init lines written so far, by node. */
  ghost predicate InitsWritten(f: Fields, g: Fields, k: Fields, xs: Assignments) {
    forall n :: n in k.initialized ==>
      n in g.initialized || exists a :: a in xs && a.0 in f.variables && f.variables[a.0] == n
  }

  lemma {:induction false} InitIsPossible(f: Fields, g: Fields, k: Fields, xs: Assignments, i: nat)
    requires i < |xs| && InitsPossible(f, xs) && Grown(f, k) && OnlyFreshInits(f, g)
    requires InitsWritten(f, g, k, xs[..i]) && Consistent(k)
    requires forall a :: a in xs[..i] ==> a.0 != xs[i].0
    requires k.constants == f.constants && f.constants.0 != 0 && f.constants.1 != 0
    ensures InitAllowed(k, f.variables[xs[i].0], if xs[i].1 then f.constants.1 else f.constants.0)
  {
    var n := f.variables[xs[i].0];
    var c := if xs[i].1 then f.constants.1 else f.constants.0;
    assert xs[i] in xs;
    assert k.lines[n] == f.lines[n];
    ConstantDenotes(k, xs[i].1);
    assert !HasInput(k.lines, c);
    forall a | a in xs[..i] && a.0 in f.variables
      ensures f.variables[a.0] != n
    {
      assert a in xs && a.0 != xs[i].0;
    }
  }

  /** The initial values, one init line per state. */
  method WriteInits(w: Btor2Writer, xs: Assignments, ghost f: Fields) returns (r: Result)
    requires w.Valid() && Consistent(f) && Grown(f, w.All()) && OnlyFreshInits(f, w.All())
    requires w.constants == f.constants && f.constants.0 != 0 && f.constants.1 != 0
    modifies w
    ensures w.Valid()
    ensures r.Ok? ==> Adds(old(w.All()), w.All(), InitSys(AssignedFn(f, xs)))
    ensures r.Ok? ==> NoConflict(xs) && forall a :: a in xs ==> StateSymbol(f, a.0)
    ensures r.Err? ==> r.error == Overflow || !InitsPossible(f, xs)
    ensures r == Err(Overflow) ==> |w.lines| >= MAX_NODES
  {
    hide Consistent, Denotes, AddsAt, InitSys, AssignedFn, AssignFn, ConstFn, NoConflict, InitsPossible, InitAllowed;
    ghost var g := w.All();
    var conflict := FindConflict(xs);
    if conflict {
      ConflictIsImpossible(f, xs);
      return Err(DuplicateAssignment);
    }
    AssignedNone(f, g);
    r := Ok(0);
    var seen: set<nat> := {};
    for i := 0 to |xs|
      invariant w.Valid() && Grown(f, w.All()) && w.constants == f.constants && r.Ok?
      invariant Adds(g, w.All(), InitSys(AssignedFn(f, xs[..i])))
      invariant forall a :: a in xs[..i] ==> StateSymbol(f, a.0)
      invariant seen == set a | a in xs[..i] :: a.0
      invariant InitsWritten(f, g, w.All(), xs[..i])
    {
      assert xs[..i + 1] == xs[..i] + [xs[i]];
      if xs[i].0 in seen {
        RepeatedAssignment(xs, i);
        AssignedAgain(g, w.All(), f, xs[..i], xs[i]);
      } else {
        r := WriteInit(w, xs, i, f, g);
        if r.Err? {
          return;
        }
        seen := seen + {xs[i].0};
      }
    }
    assert xs[..|xs|] == xs;
  }

  lemma {:induction false} ConflictIsImpossible(f: Fields, xs: Assignments)
    requires !NoConflict(xs)
    ensures !InitsPossible(f, xs)
  {
  }

  lemma {:induction false} RepeatedAssignment(xs: Assignments, i: nat)
    requires i < |xs| && NoConflict(xs) && xs[i].0 in (set a | a in xs[..i] :: a.0)
    ensures xs[i] in xs[..i]
  {
    var a :| a in xs[..i] && a.0 == xs[i].0;
    assert a in xs && xs[i] in xs;
    assert a == (a.0, a.1) && xs[i] == (xs[i].0, xs[i].1);
  }

  method WriteInit(w: Btor2Writer, xs: Assignments, i: nat, ghost f: Fields, ghost g: Fields) returns (r: Result)
    requires w.Valid() && i < |xs| && Consistent(f) && Grown(f, w.All()) && OnlyFreshInits(f, g)
    requires w.constants == f.constants && f.constants.0 != 0 && f.constants.1 != 0
    requires forall a :: a in xs[..i] ==> a.0 != xs[i].0
    requires InitsWritten(f, g, w.All(), xs[..i])
    requires Adds(g, w.All(), InitSys(AssignedFn(f, xs[..i])))
    modifies w
    ensures w.Valid() && Grown(f, w.All()) && w.constants == f.constants
    ensures r.Ok? ==> StateSymbol(f, xs[i].0)
    ensures r.Ok? ==> InitsWritten(f, g, w.All(), xs[..i] + [xs[i]])
    ensures r.Ok? ==> Adds(g, w.All(), InitSys(AssignedFn(f, xs[..i] + [xs[i]])))
    ensures r.Err? ==> r.error == Overflow || !InitsPossible(f, xs)
    ensures r == Err(Overflow) ==> |w.lines| >= MAX_NODES
  {
    hide Consistent, Denotes, AddsAt, InitSys, AssignedFn, AssignFn, ConstFn, InitAllowed, InitsPossible, StateSymbol;
    var symbol, value := xs[i].0, xs[i].1;
    StateSymbolKept(f, w.All(), symbol);
    if symbol !in w.variables || w.variables[symbol] >= |w.lines| || !w.lines[w.variables[symbol]].State? {
      UndeclaredIsImpossible(f, xs, i);
      return Err(InvalidNode);
    }
    ghost var k := w.All();
    var c := w.NewConst(value);
    assert c.Ok? && w.All() == k;
    ConstantDenotes(k, value);
    r := InitOf(w, w.variables[symbol], c.id, ConstFn(value));
    if r.Err? {
      if r.error != Overflow && InitsPossible(f, xs) {
        InitIsPossible(f, g, k, xs, i);
      }
      return;
    }
    AssignedStep(g, k, w.All(), f, xs[..i], xs[i]);
    forall n | n in w.initialized
      ensures n in g.initialized || exists a :: a in xs[..i] + [xs[i]] && a.0 in f.variables && f.variables[a.0] == n
    {
      if n in k.initialized && n !in g.initialized {
        var a :| a in xs[..i] && a.0 in f.variables && f.variables[a.0] == n;
        assert a in xs[..i] + [xs[i]];
      } else if n !in k.initialized {
        assert xs[i] in xs[..i] + [xs[i]];
      }
    }
  }

  lemma {:induction false} StateSymbolKept(f: Fields, g: Fields, s: nat)
    requires Grown(f, g) && Consistent(f)
    ensures StateSymbol(f, s) <==> s in g.variables && g.variables[s] < |g.lines| && g.lines[g.variables[s]].State?
    ensures InputSymbol(f, s) <==> s in g.variables && g.variables[s] < |g.lines| && g.lines[g.variables[s]].Input?
  {
    if s in f.variables {
      assert g.lines[f.variables[s]] == f.lines[f.variables[s]];
    }
  }

  lemma {:induction false} UndeclaredIsImpossible(f: Fields, xs: Assignments, i: nat)
    requires i < |xs| && !StateSymbol(f, xs[i].0)
    ensures !InitsPossible(f, xs)
  {
    assert xs[i] in xs;
  }

  ghost function InitialSys(f: Fields, p: Problem, bits: seq<nat>, first: nat): Sys {
    Sys((inp: Vals, st: Vals) =>
        (first != 0 ==> st(first)) && (WritesInits(p) ==> Assigned(f, p.initialAssignments, st)),
        (inp: Vals, st: Vals, st': Vals) => first != 0 ==> !st'(first),
        (inp: Vals, st: Vals) => WritesCondition(p) && IsFirst(bits, first, st) ==>
            Eval(p.initialCondition.value, EnvOf(f, inp, st)),
        ConstFn(false))
  }

  lemma {:induction false} InitialByInits(g: Fields, k: Fields, f: Fields, p: Problem, bits: seq<nat>)
    requires WritesInits(p) && Adds(g, k, InitSys(AssignedFn(f, p.initialAssignments)))
    ensures Adds(g, k, InitialSys(f, p, bits, 0))
  {
    hide AddsAt;
    var s, u := InitSys(AssignedFn(f, p.initialAssignments)), InitialSys(f, p, bits, 0);
    forall inp: Vals, st: Vals, st': Vals
      ensures SysEqualAt(s, u, inp, st, st')
    {
      assert s.init(inp, st) == Assigned(f, p.initialAssignments, st);
    }
    AddsSame(g, k, s, u);
  }

  lemma {:induction false} InitialByCondition(g: Fields, k: Fields, m: Fields, f: Fields, p: Problem, bits: seq<nat>,
      first: nat)
    requires WritesCondition(p) && Adds(g, k, MarkerSys(first))
    requires Adds(k, m, ConsSys(ImpliesFn(FirstFn(bits, first), ExprFn(f, p.initialCondition.value))))
    ensures Adds(g, m, InitialSys(f, p, bits, first))
  {
    hide AddsAt;
    var s, t := MarkerSys(first), ConsSys(ImpliesFn(FirstFn(bits, first), ExprFn(f, p.initialCondition.value)));
    var u := InitialSys(f, p, bits, first);
    AddsThen(g, k, m, s, t);
    forall inp: Vals, st: Vals, st': Vals
      ensures SysEqualAt(Both(s, t), u, inp, st, st')
    {
      assert FirstFn(bits, first)(inp, st) == IsFirst(bits, first, st);
      assert ExprFn(f, p.initialCondition.value)(inp, st) == Eval(p.initialCondition.value, EnvOf(f, inp, st));
      assert t.cons(inp, st) == (IsFirst(bits, first, st) ==> Eval(p.initialCondition.value, EnvOf(f, inp, st)));
      assert s.init(inp, st) == (first != 0 ==> st(first)) && t.init(inp, st);
      assert s.next(inp, st, st') == (first != 0 ==> !st'(first)) && t.next(inp, st, st');
      assert s.cons(inp, st) && !s.bad(inp, st) && !t.bad(inp, st) && !u.bad(inp, st);
    }
    AddsSame(g, m, Both(s, t), u);
  }

  lemma {:induction false} InitialByNothing(g: Fields, f: Fields, p: Problem, bits: seq<nat>)
    requires !WritesInits(p) && !WritesCondition(p)
    ensures Adds(g, g, InitialSys(f, p, bits, 0))
  {
    forall inp: Vals, st: Vals, st': Vals
      ensures AddsAt(g, g, InitialSys(f, p, bits, 0), inp, st, st')
    {
    }
  }

  /** The problem can be written over the prelude. */
  ghost predicate Exportable(f: Fields, p: Problem) {
    && Bound(p.property, f.variables) && Bound(p.bad, f.variables)
    && (p.initialCondition.Some? ==> Bound(p.initialCondition.value, f.variables))
    && (WritesInits(p) ==> InitsPossible(f, p.initialAssignments))
    && (forall a :: a in p.resetInputs ==> InputSymbol(f, a.0))
    && (forall a :: a in p.bootstrapAssignments ==> StateSymbol(f, a.0))
    && ResetFrames(p) != 0xFFFF_FFFF_FFFF_FFFF
  }

  method StageInitial(w: Btor2Writer, p: Problem, bits: seq<nat>, ghost f: Fields) returns (r: Result, first: nat)
    requires w.Valid() && Consistent(f) && Grown(f, w.All()) && OnlyFreshInits(f, w.All()) && BitsOk(w.lines, bits)
    requires w.constants == f.constants && f.constants.0 != 0 && f.constants.1 != 0
    modifies w
    ensures w.Valid()
    ensures r.Ok? ==> Adds(old(w.All()), w.All(), InitialSys(f, p, bits, first))
    ensures r.Ok? ==> (first != 0 <==> bits == [] && WritesCondition(p)) && (first != 0 ==> first >= |f.lines|)
    ensures r.Ok? && WritesInits(p) ==> forall a :: a in p.initialAssignments ==> StateSymbol(f, a.0)
    ensures r.Err? ==> r.error == Overflow || !Exportable(f, p)
    ensures r == Err(Overflow) ==> |w.lines| >= MAX_NODES
  {
    hide Consistent, Denotes, AddsAt, InitSys, AssignedFn, InitialSys, MarkerSys, ConsSys, ImpliesFn;
    hide FirstFn, ExprFn, InitsPossible, Nothing, NoConflict, Bound;
    ghost var g := w.All();
    first, r := 0, Ok(0);
    if Initializes(p) && p.initialAssignments != [] {
      r := WriteInits(w, p.initialAssignments, f);
      if r.Ok? {
        InitialByInits(g, w.All(), f, p, bits);
      }
    } else if Initializes(p) && ResetFrames(p) == 0 && p.initialCondition != Some(TRUE) {
      r, first := FirstFrame(w, bits);
      if r.Err? {
        return;
      }
      ghost var k := w.All();
      GrownTransitive(f, g, k, MarkerSys(first));
      var cond := ExpressionOf(w, p.initialCondition.value, f);
      if cond.Err? {
        return cond, first;
      }
      DenotesStay(k, w.All(), r.id, FirstFn(bits, first));
      ThenNothing(g, k, w.All(), MarkerSys(first));
      k := w.All();
      r := ConstrainWhen(w, r.id, cond.id, FirstFn(bits, first), ExprFn(f, p.initialCondition.value));
      if r.Ok? {
        InitialByCondition(g, k, w.All(), f, p, bits, first);
      }
    } else {
      InitialByNothing(g, f, p, bits);
    }
  }

  lemma {:induction false} GrownTransitive(f: Fields, g: Fields, k: Fields, s: Sys)
    requires Grown(f, g) && Adds(g, k, s)
    ensures Grown(f, k)
  {
  }

  ghost function ObservationFn(f: Fields, p: Problem, bits: seq<nat>): Signal {
    (inp: Vals, st: Vals) => InitialObservation(p) && Counter(bits, st) == 0 ==> Eval(p.property, EnvOf(f, inp, st))
  }

  lemma {:induction false} ObservationWritten(g: Fields, k: Fields, f: Fields, p: Problem, bits: seq<nat>)
    requires bits != [] && InitialObservation(p)
    requires Adds(g, k, ConsSys(ImpliesFn(AtFn(bits, 0), ExprFn(f, p.property))))
    ensures Adds(g, k, ConsSys(ObservationFn(f, p, bits)))
  {
    hide AddsAt;
    var s, u := ConsSys(ImpliesFn(AtFn(bits, 0), ExprFn(f, p.property))), ConsSys(ObservationFn(f, p, bits));
    forall inp: Vals, st: Vals, st': Vals
      ensures SysEqualAt(s, u, inp, st, st')
    {
      assert AtFn(bits, 0)(inp, st) == (Counter(bits, st) == 0);
      assert ExprFn(f, p.property)(inp, st) == Eval(p.property, EnvOf(f, inp, st));
    }
    AddsSame(g, k, s, u);
  }

  lemma {:induction false} ObservationSkipped(g: Fields, f: Fields, p: Problem, bits: seq<nat>)
    requires !InitialObservation(p)
    ensures Adds(g, g, ConsSys(ObservationFn(f, p, bits)))
  {
    forall inp: Vals, st: Vals, st': Vals
      ensures AddsAt(g, g, ConsSys(ObservationFn(f, p, bits)), inp, st, st')
    {
    }
  }

  /** The property holds on the first frame when the initial state is not fully known. */
  method StageObservation(w: Btor2Writer, p: Problem, bits: seq<nat>, property: nat, ghost f: Fields)
      returns (r: Result)
    requires w.Valid() && BitsOk(w.lines, bits) && Denotes(w.lines, property, ExprFn(f, p.property))
    requires InitialObservation(p) ==> bits != []
    modifies w
    ensures w.Valid()
    ensures r.Ok? ==> Adds(old(w.All()), w.All(), ConsSys(ObservationFn(f, p, bits)))
    ensures r.Err? ==> r.error == Overflow
    ensures r == Err(Overflow) ==> |w.lines| >= MAX_NODES
  {
    hide Consistent, Denotes, AddsAt, ConsSys, ImpliesFn, AtFn, ExprFn, ObservationFn, Logic, Nothing;
    ghost var g := w.All();
    r := Ok(0);
    if InitialObservation(p) {
      ShiftOfZero(|bits|);
      var now := TimelineAt(w, bits, 0);
      if now.Err? {
        return now;
      }
      ghost var k := w.All();
      LogicOnlyValues(g, k);
      DenotesStay(g, k, property, ExprFn(f, p.property));
      r := ConstrainWhen(w, now.id, property, AtFn(bits, 0), ExprFn(f, p.property));
      if r.Ok? {
        NothingThen(g, k, w.All(), ConsSys(ImpliesFn(AtFn(bits, 0), ExprFn(f, p.property))));
        ObservationWritten(g, w.All(), f, p, bits);
      }
    } else {
      ObservationSkipped(g, f, p, bits);
    }
  }

  // ----- the reset prefix -----

  lemma {:induction false} ResetStep(g: Fields, k: Fields, m: Fields, f: Fields, xs: Assignments, a: (nat, bool),
      bits: seq<nat>, frames: nat, sig: Signal)
    requires a.0 in f.variables
    requires forall inp, st :: DrivesAt(f.variables[a.0], bits, frames, a.1, sig, inp, st)
    requires Adds(g, k, ConsSys(ResetFn(f, xs, bits, frames))) && Adds(k, m, ConsSys(sig))
    ensures Adds(g, m, ConsSys(ResetFn(f, xs + [a], bits, frames)))
  {
    hide AddsAt;
    var s, t, u := ConsSys(ResetFn(f, xs, bits, frames)), ConsSys(sig), ConsSys(ResetFn(f, xs + [a], bits, frames));
    AddsThen(g, k, m, s, t);
    forall inp: Vals, st: Vals, st': Vals
      ensures SysEqualAt(Both(s, t), u, inp, st, st')
    {
      var active := Counter(bits, st) < frames;
      assert s.cons(inp, st) == ResetDriven(f, xs, inp, active);
      assert u.cons(inp, st) == ResetDriven(f, xs + [a], inp, active);
      assert DrivesAt(f.variables[a.0], bits, frames, a.1, sig, inp, st);
      assert t.cons(inp, st) == (inp(f.variables[a.0]) == (a.1 == active));
      assert forall x :: x in xs + [a] <==> x in xs || x == a;
    }
    AddsSame(g, m, Both(s, t), u);
  }

  lemma {:induction false} ResetNone(g: Fields, f: Fields, bits: seq<nat>, frames: nat)
    ensures Adds(g, g, ConsSys(ResetFn(f, [], bits, frames)))
  {
    forall inp: Vals, st: Vals, st': Vals
      ensures AddsAt(g, g, ConsSys(ResetFn(f, [], bits, frames)), inp, st, st')
    {
      assert ResetFn(f, [], bits, frames)(inp, st) == ResetDriven(f, [], inp, Counter(bits, st) < frames);
    }
  }

  ghost function InputFn(n: nat): Signal { (inp: Vals, st: Vals) => inp(n) }

  lemma {:induction false} InputDenotes(lines: seq<Line>, n: nat)
    requires n < |lines| && lines[n].Input?
    ensures Denotes(lines, n, InputFn(n))
  {
  }

  ghost function LevelFn(active: Signal, asserted: bool): Signal { if asserted then active else NotFn(active) }

  ghost function DriveFn(n: nat, active: Signal, asserted: bool): Signal {
    ConnFn(ConnEq, InputFn(n), LevelFn(active, asserted))
  }

  ghost predicate DrivesAt(n: nat, bits: seq<nat>, frames: nat, asserted: bool, sig: Signal, inp: Vals, st: Vals) {
    sig(inp, st) == (inp(n) == (asserted == (Counter(bits, st) < frames)))
  }

  lemma {:induction false} DriveMeans(n: nat, bits: seq<nat>, frames: nat, asserted: bool)
    ensures forall inp, st :: DrivesAt(n, bits, frames, asserted, DriveFn(n, BeforeFn(bits, frames), asserted), inp, st)
  {
    forall inp: Vals, st: Vals
      ensures DrivesAt(n, bits, frames, asserted, DriveFn(n, BeforeFn(bits, frames), asserted), inp, st)
    {
      var a := BeforeFn(bits, frames);
      assert a(inp, st) == (Counter(bits, st) < frames) && NotFn(a)(inp, st) == !a(inp, st);
      var l := LevelFn(a, asserted);
      assert l(inp, st) == (asserted == (Counter(bits, st) < frames));
      assert InputFn(n)(inp, st) == inp(n);
      assert ConnFn(ConnEq, InputFn(n), l)(inp, st) == Connect(ConnEq, InputFn(n)(inp, st), l(inp, st));
    }
  }

  /** One reset port: equal to the active level exactly while the prefix lasts. */
  method DriveReset(w: Btor2Writer, n: nat, asserted: bool, active: nat, ghost sig: Signal) returns (r: Result)
    requires w.Valid() && n < |w.lines| && w.lines[n].Input? && Denotes(w.lines, active, sig)
    modifies w
    ensures w.Valid()
    ensures r.Ok? ==> Adds(old(w.All()), w.All(), ConsSys(DriveFn(n, sig, asserted)))
    ensures r.Err? ==> r.error == Overflow
    ensures r == Err(Overflow) ==> |w.lines| >= MAX_NODES
  {
    hide Consistent, Denotes, AddsAt, Adds, ConsSys, Logic, Nothing, InputFn, NotFn, ConnFn;
    ghost var f := w.All();
    InputDenotes(w.lines, n);
    var level := Ok(active);
    LogicReflexive(f);
    if !asserted {
      level := NotOf(w, active, sig);
      if level.Err? {
        return level;
      }
    }
    ghost var g := w.All();
    LogicKeepsDenotes(f, g, n, InputFn(n));
    var same := BinaryOf(w, ConnEq, n, level.id, InputFn(n), LevelFn(sig, asserted));
    if same.Err? {
      return same;
    }
    LogicTransitive(f, g, w.All());
    g := w.All();
    LogicOnlyValues(f, g);
    r := ConstrainTo(w, same.id, DriveFn(n, sig, asserted));
    if r.Ok? {
      NothingThen(f, g, w.All(), ConsSys(DriveFn(n, sig, asserted)));
    }
  }

  method StageReset(w: Btor2Writer, xs: Assignments, bits: seq<nat>, frames: nat, ghost f: Fields) returns (r: Result)
    requires w.Valid() && Consistent(f) && Grown(f, w.All()) && BitsOk(w.lines, bits) && Shift(frames, |bits|) == 0
    modifies w
    ensures w.Valid()
    ensures r.Ok? ==> Adds(old(w.All()), w.All(), ConsSys(ResetFn(f, xs, bits, frames)))
    ensures r.Ok? ==> forall a :: a in xs ==> InputSymbol(f, a.0)
    ensures r.Err? ==> r.error == Overflow || exists a :: a in xs && !InputSymbol(f, a.0)
    ensures r == Err(Overflow) ==> |w.lines| >= MAX_NODES
  {
    hide Consistent, Denotes, AddsAt, ConsSys, ResetFn, DriveFn, DrivesAt, BeforeFn, Logic, Nothing, InputSymbol;
    ghost var g := w.All();
    var active := TimelineBefore(w, bits, frames);
    if active.Err? {
      return active;
    }
    LogicOnlyValues(g, w.All());
    ghost var start := w.All();
    ResetNone(start, f, bits, frames);
    r := Ok(0);
    for i := 0 to |xs|
      invariant w.Valid() && Grown(f, w.All()) && r.Ok?
      invariant Adds(start, w.All(), ConsSys(ResetFn(f, xs[..i], bits, frames)))
      invariant Denotes(w.lines, active.id, BeforeFn(bits, frames))
      invariant forall a :: a in xs[..i] ==> InputSymbol(f, a.0)
    {
      var symbol := xs[i].0;
      StateSymbolKept(f, w.All(), symbol);
      if symbol !in w.variables || w.variables[symbol] >= |w.lines| || !w.lines[w.variables[symbol]].Input? {
        assert xs[i] in xs;
        return Err(InvalidNode);
      }
      ghost var k := w.All();
      r := DriveReset(w, w.variables[symbol], xs[i].1, active.id, BeforeFn(bits, frames));
      if r.Err? {
        return;
      }
      DriveMeans(f.variables[symbol], bits, frames, xs[i].1);
      ResetStep(start, k, w.All(), f, xs[..i], xs[i], bits, frames,
          DriveFn(f.variables[symbol], BeforeFn(bits, frames), xs[i].1));
      DenotesStay(k, w.All(), active.id, BeforeFn(bits, frames));
      assert xs[..i + 1] == xs[..i] + [xs[i]];
    }
    assert xs[..|xs|] == xs;
    NothingThen(g, start, w.All(), ConsSys(ResetFn(f, xs, bits, frames)));
  }

  // ----- the end of the reset prefix -----

  ghost function GatedFn(a: Signal, f: Fields, xs: Assignments): Signal {
    (inp: Vals, st: Vals) => a(inp, st) ==> Assigned(f, xs, st)
  }

  lemma {:induction false} GatedStep(g: Fields, k: Fields, m: Fields, a: Signal, f: Fields, xs: Assignments,
      x: (nat, bool))
    requires x.0 in f.variables
    requires Adds(g, k, ConsSys(GatedFn(a, f, xs))) && Adds(k, m, ConsSys(ImpliesFn(a, BitFn(f.variables[x.0], x.1))))
    ensures Adds(g, m, ConsSys(GatedFn(a, f, xs + [x])))
  {
    hide AddsAt;
    var s, t, u := ConsSys(GatedFn(a, f, xs)), ConsSys(ImpliesFn(a, BitFn(f.variables[x.0], x.1))),
        ConsSys(GatedFn(a, f, xs + [x]));
    AddsThen(g, k, m, s, t);
    forall inp: Vals, st: Vals, st': Vals
      ensures SysEqualAt(Both(s, t), u, inp, st, st')
    {
      assert BitFn(f.variables[x.0], x.1)(inp, st) == (st(f.variables[x.0]) == x.1);
      assert s.cons(inp, st) == (a(inp, st) ==> Assigned(f, xs, st));
      assert u.cons(inp, st) == (a(inp, st) ==> Assigned(f, xs + [x], st));
      assert t.cons(inp, st) == (a(inp, st) ==> st(f.variables[x.0]) == x.1);
      assert forall y :: y in xs + [x] <==> y in xs || y == x;
    }
    AddsSame(g, m, Both(s, t), u);
  }

  lemma {:induction false} GatedNone(g: Fields, a: Signal, f: Fields)
    ensures Adds(g, g, ConsSys(GatedFn(a, f, [])))
  {
    forall inp: Vals, st: Vals, st': Vals
      ensures AddsAt(g, g, ConsSys(GatedFn(a, f, [])), inp, st, st')
    {
      assert GatedFn(a, f, [])(inp, st) == (a(inp, st) ==> Assigned(f, [], st));
    }
  }

  /** One bootstrap value: the state has it whenever the frontier is shown. */
  method GateOne(w: Btor2Writer, n: nat, value: bool, frontier: nat, ghost a: Signal) returns (r: Result)
    requires w.Valid() && IsState(w.lines, n) && Denotes(w.lines, frontier, a)
    modifies w
    ensures w.Valid()
    ensures r.Ok? ==> Adds(old(w.All()), w.All(), ConsSys(ImpliesFn(a, BitFn(n, value))))
    ensures r.Err? ==> r.error == Overflow
    ensures r == Err(Overflow) ==> |w.lines| >= MAX_NODES
  {
    hide Consistent, Denotes, AddsAt, Adds, ConsSys, ImpliesFn, BitFn, Logic, Nothing;
    ghost var g := w.All();
    var cond := BitLiteral(w, n, value);
    if cond.Err? {
      return cond;
    }
    ghost var k := w.All();
    LogicOnlyValues(g, k);
    DenotesStay(g, k, frontier, a);
    r := ConstrainWhen(w, frontier, cond.id, a, BitFn(n, value));
    if r.Ok? {
      NothingThen(g, k, w.All(), ConsSys(ImpliesFn(a, BitFn(n, value))));
    }
  }

  method StageBootstrap(w: Btor2Writer, xs: Assignments, frontier: nat, ghost a: Signal, ghost f: Fields)
      returns (r: Result)
    requires w.Valid() && Consistent(f) && Grown(f, w.All()) && Denotes(w.lines, frontier, a)
    modifies w
    ensures w.Valid()
    ensures r.Ok? ==> Adds(old(w.All()), w.All(), ConsSys(GatedFn(a, f, xs)))
    ensures r.Ok? ==> forall x :: x in xs ==> StateSymbol(f, x.0)
    ensures r.Err? ==> r.error == Overflow || exists x :: x in xs && !StateSymbol(f, x.0)
    ensures r == Err(Overflow) ==> |w.lines| >= MAX_NODES
  {
    hide Consistent, Denotes, AddsAt, ConsSys, GatedFn, ImpliesFn, BitFn, StateSymbol;
    ghost var start := w.All();
    GatedNone(start, a, f);
    r := Ok(0);
    for i := 0 to |xs|
      invariant w.Valid() && Grown(f, w.All()) && r.Ok?
      invariant Adds(start, w.All(), ConsSys(GatedFn(a, f, xs[..i])))
      invariant Denotes(w.lines, frontier, a)
      invariant forall x :: x in xs[..i] ==> StateSymbol(f, x.0)
    {
      var symbol := xs[i].0;
      StateSymbolKept(f, w.All(), symbol);
      if symbol !in w.variables || w.variables[symbol] >= |w.lines| || !w.lines[w.variables[symbol]].State? {
        assert xs[i] in xs;
        return Err(InvalidNode);
      }
      ghost var k := w.All();
      r := GateOne(w, w.variables[symbol], xs[i].1, frontier, a);
      if r.Err? {
        return;
      }
      GatedStep(start, k, w.All(), a, f, xs[..i], xs[i]);
      DenotesStay(k, w.All(), frontier, a);
      assert xs[..i + 1] == xs[..i] + [xs[i]];
    }
    assert xs[..|xs|] == xs;
  }

  /** What holds when the reset prefix has just ended. */
  ghost predicate Frontier(f: Fields, p: Problem, inp: Vals, st: Vals) {
    && (ResetObservation(p) ==> Eval(p.property, EnvOf(f, inp, st)))
    && (!p.dualRail ==> Assigned(f, p.bootstrapAssignments, st))
  }

  ghost function FrontierFn(f: Fields, p: Problem, bits: seq<nat>): Signal {
    (inp: Vals, st: Vals) => Counter(bits, st) == ResetFrames(p) ==> Frontier(f, p, inp, st)
  }

  ghost function ObservedSys(p: Problem, a: Signal, b: Signal): Sys {
    if ResetObservation(p) then ConsSys(ImpliesFn(a, b)) else Nothing()
  }

  ghost function BootstrapSys(p: Problem, a: Signal, f: Fields): Sys {
    if !p.dualRail then ConsSys(GatedFn(a, f, p.bootstrapAssignments)) else Nothing()
  }

  lemma {:induction false} FrontierAssembled(g: Fields, k: Fields, m: Fields, f: Fields, p: Problem, bits: seq<nat>)
    requires Adds(g, k, ObservedSys(p, AtFn(bits, ResetFrames(p)), ExprFn(f, p.property)))
    requires Adds(k, m, BootstrapSys(p, AtFn(bits, ResetFrames(p)), f))
    ensures Adds(g, m, ConsSys(FrontierFn(f, p, bits)))
  {
    hide AddsAt;
    var a, b := AtFn(bits, ResetFrames(p)), ExprFn(f, p.property);
    var s, t, u := ObservedSys(p, a, b), BootstrapSys(p, a, f), ConsSys(FrontierFn(f, p, bits));
    AddsThen(g, k, m, s, t);
    forall inp: Vals, st: Vals, st': Vals
      ensures SysEqualAt(Both(s, t), u, inp, st, st')
    {
      var now := Counter(bits, st) == ResetFrames(p);
      assert a(inp, st) == now && b(inp, st) == Eval(p.property, EnvOf(f, inp, st));
      assert ImpliesFn(a, b)(inp, st) == (now ==> b(inp, st));
      assert GatedFn(a, f, p.bootstrapAssignments)(inp, st) == (now ==> Assigned(f, p.bootstrapAssignments, st));
      assert s.cons(inp, st) == (ResetObservation(p) && now ==> b(inp, st));
      assert t.cons(inp, st) == (!p.dualRail && now ==> Assigned(f, p.bootstrapAssignments, st));
      assert u.cons(inp, st) == (now ==> Frontier(f, p, inp, st));
    }
    AddsSame(g, m, Both(s, t), u);
  }

  /** The observed property and the bootstrap values, at the one frame after the reset prefix. */
  method StageFrontier(w: Btor2Writer, p: Problem, bits: seq<nat>, property: nat, ghost f: Fields) returns (r: Result)
    requires w.Valid() && Consistent(f) && Grown(f, w.All()) && BitsOk(w.lines, bits)
    requires Shift(ResetFrames(p), |bits|) == 0
    requires Denotes(w.lines, property, ExprFn(f, p.property))
    modifies w
    ensures w.Valid()
    ensures r.Ok? ==> Adds(old(w.All()), w.All(), ConsSys(FrontierFn(f, p, bits)))
    ensures r.Ok? && !p.dualRail ==> forall x :: x in p.bootstrapAssignments ==> StateSymbol(f, x.0)
    ensures r.Err? ==> r.error == Overflow || exists x :: x in p.bootstrapAssignments && !StateSymbol(f, x.0)
    ensures r == Err(Overflow) ==> |w.lines| >= MAX_NODES
  {
    hide Consistent, Denotes, AddsAt, ConsSys, AtFn, ExprFn, ImpliesFn, GatedFn, FrontierFn, Logic, Nothing;
    hide StateSymbol, EnvOf;
    ghost var g := w.All();
    var now := TimelineAt(w, bits, ResetFrames(p));
    if now.Err? {
      return now;
    }
    ghost var a, b := AtFn(bits, ResetFrames(p)), ExprFn(f, p.property);
    ghost var k := w.All();
    LogicOnlyValues(g, k);
    DenotesStay(g, k, property, b);
    NothingAdded(k);
    r := Ok(0);
    if ResetObservation(p) {
      r := ConstrainWhen(w, now.id, property, a, b);
      if r.Err? {
        return;
      }
    }
    ghost var m := w.All();
    NothingThen(g, k, m, ObservedSys(p, a, b));
    DenotesStay(k, m, now.id, a);
    NothingAdded(m);
    if !p.dualRail {
      r := StageBootstrap(w, p.bootstrapAssignments, now.id, a, f);
      if r.Err? {
        return;
      }
    }
    FrontierAssembled(g, m, w.All(), f, p, bits);
  }

  // ----- the bad condition -----

  ghost function GatedBadFn(f: Fields, p: Problem, bits: seq<nat>): Signal {
    (inp: Vals, st: Vals) => Counter(bits, st) >= FirstBadFrame(p) && Eval(p.bad, EnvOf(f, inp, st))
  }

  lemma {:induction false} GatedBadMeans(f: Fields, p: Problem, bits: seq<nat>, lines: seq<Line>, n: nat)
    requires Denotes(lines, n, ConnFn(ConnAnd, NotFn(BeforeFn(bits, FirstBadFrame(p))), ExprFn(f, p.bad)))
    ensures Denotes(lines, n, GatedBadFn(f, p, bits))
  {
    forall inp: Vals, st: Vals
      ensures LineVal(lines, n, inp, st) == GatedBadFn(f, p, bits)(inp, st)
    {
      var a, b := BeforeFn(bits, FirstBadFrame(p)), ExprFn(f, p.bad);
      assert LineVal(lines, n, inp, st) == ConnFn(ConnAnd, NotFn(a), b)(inp, st);
      assert NotFn(a)(inp, st) == !a(inp, st) && a(inp, st) == (Counter(bits, st) < FirstBadFrame(p));
      assert b(inp, st) == Eval(p.bad, EnvOf(f, inp, st));
    }
  }

  lemma {:induction false} UngatedBadMeans(f: Fields, p: Problem, bits: seq<nat>, lines: seq<Line>, n: nat)
    requires FirstBadFrame(p) == 0 && Denotes(lines, n, ExprFn(f, p.bad))
    ensures Denotes(lines, n, GatedBadFn(f, p, bits))
  {
    forall inp: Vals, st: Vals
      ensures LineVal(lines, n, inp, st) == GatedBadFn(f, p, bits)(inp, st)
    {
      assert ExprFn(f, p.bad)(inp, st) == Eval(p.bad, EnvOf(f, inp, st));
    }
  }

  method StageBad(w: Btor2Writer, p: Problem, bits: seq<nat>, ghost f: Fields) returns (r: Result)
    requires w.Valid() && Consistent(f) && Grown(f, w.All()) && BitsOk(w.lines, bits)
    requires Shift(FirstBadFrame(p), |bits|) == 0
    modifies w
    ensures w.Valid()
    ensures r.Ok? ==> Adds(old(w.All()), w.All(), BadSys(GatedBadFn(f, p, bits)))
    ensures r.Err? ==> r.error == Overflow || !Bound(p.bad, f.variables)
    ensures r == Err(Overflow) ==> |w.lines| >= MAX_NODES
  {
    hide Consistent, Denotes, AddsAt, BadSys, GatedBadFn, BeforeFn, NotFn, ConnFn, ExprFn, Logic, Nothing;
    hide Bound, FirstBadFrame;
    ghost var g := w.All();
    var bad := ExpressionOf(w, p.bad, f);
    if bad.Err? {
      return bad;
    }
    ghost var b := ExprFn(f, p.bad);
    ghost var k := w.All();
    BitsOkGrows(g.lines, k.lines, bits);
    var cond := bad.id;
    if FirstBadFrame(p) != 0 {
      var early := TimelineBefore(w, bits, FirstBadFrame(p));
      if early.Err? {
        return early;
      }
      ghost var m := w.All();
      ghost var a := BeforeFn(bits, FirstBadFrame(p));
      var late := NotOf(w, early.id, a);
      if late.Err? {
        return late;
      }
      LogicTransitive(k, m, w.All());
      LogicKeepsDenotes(k, w.All(), bad.id, b);
      m := w.All();
      var both := BinaryOf(w, ConnAnd, late.id, bad.id, NotFn(a), b);
      if both.Err? {
        return both;
      }
      LogicTransitive(k, m, w.All());
      LogicOnlyValues(k, w.All());
      ThenNothing(g, k, w.All(), Nothing());
      cond := both.id;
      GatedBadMeans(f, p, bits, w.lines, cond);
    } else {
      UngatedBadMeans(f, p, bits, w.lines, cond);
    }
    k := w.All();
    r := BadOf(w, cond, "equivalence_mismatch", GatedBadFn(f, p, bits));
    if r.Ok? {
      NothingThen(g, k, w.All(), BadSys(GatedBadFn(f, p, bits)));
    }
  }
}
