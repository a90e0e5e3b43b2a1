/**
 The whole startup part of the export, and what it does to runs: a bad frame of the exported
 model is reachable exactly when the obligation itself has one, under its startup rules.
 */
module SecRuns {
  import opened Options
  import opened BoolExprs
  import opened Btor2
  import opened SecExport
  import opened SecStartup
  import opened SecGating

  // ----- the exported system -----

  ghost predicate StartInit(f: Fields, p: Problem, bits: seq<nat>, first: nat, st: Vals) {
    && Counter(bits, st) == 0 && (first != 0 ==> st(first))
    && (WritesInits(p) ==> SecGating.Assigned(f, p.initialAssignments, st))
  }

  ghost predicate StartNext(p: Problem, bits: seq<nat>, first: nat, st: Vals, st': Vals) {
    TimelineNext(bits, st, st', LastFrame(p)) && (first != 0 ==> !st'(first))
  }

  ghost predicate StartCons(f: Fields, p: Problem, bits: seq<nat>, first: nat, inp: Vals, st: Vals) {
    && (WritesCondition(p) && IsFirst(bits, first, st) ==> Eval(p.initialCondition.value, EnvOf(f, inp, st)))
    && (InitialObservation(p) && Counter(bits, st) == 0 ==> Eval(p.property, EnvOf(f, inp, st)))
    && (ResetFrames(p) != 0 ==> ResetDriven(f, p.resetInputs, inp, Counter(bits, st) < ResetFrames(p)))
    && (ResetFrames(p) != 0 && Counter(bits, st) == ResetFrames(p) ==> Frontier(f, p, inp, st))
  }

  ghost function StartSys(f: Fields, p: Problem, bits: seq<nat>, first: nat): Sys {
    Sys((inp: Vals, st: Vals) => StartInit(f, p, bits, first, st),
        (inp: Vals, st: Vals, st': Vals) => StartNext(p, bits, first, st, st'),
        (inp: Vals, st: Vals) => StartCons(f, p, bits, first, inp, st),
        GatedBadFn(f, p, bits))
  }

  ghost function ResetSys(f: Fields, p: Problem, bits: seq<nat>): Sys {
    if ResetFrames(p) != 0
    then Both(ConsSys(ResetFn(f, p.resetInputs, bits, ResetFrames(p))), ConsSys(FrontierFn(f, p, bits)))
    else Nothing()
  }

  ghost function Stages(f: Fields, p: Problem, bits: seq<nat>, first: nat): Sys {
    Both(Both(Both(Both(TimelineSys(bits, LastFrame(p)), InitialSys(f, p, bits, first)),
        ConsSys(ObservationFn(f, p, bits))),
              ResetSys(f, p, bits)), BadSys(GatedBadFn(f, p, bits)))
  }

  lemma {:induction false} ResetSysMeans(f: Fields, p: Problem, bits: seq<nat>, inp: Vals, st: Vals, st': Vals)
    ensures var s := ResetSys(f, p, bits);
            && s.init(inp, st) && s.next(inp, st, st') && !s.bad(inp, st)
            && (s.cons(inp, st) <==> ResetFrames(p) != 0 ==>
                  ResetDriven(f, p.resetInputs, inp, Counter(bits, st) < ResetFrames(p))
                  && (Counter(bits, st) == ResetFrames(p) ==> Frontier(f, p, inp, st)))
  {
    hide ResetDriven, Frontier, ResetFrames, Counter;
    var a, b := ResetFn(f, p.resetInputs, bits, ResetFrames(p)), FrontierFn(f, p, bits);
    assert a(inp, st) == ResetDriven(f, p.resetInputs, inp, Counter(bits, st) < ResetFrames(p));
    assert b(inp, st) == (Counter(bits, st) == ResetFrames(p) ==> Frontier(f, p, inp, st));
    assert ConsSys(a).cons(inp, st) == a(inp, st) && ConsSys(b).cons(inp, st) == b(inp, st);
    assert Both(ConsSys(a), ConsSys(b)).cons(inp, st) == (a(inp, st) && b(inp, st));
  }

  lemma {:induction false} BothMeans(s: Sys, t: Sys, inp: Vals, st: Vals, st': Vals)
    ensures Both(s, t).init(inp, st) == (s.init(inp, st) && t.init(inp, st))
    ensures Both(s, t).next(inp, st, st') == (s.next(inp, st, st') && t.next(inp, st, st'))
    ensures Both(s, t).cons(inp, st) == (s.cons(inp, st) && t.cons(inp, st))
    ensures Both(s, t).bad(inp, st) == (s.bad(inp, st) || t.bad(inp, st))
  {
  }

  lemma {:induction false} TimelineMeans(p: Problem, bits: seq<nat>, inp: Vals, st: Vals, st': Vals)
    ensures var s := TimelineSys(bits, LastFrame(p));
            && s.init(inp, st) == (Counter(bits, st) == 0)
            && s.next(inp, st, st') == TimelineNext(bits, st, st', LastFrame(p))
            && s.cons(inp, st) && !s.bad(inp, st)
  {
    hide Counter, TimelineNext, LastFrame;
  }

  lemma {:induction false} InitialMeans(f: Fields, p: Problem, bits: seq<nat>, first: nat, inp: Vals, st: Vals,
      st': Vals)
    ensures var s := InitialSys(f, p, bits, first);
            && s.init(inp, st) ==
                 ((first != 0 ==> st(first)) && (WritesInits(p) ==> SecGating.Assigned(f, p.initialAssignments, st)))
            && s.next(inp, st, st') == (first != 0 ==> !st'(first))
            && s.cons(inp, st) ==
                 (WritesCondition(p) && IsFirst(bits, first, st) ==> Eval(p.initialCondition.value, EnvOf(f, inp, st)))
            && !s.bad(inp, st)
  {
    hide IsFirst, SecGating.Assigned, Eval, EnvOf, WritesInits;
  }

  lemma {:induction false} ObservationMeans(f: Fields, p: Problem, bits: seq<nat>, inp: Vals, st: Vals, st': Vals)
    ensures var s := ConsSys(ObservationFn(f, p, bits));
            && s.init(inp, st) && s.next(inp, st, st') && !s.bad(inp, st)
            && s.cons(inp, st) ==
                 (InitialObservation(p) && Counter(bits, st) == 0 ==> Eval(p.property, EnvOf(f, inp, st)))
  {
    hide Eval, EnvOf, InitialObservation, Counter;
    assert ObservationFn(f, p, bits)(inp, st) ==
      (InitialObservation(p) && Counter(bits, st) == 0 ==> Eval(p.property, EnvOf(f, inp, st)));
  }

  lemma {:induction false} BadMeans(f: Fields, p: Problem, bits: seq<nat>, inp: Vals, st: Vals, st': Vals)
    ensures var s := BadSys(GatedBadFn(f, p, bits));
            s.init(inp, st) && s.next(inp, st, st') && s.cons(inp, st) &&
                s.bad(inp, st) == GatedBadFn(f, p, bits)(inp, st)
  {
    hide GatedBadFn;
  }

  lemma {:induction false} StartMeans(f: Fields, p: Problem, bits: seq<nat>, first: nat, inp: Vals, st: Vals, st': Vals)
    ensures var s := StartSys(f, p, bits, first);
            && s.init(inp, st) == StartInit(f, p, bits, first, st)
            && s.next(inp, st, st') == StartNext(p, bits, first, st, st')
            && s.cons(inp, st) == StartCons(f, p, bits, first, inp, st)
            && s.bad(inp, st) == GatedBadFn(f, p, bits)(inp, st)
  {
    hide StartInit, StartNext, StartCons, GatedBadFn;
  }

  lemma {:induction false} StagesMean(f: Fields, p: Problem, bits: seq<nat>, first: nat, inp: Vals, st: Vals, st': Vals)
    ensures SysEqualAt(Stages(f, p, bits, first), StartSys(f, p, bits, first), inp, st, st')
  {
    var t, i, o := TimelineSys(bits, LastFrame(p)), InitialSys(f, p, bits, first), ConsSys(ObservationFn(f, p, bits));
    var r, b := ResetSys(f, p, bits), BadSys(GatedBadFn(f, p, bits));
    assert Stages(f, p, bits, first) == Both(Both(Both(Both(t, i), o), r), b);
    hide Stages, Both, TimelineSys, InitialSys, ObservationFn, ConsSys, ResetSys, BadSys, GatedBadFn;
    hide StartSys, Counter, TimelineNext, ResetDriven, Frontier, WritesInits, WritesCondition;
    hide InitialObservation, ResetFrames, FirstBadFrame, LastFrame, EnvOf, IsFirst, SecGating.Assigned, Eval;
    TimelineMeans(p, bits, inp, st, st');
    InitialMeans(f, p, bits, first, inp, st, st');
    ObservationMeans(f, p, bits, inp, st, st');
    ResetSysMeans(f, p, bits, inp, st, st');
    BadMeans(f, p, bits, inp, st, st');
    BothMeans(t, i, inp, st, st');
    BothMeans(Both(t, i), o, inp, st, st');
    BothMeans(Both(Both(t, i), o), r, inp, st, st');
    BothMeans(Both(Both(Both(t, i), o), r), b, inp, st, st');
    StartMeans(f, p, bits, first, inp, st, st');
  }

  lemma {:induction false} ExportAssembled(f: Fields, g: Fields, p: Problem, bits: seq<nat>, first: nat)
    requires Adds(f, g, Stages(f, p, bits, first))
    ensures Adds(f, g, StartSys(f, p, bits, first))
  {
    hide AddsAt, Stages, StartSys, SysEqualAt;
    forall inp: Vals, st: Vals, st': Vals
      ensures SysEqualAt(Stages(f, p, bits, first), StartSys(f, p, bits, first), inp, st, st')
    {
      StagesMean(f, p, bits, first, inp, st, st');
    }
    AddsSame(f, g, Stages(f, p, bits, first), StartSys(f, p, bits, first));
  }

  /** The monitor states: enough distinct fresh bits, and a fresh marker when there are no bits. */
  ghost predicate Monitor(f: Fields, p: Problem, bits: seq<nat>, first: nat) {
    && |bits| == BitWidth(LastFrame(p))
    && (forall i :: 0 <= i < |bits| ==> bits[i] >= |f.lines|)
    && (forall i, j :: 0 <= i < j < |bits| ==> bits[i] != bits[j])
    && (first != 0 <==> bits == [] && WritesCondition(p))
    && (first != 0 ==> first >= |f.lines|)
  }

  lemma {:induction false} FramesFit(p: Problem)
    ensures FirstBadFrame(p) <= LastFrame(p) && ResetFrames(p) <= LastFrame(p)
    ensures ResetFrames(p) != 0 ==> ResetFrames(p) < LastFrame(p)
    ensures InitialObservation(p) ==> LastFrame(p) == 1 && BitWidth(1) == 1
    ensures Shift(FirstBadFrame(p), BitWidth(LastFrame(p))) == 0 && Shift(ResetFrames(p), BitWidth(LastFrame(p))) == 0
    ensures Shift(LastFrame(p), BitWidth(LastFrame(p))) == 0
  {
    BitWidthSuffices(LastFrame(p));
    ShiftMonotone(FirstBadFrame(p), LastFrame(p), BitWidth(LastFrame(p)));
    ShiftMonotone(ResetFrames(p), LastFrame(p), BitWidth(LastFrame(p)));
    assert BitWidth(1) == 1 + BitWidth(0);
  }

  /** The ports and states that the reset part refers to are declared. */
  ghost predicate ResetDeclared(f: Fields, p: Problem) {
    ResetFrames(p) != 0 ==>
      && (forall a :: a in p.resetInputs ==> InputSymbol(f, a.0))
      && (!p.dualRail ==> forall a :: a in p.bootstrapAssignments ==> StateSymbol(f, a.0))
  }

  /** All ports and states that the startup rules refer to are declared. */
  ghost predicate Declared(f: Fields, p: Problem) {
    ResetDeclared(f, p) && (WritesInits(p) ==> forall a :: a in p.initialAssignments ==> StateSymbol(f, a.0))
  }

  /** The reset part: nothing at all without a reset prefix. */
  method StageResetAll(w: Btor2Writer, p: Problem, bits: seq<nat>, property: nat, ghost f: Fields) returns (r: Result)
    requires w.Valid() && Consistent(f) && Grown(f, w.All()) && BitsOk(w.lines, bits)
    requires Shift(ResetFrames(p), |bits|) == 0
    requires Denotes(w.lines, property, ExprFn(f, p.property))
    modifies w
    ensures w.Valid()
    ensures r.Ok? ==> Adds(old(w.All()), w.All(), ResetSys(f, p, bits)) && ResetDeclared(f, p)
    ensures r.Err? ==> r.error == Overflow || !Exportable(f, p)
    ensures r == Err(Overflow) ==> |w.lines| >= MAX_NODES
  {
    hide Consistent, Denotes, AddsAt, ConsSys, ExprFn, ResetFn, FrontierFn, Nothing, ResetFrames;
    hide InputSymbol, StateSymbol, InitsPossible, Bound;
    ghost var g := w.All();
    NothingAdded(g);
    r := Ok(0);
    if ResetFrames(p) != 0 {
      r := StageReset(w, p.resetInputs, bits, ResetFrames(p), f);
      if r.Err? {
        return;
      }
      ghost var k := w.All();
      GrownTransitive(f, g, k, ConsSys(ResetFn(f, p.resetInputs, bits, ResetFrames(p))));
      BitsOkGrows(g.lines, k.lines, bits);
      DenotesStay(g, k, property, ExprFn(f, p.property));
      r := StageFrontier(w, p, bits, property, f);
      if r.Ok? {
        AddsThen(g, k, w.All(), ConsSys(ResetFn(f, p.resetInputs, bits, ResetFrames(p))),
            ConsSys(FrontierFn(f, p, bits)));
      }
    }
  }

  /** The property and everything that refers to it. */
  method StagesAfterInit(w: Btor2Writer, p: Problem, bits: seq<nat>, ghost f: Fields, ghost start: Sys)
      returns (r: Result)
    requires w.Valid() && Consistent(f) && Adds(f, w.All(), start) && BitsOk(w.lines, bits)
    requires |bits| == BitWidth(LastFrame(p))
    modifies w
    ensures w.Valid()
    ensures r.Ok? ==>
      Adds(f, w.All(), Both(Both(Both(start, ConsSys(ObservationFn(f, p, bits))), ResetSys(f, p, bits)),
          BadSys(GatedBadFn(f, p, bits))))
    ensures r.Ok? ==> ResetDeclared(f, p)
    ensures r.Err? ==> r.error == Overflow || !Exportable(f, p)
    ensures r == Err(Overflow) ==> |w.lines| >= MAX_NODES
  {
    hide Consistent, Denotes, AddsAt, ConsSys, BadSys, ExprFn, GatedBadFn, ObservationFn, ResetSys, Nothing;
    hide Bound, InitsPossible, InputSymbol, StateSymbol, Both, BitWidth, LastFrame, FirstBadFrame;
    hide ResetFrames, InitialObservation, WritesInits, ResetDeclared;
    FramesFit(p);
    ghost var g := w.All();
    var property := ExpressionOf(w, p.property, f);
    if property.Err? {
      return property;
    }
    ThenNothing(f, g, w.All(), start);
    BitsOkGrows(g.lines, w.lines, bits);
    g := w.All();
    r := StageObservation(w, p, bits, property.id, f);
    if r.Err? {
      return;
    }
    ghost var s := Both(start, ConsSys(ObservationFn(f, p, bits)));
    AddsThen(f, g, w.All(), start, ConsSys(ObservationFn(f, p, bits)));
    BitsOkGrows(g.lines, w.lines, bits);
    DenotesStay(g, w.All(), property.id, ExprFn(f, p.property));
    g := w.All();
    r := StageResetAll(w, p, bits, property.id, f);
    if r.Err? {
      return;
    }
    AddsThen(f, g, w.All(), s, ResetSys(f, p, bits));
    BitsOkGrows(g.lines, w.lines, bits);
    g := w.All();
    r := StageBad(w, p, bits, f);
    if r.Ok? {
      AddsThen(f, g, w.All(), Both(s, ResetSys(f, p, bits)), BadSys(GatedBadFn(f, p, bits)));
    }
  }

  /** The startup, reset and bad rules of `exportSecBtor2`, after the prelude of declarations. */
  method Export(w: Btor2Writer, p: Problem) returns (r: Result, ghost bits: seq<nat>, ghost first: nat)
    requires w.Valid() && w.constants.0 != 0 && w.constants.1 != 0
    modifies w
    ensures w.Valid()
    ensures r.Ok? ==> Monitor(old(w.All()), p, bits, first) && Declared(old(w.All()), p)
    ensures r.Ok? ==> Adds(old(w.All()), w.All(), StartSys(old(w.All()), p, bits, first))
    ensures r.Err? ==> r.error == Overflow || !Exportable(old(w.All()), p)
    ensures r == Err(Overflow) ==> |w.lines| >= MAX_NODES
  {
    hide Consistent, Denotes, AddsAt, ConsSys, BadSys, TimelineSys, InitialSys, GatedBadFn, ObservationFn;
    hide ResetSys, Both, StartSys, BitWidth, LastFrame, FirstBadFrame, ResetFrames, Bound, InitsPossible;
    hide InputSymbol, StateSymbol, WritesInits, WritesCondition, ResetDeclared;
    ghost var f := w.All();
    bits, first := [], 0;
    if ResetFrames(p) == SIZE_MAX {
      return Err(InvalidNode), [], 0;
    }
    var timeline;
    r, timeline := BuildTimeline(w, LastFrame(p));
    bits := timeline;
    if r.Err? {
      return;
    }
    ghost var g := w.All();
    var marker;
    r, marker := StageInitial(w, p, timeline, f);
    first := marker;
    if r.Err? {
      return;
    }
    BitsOkGrows(g.lines, w.lines, bits);
    ghost var s := Both(TimelineSys(bits, LastFrame(p)), InitialSys(f, p, bits, first));
    AddsThen(f, g, w.All(), TimelineSys(bits, LastFrame(p)), InitialSys(f, p, bits, first));
    r := StagesAfterInit(w, p, timeline, f, s);
    if r.Ok? {
      ExportAssembled(f, w.All(), p, bits, first);
    }
  }

  // ----- runs -----

  datatype Run = Run(inp: nat -> Vals, st: nat -> Vals)

  ghost predicate StepAt(lines: seq<Line>, run: Run, t: nat) {
    Nexts(lines, run.inp(t), run.st(t), run.st(t + 1))
  }

  ghost predicate HoldsAt(lines: seq<Line>, run: Run, t: nat) {
    Constraints(lines, run.inp(t), run.st(t))
  }

  /** A run up to frame k: initial values, steps, and the constraints at every frame. */
  ghost predicate IsRun(lines: seq<Line>, run: Run, k: nat) {
    && Inits(lines, run.inp(0), run.st(0))
    && (forall t: nat :: t < k ==> StepAt(lines, run, t))
    && (forall t: nat :: t <= k ==> HoldsAt(lines, run, t))
  }

  ghost predicate BadAtFrame(lines: seq<Line>, run: Run, k: nat) {
    Bads(lines, run.inp(k), run.st(k))
  }

  /**
   The startup rules themselves, by frame number: initial values and the initial condition at
   frame 0, reset ports at their active level exactly before frame resetFrames, and the
   observation frontier and bootstrap values at exactly that frame.
   */
  ghost predicate StartupAt(f: Fields, p: Problem, t: nat, inp: Vals, st: Vals) {
    && (t == 0 && WritesInits(p) ==> SecGating.Assigned(f, p.initialAssignments, st))
    && (t == 0 && WritesCondition(p) ==> Eval(p.initialCondition.value, EnvOf(f, inp, st)))
    && (t == 0 && InitialObservation(p) ==> Eval(p.property, EnvOf(f, inp, st)))
    && (ResetFrames(p) != 0 ==> ResetDriven(f, p.resetInputs, inp, t < ResetFrames(p)))
    && (ResetFrames(p) != 0 && t == ResetFrames(p) ==> Frontier(f, p, inp, st))
  }

  ghost predicate FollowsStartup(f: Fields, p: Problem, run: Run, k: nat) {
    forall t: nat :: t <= k ==> StartupAt(f, p, t, run.inp(t), run.st(t))
  }

  ghost predicate Mismatch(f: Fields, p: Problem, run: Run, k: nat) {
    k >= FirstBadFrame(p) && Eval(p.bad, EnvOf(f, run.inp(k), run.st(k)))
  }

  function Min(a: nat, b: nat): nat { if a <= b then a else b }

  /** The monitor shows the frame number, up to saturation. */
  ghost predicate Shows(p: Problem, bits: seq<nat>, first: nat, st: Vals, t: nat) {
    Counter(bits, st) == Min(t, LastFrame(p)) && (first != 0 ==> (st(first) <==> t == 0))
  }

  lemma {:induction false} AddsPointwise(f: Fields, g: Fields, p: Problem, bits: seq<nat>, first: nat, inp: Vals,
      st: Vals, st': Vals)
    requires Adds(f, g, StartSys(f, p, bits, first))
    ensures Inits(g.lines, inp, st) <==> Inits(f.lines, inp, st) && StartInit(f, p, bits, first, st)
    ensures Nexts(g.lines, inp, st, st') <==> Nexts(f.lines, inp, st, st') && StartNext(p, bits, first, st, st')
    ensures Constraints(g.lines, inp, st) <==> Constraints(f.lines, inp, st) && StartCons(f, p, bits, first, inp, st)
    ensures Bads(g.lines, inp, st)
         <==> Bads(f.lines, inp, st) || (Counter(bits, st) >= FirstBadFrame(p) && Eval(p.bad, EnvOf(f, inp, st)))
  {
    hide Inits, Nexts, Constraints, Bads, StartInit, StartNext, StartCons, Counter, FirstBadFrame, EnvOf;
    var s := StartSys(f, p, bits, first);
    assert AddsAt(f, g, s, inp, st, st');
    assert s.init(inp, st) == StartInit(f, p, bits, first, st);
    assert s.next(inp, st, st') == StartNext(p, bits, first, st, st');
    assert s.cons(inp, st) == StartCons(f, p, bits, first, inp, st);
    assert GatedBadFn(f, p, bits)(inp, st) == (Counter(bits, st) >= FirstBadFrame(p) && Eval(p.bad, EnvOf(f, inp, st)));
  }

  /** Every run of the exported model shows the frame number at every frame. */
  lemma {:induction false} RunShowsFrame(f: Fields, g: Fields, p: Problem, bits: seq<nat>, first: nat, run: Run,
      k: nat, t: nat)
    requires Adds(f, g, StartSys(f, p, bits, first)) && Monitor(f, p, bits, first)
    requires IsRun(g.lines, run, k) && t <= k
    ensures Shows(p, bits, first, run.st(t), t)
    decreases t
  {
    hide Adds, StartSys, Inits, Nexts, Constraints, Bads, TimelineNext, EnvOf, StartCons, LastFrame;
    hide WritesInits, WritesCondition, FirstBadFrame;
    if t == 0 {
      AddsPointwise(f, g, p, bits, first, run.inp(0), run.st(0), run.st(0));
    } else {
      RunShowsFrame(f, g, p, bits, first, run, k, t - 1);
      AddsPointwise(f, g, p, bits, first, run.inp(t - 1), run.st(t - 1), run.st(t));
      assert StepAt(g.lines, run, t - 1);
      FramesFit(p);
      TimelineStep(bits, run.st(t - 1), run.st(t), LastFrame(p));
    }
  }

  /** When the monitor shows frame t, the written constraints are the startup rules of frame t. */
  lemma {:induction false} ConstraintsAreStartup(f: Fields, p: Problem, bits: seq<nat>, first: nat, t: nat, inp: Vals,
      st: Vals)
    requires Monitor(f, p, bits, first) && Shows(p, bits, first, st, t)
    requires t == 0 ==>
      StartInit(f, p, bits, first, st) || (WritesInits(p) ==> SecGating.Assigned(f, p.initialAssignments, st))
    ensures StartCons(f, p, bits, first, inp, st) <==> StartupAt(f, p, t, inp, st)
    ensures Counter(bits, st) >= FirstBadFrame(p) <==> t >= FirstBadFrame(p)
  {
    hide Frontier, ResetDriven, EnvOf, Counter, LastFrame, ResetFrames, FirstBadFrame, InitialObservation;
    hide WritesInits, WritesCondition, SecGating.Assigned;
    FramesFit(p);
    assert bits == [] <==> LastFrame(p) == 0;
    assert bits == [] ==> Counter(bits, st) == 0;
    assert WritesCondition(p) ==> (IsFirst(bits, first, st) <==> t == 0);
  }

  /** Every run of the exported model is a run of the obligation that follows its startup rules. */
  lemma {:induction false} ExportedRunIsStartupRun(f: Fields, g: Fields, p: Problem, bits: seq<nat>, first: nat,
      run: Run, k: nat)
    requires Adds(f, g, StartSys(f, p, bits, first)) && Monitor(f, p, bits, first)
    requires IsRun(g.lines, run, k)
    ensures IsRun(f.lines, run, k) && FollowsStartup(f, p, run, k)
    ensures BadAtFrame(g.lines, run, k) <==> BadAtFrame(f.lines, run, k) || Mismatch(f, p, run, k)
  {
    hide Adds, StartSys, Inits, Nexts, Constraints, Bads, EnvOf, StartCons, StartNext, LastFrame;
    hide WritesInits, WritesCondition, FirstBadFrame, Monitor, Shows, StartupAt, SecGating.Assigned;
    forall t: nat | t <= k
      ensures HoldsAt(f.lines, run, t) && StartupAt(f, p, t, run.inp(t), run.st(t))
      ensures t < k ==> StepAt(f.lines, run, t)
      ensures Counter(bits, run.st(t)) >= FirstBadFrame(p) <==> t >= FirstBadFrame(p)
    {
      assert HoldsAt(g.lines, run, t) && (t < k ==> StepAt(g.lines, run, t));
      RunShowsFrame(f, g, p, bits, first, run, k, t);
      AddsPointwise(f, g, p, bits, first, run.inp(t), run.st(t), run.st(t + 1));
      ConstraintsAreStartup(f, p, bits, first, t, run.inp(t), run.st(t));
    }
    AddsPointwise(f, g, p, bits, first, run.inp(0), run.st(0), run.st(0));
    AddsPointwise(f, g, p, bits, first, run.inp(k), run.st(k), run.st(k));
  }

  // ----- the converse: the monitor never blocks a run -----

  ghost function Monitored(f: Fields, p: Problem, bits: seq<nat>, first: nat, t: nat, st: Vals): Vals {
    (n: nat) => if n < |f.lines| then st(n)
                else if first != 0 && n == first then t == 0
                else exists j :: 0 <= j < |bits| && bits[j] == n && FrameBit(Min(t, LastFrame(p)), j)
  }

  ghost function MonitoredRun(f: Fields, p: Problem, bits: seq<nat>, first: nat, run: Run): Run {
    Run(run.inp, (t: nat) => Monitored(f, p, bits, first, t, run.st(t)))
  }

  lemma {:induction false} MonitoredShows(f: Fields, p: Problem, bits: seq<nat>, first: nat, t: nat, st: Vals)
    requires Monitor(f, p, bits, first)
    ensures Shows(p, bits, first, Monitored(f, p, bits, first, t, st), t)
  {
    hide LastFrame, WritesCondition, FrameBit;
    var st', frame := Monitored(f, p, bits, first, t, st), Min(t, LastFrame(p));
    FramesFit(p);
    ShiftMonotone(frame, LastFrame(p), |bits|);
    forall j | 0 <= j < |bits|
      ensures st'(bits[j]) == FrameBit(frame, j)
    {
      forall i | 0 <= i < |bits| && bits[i] == bits[j]
        ensures i == j
      {
      }
    }
    MatchesMeansEqual(bits, st', frame, 0);
    assert bits[0..] == bits && Shift(frame, 0) == frame;
  }

  /** Two monitors that show the same number hold the same bits. */
  lemma {:induction false} CounterInjective(bits: seq<nat>, st: Vals, st': Vals)
    requires Counter(bits, st) == Counter(bits, st')
    ensures forall b :: b in bits ==> st(b) == st'(b)
  {
    if bits != [] {
      CounterInjective(bits[1..], st, st');
      assert bits == [bits[0]] + bits[1..];
    }
  }

  /** The next state that the ripple logic demands. */
  ghost function Rippled(bits: seq<nat>, st: Vals, last: nat): Vals {
    (n: nat) => exists j :: 0 <= j < |bits| && bits[j] == n && NextBit(bits, st, j, last)
  }

  lemma {:induction false} RippleIsStep(bits: seq<nat>, st: Vals, st': Vals, last: nat)
    requires forall i, j :: 0 <= i < j < |bits| ==> bits[i] != bits[j]
    requires Shift(last, |bits|) == 0 && Counter(bits, st) <= last
    requires Counter(bits, st') == if Counter(bits, st) == last then last else Counter(bits, st) + 1
    ensures TimelineNext(bits, st, st', last)
  {
    hide NextBit, Counter, Shift;
    var ripple := Rippled(bits, st, last);
    forall i | 0 <= i < |bits|
      ensures ripple(bits[i]) == NextBit(bits, st, i, last)
    {
      forall j | 0 <= j < |bits| && bits[j] == bits[i]
        ensures i == j
      {
      }
    }
    assert TimelineNext(bits, st, ripple, last);
    TimelineStep(bits, st, ripple, last);
    CounterInjective(bits, st', ripple);
    assert forall i :: 0 <= i < |bits| ==> bits[i] in bits;
  }

  /** Lines of the prelude do not see the monitor states. */
  lemma {:induction false} ValIgnoresFresh(lines: seq<Line>, n: nat, inp: Vals, st: Vals, st': Vals)
    requires forall i: nat :: i < |lines| ==> st(i) == st'(i)
    ensures LineVal(lines, n, inp, st) == LineVal(lines, n, inp, st')
    decreases n
  {
    if n < |lines| {
      match lines[n]
      case Negation(a) =>
        if a < n {
          ValIgnoresFresh(lines, a, inp, st, st');
        }
      case Binary(_, l, r) =>
        if l < n && r < n {
          ValIgnoresFresh(lines, l, inp, st, st');
          ValIgnoresFresh(lines, r, inp, st, st');
        }
      case _ =>
    }
  }

  ghost predicate AgreesBelow(n: nat, st: Vals, st': Vals) {
    forall i: nat :: i < n ==> st(i) == st'(i)
  }

  lemma {:induction false} DirectivesIgnoreFresh(lines: seq<Line>, inp: Vals, st: Vals, next: Vals, st': Vals,
      next': Vals)
    requires WellFormed(lines) && AgreesBelow(|lines|, st, st') && AgreesBelow(|lines|, next, next')
    ensures Inits(lines, inp, st) ==> Inits(lines, inp, st')
    ensures Nexts(lines, inp, st, next) ==> Nexts(lines, inp, st', next')
    ensures Constraints(lines, inp, st) ==> Constraints(lines, inp, st')
    ensures Bads(lines, inp, st) <==> Bads(lines, inp, st')
  {
    hide LineVal;
    forall n: nat
      ensures LineVal(lines, n, inp, st) == LineVal(lines, n, inp, st')
    {
      ValIgnoresFresh(lines, n, inp, st, st');
    }
    forall i | 0 <= i < |lines|
      ensures InitAt(lines, i, inp, st) == InitAt(lines, i, inp, st')
      ensures NextAt(lines, i, inp, st, next) == NextAt(lines, i, inp, st', next')
      ensures ConstraintAt(lines, i, inp, st) == ConstraintAt(lines, i, inp, st')
      ensures BadAt(lines, i, inp, st) == BadAt(lines, i, inp, st')
    {
      assert LineOk(lines, i);
    }
  }

  lemma {:induction false} ProblemIgnoresFresh(f: Fields, e: Expr, inp: Vals, st: Vals, st': Vals)
    requires AgreesBelow(|f.lines|, st, st')
    ensures Eval(e, EnvOf(f, inp, st)) == Eval(e, EnvOf(f, inp, st'))
  {
    hide LineVal;
    forall v | v in f.variables
      ensures EnvOf(f, inp, st)(v) == EnvOf(f, inp, st')(v)
    {
      ValIgnoresFresh(f.lines, f.variables[v], inp, st, st');
    }
    EvalDependsOnSupport(e, EnvOf(f, inp, st), EnvOf(f, inp, st'));
  }

  lemma {:induction false} AssignedIgnoresFresh(f: Fields, xs: Assignments, st: Vals, st': Vals)
    requires Consistent(f) && AgreesBelow(|f.lines|, st, st')
    ensures SecGating.Assigned(f, xs, st) == SecGating.Assigned(f, xs, st')
  {
    assert forall v :: v in f.variables ==> f.variables[v] < |f.lines|;
  }

  lemma {:induction false} StartupIgnoresFresh(f: Fields, p: Problem, t: nat, inp: Vals, st: Vals, st': Vals)
    requires Consistent(f) && AgreesBelow(|f.lines|, st, st')
    ensures StartupAt(f, p, t, inp, st) == StartupAt(f, p, t, inp, st')
    ensures Eval(p.bad, EnvOf(f, inp, st)) == Eval(p.bad, EnvOf(f, inp, st'))
  {
    hide Consistent, AgreesBelow, Eval, EnvOf, SecGating.Assigned, ResetFrames, InitialObservation, ResetDriven;
    AssignedIgnoresFresh(f, p.initialAssignments, st, st');
    AssignedIgnoresFresh(f, p.bootstrapAssignments, st, st');
    ProblemIgnoresFresh(f, p.property, inp, st, st');
    ProblemIgnoresFresh(f, p.bad, inp, st, st');
    if p.initialCondition.Some? {
      ProblemIgnoresFresh(f, p.initialCondition.value, inp, st, st');
    }
  }

  lemma {:induction false} MonitoredStep(f: Fields, p: Problem, bits: seq<nat>, first: nat, t: nat, st: Vals,
      next: Vals)
    requires Monitor(f, p, bits, first)
    ensures StartNext(p, bits, first, Monitored(f, p, bits, first, t, st), Monitored(f, p, bits, first, t + 1, next))
  {
    hide Monitored, LastFrame, Counter, Shift, TimelineNext, WritesCondition;
    MonitoredShows(f, p, bits, first, t, st);
    MonitoredShows(f, p, bits, first, t + 1, next);
    FramesFit(p);
    RippleIsStep(bits, Monitored(f, p, bits, first, t, st), Monitored(f, p, bits, first, t + 1, next), LastFrame(p));
  }

  /** One frame of a startup run, with the monitor added, is a frame of the exported model. */
  lemma {:induction false} MonitoredFrame(f: Fields, g: Fields, p: Problem, bits: seq<nat>, first: nat, t: nat,
      inp: Vals, st: Vals, next: Vals)
    requires Consistent(f) && Adds(f, g, StartSys(f, p, bits, first)) && Monitor(f, p, bits, first)
    requires Constraints(f.lines, inp, st) && StartupAt(f, p, t, inp, st)
    ensures var st' := Monitored(f, p, bits, first, t, st);
            var next' := Monitored(f, p, bits, first, t + 1, next);
            && Constraints(g.lines, inp, st')
            && (t == 0 && Inits(f.lines, inp, st) ==> Inits(g.lines, inp, st'))
            && (Nexts(f.lines, inp, st, next) ==> Nexts(g.lines, inp, st', next'))
            && (Bads(g.lines, inp, st')
                <==> Bads(f.lines, inp, st) || (t >= FirstBadFrame(p) && Eval(p.bad, EnvOf(f, inp, st))))
  {
    var st', next' := Monitored(f, p, bits, first, t, st), Monitored(f, p, bits, first, t + 1, next);
    assert AgreesBelow(|f.lines|, st, st') && AgreesBelow(|f.lines|, next, next');
    assert WellFormed(f.lines);
    hide *;
    MonitoredShows(f, p, bits, first, t, st);
    MonitoredStep(f, p, bits, first, t, st, next);
    AddsPointwise(f, g, p, bits, first, inp, st', next');
    DirectivesIgnoreFresh(f.lines, inp, st, next, st', next');
    StartupIgnoresFresh(f, p, t, inp, st, st');
    MonitoredInit(f, p, bits, first, t, inp, st');
    ConstraintsAreStartup(f, p, bits, first, t, inp, st');
  }

  lemma {:induction false} MonitoredInit(f: Fields, p: Problem, bits: seq<nat>, first: nat, t: nat, inp: Vals, st: Vals)
    requires Shows(p, bits, first, st, t) && StartupAt(f, p, t, inp, st)
    ensures t == 0 ==> StartInit(f, p, bits, first, st)
  {
    hide LastFrame, Counter, SecGating.Assigned, WritesInits;
  }

  lemma {:induction false} StartupRunIsExported(f: Fields, g: Fields, p: Problem, bits: seq<nat>, first: nat, run: Run,
      k: nat)
    requires Consistent(f) && Adds(f, g, StartSys(f, p, bits, first)) && Monitor(f, p, bits, first)
    requires IsRun(f.lines, run, k) && FollowsStartup(f, p, run, k)
    ensures IsRun(g.lines, MonitoredRun(f, p, bits, first, run), k)
    ensures BadAtFrame(g.lines, MonitoredRun(f, p, bits, first, run), k)
         <==> BadAtFrame(f.lines, run, k) || Mismatch(f, p, run, k)
  {
    hide Consistent, Adds, StartSys, Monitor, Inits, Nexts, Constraints, Bads, Monitored, EnvOf, StartupAt;
    hide FirstBadFrame;
    var run' := MonitoredRun(f, p, bits, first, run);
    forall t: nat | t <= k
      ensures HoldsAt(g.lines, run', t) && (t < k ==> StepAt(g.lines, run', t))
      ensures t == 0 ==> Inits(g.lines, run'.inp(0), run'.st(0))
      ensures BadAtFrame(g.lines, run', t) <==> BadAtFrame(f.lines, run, t) || Mismatch(f, p, run, t)
    {
      assert HoldsAt(f.lines, run, t) && (t < k ==> StepAt(f.lines, run, t));
      assert StartupAt(f, p, t, run.inp(t), run.st(t));
      MonitoredFrame(f, g, p, bits, first, t, run.inp(t), run.st(t), run.st(t + 1));
    }
    assert HoldsAt(g.lines, run', 0);
  }

  /** The exported model can be bad at frame k. */
  ghost predicate BadReachable(lines: seq<Line>, k: nat) {
    exists run :: IsRun(lines, run, k) && BadAtFrame(lines, run, k)
  }

  /** The obligation has a bad frame k under its startup rules. */
  ghost predicate ObligationFails(f: Fields, p: Problem, k: nat) {
    exists run :: IsRun(f.lines, run, k) && FollowsStartup(f, p, run, k) &&
      (BadAtFrame(f.lines, run, k) || Mismatch(f, p, run, k))
  }

  /** The export is exact, frame by frame. */
  lemma {:induction false} ExportIsExact(f: Fields, g: Fields, p: Problem, bits: seq<nat>, first: nat, k: nat)
    requires Consistent(f) && Adds(f, g, StartSys(f, p, bits, first)) && Monitor(f, p, bits, first)
    ensures BadReachable(g.lines, k) <==> ObligationFails(f, p, k)
  {
    hide Consistent, Adds, StartSys, Monitor, IsRun, FollowsStartup, BadAtFrame, Mismatch;
    if BadReachable(g.lines, k) {
      var run :| IsRun(g.lines, run, k) && BadAtFrame(g.lines, run, k);
      ExportedRunIsStartupRun(f, g, p, bits, first, run, k);
    }
    if ObligationFails(f, p, k) {
      var run :| IsRun(f.lines, run, k) && FollowsStartup(f, p, run, k) &&
          (BadAtFrame(f.lines, run, k) || Mismatch(f, p, run, k));
      StartupRunIsExported(f, g, p, bits, first, run, k);
    }
  }
}
