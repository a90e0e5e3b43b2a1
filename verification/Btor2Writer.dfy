/**
 The streaming BTOR2 writer. Its output is a sequence of lines; the format (Niemetz, Preiner,
 Wolf and Biere, CAV 2018) is stated by `WellFormed`, and the meaning of an exported model by
 `LineVal`, `Inits`, `Nexts`, `Constraints` and `Bads`.
 */
module Btor2 {
  import opened Options
  import opened BoolExprs
  import opened Traversals

  datatype Connective = ConnAnd | ConnOr | ConnXor | ConnEq

  /** Line 0 stands for the unused node ID zero; line n is the line with ID n. */
  datatype Line =
    | Unused
    | Sort
    | Input(symbol: string)
    | State(symbol: string)
    | Const(value: bool)
    | Negation(arg: nat)
    | Binary(conn: Connective, left: nat, right: nat)
    | Init(target: nat, source: nat)
    | Next(target: nat, source: nat)
    | Constraint(cond: nat)
    | Bad(cond: nat, symbol: string)
    | Output(cond: nat, symbol: string)

  datatype Kind = KindOther | KindValue | KindState | KindInput

  function KindOf(l: Line): Kind {
    match l
    case Input(_) => KindInput
    case State(_) => KindState
    case Const(_) => KindValue
    case Negation(_) => KindValue
    case Binary(_, _, _) => KindValue
    case _ => KindOther
  }

  predicate IsValue(lines: seq<Line>, n: nat) {
    n < |lines| && KindOf(lines[n]) != KindOther
  }

  predicate IsState(lines: seq<Line>, n: nat) {
    n < |lines| && lines[n].State?
  }

  /** Whether an input occurs in the cone of a line. */
  function HasInput(lines: seq<Line>, n: nat): bool
    decreases n
  {
    n < |lines| &&
    match lines[n]
    case Input(_) => true
    case Negation(a) => a < n && HasInput(lines, a)
    case Binary(_, l, r) => (l < n && HasInput(lines, l)) || (r < n && HasInput(lines, r))
    case _ => false
  }

  // ----- the format -----

  ghost predicate LineOk(lines: seq<Line>, i: nat)
    requires i < |lines|
  {
    match lines[i]
    case Unused => i == 0
    case Sort => i == 1
    case Input(_) => i > 1
    case State(_) => i > 1
    case Const(_) => i > 1
    case Negation(a) => a < i && IsValue(lines, a)
    case Binary(_, l, r) => l < i && r < i && IsValue(lines, l) && IsValue(lines, r)
    case Init(s, v) => v < s < i && IsState(lines, s) && IsValue(lines, v) && !HasInput(lines, v)
    case Next(s, v) => s < i && v < i && IsState(lines, s) && IsValue(lines, v)
    case Constraint(v) => v < i && IsValue(lines, v)
    case Bad(v, _) => v < i && IsValue(lines, v)
    case Output(v, _) => v < i && IsValue(lines, v)
  }

  ghost predicate WellFormed(lines: seq<Line>) {
    && |lines| >= 2 && lines[0] == Unused && lines[1] == Sort
    && (forall i :: 0 <= i < |lines| ==> LineOk(lines, i))
    && (forall i, j :: 0 <= i < j < |lines| && lines[i].Init? && lines[j].Init? ==> lines[i].target != lines[j].target)
    && (forall i, j :: 0 <= i < j < |lines| && lines[i].Next? && lines[j].Next? ==> lines[i].target != lines[j].target)
  }

  // ----- the meaning -----

  /** Values of the input lines, or of the state lines, by node ID. */
  type Vals = nat -> bool

  function Connect(c: Connective, a: bool, b: bool): bool {
    match c
    case ConnAnd => a && b
    case ConnOr => a || b
    case ConnXor => a != b
    case ConnEq => a == b
  }

  function LineVal(lines: seq<Line>, n: nat, inp: Vals, st: Vals): bool
    decreases n
  {
    n < |lines| &&
    match lines[n]
    case Input(_) => inp(n)
    case State(_) => st(n)
    case Const(b) => b
    case Negation(a) => a < n && !LineVal(lines, a, inp, st)
    case Binary(c, l, r) => l < n && r < n && Connect(c, LineVal(lines, l, inp, st), LineVal(lines, r, inp, st))
    case _ => false
  }

  ghost predicate InitAt(lines: seq<Line>, i: nat, inp: Vals, st: Vals) {
    i < |lines| && lines[i].Init? ==> st(lines[i].target) == LineVal(lines, lines[i].source, inp, st)
  }

  ghost predicate NextAt(lines: seq<Line>, i: nat, inp: Vals, st: Vals, st': Vals) {
    i < |lines| && lines[i].Next? ==> st'(lines[i].target) == LineVal(lines, lines[i].source, inp, st)
  }

  ghost predicate ConstraintAt(lines: seq<Line>, i: nat, inp: Vals, st: Vals) {
    i < |lines| && lines[i].Constraint? ==> LineVal(lines, lines[i].cond, inp, st)
  }

  ghost predicate BadAt(lines: seq<Line>, i: nat, inp: Vals, st: Vals) {
    i < |lines| && lines[i].Bad? && LineVal(lines, lines[i].cond, inp, st)
  }

  ghost predicate Inits(lines: seq<Line>, inp: Vals, st: Vals) {
    forall i :: 0 <= i < |lines| ==> InitAt(lines, i, inp, st)
  }

  ghost predicate Nexts(lines: seq<Line>, inp: Vals, st: Vals, st': Vals) {
    forall i :: 0 <= i < |lines| ==> NextAt(lines, i, inp, st, st')
  }

  ghost predicate Constraints(lines: seq<Line>, inp: Vals, st: Vals) {
    forall i :: 0 <= i < |lines| ==> ConstraintAt(lines, i, inp, st)
  }

  ghost predicate Bads(lines: seq<Line>, inp: Vals, st: Vals) {
    exists i :: 0 <= i < |lines| && BadAt(lines, i, inp, st)
  }

  // ----- appending lines -----

  lemma {:induction false} ValGrows(lines: seq<Line>, more: seq<Line>, n: nat, inp: Vals, st: Vals)
    requires lines <= more && n < |lines|
    ensures LineVal(more, n, inp, st) == LineVal(lines, n, inp, st)
    decreases n
  {
    assert more[n] == lines[n];
    match lines[n] {
      case Negation(a) => if a < n { ValGrows(lines, more, a, inp, st); }
      case Binary(_, l, r) =>
        if l < n { ValGrows(lines, more, l, inp, st); }
        if r < n { ValGrows(lines, more, r, inp, st); }
      case _ =>
    }
  }

  lemma {:induction false} InputGrows(lines: seq<Line>, more: seq<Line>, n: nat)
    requires lines <= more && n < |lines|
    ensures HasInput(more, n) == HasInput(lines, n)
    decreases n
  {
    assert more[n] == lines[n];
    match lines[n] {
      case Negation(a) => if a < n { InputGrows(lines, more, a); }
      case Binary(_, l, r) =>
        if l < n { InputGrows(lines, more, l); }
        if r < n { InputGrows(lines, more, r); }
      case _ =>
    }
  }

  lemma {:induction false} LineOkGrows(lines: seq<Line>, more: seq<Line>, i: nat)
    requires lines <= more && i < |lines| && LineOk(lines, i)
    ensures LineOk(more, i)
  {
    assert more[i] == lines[i];
    match lines[i] {
      case Init(s, v) => InputGrows(lines, more, v);
      case _ =>
    }
  }

  /** Appending one acceptable line keeps the text well formed. */
  lemma {:induction false} WellFormedGrows(lines: seq<Line>, l: Line)
    requires WellFormed(lines) && LineOk(lines + [l], |lines|)
    requires l.Init? ==> forall i :: 0 <= i < |lines| && lines[i].Init? ==> lines[i].target != l.target
    requires l.Next? ==> forall i :: 0 <= i < |lines| && lines[i].Next? ==> lines[i].target != l.target
    ensures WellFormed(lines + [l])
  {
    var more := lines + [l];
    forall i | 0 <= i < |more|
      ensures LineOk(more, i)
    {
      if i < |lines| {
        LineOkGrows(lines, more, i);
      }
    }
  }

  /** What one appended line adds to the transition system. */
  lemma {:induction false} DirectivesGrow(lines: seq<Line>, l: Line, inp: Vals, st: Vals, st': Vals)
    requires WellFormed(lines)
    ensures var more := lines + [l];
      var n := |lines|;
      && (Inits(more, inp, st) <==> Inits(lines, inp, st) && InitAt(more, n, inp, st))
      && (Nexts(more, inp, st, st') <==> Nexts(lines, inp, st, st') && NextAt(more, n, inp, st, st'))
      && (Constraints(more, inp, st) <==> Constraints(lines, inp, st) && ConstraintAt(more, n, inp, st))
      && (Bads(more, inp, st) <==> Bads(lines, inp, st) || BadAt(more, n, inp, st))
  {
    var more := lines + [l];
    forall i: nat | i < |lines|
      ensures InitAt(more, i, inp, st) <==> InitAt(lines, i, inp, st)
      ensures NextAt(more, i, inp, st, st') <==> NextAt(lines, i, inp, st, st')
      ensures ConstraintAt(more, i, inp, st) <==> ConstraintAt(lines, i, inp, st)
      ensures BadAt(more, i, inp, st) <==> BadAt(lines, i, inp, st)
    {
      PrefixDirective(lines, more, i, inp, st, st');
    }
    hide InitAt, NextAt, ConstraintAt, BadAt, WellFormed;
    if Bads(lines, inp, st) {
      var i :| 0 <= i < |lines| && BadAt(lines, i, inp, st);
      assert BadAt(more, i, inp, st);
    }
  }

  lemma {:induction false} PrefixDirective(lines: seq<Line>, more: seq<Line>, i: nat, inp: Vals, st: Vals, st': Vals)
    requires WellFormed(lines) && lines <= more && i < |lines|
    ensures InitAt(more, i, inp, st) <==> InitAt(lines, i, inp, st)
    ensures NextAt(more, i, inp, st, st') <==> NextAt(lines, i, inp, st, st')
    ensures ConstraintAt(more, i, inp, st) <==> ConstraintAt(lines, i, inp, st)
    ensures BadAt(more, i, inp, st) <==> BadAt(lines, i, inp, st)
  {
    assert more[i] == lines[i] && LineOk(lines, i);
    match lines[i] {
      case Init(_, v) => ValGrows(lines, more, v, inp, st);
      case Next(_, v) => ValGrows(lines, more, v, inp, st);
      case Constraint(v) => ValGrows(lines, more, v, inp, st);
      case Bad(v, _) => ValGrows(lines, more, v, inp, st);
      case _ =>
    }
  }

  // ----- the fields of the writer -----

  /** The fields of the writer taken together. */
  datatype Fields = Fields(
    lines: seq<Line>,
    kinds: seq<Kind>,
    dependsOnInput: seq<bool>,
    constants: (nat, nat),
    variables: map<nat, nat>,
    expressions: map<Expr, nat>,
    initialized: set<nat>,
    transitioned: set<nat>)

  /** The environment gives every bound variable the value of its node. */
  ghost predicate Binds(f: Fields, inp: Vals, st: Vals, env: Env) {
    forall v :: v in f.variables ==> env(v) == LineVal(f.lines, f.variables[v], inp, st)
  }

  ghost predicate Bound(e: Expr, variables: map<nat, nat>) {
    forall v :: v in Support(e) && v >= 2 ==> v in variables
  }

  /** The node evaluates to the expression, whatever the inputs and states are. */
  ghost predicate NodeMeans(f: Fields, n: nat, e: Expr) {
    && IsValue(f.lines, n) && Bound(e, f.variables)
    && forall inp, st, env :: Binds(f, inp, st, env) ==> LineVal(f.lines, n, inp, st) == Eval(e, env)
  }

  ghost predicate Tracked(f: Fields) {
    && |f.kinds| == |f.lines| == |f.dependsOnInput|
    && (forall i :: 0 <= i < |f.lines| ==>
         f.kinds[i] == KindOf(f.lines[i]) && f.dependsOnInput[i] == HasInput(f.lines, i))
  }

  ghost predicate Consistent(f: Fields) {
    && WellFormed(f.lines)
    && Tracked(f)
    && ConstantsOk(f)
    && VariablesOk(f)
    && AllMean(f)
    && Assigned(f)
  }

  ghost predicate ConstantsOk(f: Fields) {
    && (f.constants.0 != 0 ==> f.constants.0 < |f.lines| && f.lines[f.constants.0] == Const(false))
    && (f.constants.1 != 0 ==> f.constants.1 < |f.lines| && f.lines[f.constants.1] == Const(true))
  }

  ghost predicate VariablesOk(f: Fields) {
    forall v :: v in f.variables ==> 2 <= v < SIZE_MAX && IsValue(f.lines, f.variables[v])
  }

  /** The assigned states are exactly the targets of the init and next lines. */
  ghost predicate Assigned(f: Fields) {
    && (forall i :: 0 <= i < |f.lines| && f.lines[i].Init? ==> f.lines[i].target in f.initialized)
    && (forall i :: 0 <= i < |f.lines| && f.lines[i].Next? ==> f.lines[i].target in f.transitioned)
    && (forall s :: s in f.initialized ==> HasInit(f.lines, s))
    && (forall s :: s in f.transitioned ==> HasNext(f.lines, s))
  }

  ghost predicate HasInit(lines: seq<Line>, s: nat) {
    exists i :: 0 <= i < |lines| && lines[i].Init? && lines[i].target == s
  }

  ghost predicate HasNext(lines: seq<Line>, s: nat) {
    exists i :: 0 <= i < |lines| && lines[i].Next? && lines[i].target == s
  }

  /** The tracked flag of a new line, computed from the flags of its operands. */
  function Flag(flags: seq<bool>, l: Line): bool {
    match l
    case Input(_) => true
    case Negation(a) => a < |flags| && flags[a]
    case Binary(_, x, y) => (x < |flags| && flags[x]) || (y < |flags| && flags[y])
    case _ => false
  }

  function Emitted(f: Fields, l: Line): Fields {
    f.(lines := f.lines + [l],
       kinds := f.kinds + [KindOf(l)],
       dependsOnInput := f.dependsOnInput + [Flag(f.dependsOnInput, l)],
       initialized := if l.Init? then f.initialized + {l.target} else f.initialized,
       transitioned := if l.Next? then f.transitioned + {l.target} else f.transitioned)
  }

  /** The tracked flag is exact: it is set precisely when an input occurs in the cone. */
  lemma {:induction false} TrackedGrows(f: Fields, l: Line)
    requires Tracked(f) && LineOk(f.lines + [l], |f.lines|)
    ensures Tracked(Emitted(f, l))
  {
    var g := Emitted(f, l);
    forall i: nat | i < |g.lines|
      ensures g.kinds[i] == KindOf(g.lines[i]) && g.dependsOnInput[i] == HasInput(g.lines, i)
    {
      if i < |f.lines| {
        InputGrows(f.lines, g.lines, i);
      } else {
        match l {
          case Negation(a) => InputGrows(f.lines, g.lines, a);
          case Binary(_, x, y) =>
            InputGrows(f.lines, g.lines, x);
            InputGrows(f.lines, g.lines, y);
          case _ =>
        }
      }
    }
  }

  ghost predicate Extends(f: Fields, g: Fields) {
    && f.lines <= g.lines
    && forall v :: v in f.variables ==>
         f.variables[v] < |f.lines| && v in g.variables && g.variables[v] == f.variables[v]
  }

  lemma {:induction false} BindsShrinks(f: Fields, g: Fields, inp: Vals, st: Vals, env: Env)
    requires Extends(f, g) && Binds(g, inp, st, env)
    ensures Binds(f, inp, st, env)
  {
    forall v | v in f.variables
      ensures env(v) == LineVal(f.lines, f.variables[v], inp, st)
    {
      ValGrows(f.lines, g.lines, f.variables[v], inp, st);
      assert v in g.variables;
    }
  }

  lemma {:induction false} NodeMeansGrows(f: Fields, g: Fields, n: nat, e: Expr)
    requires NodeMeans(f, n, e) && Extends(f, g)
    ensures NodeMeans(g, n, e)
  {
    assert g.lines[n] == f.lines[n];
    forall inp, st, env | Binds(g, inp, st, env)
      ensures LineVal(g.lines, n, inp, st) == Eval(e, env)
    {
      BindsShrinks(f, g, inp, st, env);
      ValGrows(f.lines, g.lines, n, inp, st);
    }
  }

  /** All recorded expression nodes keep their meaning when the fields grow. */
  ghost predicate AllMean(f: Fields) {
    forall e :: e in f.expressions ==> NodeMeans(f, f.expressions[e], e)
  }

  lemma {:induction false} AllMeanGrows(f: Fields, g: Fields)
    requires AllMean(f) && Extends(f, g) && g.expressions == f.expressions
    ensures AllMean(g)
  {
    hide NodeMeans, Extends;
    forall e | e in g.expressions
      ensures NodeMeans(g, g.expressions[e], e)
    {
      NodeMeansGrows(f, g, f.expressions[e], e);
    }
  }

  ghost predicate Emittable(f: Fields, l: Line) {
    && LineOk(f.lines + [l], |f.lines|)
    && (l.Init? ==> l.target !in f.initialized)
    && (l.Next? ==> l.target !in f.transitioned)
  }

  lemma {:induction false} AssignedGrow(f: Fields, l: Line)
    requires Assigned(f)
    ensures Assigned(Emitted(f, l))
  {
    var g := Emitted(f, l);
    assert g.lines[|f.lines|] == l;
    assert forall i :: 0 <= i < |f.lines| ==> g.lines[i] == f.lines[i];
    forall s | s in g.initialized
      ensures HasInit(g.lines, s)
    {
      if s in f.initialized {
        assert HasInit(f.lines, s);
        var i :| 0 <= i < |f.lines| && f.lines[i].Init? && f.lines[i].target == s;
        assert g.lines[i].Init? && g.lines[i].target == s;
      }
    }
    forall s | s in g.transitioned
      ensures HasNext(g.lines, s)
    {
      if s in f.transitioned {
        assert HasNext(f.lines, s);
        var i :| 0 <= i < |f.lines| && f.lines[i].Next? && f.lines[i].target == s;
        assert g.lines[i].Next? && g.lines[i].target == s;
      }
    }
  }

  /** Every line the writer accepts keeps its fields consistent and its text well formed. */
  lemma {:induction false} EmitKeepsConsistent(f: Fields, l: Line)
    requires Consistent(f) && Emittable(f, l)
    ensures Consistent(Emitted(f, l))
  {
    hide WellFormed, Tracked, AllMean, Assigned, LineOk;
    var g := Emitted(f, l);
    TargetsAreFresh(f, l);
    WellFormedGrows(f.lines, l);
    TrackedGrows(f, l);
    AssignedGrow(f, l);
    TablesGrow(f, l);
    AllMeanGrows(f, g);
  }

  lemma {:induction false} TargetsAreFresh(f: Fields, l: Line)
    requires Assigned(f) && Emittable(f, l)
    ensures l.Init? ==> forall i :: 0 <= i < |f.lines| && f.lines[i].Init? ==> f.lines[i].target != l.target
    ensures l.Next? ==> forall i :: 0 <= i < |f.lines| && f.lines[i].Next? ==> f.lines[i].target != l.target
  {
  }

  lemma {:induction false} TablesGrow(f: Fields, l: Line)
    requires ConstantsOk(f) && VariablesOk(f)
    ensures ConstantsOk(Emitted(f, l)) && VariablesOk(Emitted(f, l)) && Extends(f, Emitted(f, l))
  {
    var g := Emitted(f, l);
    assert forall i :: 0 <= i < |f.lines| ==> g.lines[i] == f.lines[i];
  }

  // ----- the writer -----

  datatype Error =
    | InvalidNode | DuplicateAssignment | InitOrder | InitInput
    | Overflow | Reserved | Rebound | InvalidExpr

  datatype Result = Ok(id: nat) | Err(error: Error)

  /** The largest number of node IDs, from the signed 64-bit limit of the format. */
  const MAX_NODES: nat := 0x7FFF_FFFF_FFFF_FFFF

  lemma {:induction false} EmittedFields(f: Fields, l: Line, g: Fields)
    requires g.lines == f.lines + [l] && g.kinds == f.kinds + [KindOf(l)]
    requires g.dependsOnInput == f.dependsOnInput + [Flag(f.dependsOnInput, l)]
    requires g.constants == f.constants && g.variables == f.variables && g.expressions == f.expressions
    requires g.initialized == if l.Init? then f.initialized + {l.target} else f.initialized
    requires g.transitioned == if l.Next? then f.transitioned + {l.target} else f.transitioned
    ensures g == Emitted(f, l)
  {
  }

  /** Only value lines were added, and nothing but lines, constants and expressions changed. */
  ghost predicate Added(f: Fields, g: Fields) {
    && f.lines <= g.lines && OnlyValues(g.lines, |f.lines|)
    && g.variables == f.variables && g.initialized == f.initialized && g.transitioned == f.transitioned
    && (f.constants.0 != 0 ==> g.constants.0 == f.constants.0)
    && (f.constants.1 != 0 ==> g.constants.1 == f.constants.1)
  }

  predicate UnboundVar(e: Expr, vars: map<nat, nat>) {
    e.Var? && e.id >= 2 && e.id !in vars
  }

  /** The format's conditions on an init line. */
  ghost predicate InitAllowed(f: Fields, state: nat, value: nat) {
    && IsState(f.lines, state) && IsValue(f.lines, value) && value < state
    && !HasInput(f.lines, value) && state !in f.initialized
  }

  /** A state that was just declared has no init and no next line yet. */
  lemma {:induction false} FreshIsUnassigned(f: Fields, n: nat)
    requires Consistent(f) && n >= |f.lines|
    ensures n !in f.initialized && n !in f.transitioned
  {
    forall s | s in f.initialized
      ensures s < |f.lines|
    {
      assert HasInit(f.lines, s);
      var i :| 0 <= i < |f.lines| && f.lines[i].Init? && f.lines[i].target == s;
      assert LineOk(f.lines, i);
    }
    forall s | s in f.transitioned
      ensures s < |f.lines|
    {
      assert HasNext(f.lines, s);
      var i :| 0 <= i < |f.lines| && f.lines[i].Next? && f.lines[i].target == s;
      assert LineOk(f.lines, i);
    }
  }

  lemma {:induction false} AddedByLine(f: Fields, l: Line)
    requires KindOf(l) != KindOther
    ensures Added(f, Emitted(f, l)) && Added(f, f)
  {
  }

  lemma {:induction false} AddedReflexive(f: Fields)
    ensures Added(f, f)
  {
  }

  lemma {:induction false} AddedIgnoresExpressions(f: Fields, g: Fields, es: map<Expr, nat>)
    requires Added(f, g)
    ensures Added(f, g.(expressions := es))
  {
  }

  lemma {:induction false} AddedTransitive(f: Fields, g: Fields, k: Fields)
    requires Added(f, g) && Added(g, k)
    ensures Added(f, k)
  {
    assert forall i :: |f.lines| <= i < |g.lines| ==> k.lines[i] == g.lines[i];
  }

  class Btor2Writer {
    var lines: seq<Line>
    var kinds: seq<Kind>
    var dependsOnInput: seq<bool>
    var constants: (nat, nat)
    var variables: map<nat, nat>
    var expressions: map<Expr, nat>
    var initialized: set<nat>
    var transitioned: set<nat>

    ghost function All(): Fields
      reads this
    {
      Fields(lines, kinds, dependsOnInput, constants, variables, expressions, initialized, transitioned)
    }

    ghost predicate Valid()
      reads this
    {
      Consistent(All())
    }

    constructor ()
      ensures Valid()
      ensures lines == [Unused, Sort] && variables == map[] && expressions == map[]
      ensures constants == (0, 0) && initialized == {} && transitioned == {}
    {
      lines := [Unused, Sort];
      kinds := [KindOther, KindOther];
      dependsOnInput := [false, false];
      constants := (0, 0);
      variables, expressions := map[], map[];
      initialized, transitioned := {}, {};
    }

    /** `emit`: the next free ID, or an error at the ID limit. */
    method Emit(l: Line) returns (r: Result)
      requires Valid() && Emittable(All(), l)
      modifies this
      ensures Valid()
      ensures r.Ok? <==> |old(lines)| < MAX_NODES
      ensures r.Ok? ==> r.id == |old(lines)| && All() == Emitted(old(All()), l)
      ensures r.Err? ==> All() == old(All()) && r.error == Overflow
      ensures r == Err(Overflow) ==> |lines| >= MAX_NODES
    {
      hide Consistent, Emittable, Emitted, Flag, KindOf;
      if |lines| >= MAX_NODES {
        return Err(Overflow);
      }
      EmitKeepsConsistent(All(), l);
      r := Ok(|lines|);
      ghost var f := All();
      var flag := Flag(dependsOnInput, l);
      lines := lines + [l];
      kinds := kinds + [KindOf(l)];
      dependsOnInput := dependsOnInput + [flag];
      if l.Init? {
        initialized := initialized + {l.target};
      }
      if l.Next? {
        transitioned := transitioned + {l.target};
      }
      EmittedFields(f, l, All());
    }

    predicate RequireValue(n: nat)
      reads this
    {
      n < |kinds| && kinds[n] != KindOther
    }

    lemma {:induction false} RequireValueIsExact(n: nat)
      requires Valid()
      ensures RequireValue(n) <==> IsValue(lines, n)
    {
    }

    method NewInput(symbol: string) returns (r: Result)
      requires Valid()
      modifies this
      ensures Valid()
      ensures r.Ok? ==> r.id == |old(lines)| && All() == Emitted(old(All()), Input(symbol))
      ensures r.Err? ==> All() == old(All()) && r.error == Overflow
      ensures r == Err(Overflow) ==> |lines| >= MAX_NODES
    {
      r := Emit(Input(symbol));
    }

    method NewState(symbol: string) returns (r: Result)
      requires Valid()
      modifies this
      ensures Valid()
      ensures r.Ok? ==> r.id == |old(lines)| && All() == Emitted(old(All()), State(symbol))
      ensures r.Err? ==> All() == old(All()) && r.error == Overflow
      ensures r == Err(Overflow) ==> |lines| >= MAX_NODES
    {
      r := Emit(State(symbol));
    }

    /** `constant`: one line per constant, shared by all its uses. */
    method NewConst(value: bool) returns (r: Result)
      requires Valid()
      modifies this
      ensures Valid()
      ensures r.Ok? ==> r.id < |lines| && lines[r.id] == Const(value)
      ensures lines == old(lines) || lines == old(lines) + [Const(value)]
      ensures Added(old(All()), All())
      ensures variables == old(variables) && expressions == old(expressions)
      ensures initialized == old(initialized) && transitioned == old(transitioned)
      ensures r.Err? ==> All() == old(All()) && r.error == Overflow
      ensures r == Err(Overflow) ==> |lines| >= MAX_NODES
      ensures r.Ok? ==> (if value then constants.1 else constants.0) == r.id > 0
      ensures (if value then constants.0 == old(constants.0) else constants.1 == old(constants.1))
      ensures (if value then old(constants.1) else old(constants.0)) != 0 ==> r.Ok? && All() == old(All())
    {
      KnownConstant(All(), value);
      hide Consistent, OnlyValues, Emittable, Emitted;
      var known := if value then constants.1 else constants.0;
      if known != 0 {
        return Ok(known);
      }
      ghost var f := All();
      r := Emit(Const(value));
      ConstantLine(f, value);
      if r.Ok? {
        ConstantRecorded(All(), value, r.id);
        constants := if value then (constants.0, r.id) else (r.id, constants.1);
      }
    }

    method BindVariable(symbol: nat, node: nat) returns (r: Result)
      requires Valid()
      modifies this
      ensures Valid()
      ensures r.Ok? <==> IsValue(lines, node) && 2 <= symbol < SIZE_MAX
                         && (symbol in old(variables) ==> old(variables)[symbol] == node)
      ensures All() == if r.Ok? then old(All()).(variables := old(variables)[symbol := node]) else old(All())
    {
      RequireValueIsExact(node);
      if !RequireValue(node) {
        return Err(InvalidNode);
      }
      if symbol < 2 || symbol >= SIZE_MAX {
        return Err(Reserved);
      }
      if symbol in variables {
        if variables[symbol] != node {
          return Err(Rebound);
        }
        assert variables[symbol := node] == variables;
        return Ok(node);
      }
      BindingKept(All(), symbol, node);
      variables := variables[symbol := node];
      r := Ok(node);
    }

    method LogicalNot(value: nat) returns (r: Result)
      requires Valid()
      modifies this
      ensures Valid()
      ensures r.Ok? ==> r.id == |old(lines)| && All() == Emitted(old(All()), Negation(value))
      ensures r.Err? ==> All() == old(All())
      ensures r.Err? ==> (r.error == Overflow <==> IsValue(old(lines), value))
      ensures r == Err(Overflow) ==> |lines| >= MAX_NODES
      ensures r.Ok? <==> IsValue(old(lines), value) && |old(lines)| < MAX_NODES
    {
      RequireValueIsExact(value);
      if !RequireValue(value) {
        return Err(InvalidNode);
      }
      r := Emit(Negation(value));
    }

    method NewBinary(conn: Connective, left: nat, right: nat) returns (r: Result)
      requires Valid()
      modifies this
      ensures Valid()
      ensures r.Ok? ==> r.id == |old(lines)| && All() == Emitted(old(All()), Binary(conn, left, right))
      ensures r.Err? ==> All() == old(All())
      ensures r.Err? ==> (r.error == Overflow <==> IsValue(old(lines), left) && IsValue(old(lines), right))
      ensures r == Err(Overflow) ==> |lines| >= MAX_NODES
      ensures r.Ok? <==> IsValue(old(lines), left) && IsValue(old(lines), right) && |old(lines)| < MAX_NODES
    {
      RequireValueIsExact(left);
      RequireValueIsExact(right);
      if !RequireValue(left) || !RequireValue(right) {
        return Err(InvalidNode);
      }
      r := Emit(Binary(conn, left, right));
    }

    /** One node of an expression whose operands have been written. */
    method EmitGate(e: Expr) returns (r: Result)
      requires Valid() && Operands(All(), e)
      modifies this
      ensures Valid() && Added(old(All()), All())
      ensures r.Ok? ==> expressions == old(expressions)[e := r.id]
      ensures r.Err? ==> All() == old(All()) && r.error == Overflow
      ensures r == Err(Overflow) ==> |lines| >= MAX_NODES
    {
      hide Consistent, Emittable, NodeMeans, Added;
      var l := match e
        case Not(a) => Negation(expressions[a])
        case Bin(op, a, b) => Binary(ConnOf(op), expressions[a], expressions[b]);
      ghost var f := All();
      GateMeans(f, e);
      r := Emit(l);
      AddedByLine(f, l);
      if r.Ok? {
        AddedIgnoresExpressions(f, All(), expressions[e := r.id]);
        ExpressionRecorded(All(), e, r.id);
        expressions := expressions[e := r.id];
      }
    }

    /** A variable or constant leaf of an expression. */
    method EmitLeaf(id: nat) returns (r: Result)
      requires Valid()
      modifies this
      ensures Valid() && Added(old(All()), All())
      ensures r.Ok? ==> expressions == old(expressions)[Var(id) := r.id]
      ensures r.Err? ==> expressions == old(expressions)
      ensures r.Err? ==> r.error == Overflow || (r.error == InvalidExpr && id >= 2 && id !in variables)
      ensures r == Err(Overflow) ==> |lines| >= MAX_NODES
    {
      hide Consistent, NodeMeans, Added;
      ghost var f := All();
      AddedReflexive(f);
      if id < 2 {
        r := NewConst(id == 1);
        if r.Err? {
          return;
        }
      } else if id !in variables {
        return Err(InvalidExpr);
      } else {
        r := Ok(variables[id]);
      }
      LeafMeans(All(), id, r.id);
      AddedIgnoresExpressions(f, All(), expressions[Var(id) := r.id]);
      ExpressionRecorded(All(), Var(id), r.id);
      expressions := expressions[Var(id) := r.id];
    }

    /**
     `expression`: the line of an expression under the current bindings. The check for a
     node that is still in progress never fires on a DAG.
     */
    method Expression(e: Expr) returns (r: Result)
      requires Valid()
      modifies this
      ensures Valid() && Added(old(All()), All())
      ensures r.Ok? ==> NodeMeans(All(), r.id, e)
      ensures r.Err? ==> r.error == Overflow || (r.error == InvalidExpr && !Bound(e, variables))
      ensures r == Err(Overflow) ==> |lines| >= MAX_NODES
    {
      hide Walk, Nodes, Consistent, NodeMeans, Emitted, Added, InProgress, IsExpansion, Bound;
      ghost var start := All();
      AddedReflexive(start);
      var stack := [Frame(e, false)];
      var active: set<Expr> := {};
      ghost var begun: set<Expr> := {};
      WalkStarts(e, expressions.Keys);
      ProgressStarts(e, expressions.Keys);
      while stack != []
        invariant Valid() && Added(start, All()) && variables == start.variables
        invariant Walk(e, stack, expressions.Keys, begun)
        invariant InProgress(stack, active, expressions.Keys)
        decreases Nodes(e) - begun, |stack|
      {
        var frame := stack[|stack| - 1];
        var rest := stack[..|stack| - 1];
        assert stack == rest + [frame];
        var node := frame.node;
        if node in expressions {
          SkipTop(e, rest, frame, active, expressions.Keys, begun);
          stack := rest;
        } else if !node.Var? && !frame.visited {
          OpenTop(e, rest, node, active, expressions.Keys, begun);
          assert node !in active;
          active := active + {node};
          stack := rest + [Frame(node, true)] + ChildFrames(node);
          begun := begun + {node};
        } else {
          ghost var mid := All();
          var written := WriteTop(e, rest, frame, active, begun);
          AddedTransitive(start, mid, All());
          if written.Err? {
            return written;
          }
          active := active - {node};
          stack := rest;
        }
      }
      WalkEnds(e, stack, expressions.Keys, begun);
      r := Ok(expressions[e]);
      RecordedMeans(All(), e);
    }

    /** The frame on top of the stack is ready: write its node and drop it. */
    method WriteTop(ghost e: Expr, ghost rest: seq<Frame>, frame: Frame, ghost active: set<Expr>,
        ghost begun: set<Expr>)
      returns (r: Result)
      requires Valid()
      requires Walk(e, rest + [frame], expressions.Keys, begun) && InProgress(rest + [frame], active, expressions.Keys)
      requires frame.node !in expressions && (frame.node.Var? || frame.visited)
      modifies this
      ensures Valid() && Added(old(All()), All()) && variables == old(variables)
      ensures r.Ok? ==> Walk(e, rest, expressions.Keys, begun)
      ensures r.Ok? ==> InProgress(rest, active - {frame.node}, expressions.Keys)
      ensures r.Err? ==> r.error == Overflow || (r.error == InvalidExpr && !Bound(e, variables))
      ensures r == Err(Overflow) ==> |lines| >= MAX_NODES
    {
      hide Walk, Nodes, Consistent, Emitted, Added, InProgress, Operands, Bound, Visited, UnboundVar;
      ghost var done := expressions.Keys;
      WalkIsDistinct(e, rest, frame, done, begun);
      ReadyToWrite(e, rest, frame, All(), begun);
      r := WriteNode(frame.node);
      if r.Err? {
        if r.error != Overflow {
          UnboundLeaf(e, rest, frame, done, begun, variables);
        }
      } else {
        assert expressions.Keys == done + {frame.node};
        WalkPops(e, rest, frame, done, begun, expressions.Keys);
        ProgressPops(rest, frame, active, done, expressions.Keys);
      }
    }

    /** A node whose operands have been written. */
    method WriteNode(node: Expr) returns (r: Result)
      requires Valid() && (node.Var? || Operands(All(), node))
      modifies this
      ensures Valid() && Added(old(All()), All()) && variables == old(variables)
      ensures r.Ok? ==> expressions == old(expressions)[node := r.id]
      ensures r.Err? ==> expressions == old(expressions)
      ensures r.Err? ==> r.error == Overflow || (r.error == InvalidExpr && UnboundVar(node, variables))
      ensures r == Err(Overflow) ==> |lines| >= MAX_NODES
    {
      if node.Var? {
        r := EmitLeaf(node.id);
      } else {
        r := EmitGate(node);
      }
    }

    /** `init`: rejected unless the value precedes the state and has no input in its cone. */
    method NewInit(state: nat, value: nat) returns (r: Result)
      requires Valid()
      modifies this
      ensures Valid()
      ensures r.Ok? ==> All() == Emitted(old(All()), Init(state, value))
      ensures r.Err? ==> All() == old(All())
      ensures r.Err? ==> (r.error == Overflow <==> InitAllowed(old(All()), state, value))
      ensures r == Err(Overflow) ==> |lines| >= MAX_NODES
      ensures r.Ok? <==> InitAllowed(old(All()), state, value) && |old(lines)| < MAX_NODES
    {
      RequireValueIsExact(value);
      if state >= |kinds| || kinds[state] != KindState || !RequireValue(value) {
        return Err(InvalidNode);
      }
      if value >= state {
        return Err(InitOrder);
      }
      if dependsOnInput[value] {
        return Err(InitInput);
      }
      if state in initialized {
        return Err(DuplicateAssignment);
      }
      AppendedInit(lines, state, value);
      r := Emit(Init(state, value));
    }

    method NewNext(state: nat, value: nat) returns (r: Result)
      requires Valid()
      modifies this
      ensures Valid()
      ensures r.Ok? ==> All() == Emitted(old(All()), Next(state, value))
      ensures r.Err? ==> All() == old(All())
      ensures r.Err? ==>
        (r.error == Overflow
         <==> IsState(old(lines), state) && IsValue(old(lines), value) && state !in old(transitioned))
      ensures r == Err(Overflow) ==> |lines| >= MAX_NODES
      ensures r.Ok? <==> IsState(old(lines), state) && IsValue(old(lines), value)
                         && state !in old(transitioned) && |old(lines)| < MAX_NODES
    {
      RequireValueIsExact(value);
      if state >= |kinds| || kinds[state] != KindState || !RequireValue(value) {
        return Err(InvalidNode);
      }
      if state in transitioned {
        return Err(DuplicateAssignment);
      }
      r := Emit(Next(state, value));
    }

    method NewConstraint(value: nat) returns (r: Result)
      requires Valid()
      modifies this
      ensures Valid()
      ensures r.Ok? ==> All() == Emitted(old(All()), Constraint(value))
      ensures r.Err? ==> All() == old(All())
      ensures r.Err? ==> (r.error == Overflow <==> IsValue(old(lines), value))
      ensures r == Err(Overflow) ==> |lines| >= MAX_NODES
      ensures r.Ok? <==> IsValue(old(lines), value) && |old(lines)| < MAX_NODES
    {
      RequireValueIsExact(value);
      if !RequireValue(value) {
        return Err(InvalidNode);
      }
      r := Emit(Constraint(value));
    }

    method NewBad(value: nat, symbol: string) returns (r: Result)
      requires Valid()
      modifies this
      ensures Valid()
      ensures r.Ok? ==> All() == Emitted(old(All()), Bad(value, symbol))
      ensures r.Err? ==> All() == old(All())
      ensures r.Err? ==> (r.error == Overflow <==> IsValue(old(lines), value))
      ensures r == Err(Overflow) ==> |lines| >= MAX_NODES
      ensures r.Ok? <==> IsValue(old(lines), value) && |old(lines)| < MAX_NODES
    {
      RequireValueIsExact(value);
      if !RequireValue(value) {
        return Err(InvalidNode);
      }
      r := Emit(Bad(value, symbol));
    }

    method NewOutput(value: nat, symbol: string) returns (r: Result)
      requires Valid()
      modifies this
      ensures Valid()
      ensures r.Ok? ==> All() == Emitted(old(All()), Output(value, symbol))
      ensures r.Err? ==> All() == old(All())
      ensures r.Err? ==> (r.error == Overflow <==> IsValue(old(lines), value))
      ensures r == Err(Overflow) ==> |lines| >= MAX_NODES
      ensures r.Ok? <==> IsValue(old(lines), value) && |old(lines)| < MAX_NODES
    {
      RequireValueIsExact(value);
      if !RequireValue(value) {
        return Err(InvalidNode);
      }
      r := Emit(Output(value, symbol));
    }
  }

  lemma {:induction false} AppendedInit(lines: seq<Line>, state: nat, value: nat)
    requires IsState(lines, state) && IsValue(lines, value) && value < state && !HasInput(lines, value)
    ensures LineOk(lines + [Init(state, value)], |lines|)
  {
    InputGrows(lines, lines + [Init(state, value)], value);
  }

  lemma {:induction false} TrackedIgnoresTables(f: Fields, g: Fields)
    requires Tracked(f) && Assigned(f)
    requires f.lines == g.lines && f.kinds == g.kinds && f.dependsOnInput == g.dependsOnInput
    requires f.initialized == g.initialized && f.transitioned == g.transitioned
    ensures Tracked(g) && Assigned(g)
  {
  }

  /** A recorded constant is its line, and nothing has been added yet. */
  lemma {:induction false} KnownConstant(f: Fields, value: bool)
    requires Consistent(f)
    ensures OnlyValues(f.lines, |f.lines|) && Emittable(f, Const(value))
    ensures var c := if value then f.constants.1 else f.constants.0; c != 0 ==>
      c < |f.lines| && f.lines[c] == Const(value)
  {
  }

  lemma {:induction false} ConstantLine(f: Fields, value: bool)
    ensures var g := Emitted(f, Const(value));
      && g.lines == f.lines + [Const(value)] && OnlyValues(g.lines, |f.lines|)
      && g.variables == f.variables && g.expressions == f.expressions && g.constants == f.constants
      && g.initialized == f.initialized && g.transitioned == f.transitioned
  {
  }

  lemma {:induction false} ConstantRecorded(f: Fields, value: bool, n: nat)
    requires Consistent(f) && n < |f.lines| && f.lines[n] == Const(value)
    ensures n > 1
    ensures Consistent(f.(constants := if value then (f.constants.0, n) else (n, f.constants.1)))
  {
    var g := f.(constants := if value then (f.constants.0, n) else (n, f.constants.1));
    AllMeanGrows(f, g);
    TrackedIgnoresTables(f, g);
    assert LineOk(f.lines, n);
  }

  lemma {:induction false} BindingKept(f: Fields, symbol: nat, node: nat)
    requires Consistent(f) && IsValue(f.lines, node) && 2 <= symbol < SIZE_MAX && symbol !in f.variables
    ensures Consistent(f.(variables := f.variables[symbol := node]))
  {
    var g := f.(variables := f.variables[symbol := node]);
    hide WellFormed, Tracked, AllMean, Assigned;
    AllMeanGrows(f, g);
    TrackedIgnoresTables(f, g);
  }

  // ----- expressions -----

  /** Lines that carry values only; appending them leaves the transition system as it was. */
  ghost predicate OnlyValues(lines: seq<Line>, from: nat) {
    forall i :: from <= i < |lines| ==> KindOf(lines[i]) != KindOther
  }

  lemma {:induction false} ValuesAreNeutral(lines: seq<Line>, more: seq<Line>, inp: Vals, st: Vals, st': Vals)
    requires WellFormed(more) && WellFormed(lines) && lines <= more && OnlyValues(more, |lines|)
    ensures Inits(more, inp, st) <==> Inits(lines, inp, st)
    ensures Nexts(more, inp, st, st') <==> Nexts(lines, inp, st, st')
    ensures Constraints(more, inp, st) <==> Constraints(lines, inp, st)
    ensures Bads(more, inp, st) <==> Bads(lines, inp, st)
  {
    forall i: nat | i < |lines|
      ensures InitAt(more, i, inp, st) <==> InitAt(lines, i, inp, st)
      ensures NextAt(more, i, inp, st, st') <==> NextAt(lines, i, inp, st, st')
      ensures ConstraintAt(more, i, inp, st) <==> ConstraintAt(lines, i, inp, st)
      ensures BadAt(more, i, inp, st) <==> BadAt(lines, i, inp, st)
    {
      PrefixDirective(lines, more, i, inp, st, st');
    }
    forall i: nat | |lines| <= i < |more|
      ensures InitAt(more, i, inp, st) && NextAt(more, i, inp, st, st') && ConstraintAt(more, i, inp, st)
      ensures !BadAt(more, i, inp, st)
    {
      assert KindOf(more[i]) != KindOther;
    }
    hide InitAt, NextAt, ConstraintAt, BadAt, WellFormed, OnlyValues;
    if Bads(lines, inp, st) {
      var i :| 0 <= i < |lines| && BadAt(lines, i, inp, st);
      assert BadAt(more, i, inp, st);
    }
  }

  /** The line of a gate or negation over operands that have been written. */
  function GateLine(f: Fields, e: Expr): Line
    requires Operands(f, e)
  {
    match e
    case Not(a) => Negation(f.expressions[a])
    case Bin(op, a, b) => Binary(ConnOf(op), f.expressions[a], f.expressions[b])
  }

  predicate Operands(f: Fields, e: Expr) {
    match e
    case Var(_) => false
    case Not(a) => a in f.expressions
    case Bin(_, a, b) => a in f.expressions && b in f.expressions
  }

  lemma {:induction false} GateMeans(f: Fields, e: Expr)
    requires Consistent(f) && Operands(f, e)
    ensures Emittable(f, GateLine(f, e))
    ensures NodeMeans(Emitted(f, GateLine(f, e)), |f.lines|, e)
  {
    var l := GateLine(f, e);
    var g := Emitted(f, l);
    TablesGrow(f, l);
    if e.Not? {
      RecordedMeans(f, e.arg);
      NodeMeansGrows(f, g, f.expressions[e.arg], e.arg);
      hide Consistent, Extends;
      NotNodeMeans(g, |f.lines|, f.expressions[e.arg], e.arg);
    } else {
      RecordedMeans(f, e.left);
      RecordedMeans(f, e.right);
      NodeMeansGrows(f, g, f.expressions[e.left], e.left);
      NodeMeansGrows(f, g, f.expressions[e.right], e.right);
      hide Consistent, Extends;
      GateNodeMeans(g, |f.lines|, e.op, f.expressions[e.left], f.expressions[e.right], e.left, e.right);
    }
  }

  lemma {:induction false} NotNodeMeans(g: Fields, n: nat, x: nat, a: Expr)
    requires n < |g.lines| && g.lines[n] == Negation(x) && x < n && NodeMeans(g, x, a)
    ensures NodeMeans(g, n, Not(a))
  {
  }

  lemma {:induction false} GateNodeMeans(g: Fields, n: nat, op: BinOp, x: nat, y: nat, a: Expr, b: Expr)
    requires n < |g.lines| && g.lines[n] == Binary(ConnOf(op), x, y) && x < n && y < n
    requires NodeMeans(g, x, a) && NodeMeans(g, y, b)
    ensures NodeMeans(g, n, Bin(op, a, b))
  {
  }

  function ConnOf(op: BinOp): Connective {
    match op
    case AND => ConnAnd
    case OR => ConnOr
    case XOR => ConnXor
  }

  /** The nodes in progress are those with a visited frame, and none of them is finished. */
  ghost predicate InProgress(stack: seq<Frame>, active: set<Expr>, done: set<Expr>) {
    && (forall n :: n in active ==> Visited(stack, n) && !n.Var?)
    && (forall n :: Visited(stack, n) ==> n !in done)
  }

  lemma {:induction false} ProgressStarts(e: Expr, done: set<Expr>)
    ensures InProgress([Frame(e, false)], {}, done)
  {
  }

  lemma {:induction false} ProgressPops(rest: seq<Frame>, top: Frame, active: set<Expr>, done: set<Expr>,
      done': set<Expr>)
    requires InProgress(rest + [top], active, done) && !Visited(rest, top.node)
    requires done' == done + {top.node}
    ensures InProgress(rest, active - {top.node}, done')
    ensures top.node in done ==> active - {top.node} == active
  {
    assert forall n :: Visited(rest, n) ==> Visited(rest + [top], n);
    assert forall n :: Visited(rest + [top], n) ==> n == top.node || Visited(rest, n);
  }

  lemma {:induction false} ProgressIsFresh(rest: seq<Frame>, top: Frame, active: set<Expr>, done: set<Expr>)
    requires InProgress(rest + [top], active, done) && !Visited(rest, top.node) && !top.visited
    ensures top.node !in active
  {
  }

  lemma {:induction false} ProgressOpens(rest: seq<Frame>, n: Expr, active: set<Expr>, done: set<Expr>,
      pushed: seq<Frame>)
    requires InProgress(rest + [Frame(n, false)], active - {n}, done) && n !in done && !n.Var?
    requires IsExpansion(n, pushed)
    ensures InProgress(rest + [Frame(n, true)] + pushed, active, done)
  {
    var stack, stack' := rest + [Frame(n, false)], rest + [Frame(n, true)] + pushed;
    assert forall x :: Visited(stack, x) ==> Visited(stack', x);
    assert forall f :: f in pushed ==> !f.visited;
    assert forall x :: Visited(stack', x) ==> x == n || Visited(stack, x);
    assert stack'[|rest|] == Frame(n, true);
  }

  /** A frame whose node has been written is dropped; its node was not in progress. */
  lemma {:induction false} SkipTop(root: Expr, rest: seq<Frame>, top: Frame, active: set<Expr>, done: set<Expr>,
      begun: set<Expr>)
    requires Walk(root, rest + [top], done, begun) && InProgress(rest + [top], active, done) && top.node in done
    ensures Walk(root, rest, done, begun) && InProgress(rest, active, done)
  {
    hide Walk, InProgress, Visited;
    WalkIsDistinct(root, rest, top, done, begun);
    WalkPops(root, rest, top, done, begun, done);
    assert done == done + {top.node};
    ProgressPops(rest, top, active, done, done);
  }

  /** A fresh frame is expanded; its node is not in progress, so no cycle is ever reported. */
  lemma {:induction false} OpenTop(root: Expr, rest: seq<Frame>, n: Expr, active: set<Expr>, done: set<Expr>,
      begun: set<Expr>)
    requires Walk(root, rest + [Frame(n, false)], done, begun) && InProgress(rest + [Frame(n, false)], active, done)
    requires n !in done && !n.Var?
    ensures n !in active && n !in begun && n in Nodes(root)
    ensures Walk(root, rest + [Frame(n, true)] + ChildFrames(n), done, begun + {n})
    ensures InProgress(rest + [Frame(n, true)] + ChildFrames(n), active + {n}, done)
  {
    hide Walk, InProgress, Visited;
    WalkIsDistinct(root, rest, Frame(n, false), done, begun);
    ProgressIsFresh(rest, Frame(n, false), active, done);
    WalkOpens(root, rest, n, done, begun, ChildFrames(n));
    assert active + {n} - {n} == active;
    ProgressOpens(rest, n, active + {n}, done, ChildFrames(n));
  }

  lemma {:induction false} ReadyToWrite(root: Expr, rest: seq<Frame>, frame: Frame, f: Fields, begun: set<Expr>)
    requires Walk(root, rest + [frame], f.expressions.Keys, begun)
    requires frame.node.Var? || frame.visited
    ensures frame.node.Var? || Operands(f, frame.node)
  {
    if !frame.node.Var? {
      assert frame == Frame(frame.node, true);
      WalkReady(root, rest, frame.node, f.expressions.Keys, begun);
      assert IsChild(if frame.node.Not? then frame.node.arg else frame.node.left, frame.node);
      assert frame.node.Bin? ==> IsChild(frame.node.right, frame.node);
    }
  }

  /** An unbound leaf on the stack is an unbound variable of the whole expression. */
  lemma {:induction false} UnboundLeaf(root: Expr, rest: seq<Frame>, frame: Frame, done: set<Expr>, begun: set<Expr>,
      vars: map<nat, nat>)
    requires Walk(root, rest + [frame], done, begun)
    requires UnboundVar(frame.node, vars)
    ensures !Bound(root, vars)
  {
    WalkTop(root, rest, frame, done, begun);
    NodeSupport(root, frame.node);
  }

  lemma {:induction false} RecordedMeans(f: Fields, e: Expr)
    requires Consistent(f) && e in f.expressions
    ensures NodeMeans(f, f.expressions[e], e)
  {
  }

  lemma {:induction false} LeafMeans(f: Fields, id: nat, n: nat)
    requires Consistent(f)
    requires if id < 2 then n < |f.lines| && f.lines[n] == Const(id == 1)
             else id in f.variables && n == f.variables[id]
    ensures NodeMeans(f, n, Var(id))
  {
  }

  lemma {:induction false} ExpressionRecorded(f: Fields, e: Expr, n: nat)
    requires Consistent(f) && NodeMeans(f, n, e)
    ensures Consistent(f.(expressions := f.expressions[e := n]))
  {
    var g := f.(expressions := f.expressions[e := n]);
    hide WellFormed;
    assert Extends(f, g);
    assert AllMean(g) by {
      hide NodeMeans, Extends;
      forall x | x in g.expressions
        ensures NodeMeans(g, g.expressions[x], x)
      {
        if x == e {
          NodeMeansGrows(f, g, n, e);
        } else {
          NodeMeansGrows(f, g, f.expressions[x], x);
        }
      }
    }
    hide AllMean, Extends, NodeMeans;
    TrackedIgnoresTables(f, g);
  }
}
