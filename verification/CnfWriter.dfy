/**
 `encodeBoolExprToCnf`: the Tseitin encoding of a shared DAG, one DIMACS variable per
 variable name, per constant and per gate.
 */
module CnfWriter {
  import opened BoolExprs
  import opened Traversals

  type Model = int -> bool
  type Clause = seq<int>

  datatype Cnf = Cnf(numVars: nat, clauses: seq<Clause>, rootLit: int, names: map<string, int>)

  // ----- variable names -----

  function ConstName(value: bool): string {
    if value then "$__CONST_TRUE__" else "$__CONST_FALSE__"
  }

  function Decimal(n: nat): (s: string) {
    var digit := ('0' as int + n % 10) as char;
    if n < 10 then [digit] else Decimal(n / 10) + [digit]
  }

  function Parse(s: string): int {
    if s == [] then 0 else 10 * Parse(s[..|s| - 1]) + (s[|s| - 1] as int - '0' as int)
  }

  lemma {:induction false} ParseDecimal(n: nat)
    ensures Parse(Decimal(n)) == n
  {
    var s := Decimal(n);
    if n < 10 {
      assert s[..0] == [];
    } else {
      ParseDecimal(n / 10);
      assert s[..|s| - 1] == Decimal(n / 10);
    }
  }

  function Name(v: nat): string {
    "x" + Decimal(v)
  }

  /** Different variables have different names, and no variable is named like a constant. */
  lemma {:induction false} NamesAreDistinct(v: nat, w: nat)
    ensures Name(v) == Name(w) ==> v == w
    ensures forall value :: Name(v) != ConstName(value)
    ensures ConstName(true) != ConstName(false)
  {
    assert Name(v)[1..] == Decimal(v) && Name(w)[1..] == Decimal(w);
    ParseDecimal(v);
    ParseDecimal(w);
    assert Name(v)[0] == 'x' && forall value :: ConstName(value)[0] == '$';
    assert ConstName(true)[10] != ConstName(false)[10];
  }

  // ----- clauses and models -----

  predicate LitHolds(m: Model, lit: int) {
    if lit > 0 then m(lit) else !m(-lit)
  }

  ghost predicate ClauseHolds(m: Model, c: Clause) {
    exists i :: 0 <= i < |c| && LitHolds(m, c[i])
  }

  ghost predicate AllHold(m: Model, clauses: seq<Clause>) {
    forall c :: c in clauses ==> ClauseHolds(m, c)
  }

  lemma {:induction false} AllHoldConcat(m: Model, a: seq<Clause>, b: seq<Clause>)
    ensures AllHold(m, a + b) <==> AllHold(m, a) && AllHold(m, b)
  {
    assert forall c :: c in a + b <==> c in a || c in b;
  }

  lemma {:induction false} ClauseOf1(m: Model, a: int)
    ensures ClauseHolds(m, [a]) <==> LitHolds(m, a)
  {
    assert [a][0] == a;
  }

  lemma {:induction false} ClauseOf2(m: Model, a: int, b: int)
    ensures ClauseHolds(m, [a, b]) <==> LitHolds(m, a) || LitHolds(m, b)
  {
    assert [a, b][0] == a && [a, b][1] == b;
  }

  lemma {:induction false} ClauseOf3(m: Model, a: int, b: int, c: int)
    ensures ClauseHolds(m, [a, b, c]) <==> LitHolds(m, a) || LitHolds(m, b) || LitHolds(m, c)
  {
    assert [a, b, c][0] == a && [a, b, c][1] == b && [a, b, c][2] == c;
  }

  function NotClauses(v: int, a: int): seq<Clause> {
    [[-v, -a], [v, a]]
  }

  function GateClauses(op: BinOp, v: int, a: int, b: int): seq<Clause> {
    match op
    case AND => [[-v, a], [-v, b], [v, -a, -b]]
    case OR => [[-a, v], [-b, v], [-v, a, b]]
    case XOR => [[-v, -a, -b], [-v, a, b], [v, -a, b], [v, a, -b]]
  }

  /** The clauses of a gate hold exactly when its variable has the value of the gate. */
  lemma {:induction false} GateClausesDefine(m: Model, op: BinOp, v: int, a: int, b: int)
    requires v > 0 && a > 0 && b > 0
    ensures AllHold(m, GateClauses(op, v, a, b)) <==> (m(v) == Apply(op, m(a), m(b)))
  {
    hide ClauseHolds;
    var cs := GateClauses(op, v, a, b);
    match op {
      case AND =>
        assert forall c :: c in cs <==> c == [-v, a] || c == [-v, b] || c == [v, -a, -b];
        ClauseOf2(m, -v, a);
        ClauseOf2(m, -v, b);
        ClauseOf3(m, v, -a, -b);
      case OR =>
        assert forall c :: c in cs <==> c == [-a, v] || c == [-b, v] || c == [-v, a, b];
        ClauseOf2(m, -a, v);
        ClauseOf2(m, -b, v);
        ClauseOf3(m, -v, a, b);
      case XOR =>
        assert forall c :: c in cs <==> c == [-v, -a, -b] || c == [-v, a, b] || c == [v, -a, b] || c == [v, a, -b];
        ClauseOf3(m, -v, -a, -b);
        ClauseOf3(m, -v, a, b);
        ClauseOf3(m, v, -a, b);
        ClauseOf3(m, v, a, -b);
    }
  }

  lemma {:induction false} NotClausesDefine(m: Model, v: int, a: int)
    requires v > 0 && a > 0
    ensures AllHold(m, NotClauses(v, a)) <==> (m(v) == !m(a))
  {
    hide ClauseHolds;
    assert forall c :: c in NotClauses(v, a) <==> c == [-v, -a] || c == [v, a];
    ClauseOf2(m, -v, -a);
    ClauseOf2(m, v, a);
  }

  function Unit(v: int, value: bool): Clause {
    [if value then v else -v]
  }

  // ----- the state of the encoder -----

  datatype State = State(clauses: seq<Clause>, names: map<string, int>, forced: set<string>, nextVar: nat)

  ghost predicate InRange(clauses: seq<Clause>, n: nat) {
    forall c, i :: c in clauses && 0 <= i < |c| ==> 0 < (if c[i] > 0 then c[i] else -c[i]) <= n
  }

  /** The model gives every named variable the value it has in the environment. */
  ghost predicate Agrees(names: map<string, int>, m: Model, env: Env) {
    forall v :: v >= 2 && Name(v) in names ==> m(names[Name(v)]) == env(v)
  }

  ghost predicate Good(s: State, m: Model, env: Env) {
    AllHold(m, s.clauses) && Agrees(s.names, m, env)
  }

  ghost predicate WellFormed(s: State) {
    && InRange(s.clauses, s.nextVar)
    && (forall k :: k in s.names ==> 0 < s.names[k] <= s.nextVar)
    && (forall value :: ConstName(value) in s.names ==> Unit(s.names[ConstName(value)], value) in s.clauses)
    && (forall value :: ConstName(value) in s.forced <==> ConstName(value) in s.names)
  }

  /** Every environment extends to a model of the clauses. */
  ghost predicate Complete(s: State) {
    forall env :: Extends(s, env)
  }

  ghost predicate Extends(s: State, env: Env) {
    exists m :: Good(s, m, env)
  }

  ghost predicate LitMeans(s: State, lit: int, e: Expr) {
    && 0 < lit <= s.nextVar
    && forall m, env :: Good(s, m, env) ==> m(lit) == Eval(e, env)
  }

  /** Every recorded literal has the value of its node in every model. */
  ghost predicate Sound(s: State, lits: map<Expr, int>) {
    forall n :: n in lits ==> LitMeans(s, lits[n], n)
  }

  ghost predicate Grows(s: State, s': State) {
    && s.nextVar <= s'.nextVar
    && (forall c :: c in s.clauses ==> c in s'.clauses)
    && (forall k :: k in s.names ==> k in s'.names && s'.names[k] == s.names[k])
  }

  lemma {:induction false} GoodShrinks(s: State, s': State, m: Model, env: Env)
    requires Grows(s, s') && Good(s', m, env)
    ensures Good(s, m, env)
  {
  }

  lemma {:induction false} SoundGrows(s: State, s': State, lits: map<Expr, int>)
    requires Sound(s, lits) && Grows(s, s')
    ensures Sound(s', lits)
  {
    forall n | n in lits
      ensures LitMeans(s', lits[n], n)
    {
      forall m, env | Good(s', m, env)
        ensures m(lits[n]) == Eval(n, env)
      {
        GoodShrinks(s, s', m, env);
        assert LitMeans(s, lits[n], n);
      }
    }
  }

  function Update(m: Model, v: int, b: bool): Model {
    x => if x == v then b else m(x)
  }

  /** Giving a fresh variable a value keeps a model a model. */
  lemma {:induction false} FreshVariable(s: State, m: Model, env: Env, v: int, b: bool)
    requires WellFormed(s) && Good(s, m, env) && v > s.nextVar
    ensures Good(s, Update(m, v, b), env)
  {
    var m' := Update(m, v, b);
    forall c | c in s.clauses
      ensures ClauseHolds(m', c)
    {
      var i :| 0 <= i < |c| && LitHolds(m, c[i]);
      assert 0 < (if c[i] > 0 then c[i] else -c[i]) <= s.nextVar;
      assert LitHolds(m', c[i]);
    }
  }

  predicate ChildrenIn(e: Expr, lits: map<Expr, int>) {
    match e
    case Var(_) => true
    case Not(a) => a in lits
    case Bin(_, l, r) => l in lits && r in lits
  }

  /** A gate or negation node: a new variable defined by its clauses. */
  lemma {:induction false} DefineNode(s: State, s': State, lits: map<Expr, int>, e: Expr, cs: seq<Clause>)
    requires WellFormed(s) && Complete(s) && Sound(s, lits)
    requires e.Not? || e.Bin?
    requires ChildrenIn(e, lits)
    requires s' == s.(nextVar := s.nextVar + 1, clauses := s.clauses + cs)
    requires InRange(cs, s.nextVar + 1)
    requires e.Not? ==> forall m :: AllHold(m, cs) <==> (m(s'.nextVar) == !m(lits[e.arg]))
    requires e.Bin? ==>
      forall m :: AllHold(m, cs) <==> (m(s'.nextVar) == Apply(e.op, m(lits[e.left]), m(lits[e.right])))
    ensures Complete(s') && Sound(s', lits[e := s'.nextVar])
    ensures WellFormed(s') && Grows(s, s')
  {
    hide AllHold, Eval;
    var v := s'.nextVar;
    assert Grows(s, s');
    forall m, env | Good(s', m, env)
      ensures m(v) == Eval(e, env)
    {
      AllHoldConcat(m, s.clauses, cs);
      GoodShrinks(s, s', m, env);
      EvalNode(s, lits, e, m, env);
    }
    SoundGrows(s, s', lits);
    forall env
      ensures Extends(s', env)
    {
      assert Extends(s, env);
      var m :| Good(s, m, env);
      var m' := Update(m, v, Eval(e, env));
      FreshVariable(s, m, env, v, Eval(e, env));
      EvalNode(s, lits, e, m', env);
      AllHoldConcat(m', s.clauses, cs);
      assert Good(s', m', env);
    }
  }

  lemma {:induction false} EvalNode(s: State, lits: map<Expr, int>, e: Expr, m: Model, env: Env)
    requires Sound(s, lits) && Good(s, m, env)
    requires ChildrenIn(e, lits)
    ensures e.Not? ==> Eval(e, env) == !m(lits[e.arg])
    ensures e.Bin? ==> Eval(e, env) == Apply(e.op, m(lits[e.left]), m(lits[e.right]))
  {
    if e.Not? {
      assert LitMeans(s, lits[e.arg], e.arg);
    } else if e.Bin? {
      assert LitMeans(s, lits[e.left], e.left) && LitMeans(s, lits[e.right], e.right);
    }
  }

  /** `getOrCreateVar` for the name of a variable. */
  lemma {:induction false} DeclareVar(s: State, s': State, v: nat)
    requires WellFormed(s) && Complete(s) && v >= 2
    requires Name(v) !in s.names
    requires s' == s.(nextVar := s.nextVar + 1, names := s.names[Name(v) := s.nextVar + 1])
    ensures WellFormed(s') && Complete(s') && Grows(s, s')
  {
    NamesAreDistinct(v, v);
    hide AllHold, Decimal;
    forall env: Env
      ensures Extends(s', env)
    {
      assert Extends(s, env);
      var m :| Good(s, m, env);
      var m' := Update(m, s'.nextVar, env(v));
      FreshVariable(s, m, env, s'.nextVar, env(v));
      forall w | w >= 2 && Name(w) in s'.names
        ensures m'(s'.names[Name(w)]) == env(w)
      {
        NamesAreDistinct(v, w);
      }
      assert Good(s', m', env);
    }
  }

  /** `constVar`: the name of the constant and its unit clause. */
  lemma {:induction false} DeclareConst(s: State, s': State, value: bool)
    requires WellFormed(s) && Complete(s)
    requires ConstName(value) !in s.names
    requires s' == State(s.clauses + [Unit(s.nextVar + 1, value)], s.names[ConstName(value) := s.nextVar + 1],
                         s.forced + {ConstName(value)}, s.nextVar + 1)
    ensures WellFormed(s') && Complete(s') && Grows(s, s')
  {
    var v: int := s'.nextVar;
    var unit := Unit(v, value);
    NamesAreDistinct(0, 0);
    hide AllHold, Decimal, ConstName;
    forall env: Env
      ensures Extends(s', env)
    {
      assert Extends(s, env);
      var m :| Good(s, m, env);
      var m' := Update(m, v, value);
      FreshVariable(s, m, env, v, value);
      ClauseOf1(m', unit[0]);
      UnitHolds(m', unit);
      AllHoldConcat(m', s.clauses, [unit]);
      forall w | w >= 2 && Name(w) in s'.names
        ensures m'(s'.names[Name(w)]) == env(w)
      {
        NamesAreDistinct(w, w);
      }
      assert Good(s', m', env);
    }
    assert unit in s'.clauses;
    assert InRange([unit], s'.nextVar);
    RangeConcat(s.clauses, [unit], s.nextVar, s'.nextVar);
  }

  lemma {:induction false} RangeConcat(a: seq<Clause>, b: seq<Clause>, n: nat, n': nat)
    requires InRange(a, n) && InRange(b, n') && n <= n'
    ensures InRange(a + b, n')
  {
  }

  lemma {:induction false} UnitHolds(m: Model, c: Clause)
    requires ClauseHolds(m, c)
    ensures AllHold(m, [c])
  {
  }

  lemma {:induction false} UnitForces(s: State, lit: int, value: bool)
    requires WellFormed(s) && lit > 0 && Unit(lit, value) in s.clauses
    ensures forall m, env :: Good(s, m, env) ==> m(lit) == value
  {
    forall m, env | Good(s, m, env)
      ensures m(lit) == value
    {
      var c := Unit(lit, value);
      assert ClauseHolds(m, c);
      ClauseOf1(m, c[0]);
    }
  }

  /** The leaf case of the encoder. */
  method EncodeVar(s: State, id: nat) returns (s': State, lit: int)
    requires WellFormed(s) && Complete(s)
    ensures WellFormed(s') && Complete(s') && Grows(s, s')
    ensures LitMeans(s', lit, Var(id))
  {
    hide ConstName, Name;
    if id < 2 {
      var value := id == 1;
      var key := ConstName(value);
      if key in s.names {
        s', lit := s, s.names[key];
      } else {
        lit := s.nextVar + 1;
        s' := State(s.clauses + [Unit(lit, value)], s.names[key := lit], s.forced + {key}, s.nextVar + 1);
        DeclareConst(s, s', value);
      }
      UnitForces(s', lit, value);
    } else {
      var key := Name(id);
      if key in s.names {
        s', lit := s, s.names[key];
      } else {
        s' := s.(nextVar := s.nextVar + 1, names := s.names[key := s.nextVar + 1]);
        lit := s'.nextVar;
        DeclareVar(s, s', id);
      }
    }
  }

  /** The gate case of the encoder; `swap` says that the stable keys reversed the operands. */
  method EncodeGate(s: State, lits: map<Expr, int>, e: Expr, swap: bool) returns (s': State)
    requires WellFormed(s) && Complete(s) && Sound(s, lits)
    requires e.Not? || e.Bin?
    requires ChildrenIn(e, lits)
    ensures s'.nextVar == s.nextVar + 1
    ensures WellFormed(s') && Complete(s') && Sound(s', lits[e := s'.nextVar]) && Grows(s, s')
  {
    var v := s.nextVar + 1;
    var cs;
    forall c | IsChild(c, e)
      ensures 0 < lits[c] <= s.nextVar
    {
      assert LitMeans(s, lits[c], c);
    }
    hide LitMeans, Sound;
    match e {
      case Not(a) =>
        cs := NotClauses(v, lits[a]);
        forall m: Model
          ensures AllHold(m, cs) <==> (m(v) == !m(lits[a]))
        {
          NotClausesDefine(m, v, lits[a]);
        }
      case Bin(op, x, y) =>
        var l, r := if swap then lits[y] else lits[x], if swap then lits[x] else lits[y];
        cs := GateClauses(op, v, l, r);
        forall m: Model
          ensures AllHold(m, cs) <==> (m(v) == Apply(op, m(lits[x]), m(lits[y])))
        {
          GateClausesDefine(m, op, v, l, r);
        }
    }
    hide AllHold, Complete, Sound, WellFormed;
    s' := s.(nextVar := s.nextVar + 1, clauses := s.clauses + cs);
    DefineNode(s, s', lits, e, cs);
  }

  /** The environment that a model induces through the name map. */
  function Induced(names: map<string, int>, m: Model): Env {
    (v: nat) => Name(v) in names && m(names[Name(v)])
  }

  /** What the encoder promises about its result. */
  ghost predicate Tseitin(cnf: Cnf, root: Expr) {
    && InRange(cnf.clauses, cnf.numVars)
    && 0 < cnf.rootLit <= cnf.numVars
    && (forall m :: AllHold(m, cnf.clauses) ==> m(cnf.rootLit) == Eval(root, Induced(cnf.names, m)))
    && (forall env :: HasModel(cnf, root, env))
  }

  /** A model of the clauses over the given environment, with the right value at the root. */
  ghost predicate HasModel(cnf: Cnf, root: Expr, env: Env) {
    exists m :: AllHold(m, cnf.clauses) && Agrees(cnf.names, m, env) && m(cnf.rootLit) == Eval(root, env)
  }

  /**
   The frames of the children above an expanded node, in the order the stable keys give:
   an arbitrary one.
   */
  function OrderedFrames(e: Expr, swap: bool): (fs: seq<Frame>)
    ensures IsExpansion(e, fs)
  {
    if e.Bin? && swap then [Frame(e.left, false), Frame(e.right, false)] else ChildFrames(e)
  }

  method EncodeBoolExprToCnf(root: Expr, swap: Expr -> bool) returns (cnf: Cnf)
    ensures Tseitin(cnf, root)
  {
    var lits: map<Expr, int> := map[];
    var s := State([], map[], {}, 0);
    EmptyIsComplete(s);
    assert Sound(s, lits);
    hide Walk, Nodes, WellFormed, Complete, Sound, Grows, LitMeans, Tseitin;
    var stack := [Frame(root, false)];
    ghost var begun: set<Expr> := {};
    WalkStarts(root, lits.Keys);
    while stack != []
      invariant Walk(root, stack, lits.Keys, begun)
      invariant WellFormed(s) && Complete(s) && Sound(s, lits)
      decreases Nodes(root) - begun, |stack|
    {
      var fr := stack[|stack| - 1];
      var rest := stack[..|stack| - 1];
      assert stack == rest + [fr];
      var e := fr.node;
      if e in lits {
        WalkPops(root, rest, fr, lits.Keys, begun, lits.Keys);
        stack := rest;
      } else if e.Var? {
        var s', lit := EncodeVar(s, e.id);
        SoundExtends(s, s', lits, e, lit);
        assert lits[e := lit].Keys == lits.Keys + {e};
        WalkPops(root, rest, fr, lits.Keys, begun, lits.Keys + {e});
        s, lits, stack := s', lits[e := lit], rest;
      } else if !fr.visited {
        WalkOpens(root, rest, e, lits.Keys, begun, OrderedFrames(e, swap(e)));
        stack := rest + [Frame(e, true)] + OrderedFrames(e, swap(e));
        begun := begun + {e};
      } else {
        WalkReady(root, rest, e, lits.Keys, begun);
        s := EncodeGate(s, lits, e, swap(e));
        assert lits[e := s.nextVar].Keys == lits.Keys + {e};
        WalkPops(root, rest, fr, lits.Keys, begun, lits.Keys + {e});
        lits, stack := lits[e := s.nextVar], rest;
      }
    }
    WalkEnds(root, stack, lits.Keys, begun);
    cnf := Cnf(s.nextVar, s.clauses, lits[root], s.names);
    Conclude(s, lits, root, cnf);
  }

  lemma {:induction false} EmptyIsComplete(s: State)
    requires s == State([], map[], {}, 0)
    ensures WellFormed(s) && Complete(s)
  {
    forall env: Env
      ensures Extends(s, env)
    {
      var m: Model := x => false;
      assert Good(s, m, env);
    }
  }

  lemma {:induction false} SoundExtends(s: State, s': State, lits: map<Expr, int>, e: Expr, lit: int)
    requires Sound(s, lits) && Grows(s, s') && LitMeans(s', lit, e)
    ensures Sound(s', lits[e := lit])
  {
    SoundGrows(s, s', lits);
  }

  lemma {:induction false} Conclude(s: State, lits: map<Expr, int>, root: Expr, cnf: Cnf)
    requires WellFormed(s) && Complete(s) && Sound(s, lits) && root in lits
    requires cnf == Cnf(s.nextVar, s.clauses, lits[root], s.names)
    ensures Tseitin(cnf, root)
  {
    assert LitMeans(s, lits[root], root);
    hide AllHold;
    forall m | AllHold(m, cnf.clauses)
      ensures m(cnf.rootLit) == Eval(root, Induced(cnf.names, m))
    {
      assert Agrees(s.names, m, Induced(s.names, m));
      assert Good(s, m, Induced(s.names, m));
    }
    forall env
      ensures HasModel(cnf, root, env)
    {
      assert Extends(s, env);
      var m :| Good(s, m, env);
      assert m(cnf.rootLit) == Eval(root, env);
    }
  }

  /** The clauses with the root asserted are satisfiable exactly when the expression is. */
  lemma {:induction false} EquisatisfiableWithRoot(cnf: Cnf, root: Expr)
    requires Tseitin(cnf, root)
    ensures (exists m :: AllHold(m, cnf.clauses) && m(cnf.rootLit)) <==> Satisfiable(root)
  {
    if exists m :: AllHold(m, cnf.clauses) && m(cnf.rootLit) {
      var m :| AllHold(m, cnf.clauses) && m(cnf.rootLit);
      var env := Induced(cnf.names, m);
      assert Eval(root, env);
      assert Satisfiable(root);
    }
    if Satisfiable(root) {
      var env :| Eval(root, env);
      assert HasModel(cnf, root, env);
      var m :| AllHold(m, cnf.clauses) && Agrees(cnf.names, m, env) && m(cnf.rootLit) == Eval(root, env);
      assert AllHold(m, cnf.clauses) && m(cnf.rootLit);
    }
  }
}
