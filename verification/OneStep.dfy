/** The one-step interpolant as an invariant candidate: the image of the initial frontier. */
module OneStepInterpolants {
  import opened Options
  import opened BoolExprs
  import opened Simplification
  import opened Sat
  import opened Interpolants
  import opened Imc

  // ----- fresh symbols -----

  function IndexOf(xs: seq<nat>, x: nat): nat {
    if xs == [] || xs[0] == x then 0 else 1 + IndexOf(xs[1..], x)
  }

  lemma {:induction false} IndexOfMember(xs: seq<nat>, x: nat)
    requires x in xs
    ensures IndexOf(xs, x) < |xs| && xs[IndexOf(xs, x)] == x
  {
    if xs[0] != x {
      IndexOfMember(xs[1..], x);
    }
  }

  lemma {:induction false} IndexOfAt(xs: seq<nat>, i: nat)
    requires i < |xs| && forall j, k :: 0 <= j < k < |xs| ==> xs[j] != xs[k]
    ensures IndexOf(xs, xs[i]) == i
  {
    if i > 0 {
      assert xs[0] != xs[i] && xs[1..][i - 1] == xs[i];
      IndexOfAt(xs[1..], i - 1);
    }
  }

  /** The next-state copy of a symbol; other symbols stay. */
  function Next(states: seq<nat>, base: nat, v: nat): nat {
    if v in states then base + IndexOf(states, v) else v
  }

  function NextCode(states: seq<nat>, base: nat): nat -> nat { (v: nat) => Next(states, base, v) }

  /** The bad state's copy: next-state symbols for states, its own copies for inputs. */
  function BadSymbol(states: seq<nat>, inputs: seq<nat>, base: nat, v: nat): nat {
    if v in states then Next(states, base, v)
    else if v in inputs then base + |states| + IndexOf(inputs, v)
    else v
  }

  function BadCode(states: seq<nat>, inputs: seq<nat>, base: nat)
      : nat -> nat { (v: nat) => BadSymbol(states, inputs, base, v) }

  /** Back to current-state symbols. */
  function Restore(states: seq<nat>, base: nat, v: nat): nat {
    if base <= v < base + |states| then states[v - base] else v
  }

  function RestoreCode(states: seq<nat>, base: nat): nat -> nat { (v: nat) => Restore(states, base, v) }

  function Shared(states: seq<nat>, base: nat): (r: seq<nat>)
    ensures |r| == |states| && forall i :: 0 <= i < |r| ==> r[i] == base + i
    ensures forall v :: v in r <==> base <= v < base + |states|
  {
    var r := seq(|states|, i requires 0 <= i < |states| => base + i);
    SharedMembers(r, base);
    r
  }

  lemma {:induction false} SharedMembers(r: seq<nat>, base: nat)
    requires forall i :: 0 <= i < |r| ==> r[i] == base + i
    ensures forall v :: v in r <==> base <= v < base + |r|
  {
    forall v: nat | base <= v < base + |r|
      ensures v in r
    {
      assert r[v - base] == v;
    }
  }

  ghost predicate Below(e: Expr, base: nat) {
    forall v :: v in Support(e) ==> v < base
  }

  ghost predicate LocalTo(e: Expr, states: seq<nat>, inputs: seq<nat>) {
    forall v :: v in Support(e) && v >= 2 ==> v in states || v in inputs
  }

  ghost predicate MovesBelow(moves: Moves, states: seq<nat>, base: nat) {
    forall i :: 0 <= i < |moves| ==> moves[i].0 in states && Below(moves[i].1, base)
  }

  /** What the symbol allocation guarantees. */
  ghost predicate Allocated(p: Problem, init: Expr, inputs: seq<nat>, base: nat) {
    && base >= 2 && (forall i, j :: 0 <= i < j < |p.states| ==> p.states[i] != p.states[j])
    && (forall i :: 0 <= i < |p.states| ==> 2 <= p.states[i] < base)
    && (forall i :: 0 <= i < |inputs| ==> 2 <= inputs[i] < base)
    && (forall i :: 0 <= i < |p.states| ==> p.states[i] !in inputs)
    && Below(init, base) && Below(p.bad, base) && (p.learned.Some? ==> Below(p.learned.value, base))
    && MovesBelow(p.transitions + p.auxiliary, p.states, base)
    && (forall i :: 0 <= i < |p.complements| ==> p.complements[i].0 in p.states && p.complements[i].1 in p.states)
  }

  /** Only current symbols and next-state copies. */
  ghost predicate Within(e: Expr, states: seq<nat>, base: nat) {
    forall v :: v in Support(e) ==> v < base + |states|
  }

  ghost predicate PairsOf(pairs: seq<(nat, nat)>, states: seq<nat>) {
    forall i :: 0 <= i < |pairs| ==> pairs[i].0 in states && pairs[i].1 in states
  }

  ghost predicate FormulasBelow(p: Problem, base: nat) {
    && MovesBelow(p.transitions + p.auxiliary, p.states, base) && PairsOf(p.complements, p.states)
    && (p.learned.Some? ==> Below(p.learned.value, base))
  }

  lemma {:induction false} MoveWithin(h: Mixer, e: Expr, moves: Moves, states: seq<nat>, base: nat, i: nat)
    requires i < |moves| && MovesBelow(moves, states, base) && base >= 2
    ensures Within(e, states, base) ==>
      Within(MkAnd(h, e, MkEqual(h, Var(Next(states, base, moves[i].0)), moves[i].1)), states, base)
  {
    hide MkAnd, MkEqual;
    IndexOfMember(states, moves[i].0);
  }

  lemma {:induction false} PairWithin(h: Mixer, e: Expr, pairs: seq<(nat, nat)>, states: seq<nat>, base: nat, i: nat)
    requires i < |pairs| && PairsOf(pairs, states) && base >= 2
    ensures Within(e, states, base) ==>
      Within(MkAnd(h, e, MkEqual(h, Var(Next(states, base, pairs[i].1)), MkNot(Var(Next(states, base, pairs[i].0))))),
          states, base)
  {
    hide MkAnd, MkEqual, MkNot;
    IndexOfMember(states, pairs[i].0);
    IndexOfMember(states, pairs[i].1);
  }

  lemma {:induction false} RenameSupport(e: Expr, code: nat -> nat, v: nat)
    requires v in Support(Rename(e, code)) && v >= 2
    ensures exists u :: u in Support(e) && u >= 2 && v == code(u)
  {
    match e
    case Var(id) =>
    case Not(a) => RenameSupport(a, code, v);
    case Bin(_, l, r) =>
      if v in Support(Rename(l, code)) {
        RenameSupport(l, code, v);
      } else {
        RenameSupport(r, code, v);
      }
  }

  // ----- the transition formula -----

  /** A legal step of all transitions; only state symbols move. */
  ghost predicate Stepped(p: Problem, e: Env, e': Env) {
    StepHolds(p, e, e') && forall v: nat :: v !in p.states ==> e'(v) == e(v)
  }

  ghost predicate StepHolds(p: Problem, e: Env, e': Env) {
    Step(p.transitions + p.auxiliary, e, e') && Complemented(p.complements, e') && Certified(p, e) && Certified(p, e')
  }

  ghost predicate StepUpTo(moves: Moves, n: nat, e: Env, e': Env) {
    forall i :: 0 <= i < n && i < |moves| ==> e'(moves[i].0) == Eval(moves[i].1, e)
  }

  ghost predicate ComplementedTo(pairs: seq<(nat, nat)>, n: nat, e: Env) {
    forall i :: 0 <= i < n && i < |pairs| ==> e(pairs[i].1) == !e(pairs[i].0)
  }

  ghost function After(env: Env, states: seq<nat>, base: nat): Env { Through(env, NextCode(states, base)) }

  lemma {:induction false} NextLiteral(states: seq<nat>, base: nat, v: nat, env: Env)
    requires v >= 2 && base >= 2
    ensures Eval(Var(Next(states, base, v)), env) == After(env, states, base)(v)
  {
  }

  method AddMoves(h: Mixer, e: Expr, moves: Moves, states: seq<nat>, base: nat) returns (r: Expr)
    requires base >= 2 && forall i :: 0 <= i < |moves| ==> moves[i].0 >= 2
    ensures forall env :: Eval(r, env) <==> Eval(e, env) && Step(moves, env, After(env, states, base))
    ensures Within(e, states, base) && MovesBelow(moves, states, base) ==> Within(r, states, base)
  {
    hide After, MkAnd, MkEqual, Next, StepUpTo, Within, MovesBelow;
    r := e;
    forall env
      ensures StepUpTo(moves, 0, env, After(env, states, base))
    {
      NoMoves(moves, env, After(env, states, base));
    }
    for i := 0 to |moves|
      invariant forall env :: Eval(r, env) <==> Eval(e, env) && StepUpTo(moves, i, env, After(env, states, base))
      invariant Within(e, states, base) && MovesBelow(moves, states, base) ==> Within(r, states, base)
    {
      ghost var was := r;
      if MovesBelow(moves, states, base) {
        MoveWithin(h, r, moves, states, base, i);
      }
      r := MkAnd(h, r, MkEqual(h, Var(Next(states, base, moves[i].0)), moves[i].1));
      forall env
        ensures Eval(r, env) <==> Eval(e, env) && StepUpTo(moves, i + 1, env, After(env, states, base))
      {
        assert Eval(was, env) <==> Eval(e, env) && StepUpTo(moves, i, env, After(env, states, base));
        NextLiteral(states, base, moves[i].0, env);
        OneMove(moves, i, env, After(env, states, base));
      }
    }
    forall env
      ensures StepUpTo(moves, |moves|, env, After(env, states, base)) <==> Step(moves, env, After(env, states, base))
    {
      AllMoves(moves, env, After(env, states, base));
    }
  }

  lemma {:induction false} NoMoves(moves: Moves, e: Env, e': Env)
    ensures StepUpTo(moves, 0, e, e')
  {
  }

  lemma {:induction false} OneMove(moves: Moves, i: nat, e: Env, e': Env)
    requires i < |moves|
    ensures StepUpTo(moves, i + 1, e, e') <==> StepUpTo(moves, i, e, e') && e'(moves[i].0) == Eval(moves[i].1, e)
  {
  }

  lemma {:induction false} AllMoves(moves: Moves, e: Env, e': Env)
    ensures StepUpTo(moves, |moves|, e, e') <==> Step(moves, e, e')
  {
  }

  method AddComplementPairs(h: Mixer, e: Expr, pairs: seq<(nat, nat)>, states: seq<nat>, base: nat) returns (r: Expr)
    requires base >= 2 && ArePairs(pairs)
    ensures forall env :: Eval(r, env) <==> Eval(e, env) && Complemented(pairs, After(env, states, base))
    ensures Within(e, states, base) && PairsOf(pairs, states) ==> Within(r, states, base)
  {
    hide After, MkAnd, MkEqual, MkNot, Next, ComplementedTo, Within, PairsOf;
    r := e;
    forall env: Env
      ensures ComplementedTo(pairs, 0, env) && (ComplementedTo(pairs, |pairs|, env) <==> Complemented(pairs, env))
    {
      NoPairs(pairs, env);
    }
    for i := 0 to |pairs|
      invariant forall env :: Eval(r, env) <==> Eval(e, env) && ComplementedTo(pairs, i, After(env, states, base))
      invariant Within(e, states, base) && PairsOf(pairs, states) ==> Within(r, states, base)
    {
      ghost var was := r;
      if PairsOf(pairs, states) {
        PairWithin(h, r, pairs, states, base, i);
      }
      r := MkAnd(h, r, MkEqual(h, Var(Next(states, base, pairs[i].1)), MkNot(Var(Next(states, base, pairs[i].0)))));
      forall env
        ensures Eval(r, env) <==> Eval(e, env) && ComplementedTo(pairs, i + 1, After(env, states, base))
      {
        assert Eval(was, env) <==> Eval(e, env) && ComplementedTo(pairs, i, After(env, states, base));
        NextLiteral(states, base, pairs[i].0, env);
        NextLiteral(states, base, pairs[i].1, env);
        OnePair(pairs, i, After(env, states, base));
      }
    }
  }

  lemma {:induction false} NoPairs(pairs: seq<(nat, nat)>, e: Env)
    ensures ComplementedTo(pairs, 0, e) && (ComplementedTo(pairs, |pairs|, e) <==> Complemented(pairs, e))
  {
  }

  lemma {:induction false} OnePair(pairs: seq<(nat, nat)>, i: nat, e: Env)
    requires i < |pairs|
    ensures ComplementedTo(pairs, i + 1, e) <==> ComplementedTo(pairs, i, e) && e(pairs[i].1) == !e(pairs[i].0)
  {
  }

  lemma {:induction false} NextIsVariable(states: seq<nat>, base: nat)
    requires base >= 2
    ensures forall v: nat :: v >= 2 ==> NextCode(states, base)(v) >= 2
  {
  }

  lemma {:induction false} RenamedWithin(e: Expr, states: seq<nat>, base: nat)
    requires Below(e, base) && base >= 2
    ensures Within(Rename(e, NextCode(states, base)), states, base)
  {
    forall v | v in Support(Rename(e, NextCode(states, base)))
      ensures v < base + |states|
    {
      if v >= 2 {
        RenameSupport(e, NextCode(states, base), v);
        var u :| u in Support(e) && u >= 2 && v == NextCode(states, base)(u);
        if u in states {
          IndexOfMember(states, u);
        }
      }
    }
  }

  /** `buildOneStepTransitionFormula`. */
  method BuildOneStepTransition(h: Mixer, p: Problem, base: nat) returns (r: Expr)
    requires base >= 2 && ArePairs(p.complements)
    requires forall i :: 0 <= i < |p.transitions + p.auxiliary| ==> (p.transitions + p.auxiliary)[i].0 >= 2
    ensures forall env :: Eval(r, env) <==> StepHolds(p, env, After(env, p.states, base))
    ensures FormulasBelow(p, base) ==> Within(r, p.states, base)
  {
    hide Step, Complemented, MkAnd, Rename;
    var moved := AddMoves(h, TRUE, p.transitions + p.auxiliary, p.states, base);
    var paired := AddComplementPairs(h, moved, p.complements, p.states, base);
    r := paired;
    if p.learned.Some? {
      var learned := p.learned.value;
      var renamed := Rename(learned, NextCode(p.states, base));
      r := MkAnd(h, paired, MkAnd(h, learned, renamed));
      NextIsVariable(p.states, base);
      if Below(learned, base) {
        RenamedWithin(learned, p.states, base);
      }
      forall env
        ensures Eval(renamed, env) == Eval(learned, After(env, p.states, base))
      {
        RenameMeans(learned, NextCode(p.states, base), env);
      }
    }
    r := Simplify(h, r);
  }

  // ----- splitting and joining environments -----

  /** The environment of both frames: next values under the fresh symbols. */
  ghost function Joined(states: seq<nat>, base: nat, e: Env, e': Env): Env {
    (v: nat) => if base <= v < base + |states| then e'(states[v - base]) else e(v)
  }

  lemma {:induction false} JoinedMeans(e: Expr, states: seq<nat>, base: nat, a: Env, b: Env)
    requires Below(e, base)
    ensures Eval(e, Joined(states, base, a, b)) == Eval(e, a)
  {
    EvalDependsOnSupport(e, Joined(states, base, a, b), a);
  }

  /** On the symbols of a formula, the joined environment shows the next values. */
  lemma {:induction false} JoinedAfter(states: seq<nat>, base: nat, a: Env, b: Env, v: nat)
    requires (forall i, j :: 0 <= i < j < |states| ==> states[i] != states[j])
    requires v < base && (v !in states ==> a(v) == b(v))
    ensures After(Joined(states, base, a, b), states, base)(v) == b(v)
  {
    if v in states {
      IndexOfMember(states, v);
    }
  }

  /** A state is one legal step away from the initial frontier. */
  ghost predicate InImage(p: Problem, init: Expr, env: Env) {
    exists e, e' :: Eval(init, e) && Stepped(p, e, e') && AgreeOn(p.states, env, e')
  }

  lemma {:induction false} AfterIsStepped(p: Problem, base: nat, e: Env)
    requires StepHolds(p, e, After(e, p.states, base))
    ensures Stepped(p, e, After(e, p.states, base))
  {
  }

  lemma {:induction false} SteppedJoins(p: Problem, init: Expr, inputs: seq<nat>, base: nat, e: Env, e': Env)
    requires Allocated(p, init, inputs, base) && Stepped(p, e, e')
    ensures var both := Joined(p.states, base, e, e'); StepHolds(p, both, After(both, p.states, base))
  {
    var both := Joined(p.states, base, e, e');
    var next := After(both, p.states, base);
    var moves := p.transitions + p.auxiliary;
    forall v: nat | v < base
      ensures next(v) == e'(v)
    {
      JoinedAfter(p.states, base, e, e', v);
    }
    forall i | 0 <= i < |moves|
      ensures next(moves[i].0) == Eval(moves[i].1, both)
    {
      JoinedMeans(moves[i].1, p.states, base, e, e');
      IndexOfMember(p.states, moves[i].0);
    }
    forall i | 0 <= i < |p.complements|
      ensures next(p.complements[i].1) == !next(p.complements[i].0)
    {
      IndexOfMember(p.states, p.complements[i].0);
      IndexOfMember(p.states, p.complements[i].1);
    }
    if p.learned.Some? {
      JoinedMeans(p.learned.value, p.states, base, e, e');
      EvalDependsOnSupport(p.learned.value, next, e');
    }
  }

  /** The restored projection is the image. */
  lemma {:induction false} ProjectionIsImage(p: Problem, init: Expr, inputs: seq<nat>, base: nat, lhs: Expr, env: Env)
    requires Allocated(p, init, inputs, base)
    requires forall e :: Eval(lhs, e) <==> Eval(init, e) && StepHolds(p, e, After(e, p.states, base))
    ensures Projects(lhs, Shared(p.states, base), Through(env, RestoreCode(p.states, base))) <==> InImage(p, init, env)
  {
    var shared, outer := Shared(p.states, base), Through(env, RestoreCode(p.states, base));
    hide StepHolds, Stepped, Allocated;
    if Projects(lhs, shared, outer) {
      var e :| AgreeOn(shared, outer, e) && Eval(lhs, e);
      AfterIsStepped(p, base, e);
      SharedIsNext(p, init, inputs, base, env, e);
      assert Eval(init, e) && Stepped(p, e, After(e, p.states, base));
      assert AgreeOn(p.states, env, After(e, p.states, base));
    }
    if InImage(p, init, env) {
      var e, e' :| Eval(init, e) && Stepped(p, e, e') && AgreeOn(p.states, env, e');
      var both := Joined(p.states, base, e, e');
      SteppedJoins(p, init, inputs, base, e, e');
      InitBelow(p, init, inputs, base);
      JoinedMeans(init, p.states, base, e, e');
      JoinedIsShared(p, base, env, e, e');
      assert Eval(lhs, both) && AgreeOn(shared, outer, both);
    }
  }

  lemma {:induction false} InitBelow(p: Problem, init: Expr, inputs: seq<nat>, base: nat)
    requires Allocated(p, init, inputs, base)
    ensures Below(init, base) && Below(p.bad, base) && (p.learned.Some? ==> Below(p.learned.value, base)) && base >= 2
  {
  }

  lemma {:induction false} SharedIsNext(p: Problem, init: Expr, inputs: seq<nat>, base: nat, env: Env, e: Env)
    requires Allocated(p, init, inputs, base)
    requires AgreeOn(Shared(p.states, base), Through(env, RestoreCode(p.states, base)), e)
    ensures AgreeOn(p.states, env, After(e, p.states, base))
  {
    forall v | v in p.states
      ensures env(v) == After(e, p.states, base)(v)
    {
      IndexOfMember(p.states, v);
      var i := IndexOf(p.states, v);
      assert base + i in Shared(p.states, base);
      assert Through(env, RestoreCode(p.states, base))(base + i) == env(p.states[i]);
    }
  }

  lemma {:induction false} JoinedIsShared(p: Problem, base: nat, env: Env, e: Env, e': Env)
    requires AgreeOn(p.states, env, e')
    ensures AgreeOn(Shared(p.states, base), Through(env, RestoreCode(p.states, base)), Joined(p.states, base, e, e'))
  {
    forall v | v in Shared(p.states, base)
      ensures Through(env, RestoreCode(p.states, base))(v) == Joined(p.states, base, e, e')(v)
    {
      assert p.states[v - base] in p.states;
    }
  }

  // ----- the candidate -----

  ghost predicate IsBad(p: Problem, e: Env) { Eval(p.bad, e) && Certified(p, e) }

  function BadFormula(h: Mixer, p: Problem): Expr {
    if p.learned.Some? then MkAnd(h, p.bad, p.learned.value) else p.bad
  }

  lemma {:induction false} BadMeans(h: Mixer, p: Problem, e: Env)
    ensures Eval(BadFormula(h, p), e) <==> IsBad(p, e)
  {
    hide MkAnd;
  }

  lemma {:induction false} CodesAreSafe(p: Problem, init: Expr, inputs: seq<nat>, base: nat)
    requires Allocated(p, init, inputs, base)
    ensures forall v: nat :: v >= 2 ==> BadCode(p.states, inputs, base)(v) >= 2
    ensures forall v: nat :: v >= 2 ==> RestoreCode(p.states, base)(v) >= 2
    ensures AreSymbols(Shared(p.states, base))
    ensures forall i :: 0 <= i < |p.transitions + p.auxiliary| ==> (p.transitions + p.auxiliary)[i].0 >= 2
    ensures ArePairs(p.complements)
  {
    forall i | 0 <= i < |p.transitions + p.auxiliary|
      ensures (p.transitions + p.auxiliary)[i].0 >= 2
    {
      IndexOfMember(p.states, (p.transitions + p.auxiliary)[i].0);
    }
    forall i | 0 <= i < |p.complements|
      ensures p.complements[i].0 >= 2 && p.complements[i].1 >= 2
    {
      IndexOfMember(p.states, p.complements[i].0);
      IndexOfMember(p.states, p.complements[i].1);
    }
  }

  /** The environment that shows a state both under fresh symbols and as the bad copy. */
  ghost function Copied(states: seq<nat>, inputs: seq<nat>, base: nat, env: Env): Env {
    (v: nat) => if base <= v < base + |states| then env(states[v - base])
                else if base + |states| <= v < base + |states| + |inputs| then env(inputs[v - base - |states|])
                else env(v)
  }

  lemma {:induction false} CopiedMeans(p: Problem, init: Expr, inputs: seq<nat>, base: nat, env: Env, e: Expr)
    requires Allocated(p, init, inputs, base) && Below(e, base)
    ensures Eval(Rename(e, BadCode(p.states, inputs, base)), Copied(p.states, inputs, base, env)) == Eval(e, env)
  {
    hide Rename, Eval, Allocated, Copied, BadCode;
    var copy := Copied(p.states, inputs, base, env);
    CodesAreSafe(p, init, inputs, base);
    RenameMeans(e, BadCode(p.states, inputs, base), copy);
    var back := Through(copy, BadCode(p.states, inputs, base));
    forall v: nat | v < base
      ensures back(v) == env(v)
    {
      CopiedBack(p.states, inputs, base, env, v);
    }
    EvalDependsOnSupport(e, back, env);
  }

  lemma {:induction false} CopiedBack(states: seq<nat>, inputs: seq<nat>, base: nat, env: Env, v: nat)
    requires v < base
    ensures Through(Copied(states, inputs, base, env), BadCode(states, inputs, base))(v) == env(v)
  {
    if v in states {
      IndexOfMember(states, v);
    } else if v in inputs {
      IndexOfMember(inputs, v);
    }
  }

  /** On the shared symbols the copy shows the restored values. */
  lemma {:induction false} CopiedShared(states: seq<nat>, inputs: seq<nat>, base: nat, env: Env, e: Expr)
    requires forall v :: v in Support(e) ==> v < 2 || v in Shared(states, base)
    ensures Eval(e, Copied(states, inputs, base, env)) == Eval(e, Through(env, RestoreCode(states, base)))
  {
    EvalDependsOnSupport(e, Copied(states, inputs, base, env), Through(env, RestoreCode(states, base)));
  }

  /** A state of the image is not bad when the interpolant misses the bad side. */
  lemma {:induction false} ImageIsGood(h: Mixer, p: Problem, init: Expr, inputs: seq<nat>, base: nat,
      interpolant: Expr, env: Env)
    requires Allocated(p, init, inputs, base)
    requires Disjoint(interpolant, Rename(BadFormula(h, p), BadCode(p.states, inputs, base)))
    requires forall v :: v in Support(interpolant) ==> v < 2 || v in Shared(p.states, base)
    ensures Eval(interpolant, Through(env, RestoreCode(p.states, base))) ==> !IsBad(p, env)
  {
    hide Allocated, BadFormula, Copied, IsBad, Rename, Eval, BadCode, RestoreCode, Below;
    var copy := Copied(p.states, inputs, base, env);
    BadBelow(h, p, init, inputs, base);
    CopiedMeans(p, init, inputs, base, env, BadFormula(h, p));
    BadMeans(h, p, env);
    CopiedShared(p.states, inputs, base, env, interpolant);
    assert !(Eval(interpolant, copy) && Eval(Rename(BadFormula(h, p), BadCode(p.states, inputs, base)), copy));
  }

  lemma {:induction false} BadBelow(h: Mixer, p: Problem, init: Expr, inputs: seq<nat>, base: nat)
    requires Allocated(p, init, inputs, base)
    ensures Below(BadFormula(h, p), base)
  {
    hide MkAnd;
  }

  ghost predicate IsImage(p: Problem, init: Expr, inv: Expr) {
    forall env :: Eval(inv, env) <==> InImage(p, init, env)
  }

  lemma {:induction false} ImageFormula(p: Problem, init: Expr, inv: Expr)
    requires forall env :: Eval(inv, env) <==> InImage(p, init, env)
    ensures IsImage(p, init, inv)
  {
  }

  lemma {:induction false} StepIsWithin(h: Mixer, p: Problem, init: Expr, inputs: seq<nat>, base: nat, step: Expr)
    requires Allocated(p, init, inputs, base)
    requires FormulasBelow(p, base) ==> Within(step, p.states, base)
    ensures Within(MkAnd(h, init, step), p.states, base)
  {
    hide MkAnd;
  }

  /** The two sides share only the next-state copies when the bad condition reads only states and inputs. */
  lemma {:induction false} SharesOnlyNext(h: Mixer, p: Problem, init: Expr, inputs: seq<nat>, base: nat, lhs: Expr,
      rhs: Expr)
    requires Allocated(p, init, inputs, base) && Within(lhs, p.states, base)
    requires LocalTo(BadFormula(h, p), p.states, inputs)
    requires rhs == Rename(BadFormula(h, p), BadCode(p.states, inputs, base))
    ensures OnlyShare(lhs, rhs, Shared(p.states, base))
  {
    hide BadFormula, Rename, Allocated;
    forall v | v in Support(lhs) && v in Support(rhs) && v >= 2
      ensures v in Shared(p.states, base)
    {
      RenameSupport(BadFormula(h, p), BadCode(p.states, inputs, base), v);
    }
  }

  /** When the sides meet, one step from the initial frontier reaches a bad state. */
  lemma {:induction false} MeetingIsBad(h: Mixer, p: Problem, init: Expr, inputs: seq<nat>, base: nat, lhs: Expr,
      rhs: Expr)
    requires Allocated(p, init, inputs, base)
    requires forall e :: Eval(lhs, e) <==> Eval(init, e) && StepHolds(p, e, After(e, p.states, base))
    requires rhs == Rename(BadFormula(h, p), BadCode(p.states, inputs, base)) && !Disjoint(lhs, rhs)
    ensures exists env :: InImage(p, init, env) && IsBad(p, env)
  {
    hide BadFormula, Rename, Allocated, StepHolds, Stepped, IsBad;
    var e :| Eval(lhs, e) && Eval(rhs, e);
    var env := Through(e, BadCode(p.states, inputs, base));
    CodesAreSafe(p, init, inputs, base);
    RenameMeans(BadFormula(h, p), BadCode(p.states, inputs, base), e);
    BadMeans(h, p, env);
    AfterIsStepped(p, base, e);
    forall v | v in p.states
      ensures env(v) == After(e, p.states, base)(v)
    {
    }
    assert AgreeOn(p.states, env, After(e, p.states, base));
    assert InImage(p, init, env);
  }

  /** `deriveOneStepReachableStateInvariant`. */
  method DeriveOneStepInvariant(h: Mixer, p: Problem, init: Option<Expr>, inputs: seq<nat>, base: nat, maxBits: nat,
                                symbols: Expr -> set<nat>, requested: Expr -> seq<nat>) returns (r: Option<Expr>)
    requires init.Some? ==> Allocated(p, init.value, inputs, base)
    ensures r.Some? ==> init.Some? && p.states != [] && |p.states| <= maxBits
    ensures r.Some? ==> forall env :: Eval(r.value, env) <==> InImage(p, init.value, env)
    ensures r.Some? ==> forall env :: Eval(r.value, env) ==> !IsBad(p, env)
    ensures r.Some? ==> IsInductiveInvariant(h, p, r.value, symbols(r.value), requested(r.value))
    ensures r.None? && init.Some? && 0 < |p.states| <= maxBits && LocalTo(BadFormula(h, p), p.states, inputs) ==>
      || (exists env :: InImage(p, init.value, env) && IsBad(p, env))
      || (exists inv :: IsImage(p, init.value, inv) && !IsInductiveInvariant(h, p, inv, symbols(inv), requested(inv)))
  {
    hide Allocated, Within, LocalTo, OnlyShare, IsImage, MkAnd, Rename, BadFormula, IsInductiveInvariant;
    hide InImage, IsBad, Projects, Disjoint, Shared, StepHolds;
    if p.states == [] || |p.states| > maxBits || init.None? {
      return None;
    }
    CodesAreSafe(p, init.value, inputs, base);
    InitBelow(p, init.value, inputs, base);
    var step := BuildOneStepTransition(h, p, base);
    var lhs := MkAnd(h, init.value, step);
    StepIsWithin(h, p, init.value, inputs, base, step);
    var rhs := Rename(BadFormula(h, p), BadCode(p.states, inputs, base));
    var interpolant := ComputeExactInterpolant(h, lhs, rhs, Shared(p.states, base));
    if interpolant.None? {
      if LocalTo(BadFormula(h, p), p.states, inputs) {
        SharesOnlyNext(h, p, init.value, inputs, base, lhs, rhs);
        MeetingIsBad(h, p, init.value, inputs, base, lhs, rhs);
      }
      return None;
    }
    var renamed := Rename(interpolant.value, RestoreCode(p.states, base));
    var restored := Simplify(h, renamed);
    forall env
      ensures Eval(restored, env) <==> InImage(p, init.value, env)
      ensures Eval(restored, env) ==> !IsBad(p, env)
    {
      RenameMeans(interpolant.value, RestoreCode(p.states, base), env);
      ProjectionIsImage(p, init.value, inputs, base, lhs, env);
      ImageIsGood(h, p, init.value, inputs, base, interpolant.value, env);
    }
    ImageFormula(p, init.value, restored);
    if !IsInductiveInvariant(h, p, restored, symbols(restored), requested(restored)) {
      return None;
    }
    r := Some(restored);
  }
}
