/**
 What the invariant check decides when it declares the symbols that it should: exactly whether every
 step of the whole problem keeps the invariant. And with that, when the engine must reach a proof.
 */
module ImcChecks {
  import opened Options
  import opened BoolExprs
  import opened Traversals
  import opened Sat
  import opened Interpolants
  import opened Imc

  // ----- the equations of the query -----

  function AllMoves(p: Problem): Moves { p.transitions + p.auxiliary }

  lemma {:induction false} MoveIsFound(moves: Moves, symbol: nat, next: Expr)
    requires (symbol, next) in moves
    ensures MoveOf(moves, symbol).Some?
  {
    if moves[0].0 != symbol {
      assert moves == [moves[0]] + moves[1..];
      MoveIsFound(moves[1..], symbol, next);
    }
  }

  lemma {:induction false} PrimaryIsPair(pairs: seq<(nat, nat)>, symbol: nat)
    ensures PrimaryOf(pairs, symbol).Some? ==> (PrimaryOf(pairs, symbol).value, symbol) in pairs
  {
    if pairs != [] && pairs[0].1 != symbol {
      PrimaryIsPair(pairs[1..], symbol);
    } else if pairs != [] {
      assert pairs[0] == (pairs[0].0, symbol);
    }
  }

  /** The query has the equation of every requested symbol that has one, or of its complement's primary. */
  lemma {:induction false} RequestedIsTarget(p: Problem, requested: seq<nat>, symbol: nat)
    requires symbol in requested
    ensures var own, primary := MoveOf(AllMoves(p), symbol), PrimaryOf(p.complements, symbol);
      && (own.Some? ==> (symbol, own.value) in TargetMoves(p, requested))
      && (own.None? && primary.Some? && MoveOf(AllMoves(p), primary.value).Some? ==>
            (primary.value, MoveOf(AllMoves(p), primary.value).value) in TargetMoves(p, requested))
  {
    if requested[0] != symbol {
      assert requested == [requested[0]] + requested[1..];
      RequestedIsTarget(p, requested[1..], symbol);
    }
  }

  /** And no others: every equation is a move of the problem. */
  lemma {:induction false} TargetIsMove(p: Problem, requested: seq<nat>, move: (nat, Expr))
    requires move in TargetMoves(p, requested)
    ensures move in AllMoves(p)
  {
  }

  lemma {:induction false} KnownHas(pairs: seq<(nat, nat)>, symbols: set<nat>, pair: (nat, nat))
    requires pair in pairs && pair.0 in symbols && pair.1 in symbols
    ensures pair in Known(pairs, symbols)
  {
    if pairs[0] != pair {
      assert pairs == [pairs[0]] + pairs[1..];
      KnownHas(pairs[1..], symbols, pair);
    }
  }

  // ----- a step of the whole problem -----

  ghost predicate PairsHold(p: Problem, e: Env) {
    Complemented(p.complements, e) && RailsValid(p.rails, e)
  }

  /** All moves at once, between environments in which all pairs are valid, with the reset released. */
  ghost predicate LegalStep(p: Problem, e: Env, e': Env) {
    Step(AllMoves(p), e, e') && PairsHold(p, e) && PairsHold(p, e') && Released(p, e)
  }

  ghost predicate Keeps(p: Problem, inv: Expr) {
    forall e, e' :: LegalStep(p, e, e') && Certified(p, e) && Eval(inv, e) ==> Eval(inv, e')
  }

  /** Pairs are between states; each state has one move, or is the complement of one that has. */
  ghost predicate Wired(p: Problem) {
    && (forall i, j :: 0 <= i < j < |AllMoves(p)| ==> AllMoves(p)[i].0 != AllMoves(p)[j].0)
    && (forall pair :: pair in p.complements || pair in p.rails ==> pair.0 in p.states && pair.1 in p.states)
    && (forall i :: 0 <= i < |AllMoves(p)| ==> AllMoves(p)[i].0 in p.states)
    && (forall s :: s in p.states ==> Driven(p, s))
  }

  ghost predicate Driven(p: Problem, s: nat) {
    || MoveOf(AllMoves(p), s).Some?
    || (PrimaryOf(p.complements, s).Some? && MoveOf(AllMoves(p), PrimaryOf(p.complements, s).value).Some?)
  }

  /** Steps are never blocked: valid pairs lead to valid pairs, whatever the next inputs are. */
  ghost predicate Live(p: Problem) {
    && (exists e: Env :: PairsHold(p, e))
    && (forall e, z :: PairsHold(p, e) && Released(p, e) ==> Continues(p, e, z))
  }

  ghost predicate Continues(p: Problem, e: Env, z: Env) {
    exists e' :: Successor(p, e, z, e')
  }

  ghost predicate Successor(p: Problem, e: Env, z: Env, e': Env) {
    LegalStep(p, e, e') && forall v: nat :: v !in p.states ==> e'(v) == z(v)
  }

  ghost predicate WholePairs(pairs: seq<(nat, nat)>, symbols: set<nat>) {
    forall pair :: pair in pairs ==> (pair.0 in symbols <==> pair.1 in symbols)
  }

  ghost predicate Declares(symbols: set<nat>, e: Expr) {
    forall v :: v in Support(e) && v >= 2 ==> v in symbols
  }

  /** The states of the invariant are requested, and the query declares all it depends on. */
  ghost predicate Covers(p: Problem, inv: Expr, symbols: set<nat>, requested: seq<nat>) {
    && (forall v :: v in Support(inv) && v in p.states ==> v in requested)
    && Declares(symbols, inv) && (p.learned.Some? ==> Declares(symbols, p.learned.value))
    && (forall move :: move in TargetMoves(p, requested) ==> move.0 in symbols && Declares(symbols, move.1))
    && (p.resetCycles != 0 ==> forall i :: 0 <= i < |p.resetInputs| ==> p.resetInputs[i].0 in symbols)
    && WholePairs(p.complements, symbols) && WholePairs(p.rails, symbols)
  }

  /** A legal environment outside the declared symbols. */
  ghost function Patched(symbols: set<nat>, e: Env, legal: Env): Env {
    (v: nat) => if v in symbols then e(v) else legal(v)
  }

  lemma {:induction false} PatchedPairs(p: Problem, symbols: set<nat>, e: Env, legal: Env)
    requires PairsHold(p, legal) && WholePairs(p.complements, symbols) && WholePairs(p.rails, symbols)
    requires Complemented(Known(p.complements, symbols), e) && RailsValid(Known(p.rails, symbols), e)
    ensures PairsHold(p, Patched(symbols, e, legal))
  {
    var x := Patched(symbols, e, legal);
    forall i | 0 <= i < |p.complements|
      ensures x(p.complements[i].1) == !x(p.complements[i].0)
    {
      var pair := p.complements[i];
      assert pair in p.complements;
      if pair.0 in symbols {
        KnownHas(p.complements, symbols, pair);
      }
    }
    forall i | 0 <= i < |p.rails|
      ensures x(p.rails[i].0) || x(p.rails[i].1)
    {
      var pair := p.rails[i];
      assert pair in p.rails;
      if pair.0 in symbols {
        KnownHas(p.rails, symbols, pair);
      }
    }
  }

  lemma {:induction false} PatchedEval(symbols: set<nat>, e: Env, legal: Env, x: Expr)
    requires Declares(symbols, x)
    ensures Eval(x, Patched(symbols, e, legal)) == Eval(x, e)
  {
    EvalDependsOnSupport(x, Patched(symbols, e, legal), e);
  }

  lemma {:induction false} MoveSteps(moves: Moves, move: (nat, Expr), e: Env, e': Env)
    requires Step(moves, e, e') && move in moves
    ensures e'(move.0) == Eval(move.1, e)
  {
  }

  /** A state has the same next value in the query's step and in the step of the whole problem. */
  lemma {:induction false} SameNextState(p: Problem, inv: Expr, symbols: set<nat>, requested: seq<nat>, e: Env, e': Env,
      legal: Env, y: Env, v: nat)
    requires Wired(p) && Covers(p, inv, symbols, requested) && QueryStep(p, symbols, requested, e, e')
    requires LegalStep(p, Patched(symbols, e, legal), y) && v in Support(inv) && v in p.states && v >= 2
    ensures y(v) == e'(v)
  {
    hide Declares, WholePairs, RailsValid, Released;
    RequestedIsTarget(p, requested, v);
    if MoveOf(AllMoves(p), v).Some? {
      SameNextTarget(p, inv, symbols, requested, e, e', legal, y, (v, MoveOf(AllMoves(p), v).value));
    } else {
      assert Driven(p, v);
      var q := PrimaryOf(p.complements, v).value;
      PrimaryIsPair(p.complements, v);
      SameNextTarget(p, inv, symbols, requested, e, e', legal, y, (q, MoveOf(AllMoves(p), q).value));
      SupportDeclared(symbols, inv, v);
      KnownHas(p.complements, symbols, (q, v));
      PairFlips(p.complements, (q, v), y);
      PairFlips(Known(p.complements, symbols), (q, v), e');
    }
  }

  lemma {:induction false} SupportDeclared(symbols: set<nat>, e: Expr, v: nat)
    requires Declares(symbols, e) && v in Support(e) && v >= 2
    ensures v in symbols
  {
  }

  lemma {:induction false} PairFlips(pairs: seq<(nat, nat)>, pair: (nat, nat), e: Env)
    requires Complemented(pairs, e) && pair in pairs
    ensures e(pair.1) == !e(pair.0)
  {
  }

  lemma {:induction false} SameNextTarget(p: Problem, inv: Expr, symbols: set<nat>, requested: seq<nat>, e: Env,
      e': Env, legal: Env, y: Env, move: (nat, Expr))
    requires Covers(p, inv, symbols, requested) && QueryStep(p, symbols, requested, e, e')
    requires LegalStep(p, Patched(symbols, e, legal), y) && move in TargetMoves(p, requested)
    ensures y(move.0) == e'(move.0) && move.0 in symbols
  {
    hide Declares, WholePairs, RailsValid, Released, Complemented;
    TargetIsMove(p, requested, move);
    MoveSteps(AllMoves(p), move, Patched(symbols, e, legal), y);
    MoveSteps(TargetMoves(p, requested), move, e, e');
    PatchedEval(symbols, e, legal, move.1);
  }

  /** The check accepts exactly the invariants that every step of the whole problem keeps. */
  lemma {:induction false} AcceptedIffStepsKeep(h: Mixer, p: Problem, inv: Expr, symbols: set<nat>, requested: seq<nat>)
    requires WellFormed(p) && Wired(p) && Live(p) && Covers(p, inv, symbols, requested)
    ensures IsInductiveInvariant(h, p, inv, symbols, requested) <==> Keeps(p, inv)
  {
    hide WellFormed, IsInductiveInvariant, Wired, Live, Covers, QueryStep, LegalStep;
    AcceptedIffKept(h, p, inv, symbols, requested);
    if IsInductiveInvariant(h, p, inv, symbols, requested) {
      forall e, e' | LegalStep(p, e, e') && Certified(p, e) && Eval(inv, e)
        ensures Eval(inv, e')
      {
        LegalIsSeen(p, symbols, requested, e, e');
      }
    }
    if Keeps(p, inv) {
      forall e, e' | QueryStep(p, symbols, requested, e, e') && Certified(p, e) && Eval(inv, e)
        ensures Eval(inv, e')
      {
        SeenIsKept(p, inv, symbols, requested, e, e');
      }
    }
  }

  lemma {:induction false} LegalIsSeen(p: Problem, symbols: set<nat>, requested: seq<nat>, e: Env, e': Env)
    requires LegalStep(p, e, e')
    ensures QueryStep(p, symbols, requested, e, e')
  {
    var pairs, rails, moves := Known(p.complements, symbols), Known(p.rails, symbols), TargetMoves(p, requested);
    forall i | 0 <= i < |pairs|
      ensures e(pairs[i].1) == !e(pairs[i].0) && e'(pairs[i].1) == !e'(pairs[i].0)
    {
      assert pairs[i] in p.complements;
    }
    forall i | 0 <= i < |rails|
      ensures (e(rails[i].0) || e(rails[i].1)) && (e'(rails[i].0) || e'(rails[i].1))
    {
      assert rails[i] in p.rails;
    }
    forall i | 0 <= i < |moves|
      ensures e'(moves[i].0) == Eval(moves[i].1, e)
    {
      assert moves[i] in AllMoves(p);
      MoveSteps(AllMoves(p), moves[i], e, e');
    }
  }

  lemma {:induction false} SeenIsKept(p: Problem, inv: Expr, symbols: set<nat>, requested: seq<nat>, e: Env, e': Env)
    requires Wired(p) && Live(p) && Covers(p, inv, symbols, requested) && Keeps(p, inv)
    requires QueryStep(p, symbols, requested, e, e') && Certified(p, e) && Eval(inv, e)
    ensures Eval(inv, e')
  {
    hide Wired, Covers, QueryStep, PairsHold, Released, LegalStep, Certified;
    var legal: Env :| PairsHold(p, legal);
    var x := Patched(symbols, e, legal);
    PatchedIsLegal(p, inv, symbols, requested, e, e', legal);
    assert Continues(p, x, e');
    var y :| Successor(p, x, e', y);
    SameNextValue(p, inv, symbols, requested, e, e', legal, y);
  }

  lemma {:induction false} PatchedIsLegal(p: Problem, inv: Expr, symbols: set<nat>, requested: seq<nat>, e: Env,
      e': Env, legal: Env)
    requires Covers(p, inv, symbols, requested) && QueryStep(p, symbols, requested, e, e') && PairsHold(p, legal)
    ensures var x := Patched(symbols, e, legal);
      && PairsHold(p, x) && Released(p, x) && Eval(inv, x) == Eval(inv, e) && (Certified(p, e) ==> Certified(p, x))
  {
    var x := Patched(symbols, e, legal);
    PatchedPairs(p, symbols, e, legal);
    assert Released(p, x);
    hide Declares, WholePairs, PairsHold, Released, Step, Complemented, RailsValid;
    PatchedEval(symbols, e, legal, inv);
    if p.learned.Some? {
      PatchedEval(symbols, e, legal, p.learned.value);
    }
  }

  lemma {:induction false} SameNextValue(p: Problem, inv: Expr, symbols: set<nat>, requested: seq<nat>, e: Env, e': Env,
      legal: Env, y: Env)
    requires Wired(p) && Covers(p, inv, symbols, requested) && QueryStep(p, symbols, requested, e, e')
    requires Successor(p, Patched(symbols, e, legal), e', y)
    ensures Eval(inv, y) == Eval(inv, e')
  {
    hide Wired, Covers, QueryStep, LegalStep, Patched;
    forall v | v in Support(inv) && v >= 2
      ensures y(v) == e'(v)
    {
      if v in p.states {
        SameNextState(p, inv, symbols, requested, e, e', legal, y, v);
      }
    }
    EvalDependsOnSupport(inv, y, e');
  }

  // ----- when steps are never blocked -----

  /** A binary problem: no rails, and each complement has no move of its own and one primary. */
  ghost predicate Binary(p: Problem) {
    && p.rails == []
    && forall pair :: pair in p.complements ==>
         MoveOf(AllMoves(p), pair.1).None? && PrimaryOf(p.complements, pair.1) == Some(pair.0)
         && PrimaryOf(p.complements, pair.0).None?
  }

  ghost function NextValue(p: Problem, e: Env, z: Env, v: nat): bool {
    var own, primary := MoveOf(AllMoves(p), v), PrimaryOf(p.complements, v);
    if own.Some? then Eval(own.value, e)
    else if primary.Some? && MoveOf(AllMoves(p), primary.value).Some?
    then !Eval(MoveOf(AllMoves(p), primary.value).value, e)
    else z(v)
  }

  lemma {:induction false} FirstMoveOnly(moves: Moves, i: nat)
    requires i < |moves| && forall j, k :: 0 <= j < k < |moves| ==> moves[j].0 != moves[k].0
    ensures MoveOf(moves, moves[i].0) == Some(moves[i].1)
  {
    if i > 0 {
      FirstMoveOnly(moves[1..], i - 1);
    }
  }

  lemma {:induction false} MoveIsListed(p: Problem, v: nat)
    requires Wired(p) && MoveOf(AllMoves(p), v).Some?
    ensures v in p.states
  {
    MoveOfIsMove(AllMoves(p), v);
    var i :| 0 <= i < |AllMoves(p)| && AllMoves(p)[i] == (v, MoveOf(AllMoves(p), v).value);
  }

  lemma {:induction false} BinaryContinues(p: Problem, e: Env, z: Env)
    requires Wired(p) && Binary(p) && PairsHold(p, e) && Released(p, e)
    ensures Continues(p, e, z)
  {
    var y: Env := (v: nat) => NextValue(p, e, z, v);
    forall i | 0 <= i < |AllMoves(p)|
      ensures y(AllMoves(p)[i].0) == Eval(AllMoves(p)[i].1, e)
    {
      FirstMoveOnly(AllMoves(p), i);
    }
    forall i | 0 <= i < |p.complements|
      ensures y(p.complements[i].1) == !y(p.complements[i].0)
    {
      var pair := p.complements[i];
      assert pair in p.complements;
      assert Driven(p, pair.0);
    }
    forall v: nat | v !in p.states
      ensures y(v) == z(v)
    {
      if MoveOf(AllMoves(p), v).Some? {
        MoveIsListed(p, v);
      }
      PrimaryIsPair(p.complements, v);
    }
    assert Successor(p, e, z, y);
  }

  /** Binary problems are live, so the check is exact for them. */
  lemma {:induction false} BinaryIsLive(p: Problem)
    requires Wired(p) && Binary(p)
    ensures Live(p)
  {
    var e: Env := (v: nat) => PrimaryOf(p.complements, v).Some?;
    forall i | 0 <= i < |p.complements|
      ensures e(p.complements[i].1) == !e(p.complements[i].0)
    {
      assert p.complements[i] in p.complements;
    }
    assert PairsHold(p, e);
    forall e: Env, z: Env | PairsHold(p, e) && Released(p, e)
      ensures Continues(p, e, z)
    {
      BinaryContinues(p, e, z);
    }
  }

  /** Two rails that both fall: no step keeps the pair valid. */
  function FallingRails(): Problem {
    Problem([2, 3], [(2, FALSE), (3, FALSE)], [], [], [(2, 3)], 0, [], FALSE, None)
  }

  /** Where steps can be blocked the check may reject an invariant that every step keeps. */
  lemma {:induction false} BlockedIsRejected(h: Mixer)
    ensures var p := FallingRails();
      && WellFormed(p) && Wired(p) && !Live(p) && Covers(p, Var(2), {2, 3}, [2])
      && Keeps(p, Var(2)) && !IsInductiveInvariant(h, p, Var(2), {2, 3}, [2])
  {
    hide FallingRails, IsInductiveInvariant, QueryStep, LegalStep, Covers, Wired, WellFormed, Live, Certified;
    FallingIsWired();
    FallingIsSeen();
    FallingNeverSteps();
    var e: Env, e': Env := (v: nat) => true, (v: nat) => v == 3;
    SeenStepRejects(h, FallingRails(), Var(2), {2, 3}, [2], e, e');
  }

  lemma {:induction false} SeenStepRejects(h: Mixer, p: Problem, inv: Expr, symbols: set<nat>, requested: seq<nat>,
      e: Env, e': Env)
    requires WellFormed(p) && QueryStep(p, symbols, requested, e, e') && Certified(p, e)
    requires Eval(inv, e) && !Eval(inv, e')
    ensures !IsInductiveInvariant(h, p, inv, symbols, requested)
  {
    hide IsInductiveInvariant, QueryStep, WellFormed, Certified;
    AcceptedIffKept(h, p, inv, symbols, requested);
  }

  lemma {:induction false} FallingNeverSteps()
    ensures !Live(FallingRails()) && forall e, e' :: !LegalStep(FallingRails(), e, e')
    ensures forall e :: Certified(FallingRails(), e)
  {
    var p := FallingRails();
    assert AllMoves(p)[0] == (2, FALSE) && AllMoves(p)[1] == (3, FALSE) && p.rails[0] == (2, 3);
    assert forall e, e' :: !LegalStep(p, e, e');
    var e: Env := (v: nat) => true;
    assert PairsHold(p, e) && Released(p, e);
    assert !Continues(p, e, e);
  }

  lemma {:induction false} FallingIsWired()
    ensures WellFormed(FallingRails()) && Wired(FallingRails()) && Covers(FallingRails(), Var(2), {2, 3}, [2])
  {
    var p := FallingRails();
    assert AllMoves(p) == [(2, FALSE), (3, FALSE)];
    assert AllMoves(p)[1..] == [(3, FALSE)];
    forall s | s in p.states
      ensures Driven(p, s)
    {
    }
    assert TargetMoves(p, [2]) == [(2, FALSE)] + TargetMoves(p, [2][1..]);
  }

  lemma {:induction false} FallingIsSeen()
    ensures QueryStep(FallingRails(), {2, 3}, [2], (v: nat) => true, (v: nat) => v == 3)
  {
    var p := FallingRails();
    assert AllMoves(p) == [(2, FALSE), (3, FALSE)];
    assert TargetMoves(p, [2]) == [(2, FALSE)] + TargetMoves(p, [2][1..]);
    assert Known(p.rails, {2, 3}) == [(2, 3)];
    assert Known(p.complements, {2, 3}) == [];
  }

  // ----- the symbols that the query declares -----

  /** No symbol lies in two pairs. */
  ghost predicate Unchained(pairs: seq<(nat, nat)>) {
    forall i, j :: 0 <= i < j < |pairs| ==>
      pairs[i].0 != pairs[j].0 && pairs[i].0 != pairs[j].1 && pairs[i].1 != pairs[j].0 && pairs[i].1 != pairs[j].1
  }

  /** `addRelevantComplementedStatePartners`, `addRelevantDualRailPartners`. */
  method AddPartners(pairs: seq<(nat, nat)>, symbols: set<nat>) returns (r: set<nat>)
    ensures symbols <= r
    ensures Unchained(pairs) ==> WholePairs(pairs, r)
    ensures forall v :: v in r ==> v in symbols || exists i :: 0 <= i < |pairs| && (v == pairs[i].0 || v == pairs[i].1)
  {
    r := symbols;
    for i := 0 to |pairs|
      invariant symbols <= r
      invariant Unchained(pairs) ==> forall j :: 0 <= j < i ==> (pairs[j].0 in r <==> pairs[j].1 in r)
      invariant forall v :: v in r ==> v in symbols || exists j :: 0 <= j < i && (v == pairs[j].0 || v == pairs[j].1)
    {
      if pairs[i].0 in r || pairs[i].1 in r {
        r := r + {pairs[i].0, pairs[i].1};
      }
    }
  }

  lemma {:induction false} WholeAfter(pairs: seq<(nat, nat)>, others: seq<(nat, nat)>, symbols: set<nat>, r: set<nat>)
    requires WholePairs(pairs, symbols) && symbols <= r && Unchained(pairs + others)
    requires forall v :: v in r ==>
      v in symbols || exists i :: 0 <= i < |others| && (v == others[i].0 || v == others[i].1)
    ensures WholePairs(pairs, r)
  {
    var all := pairs + others;
    forall pair | pair in pairs
      ensures pair.0 in r <==> pair.0 in symbols
      ensures pair.1 in r <==> pair.1 in symbols
    {
      var k :| 0 <= k < |pairs| && pairs[k] == pair;
      forall i | 0 <= i < |others|
        ensures pair.0 != others[i].0 && pair.0 != others[i].1 && pair.1 != others[i].0 && pair.1 != others[i].1
      {
        assert all[k] == pair && all[|pairs| + i] == others[i];
      }
    }
  }

  /** `collectStateSupportSymbols`, in the order of the states. */
  method StateSupport(p: Problem, support: set<nat>) returns (r: seq<nat>)
    ensures forall v :: v in r <==> v in support && v in p.states
  {
    r := [];
    for i := 0 to |p.states|
      invariant forall v :: v in r <==> v in support && v in p.states[..i]
    {
      assert p.states[..i + 1] == p.states[..i] + [p.states[i]];
      if p.states[i] in support && p.states[i] !in r {
        r := r + [p.states[i]];
      }
    }
    assert p.states[..|p.states|] == p.states;
  }

  lemma {:induction false} UnchainedParts(a: seq<(nat, nat)>, b: seq<(nat, nat)>)
    requires Unchained(a + b)
    ensures Unchained(a) && Unchained(b)
  {
    var all := a + b;
    forall i, j | 0 <= i < j < |a|
      ensures a[i].0 != a[j].0 && a[i].0 != a[j].1 && a[i].1 != a[j].0 && a[i].1 != a[j].1
    {
      assert all[i] == a[i] && all[j] == a[j];
    }
    forall i, j | 0 <= i < j < |b|
      ensures b[i].0 != b[j].0 && b[i].0 != b[j].1 && b[i].1 != b[j].0 && b[i].1 != b[j].1
    {
      assert all[|a| + i] == b[i] && all[|a| + j] == b[j];
    }
  }

  lemma {:induction false} FewerTargets(p: Problem, a: seq<nat>, b: seq<nat>, move: (nat, Expr))
    requires (forall v :: v in a ==> v in b) && move in TargetMoves(p, a)
    ensures move in TargetMoves(p, b)
  {
    var v := RequestedBy(p, a, move);
    RequestedIsTarget(p, b, v);
  }

  /** The requested symbol that an equation was added for. */
  lemma {:induction false} RequestedBy(p: Problem, requested: seq<nat>, move: (nat, Expr)) returns (v: nat)
    requires move in TargetMoves(p, requested)
    ensures v in requested && TargetOf(p, v) == Some(move.0) && MoveOf(AllMoves(p), move.0) == Some(move.1)
  {
    var target := TargetOf(p, requested[0]);
    if target.Some? && move == (target.value, MoveOf(AllMoves(p), target.value).value) {
      v := requested[0];
    } else {
      v := RequestedBy(p, requested[1..], move);
    }
  }

  /** `inductiveInvariantQuerySymbols`, and the symbols whose equations are requested. */
  method QuerySymbols(h: Mixer, p: Problem, inv: Expr) returns (symbols: set<nat>, requested: seq<nat>)
    ensures Unchained(p.complements + p.rails) ==> Covers(p, inv, symbols, requested)
    ensures forall v :: v in requested <==> v in Support(inv) && v in p.states
  {
    var support := SupportVars(inv);
    requested := StateSupport(p, support);
    var hypothesis := support;
    if p.learned.Some? {
      var learned := SupportVars(p.learned.value);
      hypothesis := hypothesis + learned;
    }
    var wider := StateSupport(p, hypothesis);
    symbols := hypothesis;
    var targets := TargetMoves(p, wider);
    for i := 0 to |targets|
      invariant hypothesis <= symbols
      invariant forall j :: 0 <= j < i ==> targets[j].0 in symbols && Declares(symbols, targets[j].1)
    {
      var own := SupportVars(targets[i].1);
      symbols := symbols + {targets[i].0} + own;
    }
    forall move | move in TargetMoves(p, requested)
      ensures move.0 in symbols && Declares(symbols, move.1)
    {
      FewerTargets(p, requested, wider, move);
    }
    ghost var before := symbols;
    if p.resetCycles != 0 {
      symbols := symbols + set i | 0 <= i < |p.resetInputs| :: p.resetInputs[i].0;
    }
    ghost var middle := symbols;
    symbols := AddPartners(p.complements, symbols);
    ghost var paired := symbols;
    symbols := AddPartners(p.rails, symbols);
    assert before <= middle <= paired <= symbols;
    if Unchained(p.complements + p.rails) {
      UnchainedParts(p.complements, p.rails);
      WholeAfter(p.complements, p.rails, paired, symbols);
    }
  }

  // ----- when the engine must reach a proof -----

  /** The initial states are legal and certified, and steps keep the learned relation. */
  ghost predicate StartsLegal(p: Problem, init: Expr) {
    && (exists e: Env :: Eval(init, e))
    && (forall e: Env :: Eval(init, e) ==> Complemented(p.complements, e) && Certified(p, e))
    && (forall e: Env, e': Env :: LegalStep(p, e, e') && Certified(p, e) ==> Certified(p, e'))
  }

  /** The frontier at depth k holds all reachable states; none is bad, and the strengthening holds in all. */
  ghost predicate Settled(p: Problem, init: Expr, strengthening: Option<Expr>, k: nat) {
    && Saturated(p, init, k)
    && (forall e: Env :: ReachedWithin(p, init, e, k) && Certified(p, e) ==> !Eval(p.bad, e))
    && (strengthening.Some? ==> forall e: Env :: ReachedWithin(p, init, e, k) ==> Eval(strengthening.value, e))
  }

  ghost predicate AlwaysCovers(p: Problem, symbols: Expr -> set<nat>, requested: Expr -> seq<nat>) {
    forall inv :: Covers(p, inv, symbols(inv), requested(inv))
  }

  lemma {:induction false} InitIsReached(p: Problem, init: Expr, e: Env, k: nat)
    requires Eval(init, e) && Complemented(p.complements, e) && Certified(p, e)
    ensures ReachedWithin(p, init, e, k)
  {
    var frames: Frames := (f: nat) => e;
    assert IsPath(p, init, frames, 0);
    FrontierSteps(p, init, frames, 0);
    FrontierGrows(p, init, e, 0, k);
  }

  lemma {:induction false} StepIsReached(p: Problem, init: Expr, e: Env, e': Env, k: nat)
    requires StateBased(p, init) && StartsLegal(p, init) && LegalStep(p, e, e') && Certified(p, e)
    requires ReachedWithin(p, init, e, k)
    ensures ReachedWithin(p, init, e', k + 1)
  {
    hide StateBased, IsPath, AgreeOn, Certified, Complemented;
    var d := ShallowPath(p, init, e, k);
    var frames: Frames :| IsPath(p, init, frames, d) && AgreeOn(p.states, e, frames(d));
    TransitionsStep(p, e, e');
    Continue(p, init, frames, d, e, e');
    var longer := Redirected(frames, d, e, e');
    FrontierSteps(p, init, longer, d + 1);
    FrontierGrows(p, init, longer(d + 1), d + 1, k + 1);
    assert longer(d + 1) == e';
  }

  lemma {:induction false} TransitionsStep(p: Problem, e: Env, e': Env)
    requires Step(AllMoves(p), e, e')
    ensures Step(p.transitions, e, e')
  {
    forall i | 0 <= i < |p.transitions|
      ensures e'(p.transitions[i].0) == Eval(p.transitions[i].1, e)
    {
      assert AllMoves(p)[i] == p.transitions[i];
    }
  }

  /** A settled frontier passes all three tests of the invariant check. */
  lemma {:induction false} SettledIsProved(h: Mixer, p: Problem, init: Expr, strengthening: Option<Expr>, inv: Expr,
      symbols: set<nat>, requested: seq<nat>, k: nat)
    requires WellFormed(p) && Wired(p) && Live(p) && Covers(p, inv, symbols, requested)
    requires StateBased(p, init) && StartsLegal(p, init) && Settled(p, init, strengthening, k)
    requires IsCandidate(p, init, strengthening, k, inv)
    ensures ProvesImcInvariant(h, p, init, inv, symbols, requested)
  {
    hide WellFormed, Wired, Live, Covers, StateBased, IsInductiveInvariant, IsSat, ReachedWithin, LegalStep;
    hide MkAnd, MkNot, Complemented, Certified;
    forall e: Env | Eval(init, e)
      ensures Eval(inv, e)
    {
      InitIsReached(p, init, e, k);
    }
    IsSatIsExact(MkAnd(h, init, MkNot(inv)));
    forall e, e' | LegalStep(p, e, e') && Certified(p, e) && Eval(inv, e)
      ensures Eval(inv, e')
    {
      StepIsReached(p, init, e, e', k);
    }
    AcceptedIffStepsKeep(h, p, inv, symbols, requested);
    NoBadInside(h, p, inv);
  }

  lemma {:induction false} NoBadInside(h: Mixer, p: Problem, inv: Expr)
    requires forall e: Env :: Eval(inv, e) && Certified(p, e) ==> !Eval(p.bad, e)
    ensures !IsSat(BadQuery(h, p, inv))
  {
    hide IsSat, MkAnd;
    IsSatIsExact(BadQuery(h, p, inv));
  }

  /** With at most twelve state bits a settled frontier is never rejected. */
  lemma {:induction false} SettledIsNotRejected(h: Mixer, p: Problem, init: Expr, strengthening: Option<Expr>,
      symbols: Expr -> set<nat>, requested: Expr -> seq<nat>, k: nat)
    requires WellFormed(p) && Wired(p) && Live(p) && AlwaysCovers(p, symbols, requested) && |p.states| <= 12
    requires StateBased(p, init) && StartsLegal(p, init) && Settled(p, init, strengthening, k)
    ensures !Rejected(h, p, init, strengthening, symbols, requested, k)
  {
    hide WellFormed, Wired, Live, Covers, StateBased, ProvesImcInvariant, ReachedWithin, IsCandidate, Settled;
    hide LegalStep, Complemented, Certified;
    var e: Env :| Eval(init, e);
    InitIsReached(p, init, e, k);
    forall inv | IsCandidate(p, init, strengthening, k, inv)
      ensures ProvesImcInvariant(h, p, init, inv, symbols(inv), requested(inv))
    {
      SettledIsProved(h, p, init, strengthening, inv, symbols(inv), requested(inv), k);
    }
  }

  /**
   The engine is complete on small problems: when the frontier settles by maxK and the search finds no
   counterexample, the answer is Equivalent.
   */
  method RunSettles(h: Mixer, p: Problem, startup: Option<Expr>, strengthening: Option<Expr>,
      counterexample: nat -> Option<nat>, symbols: Expr -> set<nat>, requested: Expr -> seq<nat>, maxK: nat,
      ghost k: nat) returns (s: Status)
    requires WellFormed(p) && Wired(p) && Live(p) && AlwaysCovers(p, symbols, requested) && 0 < |p.states| <= 12
    requires startup.Some? && 1 <= k <= maxK && forall i :: 0 <= i <= maxK ==> counterexample(i).None?
    requires var init := InitFormula(h, p, startup).value;
      StateBased(p, init) && StartsLegal(p, init) && Settled(p, init, strengthening, k)
    ensures s.Equivalent? && Safe(p, startup.value) && 1 <= s.bound <= k
  {
    hide WellFormed, Wired, Live, AlwaysCovers, StateBased, StartsLegal, Settled, Rejected, Safe, ProvedAt;
    hide ProvesImcInvariant;
    ghost var init := InitFormula(h, p, startup).value;
    SettledIsNotRejected(h, p, init, strengthening, symbols, requested, k);
    s := RunImc(h, p, startup, strengthening, counterexample, symbols, requested, maxK);
  }
}
