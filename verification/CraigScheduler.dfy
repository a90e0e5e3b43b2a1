/**
 The recursive output splitting of the Craig engine. What one attempt answers is arbitrary,
 up to its contract: a claimed proof of a range is a proof of its slice property.
 */
module CraigScheduling {
  import opened Options
  import opened BoolExprs
  import opened Batching

  datatype CraigStatus = Proved | CounterexampleCandidate | BudgetExceeded | ConcreteNoProgress | NoResult

  datatype Proof = Proof(status: CraigStatus, iterations: nat)

  datatype ImcResult = Equivalent(bound: nat) | Different(frame: nat) | Inconclusive(bound: nat)

  /**
   Everything outside the scheduler: whether a retained helper invariant already excludes the
   bad states of a range, the answer of a Craig attempt with or without the range's seeds, a
   bounded witness search. Each may depend on how many calls were made before.
   */
  datatype Oracle = Oracle(
    reuse: (nat, nat, nat) -> Option<nat>,
    attempt: (nat, nat, bool, nat) -> Proof,
    search: (nat, nat, nat) -> Option<nat>,
    retries: (nat, nat) -> bool)

  /** Some answer for the range is a claim of proof. */
  ghost predicate Claimed(oracle: Oracle, r: Range) {
    exists seeds: bool, call: nat :: ClaimedAt(oracle, r, seeds, call)
  }

  ghost predicate ClaimedAt(oracle: Oracle, r: Range, seeds: bool, call: nat) {
    oracle.reuse(r.first, r.end, call).Some? || oracle.attempt(r.first, r.end, seeds, call).status.Proved?
  }

  /** The answer that counts: the second attempt after an exhausted budget, if there is one. */
  function FinalProof(oracle: Oracle, r: Range, call: nat): Proof {
    var proof := oracle.attempt(r.first, r.end, true, call);
    if proof.status.BudgetExceeded? && oracle.retries(r.first, r.end) then oracle.attempt(r.first, r.end, false, call)
        else proof
  }

  /** A range that was neither proved nor split any further: it was handed to the bounded search. */
  ghost predicate Stopped(oracle: Oracle, r: Range, call: nat) {
    && oracle.reuse(r.first, r.end, call).None? && !FinalProof(oracle, r, call).status.Proved?
    && (r.end == r.first + 1 || FinalProof(oracle, r, call).status.CounterexampleCandidate?)
  }

  /** Such a range for which the search had no witness either. */
  ghost predicate GaveUp(oracle: Oracle, r: Range, call: nat) {
    Stopped(oracle, r, call) && oracle.search(r.first, r.end, call).None?
  }

  predicate Within(r: Range, first: nat, end: nat) { first <= r.first < r.end <= end }

  ghost predicate GaveUpIn(oracle: Oracle, first: nat, end: nat) {
    exists r: Range, call: nat :: Within(r, first, end) && GaveUp(oracle, r, call)
  }

  /** The output lies in a part of the range that stopped without a proof. */
  ghost predicate Unfinished(oracle: Oracle, first: nat, end: nat, o: nat) {
    exists r: Range, call: nat :: Within(r, first, end) && Contains(r, o) && Stopped(oracle, r, call)
  }

  /** The output lies in a part of the range that gave up. */
  ghost predicate LeftOpen(oracle: Oracle, first: nat, end: nat, o: nat) {
    exists r: Range, call: nat :: Within(r, first, end) && Contains(r, o) && GaveUp(oracle, r, call)
  }

  /** A bounded search inside the range reported this frame. */
  ghost predicate FoundIn(oracle: Oracle, first: nat, end: nat, frame: nat) {
    exists r: Range, call: nat :: Within(r, first, end) && SearchFound(oracle, r, call, frame)
  }

  ghost predicate SearchFound(oracle: Oracle, r: Range, call: nat, frame: nat) {
    Stopped(oracle, r, call) && oracle.search(r.first, r.end, call) == Some(frame)
  }

  lemma {:induction false} InsideWider(oracle: Oracle, a: nat, b: nat, first: nat, end: nat)
    requires first <= a <= b <= end
    ensures GaveUpIn(oracle, a, b) ==> GaveUpIn(oracle, first, end)
    ensures forall frame :: FoundIn(oracle, a, b, frame) ==> FoundIn(oracle, first, end, frame)
    ensures forall o :: Unfinished(oracle, a, b, o) ==> Unfinished(oracle, first, end, o)
    ensures forall o :: LeftOpen(oracle, a, b, o) ==> LeftOpen(oracle, first, end, o)
  {
    hide GaveUp, Stopped, SearchFound, Contains;
    if GaveUpIn(oracle, a, b) {
      var r: Range, call: nat :| Within(r, a, b) && GaveUp(oracle, r, call);
      assert Within(r, first, end);
    }
    forall frame | FoundIn(oracle, a, b, frame)
      ensures FoundIn(oracle, first, end, frame)
    {
      var r: Range, call: nat :| Within(r, a, b) && SearchFound(oracle, r, call, frame);
      assert Within(r, first, end);
    }
    forall o | Unfinished(oracle, a, b, o)
      ensures Unfinished(oracle, first, end, o)
    {
      var r: Range, call: nat :| Within(r, a, b) && Contains(r, o) && Stopped(oracle, r, call);
      assert Within(r, first, end);
    }
    forall o | LeftOpen(oracle, a, b, o)
      ensures LeftOpen(oracle, first, end, o)
    {
      var r: Range, call: nat :| Within(r, a, b) && Contains(r, o) && GaveUp(oracle, r, call);
      assert Within(r, first, end);
    }
  }

  ghost predicate InSome(ranges: seq<Range>, o: nat) {
    exists i :: 0 <= i < |ranges| && Contains(ranges[i], o)
  }

  lemma {:induction false} InSomeAppend(ranges: seq<Range>, r: Range, o: nat)
    ensures InSome(ranges + [r], o) <==> InSome(ranges, o) || Contains(r, o)
  {
    var more := ranges + [r];
    assert more[|ranges|] == r;
    if InSome(ranges, o) {
      var i :| 0 <= i < |ranges| && Contains(ranges[i], o);
      assert more[i] == ranges[i];
    }
    if InSome(more, o) {
      var i :| 0 <= i < |more| && Contains(more[i], o);
      assert i < |ranges| ==> ranges[i] == more[i];
    }
  }

  function Max(a: nat, b: nat): nat { if a < b then b else a }

  function Min(a: nat, b: nat): nat { if a < b then a else b }

  // ----- the answers, in terms of the oracle -----

  /** What the bounded search answers for a range that stopped. */
  function Probed(oracle: Oracle, r: Range, call: nat, bound: nat): ImcResult {
    var w := oracle.search(r.first, r.end, call);
    if w.Some? then Different(w.value) else Inconclusive(bound)
  }

  /** The answer for a range and the number of calls after it. */
  function Scheduled(oracle: Oracle, maxK: nat, first: nat, end: nat, call: nat): (ImcResult, nat)
    decreases end - first
  {
    var reused, proof := oracle.reuse(first, end, call + 1), FinalProof(oracle, Range(first, end), call + 1);
    if reused.Some? then (Equivalent(reused.value), call + 1)
    else if proof.status.Proved? then (Equivalent(proof.iterations), call + 1)
    else if proof.status.CounterexampleCandidate? then (Probed(oracle, Range(first, end), call + 1, maxK), call + 1)
    else if end <= first + 1 then
      var bound := if proof.status.BudgetExceeded? then proof.iterations else maxK;
      (Probed(oracle, Range(first, end), call + 1, bound), call + 1)
    else
      var mid := first + (end - first) / 2;
      var left := Scheduled(oracle, maxK, first, mid, call + 1);
      var right := Scheduled(oracle, maxK, mid, end, left.1);
      (Combined(left.0, right.0), right.1)
  }

  /** The halves' answers: a witness first, then what is open, then the larger bound. */
  function Combined(left: ImcResult, right: ImcResult): ImcResult {
    if left.Different? then left
    else if right.Different? then right
    else if left.Inconclusive? then left
    else if right.Inconclusive? then right
    else Equivalent(Max(left.bound, right.bound))
  }

  /** The answer for a list of ranges, tried in order until one is not proved. */
  function ScheduledAll(oracle: Oracle, maxK: nat, batches: seq<Range>, call: nat, bound: nat): ImcResult {
    if batches == [] then Equivalent(bound)
    else
      var s := Scheduled(oracle, maxK, batches[0].first, batches[0].end, call);
      match s.0
      case Different(_) => s.0
      case Inconclusive(b) => Inconclusive(Min(maxK, b))
      case Equivalent(b) => ScheduledAll(oracle, maxK, batches[1..], s.1, Max(bound, b))
  }

  /** The cases of an answer, by the range's own reuse and proof. */
  lemma {:induction false} ScheduledCases(oracle: Oracle, maxK: nat, first: nat, end: nat, call: nat)
    requires first < end
    ensures var s := Scheduled(oracle, maxK, first, end, call);
      var reused, proof := oracle.reuse(first, end, call + 1), FinalProof(oracle, Range(first, end), call + 1);
      && (reused.Some? ==> s == (Equivalent(reused.value), call + 1))
      && (reused.None? && proof.status.Proved? ==> s == (Equivalent(proof.iterations), call + 1))
      && (reused.None? && proof.status.CounterexampleCandidate? ==>
            s == (Probed(oracle, Range(first, end), call + 1, maxK), call + 1))
      && (reused.None? && !proof.status.Proved? && !proof.status.CounterexampleCandidate? ==>
            s == OpenAnswer(oracle, maxK, first, end, call + 1, proof))
  {
  }

  /** The answer for a range that its own attempt left open. */
  function OpenAnswer(oracle: Oracle, maxK: nat, first: nat, end: nat, call: nat, proof: Proof): (ImcResult, nat) {
    if end <= first + 1 then
      var bound := if proof.status.BudgetExceeded? then proof.iterations else maxK;
      (Probed(oracle, Range(first, end), call, bound), call)
    else
      var mid := first + (end - first) / 2;
      var left := Scheduled(oracle, maxK, first, mid, call);
      var right := Scheduled(oracle, maxK, mid, end, left.1);
      (Combined(left.0, right.0), right.1)
  }

  /** Some proof inside the range has this bound. */
  ghost predicate BoundOfProof(oracle: Oracle, first: nat, end: nat, bound: nat) {
    exists r: Range, call: nat :: Within(r, first, end) && ProvedWith(oracle, r, call, bound)
  }

  ghost predicate ProvedWith(oracle: Oracle, r: Range, call: nat, bound: nat) {
    var reused, proof := oracle.reuse(r.first, r.end, call), FinalProof(oracle, r, call);
    if reused.Some? then reused.value == bound else proof.status.Proved? && proof.iterations == bound
  }

  lemma {:induction false} BoundInsideWider(oracle: Oracle, a: nat, b: nat, first: nat, end: nat, bound: nat)
    requires first <= a <= b <= end && BoundOfProof(oracle, a, b, bound)
    ensures BoundOfProof(oracle, first, end, bound)
  {
    hide ProvedWith;
    var r: Range, call: nat :| Within(r, a, b) && ProvedWith(oracle, r, call, bound);
    assert Within(r, first, end);
  }

  /**
   A proved range is answered by its own proof; otherwise the bound of an answer Equivalent is that
   of a proof inside the range, and no half has a larger one.
   */
  lemma {:induction false} ScheduledBound(oracle: Oracle, maxK: nat, first: nat, end: nat, call: nat)
    requires first < end
    ensures var r := Scheduled(oracle, maxK, first, end, call).0;
      && (r.Equivalent? ==> BoundOfProof(oracle, first, end, r.bound))
      && (r.Inconclusive? ==> r.bound == maxK || exists s: Range, c: nat ::
            Within(s, first, end) && StoppedAt(oracle, s, c, r.bound))
    decreases end - first
  {
    hide BoundOfProof, Stopped;
    var reused, proof := oracle.reuse(first, end, call + 1), FinalProof(oracle, Range(first, end), call + 1);
    assert Within(Range(first, end), first, end);
    if reused.Some? || proof.status.Proved? {
      OwnBound(oracle, Range(first, end), call + 1, if reused.Some? then reused.value else proof.iterations);
    } else if proof.status.CounterexampleCandidate? {
    } else if end == first + 1 {
      if proof.status.BudgetExceeded? {
        OwnStop(oracle, Range(first, end), call + 1);
      }
    } else {
      var mid := first + (end - first) / 2;
      var left := Scheduled(oracle, maxK, first, mid, call + 1);
      var right := Scheduled(oracle, maxK, mid, end, left.1);
      ScheduledBound(oracle, maxK, first, mid, call + 1);
      ScheduledBound(oracle, maxK, mid, end, left.1);
      if left.0.Equivalent? {
        BoundInsideWider(oracle, first, mid, first, end, left.0.bound);
      }
      if right.0.Equivalent? {
        BoundInsideWider(oracle, mid, end, first, end, right.0.bound);
      }
      StopInsideWider(oracle, first, mid, first, end);
      StopInsideWider(oracle, mid, end, first, end);
    }
  }

  ghost predicate StoppedAt(oracle: Oracle, r: Range, call: nat, bound: nat) {
    && Stopped(oracle, r, call) && FinalProof(oracle, r, call).status.BudgetExceeded?
    && FinalProof(oracle, r, call).iterations == bound
  }

  lemma {:induction false} OwnStop(oracle: Oracle, r: Range, call: nat)
    requires oracle.reuse(r.first, r.end, call).None? && FinalProof(oracle, r, call).status.BudgetExceeded?
    requires r.end == r.first + 1
    ensures StoppedAt(oracle, r, call, FinalProof(oracle, r, call).iterations)
  {
  }

  lemma {:induction false} OwnBound(oracle: Oracle, r: Range, call: nat, bound: nat)
    requires r.first < r.end && ProvedWith(oracle, r, call, bound)
    ensures BoundOfProof(oracle, r.first, r.end, bound)
  {
    assert Within(r, r.first, r.end);
  }

  lemma {:induction false} StopInsideWider(oracle: Oracle, a: nat, b: nat, first: nat, end: nat)
    requires first <= a <= b <= end
    ensures forall s: Range, c: nat, bound: nat ::
      Within(s, a, b) && StoppedAt(oracle, s, c, bound) ==> Within(s, first, end)
  {
  }

  class Scheduler {
    const oracle: Oracle
    const maxK: nat
    const covered: array<bool>
    var calls: nat
    ghost var proved: seq<Range>

    constructor (o: Oracle, k: nat, outputs: nat)
      ensures oracle == o && maxK == k && covered.Length == outputs && fresh(covered)
      ensures Valid() && proved == []
    {
      oracle, maxK, calls, proved := o, k, 0, [];
      covered := new bool[outputs](i => false);
    }

    /** An output is covered exactly when it lies in a range that was claimed as proved. */
    ghost predicate Valid()
      reads this, covered
    {
      && (forall o :: 0 <= o < covered.Length ==> (covered[o] <==> InSome(proved, o)))
      && (forall i :: 0 <= i < |proved| ==> Claimed(oracle, proved[i]))
    }

    /** `markCraigOutputRangeCovered`. */
    method MarkCovered(first: nat, end: nat)
      requires Valid() && Claimed(oracle, Range(first, end))
      modifies this, covered
      ensures Valid() && proved == old(proved) + [Range(first, end)] && calls == old(calls)
    {
      hide InSome;
      var bounded := Min(end, covered.Length);
      var output := first;
      while output < bounded
        invariant first <= output
        invariant forall o :: 0 <= o < covered.Length ==>
          (covered[o] <==> old(covered[o]) || (first <= o < output && o < bounded))
        invariant proved == old(proved) && calls == old(calls)
      {
        covered[output] := true;
        output := output + 1;
      }
      proved := proved + [Range(first, end)];
      forall o | 0 <= o < covered.Length
        ensures covered[o] <==> InSome(proved, o)
      {
        InSomeAppend(old(proved), Range(first, end), o);
      }
    }

    /** What every step of the schedule keeps: coverage only grows, and only by ranges inside the current one. */
    twostate predicate Grows(first: nat, end: nat)
      reads this, covered
    {
      && old(proved) <= proved
      && forall i :: |old(proved)| <= i < |proved| ==> first <= proved[i].first <= proved[i].end <= end
    }

    /** A bounded witness, or inconclusive. */
    method Probe(first: nat, end: nat, bound: nat) returns (r: ImcResult)
      requires first < end && Stopped(oracle, Range(first, end), calls)
      ensures r == Probed(oracle, Range(first, end), calls, bound) && !r.Equivalent?
      ensures r.Inconclusive? ==> GaveUp(oracle, Range(first, end), calls)
      ensures r.Different? ==> FoundIn(oracle, first, end, r.frame)
    {
      assert Within(Range(first, end), first, end);
      var w := oracle.search(first, end, calls);
      if w.Some? {
        assert SearchFound(oracle, Range(first, end), calls, w.value);
        return Different(w.value);
      }
      r := Inconclusive(bound);
    }

    /**
     `runCraigOutputRange`. Whatever the answer, an output of the range that is not covered
     afterwards lies in a part that was tried and stopped; when the answer is inconclusive
     that part gave up. So neither half is skipped and neither half's coverage is lost.
     */
    method RunRange(first: nat, end: nat) returns (r: ImcResult)
      requires Valid() && first < end <= covered.Length
      modifies this, covered
      ensures Valid() && Grows(first, end)
      ensures r.Equivalent? ==> forall o :: first <= o < end ==> covered[o]
      ensures forall o :: 0 <= o < covered.Length && old(covered[o]) ==> covered[o]
      ensures r.Different? ==> FoundIn(oracle, first, end, r.frame)
      ensures r.Inconclusive? ==> GaveUpIn(oracle, first, end)
      ensures forall o :: first <= o < end && !covered[o] ==> Unfinished(oracle, first, end, o)
      ensures r.Inconclusive? ==> forall o :: first <= o < end && !covered[o] ==> LeftOpen(oracle, first, end, o)
      ensures oracle.reuse(first, end, old(calls) + 1).Some? ==>
        r == Equivalent(oracle.reuse(first, end, old(calls) + 1).value)
      ensures var proof := FinalProof(oracle, Range(first, end), old(calls) + 1);
        oracle.reuse(first, end, old(calls) + 1).None? ==>
          && (proof.status.Proved? ==> r == Equivalent(proof.iterations))
          && (proof.status.CounterexampleCandidate? ==>
                r == Probed(oracle, Range(first, end), calls, maxK) && calls == old(calls) + 1 && proved == old(proved))
      ensures (r, calls) == Scheduled(oracle, maxK, first, end, old(calls))
      decreases end - first, 1
    {
      hide FoundIn, GaveUpIn, LeftOpen, Unfinished, GaveUp, Stopped, Claimed, InSome;
      hide Scheduled, Probed, Combined;
      ScheduledCases(oracle, maxK, first, end, calls);
      calls := calls + 1;
      var reused := oracle.reuse(first, end, calls);
      if reused.Some? {
        ClaimIs(oracle, Range(first, end), true, calls);
        MarkCovered(first, end);
        MarkedIsCovered(old(proved), Range(first, end));
        return Equivalent(reused.value);
      }
      var proof := oracle.attempt(first, end, true, calls);
      ClaimIs(oracle, Range(first, end), true, calls);
      if proof.status.BudgetExceeded? && oracle.retries(first, end) {
        proof := oracle.attempt(first, end, false, calls);
        ClaimIs(oracle, Range(first, end), false, calls);
      }
      if proof.status.Proved? {
        MarkCovered(first, end);
        MarkedIsCovered(old(proved), Range(first, end));
        return Equivalent(proof.iterations);
      }
      if proof.status.CounterexampleCandidate? {
        StoppedHere(oracle, Range(first, end), calls);
        r := Probe(first, end, maxK);
        return;
      }
      if end != first + 1 {
        r := Split(first, end);
        return;
      }
      var bound := if proof.status.BudgetExceeded? then proof.iterations else maxK;
      StoppedHere(oracle, Range(first, end), calls);
      r := Probe(first, end, bound);
    }

    /** Both halves run whatever the first one answers. */
    method Split(first: nat, end: nat) returns (r: ImcResult)
      requires Valid() && first + 1 < end <= covered.Length
      modifies this, covered
      ensures Valid() && Grows(first, end)
      ensures r.Equivalent? ==> forall o :: first <= o < end ==> covered[o]
      ensures forall o :: 0 <= o < covered.Length && old(covered[o]) ==> covered[o]
      ensures r.Different? ==> FoundIn(oracle, first, end, r.frame)
      ensures r.Inconclusive? ==> GaveUpIn(oracle, first, end)
      ensures forall o :: first <= o < end && !covered[o] ==> Unfinished(oracle, first, end, o)
      ensures r.Inconclusive? ==> forall o :: first <= o < end && !covered[o] ==> LeftOpen(oracle, first, end, o)
      ensures var mid := first + (end - first) / 2;
        var left := Scheduled(oracle, maxK, first, mid, old(calls));
        var right := Scheduled(oracle, maxK, mid, end, left.1);
        r == Combined(left.0, right.0) && calls == right.1
      decreases end - first, 0
    {
      hide FoundIn, GaveUpIn, LeftOpen, Unfinished, GaveUp, Stopped, Claimed, InSome;
      hide Scheduled;
      var midpoint := first + (end - first) / 2;
      var left := RunRange(first, midpoint);
      label between:
      var right := RunRange(midpoint, end);
      GrowsTwice(old(proved), old@between(proved), proved, first, midpoint, end);
      InsideWider(oracle, first, midpoint, first, end);
      InsideWider(oracle, midpoint, end, first, end);
      if left.Different? {
        return left;
      }
      if right.Different? {
        return right;
      }
      if left.Inconclusive? {
        return left;
      }
      if right.Inconclusive? {
        return right;
      }
      r := Equivalent(Max(left.bound, right.bound));
    }

    /**
     `runLargeDualRailCraigImc`: one range after another, until one is not proved. All outputs
     before that range are covered, and those inside it that are not lie in a part that stopped.
     */
    method RunAll(canAdd: (nat, nat) -> bool) returns (r: ImcResult, ghost at: Range, ghost batches: seq<Range>)
      requires Valid()
      modifies this, covered
      ensures Valid()
      ensures r.Equivalent? ==> forall o :: 0 <= o < covered.Length ==> covered[o]
      ensures forall o :: 0 <= o < covered.Length && old(covered[o]) ==> covered[o]
      ensures r.Different? ==> FoundIn(oracle, 0, covered.Length, r.frame)
      ensures r.Inconclusive? ==> r.bound <= maxK && GaveUpIn(oracle, 0, covered.Length)
      ensures Tiles(batches, covered.Length)
      ensures forall i :: 0 <= i < |batches| ==> GreedyBy(covered.Length, canAdd, batches[i])
      ensures r == ScheduledAll(oracle, maxK, batches, old(calls), 0)
      ensures !r.Equivalent? ==> at in batches
      ensures !r.Equivalent? ==> at.first < at.end <= covered.Length && forall o :: 0 <= o < at.first ==> covered[o]
      ensures !r.Equivalent? ==>
        forall o :: at.first <= o < at.end && !covered[o] ==> Unfinished(oracle, at.first, at.end, o)
      ensures r.Inconclusive? ==>
        forall o :: at.first <= o < at.end && !covered[o] ==> LeftOpen(oracle, at.first, at.end, o)
    {
      hide FoundIn, GaveUpIn, LeftOpen, Unfinished, GaveUp, Stopped, Claimed, InSome;
      var plans := BuildCraigPlans(covered.Length, canAdd);
      batches := plans;
      var bound: nat := 0;
      for i := 0 to |plans|
        invariant Valid() && plans == batches
        invariant ScheduledAll(oracle, maxK, plans, old(calls), 0)
               == ScheduledAll(oracle, maxK, plans[i..], calls, bound)
        invariant forall o :: 0 <= o < covered.Length && old(covered[o]) ==> covered[o]
        invariant forall j, o :: 0 <= j < i && batches[j].first <= o < batches[j].end && o < covered.Length ==>
          covered[o]
      {
        EndsWithin(batches, covered.Length, i);
        forall o | 0 <= o < batches[i].first
          ensures covered[o]
        {
          var j := BeforeBatch(batches, covered.Length, i, o);
        }
        at := plans[i];
        assert plans[i..][0] == plans[i] && plans[i..][1..] == plans[i + 1..];
        var result := RunRange(plans[i].first, plans[i].end);
        InsideWider(oracle, batches[i].first, batches[i].end, 0, covered.Length);
        match result {
          case Different(_) => return result, at, batches;
          case Inconclusive(b) => return Inconclusive(Min(maxK, b)), at, batches;
          case Equivalent(b) => bound := Max(bound, b);
        }
      }
      forall o | 0 <= o < covered.Length
        ensures covered[o]
      {
        var i := TilesCover(batches, covered.Length, o);
      }
      r := Equivalent(bound);
      at := Range(0, 0);
    }
  }

  lemma {:induction false} BeforeBatch(batches: seq<Range>, n: nat, i: nat, o: nat) returns (j: nat)
    requires Tiles(batches, n) && i < |batches| && o < batches[i].first
    ensures j < i && Contains(batches[j], o)
  {
    EndsWithin(batches, n, i);
    j := TilesCover(batches, n, o);
    if i < j {
      EndsBefore(batches, n, i, j);
    }
  }

  lemma {:induction false} StoppedHere(oracle: Oracle, r: Range, call: nat)
    requires r.first < r.end
    ensures Stopped(oracle, r, call) <==>
      && oracle.reuse(r.first, r.end, call).None? && !FinalProof(oracle, r, call).status.Proved?
      && (r.end == r.first + 1 || FinalProof(oracle, r, call).status.CounterexampleCandidate?)
    ensures Stopped(oracle, r, call) ==> forall o :: r.first <= o < r.end ==> Unfinished(oracle, r.first, r.end, o)
    ensures GaveUp(oracle, r, call) ==> GaveUpIn(oracle, r.first, r.end)
    ensures GaveUp(oracle, r, call) ==> forall o :: r.first <= o < r.end ==> LeftOpen(oracle, r.first, r.end, o)
  {
    assert Within(r, r.first, r.end);
    assert forall o :: r.first <= o < r.end ==> Contains(r, o);
  }

  lemma {:induction false} ClaimIs(oracle: Oracle, r: Range, seeds: bool, call: nat)
    ensures oracle.reuse(r.first, r.end, call).Some? ==> Claimed(oracle, r)
    ensures oracle.attempt(r.first, r.end, seeds, call).status.Proved? ==> Claimed(oracle, r)
  {
    assert ClaimedAt(oracle, r, seeds, call) ==> Claimed(oracle, r);
  }

  lemma {:induction false} MarkedIsCovered(ranges: seq<Range>, r: Range)
    ensures forall o: nat :: InSome(ranges, o) || Contains(r, o) ==> InSome(ranges + [r], o)
  {
    forall o: nat
      ensures InSome(ranges, o) || Contains(r, o) ==> InSome(ranges + [r], o)
    {
      InSomeAppend(ranges, r, o);
    }
  }

  lemma {:induction false} GrowsTwice(a: seq<Range>, b: seq<Range>, c: seq<Range>, first: nat, mid: nat, end: nat)
    requires a <= b <= c && first <= mid <= end
    requires forall i :: |a| <= i < |b| ==> first <= b[i].first <= b[i].end <= mid
    requires forall i :: |b| <= i < |c| ==> mid <= c[i].first <= c[i].end <= end
    ensures forall i :: |a| <= i < |c| ==> first <= c[i].first <= c[i].end <= end
  {
    forall i | |a| <= i < |c|
      ensures first <= c[i].first <= c[i].end <= end
    {
      if i < |b| {
        assert c[i] == b[i];
      }
    }
  }

  // ----- what coverage means -----

  /** In the reachable environments the outputs of a range agree. */
  ghost predicate SliceHolds(reachable: Env -> bool, outs: Outputs, r: Range) {
    forall env :: reachable(env) ==> SliceAgrees(outs, r, env)
  }

  /** The contract of the oracle: a claimed range holds. */
  ghost predicate Trusted(oracle: Oracle, reachable: Env -> bool, outs: Outputs) {
    forall r :: Claimed(oracle, r) ==> SliceHolds(reachable, outs, r)
  }

  /** A covered output really is equal in every reachable environment. */
  lemma {:induction false} CoveredOutputHolds(s: Scheduler, reachable: Env -> bool, outs: Outputs, o: nat, env: Env)
    requires s.Valid() && Trusted(s.oracle, reachable, outs) && o < s.covered.Length && s.covered[o] && reachable(env)
    ensures Agrees(outs, o, env)
  {
    hide Claimed, Agrees;
    assert InSome(s.proved, o);
    var i :| 0 <= i < |s.proved| && Contains(s.proved[i], o);
    assert Claimed(s.oracle, s.proved[i]);
    assert SliceHolds(reachable, outs, s.proved[i]);
  }

  /** All outputs covered: the whole property holds in every reachable environment. */
  lemma {:induction false} AllCoveredProvesProperty(s: Scheduler, reachable: Env -> bool, outs: Outputs)
    requires s.Valid() && Trusted(s.oracle, reachable, outs) && forall o :: 0 <= o < s.covered.Length ==> s.covered[o]
    ensures SliceHolds(reachable, outs, Range(0, s.covered.Length))
  {
    hide Claimed, Agrees, Trusted;
    forall env | reachable(env)
      ensures SliceAgrees(outs, Range(0, s.covered.Length), env)
    {
      forall o | 0 <= o < s.covered.Length
        ensures Agrees(outs, o, env)
      {
        CoveredOutputHolds(s, reachable, outs, o, env);
      }
    }
  }
}
