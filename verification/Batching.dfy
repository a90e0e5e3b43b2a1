/**
 Output batching: plans that partition the outputs, slice properties that conjoin to the
 whole property, and the recursive splitting of Craig attempts.
 */
module Batching {
  import opened BoolExprs
  import opened Simplification

  datatype Range = Range(first: nat, end: nat)

  // ----- partitions -----

  /** Consecutive nonempty ranges from 0 to n. */
  ghost predicate Tiles(batches: seq<Range>, n: nat) {
    && (batches == [] ==> n == 0)
    && (batches != [] ==> batches[0].first == 0 && batches[|batches| - 1].end == n)
    && (forall i :: 0 <= i < |batches| ==> batches[i].first < batches[i].end)
    && (forall i :: 0 <= i < |batches| - 1 ==> Adjacent(batches, i))
  }

  ghost predicate Adjacent(batches: seq<Range>, i: nat) {
    i + 1 < |batches| && batches[i].end == batches[i + 1].first
  }

  predicate Contains(r: Range, o: nat) { r.first <= o < r.end }

  lemma {:induction false} TilesAppend(batches: seq<Range>, n: nat, end: nat)
    requires Tiles(batches, n) && n < end
    ensures Tiles(batches + [Range(n, end)], end)
  {
    var more := batches + [Range(n, end)];
    forall i | 0 <= i < |more| - 1
      ensures Adjacent(more, i)
    {
      if i + 1 < |batches| {
        assert Adjacent(batches, i);
      }
    }
  }

  /** Every output lies in exactly one range. */
  lemma {:induction false} TilesCover(batches: seq<Range>, n: nat, o: nat) returns (i: nat)
    requires Tiles(batches, n) && o < n
    ensures i < |batches| && Contains(batches[i], o)
    ensures forall j :: 0 <= j < |batches| && Contains(batches[j], o) ==> j == i
    decreases |batches|
  {
    var k := |batches| - 1;
    var rest := batches[..k];
    if o >= batches[k].first {
      i := k;
      forall j | 0 <= j < |batches| && Contains(batches[j], o)
        ensures j == i
      {
        if j < k {
          EndsBefore(batches, n, j, k);
        }
      }
    } else {
      assert Tiles(rest, batches[k].first) by {
        forall j | 0 <= j < |rest| - 1
          ensures Adjacent(rest, j)
        {
          assert Adjacent(batches, j);
        }
        if k > 0 {
          assert Adjacent(batches, k - 1);
        }
      }
      i := TilesCover(rest, batches[k].first, o);
      forall j | 0 <= j < |batches| && Contains(batches[j], o)
        ensures j == i
      {
        assert j < k && rest[j] == batches[j];
      }
    }
  }

  lemma {:induction false} EndsBefore(batches: seq<Range>, n: nat, i: nat, j: nat)
    requires Tiles(batches, n) && i < j < |batches|
    ensures batches[i].end <= batches[j].first
  {
    assert Adjacent(batches, j - 1);
    if i < j - 1 {
      EndsBefore(batches, n, i, j - 1);
    }
  }

  // ----- support-bounded batches -----

  function SupportOf(supports: seq<set<nat>>, first: nat, end: nat): set<nat>
    requires first <= end <= |supports|
    decreases end - first
  {
    if first == end then {} else SupportOf(supports, first, end - 1) + supports[end - 1]
  }

  datatype Limits = Limits(maxOutputs: nat, maxSupport: nat)

  predicate Exceeds(supports: seq<set<nat>>, limits: Limits, first: nat, end: nat)
    requires first <= end <= |supports|
  {
    end - first > limits.maxOutputs || |SupportOf(supports, first, end)| > limits.maxSupport
  }

  /** A batch within the limits unless it is a single output, and not extensible. */
  ghost predicate Greedy(supports: seq<set<nat>>, limits: Limits, r: Range) {
    && r.first < r.end <= |supports|
    && (r.end - r.first > 1 ==> !Exceeds(supports, limits, r.first, r.end))
    && (r.end < |supports| ==> Exceeds(supports, limits, r.first, r.end + 1))
  }

  /** `buildSupportBoundedOutputBatches`. */
  method BuildSupportBoundedOutputBatches(supports: seq<set<nat>>, limits: Limits) returns (batches: seq<Range>)
    ensures Tiles(batches, |supports|)
    ensures forall i :: 0 <= i < |batches| ==> Greedy(supports, limits, batches[i])
  {
    batches := [];
    var firstOutput := 0;
    while firstOutput < |supports|
      invariant firstOutput <= |supports| && Tiles(batches, firstOutput)
      invariant forall i :: 0 <= i < |batches| ==> Greedy(supports, limits, batches[i])
    {
      var endOutput := firstOutput;
      var batchSupport: set<nat> := {};
      while endOutput < |supports|
        invariant firstOutput <= endOutput <= |supports|
        invariant batchSupport == SupportOf(supports, firstOutput, endOutput)
        invariant endOutput - firstOutput > 1 ==> !Exceeds(supports, limits, firstOutput, endOutput)
      {
        var candidate := batchSupport + supports[endOutput];
        assert candidate == SupportOf(supports, firstOutput, endOutput + 1);
        if endOutput > firstOutput &&
            (endOutput - firstOutput + 1 > limits.maxOutputs || |candidate| > limits.maxSupport) {
          break;
        }
        batchSupport := candidate;
        endOutput := endOutput + 1;
      }
      TilesAppend(batches, firstOutput, endOutput);
      batches := batches + [Range(firstOutput, endOutput)];
      firstOutput := endOutput;
    }
  }

  /** A batch of admitted outputs that admits no further one, or one output that is not admitted at all. */
  ghost predicate GreedyBy(count: nat, canAdd: (nat, nat) -> bool, r: Range) {
    && r.first < r.end <= count
    && (if canAdd(r.first, r.first)
        then (forall o :: r.first <= o < r.end ==> canAdd(r.first, o)) && (r.end < count ==> !canAdd(r.first, r.end))
        else r.end == r.first + 1)
  }

  /** `buildLargeDualRailCraigImcOutputBatchPlans`, for any admission test. */
  method BuildCraigPlans(count: nat, canAdd: (nat, nat) -> bool) returns (batches: seq<Range>)
    ensures Tiles(batches, count)
    ensures forall i :: 0 <= i < |batches| ==> GreedyBy(count, canAdd, batches[i])
  {
    batches := [];
    var firstOutput := 0;
    while firstOutput < count
      invariant firstOutput <= count && Tiles(batches, firstOutput)
      invariant forall i :: 0 <= i < |batches| ==> GreedyBy(count, canAdd, batches[i])
    {
      var endOutput := firstOutput;
      while endOutput < count && canAdd(firstOutput, endOutput)
        invariant firstOutput <= endOutput <= count
        invariant forall o :: firstOutput <= o < endOutput ==> canAdd(firstOutput, o)
      {
        endOutput := endOutput + 1;
      }
      if endOutput == firstOutput {
        endOutput := endOutput + 1;
      }
      TilesAppend(batches, firstOutput, endOutput);
      batches := batches + [Range(firstOutput, endOutput)];
      firstOutput := endOutput;
    }
  }

  // ----- slice properties -----

  datatype Outputs = Outputs(exprs0: seq<Expr>, exprs1: seq<Expr>)

  ghost predicate Agrees(outs: Outputs, o: nat, env: Env) {
    o < |outs.exprs0| && o < |outs.exprs1| ==> Eval(outs.exprs0[o], env) == Eval(outs.exprs1[o], env)
  }

  ghost predicate SliceAgrees(outs: Outputs, r: Range, env: Env) {
    forall o :: r.first <= o < r.end ==> Agrees(outs, o, env)
  }

  datatype Slice = Slice(outs: Outputs, property: Expr, bad: Expr)

  /** `configureOutputBatchProblem`: the outputs of the range and their equality. */
  method ConfigureOutputBatch(h: Mixer, source: Outputs, first: nat, end: nat) returns (s: Slice)
    requires first <= end <= |source.exprs0| == |source.exprs1|
    ensures s.outs == Outputs(source.exprs0[first..end], source.exprs1[first..end])
    ensures forall env :: Eval(s.property, env) <==> SliceAgrees(source, Range(first, end), env)
    ensures forall env :: Eval(s.bad, env) <==> !SliceAgrees(source, Range(first, end), env)
  {
    hide Agrees, SliceAgrees, MkAnd, MkEqual, MkNot;
    forall env
      ensures SliceAgrees(source, Range(first, first), env)
    {
      EmptySliceAgrees(source, first, env);
    }
    var outs := Outputs(source.exprs0[first..end], source.exprs1[first..end]);
    var property := TRUE;
    for i := 0 to |outs.exprs0|
      invariant forall env :: Eval(property, env) <==> SliceAgrees(source, Range(first, first + i), env)
    {
      ghost var was := property;
      property := MkAnd(h, property, MkEqual(h, outs.exprs0[i], outs.exprs1[i]));
      forall env
        ensures Eval(property, env) <==> SliceAgrees(source, Range(first, first + i + 1), env)
      {
        assert Eval(was, env) <==> SliceAgrees(source, Range(first, first + i), env);
        AgreesMeans(source, first + i, env);
        SliceGrows(source, first, first + i, env);
      }
    }
    property := Simplify(h, property);
    var bad := Simplify(h, MkNot(property));
    s := Slice(outs, property, bad);
  }

  lemma {:induction false} EmptySliceAgrees(outs: Outputs, first: nat, env: Env)
    ensures SliceAgrees(outs, Range(first, first), env)
  {
  }

  lemma {:induction false} AgreesMeans(outs: Outputs, o: nat, env: Env)
    requires o < |outs.exprs0| == |outs.exprs1|
    ensures Agrees(outs, o, env) <==> Eval(outs.exprs0[o], env) == Eval(outs.exprs1[o], env)
  {
  }

  lemma {:induction false} SliceGrows(outs: Outputs, first: nat, end: nat, env: Env)
    requires first <= end
    ensures SliceAgrees(outs, Range(first, end + 1), env)
         <==> SliceAgrees(outs, Range(first, end), env) && Agrees(outs, end, env)
  {
    hide Agrees;
  }

  /** The slices of a plan conjoin to the whole property. */
  lemma {:induction false} SlicesConjoin(outs: Outputs, batches: seq<Range>, n: nat, env: Env)
    requires Tiles(batches, n)
    ensures (forall i :: 0 <= i < |batches| ==> SliceAgrees(outs, batches[i], env))
         <==> SliceAgrees(outs, Range(0, n), env)
  {
    hide Agrees;
    if forall i :: 0 <= i < |batches| ==> SliceAgrees(outs, batches[i], env) {
      forall o | 0 <= o < n
        ensures Agrees(outs, o, env)
      {
        var i := TilesCover(batches, n, o);
      }
    }
    if SliceAgrees(outs, Range(0, n), env) {
      forall i | 0 <= i < |batches|
        ensures SliceAgrees(outs, batches[i], env)
      {
        EndsWithin(batches, n, i);
      }
    }
  }

  lemma {:induction false} EndsWithin(batches: seq<Range>, n: nat, i: nat)
    requires Tiles(batches, n) && i < |batches|
    ensures batches[i].end <= n
  {
    if i < |batches| - 1 {
      EndsBefore(batches, n, i, |batches| - 1);
    }
  }
}
