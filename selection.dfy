/** Roulette-wheel selection over weighted candidates (selectWeightedRandom). */
module Selection {
  import opened QuestTypes

  function WeightsOf(weighted: seq<WeightedQuest>): (w: seq<real>)
    ensures |w| == |weighted|
    ensures forall i :: 0 <= i < |weighted| ==> w[i] == weighted[i].weight
  {
    seq(|weighted|, i requires 0 <= i < |weighted| => weighted[i].weight)
  }

  /** w[0] + ... + w[k-1], summed from the left as reduce does. */
  function PrefixSum(w: seq<real>, k: nat): real
    requires k <= |w|
  {
    if k == 0 then 0.0 else PrefixSum(w, k - 1) + w[k - 1]
  }

  function Total(w: seq<real>): real {
    PrefixSum(w, |w|)
  }

  /** The first index from k on whose prefix sum reaches r, or |w| when none does. */
  function FirstReaching(w: seq<real>, r: real, k: nat): (i: nat)
    requires k <= |w|
    ensures k <= i <= |w|
    decreases |w| - k
  {
    if k == |w| then |w|
    else if PrefixSum(w, k + 1) >= r then k
    else FirstReaching(w, r, k + 1)
  }

  /** Where the walk stops: the first index whose prefix sum reaches r, and index 0
      when none does (the fallback). */
  function SelectIndex(w: seq<real>, r: real): (i: nat)
    requires |w| > 0
    ensures i < |w|
  {
    var k := FirstReaching(w, r, 0);
    if k == |w| then 0 else k
  }

  /** The index the wheel stops at for the draw Math.random() given as u: the
      remainder starts at u * total. */
  function Spin(w: seq<real>, u: real): (i: nat)
    requires |w| > 0
    ensures i < |w|
  {
    SelectIndex(w, u * Total(w))
  }

  /** selectWeightedRandom with the draw Math.random() given as u in [0, 1): the
      remainder u * total loses each weight in turn, and the first candidate that
      brings it to 0 or below is chosen; the first candidate is the fallback. */
  method SelectWeightedRandom(weightedQuests: seq<WeightedQuest>, u: real) returns (selected: QuestDefinition)
    requires |weightedQuests| > 0
    requires 0.0 <= u < 1.0
    ensures selected == weightedQuests[Spin(WeightsOf(weightedQuests), u)].quest
  {
    ghost var w := WeightsOf(weightedQuests);
    var totalWeight := Total(WeightsOf(weightedQuests));
    var random := u * totalWeight;
    ghost var r := random;
    assert Spin(w, u) == SelectIndex(w, r);

    for i := 0 to |weightedQuests|
      invariant random == r - PrefixSum(w, i)
      invariant FirstReaching(w, r, 0) == FirstReaching(w, r, i)
    {
      random := random - weightedQuests[i].weight;
      assert random == r - PrefixSum(w, i + 1);
      if random <= 0.0 {
        assert FirstReaching(w, r, i) == i;
        assert SelectIndex(w, r) == i;
        return weightedQuests[i].quest;
      }
    }

    return weightedQuests[0].quest;
  }

  /** When the total reaches r, the walk stops at the first index whose prefix sum
      reaches r, and the fallback is never taken. */
  lemma {:induction false} FirstReachingIsFirst(w: seq<real>, r: real, k: nat)
    requires k < |w|
    requires PrefixSum(w, |w|) >= r
    ensures FirstReaching(w, r, k) < |w|
    ensures PrefixSum(w, FirstReaching(w, r, k) + 1) >= r
    ensures forall j :: k < j <= FirstReaching(w, r, k) ==> PrefixSum(w, j) < r
    decreases |w| - k
  {
    if PrefixSum(w, k + 1) < r {
      assert k + 1 < |w|;
      FirstReachingIsFirst(w, r, k + 1);
    }
  }

  /** For a draw r = u * total with u in [0, 1) and non-negative weights, the selected
      index is the first whose prefix sum reaches r: no exact draw falls through to
      the fallback. */
  lemma SelectIndexReachesDraw(w: seq<real>, u: real)
    requires |w| > 0
    requires forall i :: 0 <= i < |w| ==> w[i] >= 0.0
    requires 0.0 <= u < 1.0
    ensures FirstReaching(w, u * Total(w), 0) < |w|
    ensures PrefixSum(w, SelectIndex(w, u * Total(w)) + 1) >= u * Total(w)
    ensures forall j :: 0 < j <= SelectIndex(w, u * Total(w)) ==> PrefixSum(w, j) < u * Total(w)
  {
    PrefixNonNegative(w, |w|);
    assert u * Total(w) <= Total(w);
    FirstReachingIsFirst(w, u * Total(w), 0);
  }

  lemma {:induction false} PrefixNonNegative(w: seq<real>, k: nat)
    requires k <= |w|
    requires forall i :: 0 <= i < |w| ==> w[i] >= 0.0
    ensures PrefixSum(w, k) >= 0.0
  {
    if k > 0 {
      PrefixNonNegative(w, k - 1);
    }
  }

  /** With positive weights the prefix sums strictly increase. */
  lemma {:induction false} PrefixIncreasing(w: seq<real>, j: nat, k: nat)
    requires j < k <= |w|
    requires forall i :: 0 <= i < |w| ==> w[i] > 0.0
    ensures PrefixSum(w, j) < PrefixSum(w, k)
    decreases k
  {
    if j < k - 1 {
      PrefixIncreasing(w, j, k - 1);
    }
  }

  /** The roulette wheel: with positive weights, a draw r in (0, total] selects index i
      exactly when it lies in (w[0] + ... + w[i-1], w[0] + ... + w[i]], an interval of
      length w[i]; a uniform draw over [0, total) so picks i with probability w[i] / total. */
  lemma SelectionInterval(w: seq<real>, r: real, i: nat)
    requires i < |w|
    requires forall k :: 0 <= k < |w| ==> w[k] > 0.0
    requires 0.0 < r <= Total(w)
    ensures SelectIndex(w, r) == i <==> PrefixSum(w, i) < r <= PrefixSum(w, i + 1)
  {
    FirstReachingIsFirst(w, r, 0);
    var s := FirstReaching(w, r, 0);
    assert SelectIndex(w, r) == s;
    if s > 0 {
      assert PrefixSum(w, s) < r;
    }
    if s + 1 < i {
      PrefixIncreasing(w, s + 1, i);
    }
    if i < s {
      assert PrefixSum(w, i + 1) < r;
    }
  }
}
