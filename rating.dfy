/** Scoring a query plan: the higher the quality, the narrower the range and the less work left to the storage. */
module Rating {
  import opened PlannerTypes

  predicate IsSentinel(key: Key) {
    key.IndexMin? || key.IndexMax?
  }

  /** Counts the leading start keys that are neither sentinel. */
  function BoundedPrefix(keys: seq<Key>): nat {
    if |keys| == 0 || IsSentinel(keys[0]) then 0
    else 1 + BoundedPrefix(keys[1..])
  }

  /** The count is the length of the longest leading run of real keys. */
  lemma {:induction false} BoundedPrefixIsLongestRun(keys: seq<Key>)
    ensures BoundedPrefix(keys) <= |keys|
    ensures forall i :: 0 <= i < BoundedPrefix(keys) ==> !IsSentinel(keys[i])
    ensures BoundedPrefix(keys) < |keys| ==> IsSentinel(keys[BoundedPrefix(keys)])
  {
    if |keys| > 0 && !IsSentinel(keys[0]) {
      BoundedPrefixIsLongestRun(keys[1..]);
      assert forall i :: 1 <= i < |keys| ==> keys[i] == keys[1..][i - 1];
    }
  }

  /**
   * The length of the longest leading run of positions where the start key
   * equals the end key. The run stops at the end of `startKeys`, and at the
   * end of `endKeys` since a missing end key equals no key.
   */
  function EqualPrefix(startKeys: seq<Key>, endKeys: seq<Key>): nat {
    if |startKeys| == 0 || |endKeys| == 0 || startKeys[0] != endKeys[0] then 0
    else 1 + EqualPrefix(startKeys[1..], endKeys[1..])
  }

  /** The count is the length of the longest leading run of equal start and end keys. */
  lemma {:induction false} EqualPrefixIsLongestRun(startKeys: seq<Key>, endKeys: seq<Key>)
    ensures EqualPrefix(startKeys, endKeys) <= |startKeys| && EqualPrefix(startKeys, endKeys) <= |endKeys|
    ensures forall i :: 0 <= i < EqualPrefix(startKeys, endKeys) ==> startKeys[i] == endKeys[i]
    ensures EqualPrefix(startKeys, endKeys) < |startKeys| && EqualPrefix(startKeys, endKeys) < |endKeys| ==>
      startKeys[EqualPrefix(startKeys, endKeys)] != endKeys[EqualPrefix(startKeys, endKeys)]
  {
    if |startKeys| > 0 && |endKeys| > 0 && startKeys[0] == endKeys[0] {
      EqualPrefixIsLongestRun(startKeys[1..], endKeys[1..]);
      assert forall i :: 1 <= i < |startKeys| ==> startKeys[i] == startKeys[1..][i - 1];
      assert forall i :: 1 <= i < |endKeys| ==> endKeys[i] == endKeys[1..][i - 1];
    }
  }

  /**
   * The quality of a plan: 10 points per leading bounded start key, counted
   * twice (both counts scan the start keys), 15 points (10 times 1.5) per leading position
   * whose start and end key are equal, and 5 points when no re-sort is needed.
   */
  function Quality(plan: QueryPlan): int {
    20 * BoundedPrefix(plan.startKeys)
    + 15 * EqualPrefix(plan.startKeys, plan.endKeys)
    + (if plan.sortSatisfiedByIndex then 5 else 0)
  }

  /** Adds `value` to `quality` when it is positive. */
  function AddQuality(quality: int, value: int): int {
    if value > 0 then quality + value else quality
  }

  /** Accumulates the four contributions, each added only when positive. */
  method RateQueryPlan(plan: QueryPlan) returns (quality: int)
    ensures quality == Quality(plan)
    ensures 0 <= quality <= 35 * |plan.startKeys| + 5
  {
    BoundedPrefixIsLongestRun(plan.startKeys);
    EqualPrefixIsLongestRun(plan.startKeys, plan.endKeys);
    quality := 0;
    var nonMinKeyCount := BoundedPrefix(plan.startKeys);
    quality := AddQuality(quality, nonMinKeyCount * 10);
    var nonMaxKeyCount := BoundedPrefix(plan.startKeys);
    quality := AddQuality(quality, nonMaxKeyCount * 10);
    var equalKeyCount := EqualPrefix(plan.startKeys, plan.endKeys);
    quality := AddQuality(quality, equalKeyCount * 15);
    var pointsIfNoReSortMustBeDone := if plan.sortSatisfiedByIndex then 5 else 0;
    quality := AddQuality(quality, pointsIfNoReSortMustBeDone);
  }

  /** Pointwise more real start keys give at least as long a bounded run. */
  lemma {:induction false} BoundedPrefixMonotone(a: seq<Key>, b: seq<Key>)
    requires |a| == |b|
    requires forall i :: 0 <= i < |a| ==> !IsSentinel(a[i]) ==> !IsSentinel(b[i])
    ensures BoundedPrefix(a) <= BoundedPrefix(b)
  {
    if |a| > 0 && !IsSentinel(a[0]) {
      BoundedPrefixMonotone(a[1..], b[1..]);
    }
  }

  /** Pointwise more equal positions give at least as long an equal run. */
  lemma {:induction false} EqualPrefixMonotone(s1: seq<Key>, e1: seq<Key>, s2: seq<Key>, e2: seq<Key>)
    requires |s1| == |e1| == |s2| == |e2|
    requires forall i :: 0 <= i < |s1| ==> s1[i] == e1[i] ==> s2[i] == e2[i]
    ensures EqualPrefix(s1, e1) <= EqualPrefix(s2, e2)
  {
    if |s1| > 0 && s1[0] == e1[0] {
      EqualPrefixMonotone(s1[1..], e1[1..], s2[1..], e2[1..]);
    }
  }
}
