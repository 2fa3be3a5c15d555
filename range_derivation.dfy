/**
 * Deriving, for one candidate index, the start and end key of every index
 * field and the overall inclusivity of the range.
 */
module RangeDerivation {
  import opened Wrappers
  import opened PlannerTypes
  import opened Operators

  /** A field's range once every attribute is filled in. */
  datatype Bounds = Bounds(startKey: Key, endKey: Key, inclusiveStart: bool, inclusiveEnd: bool)

  /** The selector's operator map for a field, if it has one. */
  function MatcherOf(selector: Selector, field: FieldName): Option<OpMap> {
    if field in selector then Some(selector[field]) else None
  }

  /** A field the selector does not constrain: no operator map, or an empty one. */
  predicate Unconstrained(matcher: Option<OpMap>) {
    matcher.None? || |matcher.value| == 0
  }

  /** A field's own range is closed at the start unless its operator map has `$gt`. */
  predicate ClosedStart(matcher: Option<OpMap>) {
    matcher.None? || !HasOp(matcher.value, "$gt")
  }

  /** A field's own range is closed at the end unless its operator map has `$lt`. */
  predicate ClosedEnd(matcher: Option<OpMap>) {
    matcher.None? || !HasOp(matcher.value, "$lt")
  }

  /**
   * The range of one index field, given the running flags `runStart` and
   * `runEnd` left by the fields before it. An unconstrained field spans
   * INDEX_MIN..INDEX_MAX only while the running flags are true; after an
   * exclusive bound its sentinels are swapped. A constrained field takes
   * its merged operators and fills what they leave undefined with
   * INDEX_MIN, INDEX_MAX and true.
   */
  function FieldRange(matcher: Option<OpMap>, runStart: bool, runEnd: bool): (b: Bounds)
    ensures b.inclusiveStart == ClosedStart(matcher)
    ensures b.inclusiveEnd == ClosedEnd(matcher)
  {
    if Unconstrained(matcher) then
      Bounds(if runStart then IndexMin else IndexMax, if runEnd then IndexMax else IndexMin, true, true)
    else
      var m := Merged(matcher.value);
      Bounds(m.startKey.GetOr(IndexMin), m.endKey.GetOr(IndexMax), m.inclusiveStart.GetOr(true), m.inclusiveEnd.GetOr(true))
  }

  /** The running `inclusiveStart` before index position `i`: no earlier field has `$gt`. */
  predicate InclusiveStartBefore(index: Index, selector: Selector, i: nat)
    requires i <= |index|
  {
    forall j :: 0 <= j < i ==> ClosedStart(MatcherOf(selector, index[j]))
  }

  /** The running `inclusiveEnd` before index position `i`: no earlier field has `$lt`. */
  predicate InclusiveEndBefore(index: Index, selector: Selector, i: nat)
    requires i <= |index|
  {
    forall j :: 0 <= j < i ==> ClosedEnd(MatcherOf(selector, index[j]))
  }

  /** The range of the field at position `i` of the index. */
  function BoundsAt(index: Index, selector: Selector, i: nat): Bounds
    requires i < |index|
  {
    FieldRange(MatcherOf(selector, index[i]), InclusiveStartBefore(index, selector, i), InclusiveEndBefore(index, selector, i))
  }

  function StartKeys(index: Index, selector: Selector): seq<Key> {
    seq(|index|, i requires 0 <= i < |index| => BoundsAt(index, selector, i).startKey)
  }

  function EndKeys(index: Index, selector: Selector): seq<Key> {
    seq(|index|, i requires 0 <= i < |index| => BoundsAt(index, selector, i).endKey)
  }

  /** The running flags before position `i + 1` are those before `i` and the field's own. */
  lemma FlagsStep(index: Index, selector: Selector, i: nat)
    requires i < |index|
    ensures InclusiveStartBefore(index, selector, i + 1) ==
      (InclusiveStartBefore(index, selector, i) && ClosedStart(MatcherOf(selector, index[i])))
    ensures InclusiveEndBefore(index, selector, i + 1) ==
      (InclusiveEndBefore(index, selector, i) && ClosedEnd(MatcherOf(selector, index[i])))
  {
  }

  /**
   * A field the selector leaves unconstrained starts at INDEX_MAX exactly
   * when some earlier index field has `$gt`, and at INDEX_MIN otherwise; it
   * ends at INDEX_MIN exactly when some earlier field has `$lt`, and at
   * INDEX_MAX otherwise. Its own range stays inclusive on both sides.
   */
  lemma UnconstrainedFieldSentinels(index: Index, selector: Selector, i: nat)
    requires i < |index| && Unconstrained(MatcherOf(selector, index[i]))
    ensures BoundsAt(index, selector, i).startKey == IndexMax <==>
      exists j :: 0 <= j < i && index[j] in selector && HasOp(selector[index[j]], "$gt")
    ensures BoundsAt(index, selector, i).startKey == IndexMin <==>
      forall j :: 0 <= j < i && index[j] in selector ==> !HasOp(selector[index[j]], "$gt")
    ensures BoundsAt(index, selector, i).endKey == IndexMin <==>
      exists j :: 0 <= j < i && index[j] in selector && HasOp(selector[index[j]], "$lt")
    ensures BoundsAt(index, selector, i).endKey == IndexMax <==>
      forall j :: 0 <= j < i && index[j] in selector ==> !HasOp(selector[index[j]], "$lt")
    ensures BoundsAt(index, selector, i).inclusiveStart && BoundsAt(index, selector, i).inclusiveEnd
  {
  }

  /**
   * A constrained field's range ignores the running flags. Its start key is
   * the value of the last lower-bound operator in key order, or INDEX_MIN
   * when it has none; its end key is that of the last upper-bound operator,
   * or INDEX_MAX.
   */
  lemma ConstrainedFieldRange(ops: OpMap, runStart: bool, runEnd: bool)
    requires |ops| > 0
    ensures FieldRange(Some(ops), runStart, runEnd) == FieldRange(Some(ops), true, true)
    ensures FieldRange(Some(ops), runStart, runEnd).startKey == IndexMin <==>
      forall k :: 0 <= k < |ops| ==> ops[k].0 !in LowerBoundOperators
    ensures FieldRange(Some(ops), runStart, runEnd).startKey != IndexMin ==>
      exists k :: 0 <= k < |ops| && ops[k].0 in LowerBoundOperators && FieldRange(Some(ops), runStart, runEnd).startKey == Val(ops[k].1) &&
        forall m :: k < m < |ops| ==> ops[m].0 !in LowerBoundOperators
    ensures FieldRange(Some(ops), runStart, runEnd).endKey == IndexMax <==>
      forall k :: 0 <= k < |ops| ==> ops[k].0 !in UpperBoundOperators
    ensures FieldRange(Some(ops), runStart, runEnd).endKey != IndexMax ==>
      exists k :: 0 <= k < |ops| && ops[k].0 in UpperBoundOperators && FieldRange(Some(ops), runStart, runEnd).endKey == Val(ops[k].1) &&
        forall m :: k < m < |ops| ==> ops[m].0 !in UpperBoundOperators
  {
    LastValueInIsLast(ops, LowerBoundOperators);
    LastValueInIsLast(ops, UpperBoundOperators);
  }

  /**
   * Computes one field's range: the sentinels for an unconstrained field,
   * else the merged operators; then fills the attributes left undefined.
   */
  method FieldOpts(matcher: Option<OpMap>, runStart: bool, runEnd: bool) returns (opts: Bounds)
    ensures opts == FieldRange(matcher, runStart, runEnd)
  {
    var matcherOpts := NoOpts;
    if matcher.None? || |matcher.value| == 0 {
      matcherOpts := MatcherOpts(
        Some(if runStart then IndexMin else IndexMax),
        Some(if runEnd then IndexMax else IndexMin),
        Some(true), Some(true));
    } else {
      matcherOpts := MergeOperators(matcher.value);
    }
    // fill missing attributes
    opts := Bounds(
      matcherOpts.startKey.GetOr(IndexMin), matcherOpts.endKey.GetOr(IndexMax),
      matcherOpts.inclusiveStart.GetOr(true), matcherOpts.inclusiveEnd.GetOr(true));
  }

  /**
   * Walks the index fields in order, carrying the running inclusivity flags,
   * and collects each field's start and end key. The flags end up as the
   * conjunction of every field's own flag; a flag once false stays false, and
   * the walk still visits every remaining field.
   */
  method DeriveRange(index: Index, selector: Selector)
    returns (startKeys: seq<Key>, endKeys: seq<Key>, inclusiveStart: bool, inclusiveEnd: bool)
    ensures |startKeys| == |index| && |endKeys| == |index|
    ensures forall i :: 0 <= i < |index| ==>
      startKeys[i] == BoundsAt(index, selector, i).startKey && endKeys[i] == BoundsAt(index, selector, i).endKey
    ensures inclusiveStart <==> forall i :: 0 <= i < |index| ==> ClosedStart(MatcherOf(selector, index[i]))
    ensures inclusiveEnd <==> forall i :: 0 <= i < |index| ==> ClosedEnd(MatcherOf(selector, index[i]))
  {
    inclusiveEnd, inclusiveStart := true, true;
    startKeys, endKeys := [], [];
    for i := 0 to |index|
      invariant |startKeys| == i && |endKeys| == i
      invariant forall j :: 0 <= j < i ==>
        startKeys[j] == BoundsAt(index, selector, j).startKey && endKeys[j] == BoundsAt(index, selector, j).endKey
      invariant inclusiveStart == InclusiveStartBefore(index, selector, i)
      invariant inclusiveEnd == InclusiveEndBefore(index, selector, i)
    {
      var opts := FieldOpts(MatcherOf(selector, index[i]), inclusiveStart, inclusiveEnd);
      FlagsStep(index, selector, i);
      if inclusiveStart && !opts.inclusiveStart {
        inclusiveStart := false;
      }
      if inclusiveEnd && !opts.inclusiveEnd {
        inclusiveEnd := false;
      }
      startKeys := startKeys + [opts.startKey];
      endKeys := endKeys + [opts.endKey];
    }
  }
}
