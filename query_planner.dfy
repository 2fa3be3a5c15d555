/**
 * The query planner: derives a plan for every candidate index and keeps the
 * best one.
 */
module QueryPlanner {
  import opened Wrappers
  import opened PlannerTypes
  import opened Operators
  import opened RangeDerivation
  import opened SortSatisfaction
  import opened SelectorSatisfaction
  import opened Rating

  /** The indexes to consider: the forced index alone, or every schema index. */
  function Candidates(schema: Schema, query: Query): seq<Index> {
    if query.index.Some? then [query.index.value] else schema.indexes
  }

  /** The plan the planner derives for the query on one index. */
  function PlanFor(schema: Schema, query: Query, index: Index): QueryPlan {
    var selector := query.selector;
    QueryPlan(
      index,
      StartKeys(index, selector),
      EndKeys(index, selector),
      InclusiveEndBefore(index, selector, |index|),
      InclusiveStartBefore(index, selector, |index|),
      SortSatisfiedByIndex(index, query.sort, SortIrrelevantFields(schema, selector)),
      SelectorSatisfiedByIndex(index, selector))
  }

  /** The plan for every candidate index, in candidate order. */
  function PlansFor(schema: Schema, query: Query, candidates: seq<Index>): (plans: seq<QueryPlan>)
    ensures |plans| == |candidates|
  {
    if |candidates| == 0 then []
    else PlansFor(schema, query, candidates[..|candidates| - 1]) + [PlanFor(schema, query, candidates[|candidates| - 1])]
  }

  /** Each entry of `PlansFor` is the plan for the candidate at the same position. */
  lemma {:induction false} PlansForAt(schema: Schema, query: Query, candidates: seq<Index>)
    ensures forall j :: 0 <= j < |candidates| ==> PlansFor(schema, query, candidates)[j] == PlanFor(schema, query, candidates[j])
  {
    if |candidates| > 0 {
      PlansForAt(schema, query, candidates[..|candidates| - 1]);
    }
  }

  /**
   * Plan `k` is the one selection keeps: no plan rates higher, and every
   * later plan rates strictly lower.
   */
  predicate IsLastBest(plans: seq<QueryPlan>, k: nat)
    requires k < |plans|
  {
    (forall j :: 0 <= j < |plans| ==> Quality(plans[j]) <= Quality(plans[k])) &&
    (forall j :: k < j < |plans| ==> Quality(plans[j]) < Quality(plans[k]))
  }

  /**
   * The sort facts the planner computes once per query: whether some sort
   * field is descending, the sort-irrelevant fields, and the sort fields
   * without the irrelevant ones joined with commas.
   */
  predicate SortFacts(
    schema: Schema, query: Query,
    hasDescSorting: bool, sortIrrelevantFields: set<FieldName>, optimalSortIndexCompareString: string)
  {
    hasDescSorting == HasDescSorting(query.sort) &&
    sortIrrelevantFields == SortIrrelevantFields(schema, query.selector) &&
    optimalSortIndexCompareString == Join(Without(SortFields(query.sort), sortIrrelevantFields))
  }

  /**
   * Builds the plan for one candidate index from the range walk, the
   * selector check and the query-wide sort facts.
   */
  method BuildPlan(
    schema: Schema, query: Query, index: Index,
    hasDescSorting: bool, sortIrrelevantFields: set<FieldName>, optimalSortIndexCompareString: string)
    returns (queryPlan: QueryPlan)
    requires SortFacts(schema, query, hasDescSorting, sortIrrelevantFields, optimalSortIndexCompareString)
    ensures queryPlan == PlanFor(schema, query, index)
  {
    var startKeys, endKeys, inclusiveStart, inclusiveEnd := DeriveRange(index, query.selector);
    var selectorSatisfied := IsSelectorSatisfiedByIndex(index, query.selector);
    assert startKeys == StartKeys(index, query.selector);
    assert endKeys == EndKeys(index, query.selector);
    queryPlan := QueryPlan(
      index, startKeys, endKeys, inclusiveEnd, inclusiveStart,
      !hasDescSorting && optimalSortIndexCompareString == Join(Without(index, sortIrrelevantFields)),
      selectorSatisfied);
  }

  /** Builds and rates the plan for candidate `i`, the next entry of `PlansFor`. */
  method PlanCandidate(
    schema: Schema, query: Query, indexes: seq<Index>, i: nat,
    hasDescSorting: bool, sortIrrelevantFields: set<FieldName>, optimalSortIndexCompareString: string)
    returns (queryPlan: QueryPlan, quality: int)
    requires i < |indexes|
    requires SortFacts(schema, query, hasDescSorting, sortIrrelevantFields, optimalSortIndexCompareString)
    ensures PlansFor(schema, query, indexes[..i + 1]) == PlansFor(schema, query, indexes[..i]) + [queryPlan]
    ensures quality == Quality(queryPlan)
  {
    queryPlan := BuildPlan(schema, query, indexes[i], hasDescSorting, sortIrrelevantFields, optimalSortIndexCompareString);
    quality := RateQueryPlan(queryPlan);
    assert indexes[..i + 1][..i] == indexes[..i];
  }

  /**
   * Derives and rates a plan for every candidate index in order, replacing
   * the best so far whenever a plan rates at least as high, or always when
   * the index is forced. Every plan rates at least 0, so the first always
   * replaces the initial quality of -1.
   */
  method SelectBestPlan(
    schema: Schema, query: Query, indexes: seq<Index>,
    hasDescSorting: bool, sortIrrelevantFields: set<FieldName>, optimalSortIndexCompareString: string)
    returns (currentBestQueryPlan: Option<QueryPlan>, ghost bestAt: nat)
    requires SortFacts(schema, query, hasDescSorting, sortIrrelevantFields, optimalSortIndexCompareString)
    requires query.index.Some? ==> |indexes| == 1
    ensures currentBestQueryPlan.None? <==> |indexes| == 0
    ensures currentBestQueryPlan.Some? ==> bestAt < |indexes|
    ensures currentBestQueryPlan.Some? ==> currentBestQueryPlan.value == PlansFor(schema, query, indexes)[bestAt]
    ensures currentBestQueryPlan.Some? ==> IsLastBest(PlansFor(schema, query, indexes), bestAt)
  {
    var currentBestQuality := -1;
    currentBestQueryPlan := None;
    bestAt := 0;
    ghost var plans: seq<QueryPlan> := [];
    for i := 0 to |indexes|
      invariant plans == PlansFor(schema, query, indexes[..i])
      invariant currentBestQueryPlan.None? <==> i == 0
      invariant i == 0 ==> currentBestQuality == -1
      invariant i > 0 ==> bestAt < i && currentBestQueryPlan == Some(plans[bestAt])
      invariant i > 0 ==> currentBestQuality == Quality(plans[bestAt])
      invariant forall j :: 0 <= j < i ==> Quality(plans[j]) <= currentBestQuality
      invariant forall j :: bestAt < j < i ==> Quality(plans[j]) < currentBestQuality
    {
      var queryPlan, quality := PlanCandidate(schema, query, indexes, i, hasDescSorting, sortIrrelevantFields, optimalSortIndexCompareString);
      plans := plans + [queryPlan];
      if quality >= currentBestQuality || query.index.Some? {
        currentBestQuality := quality;
        currentBestQueryPlan := Some(queryPlan);
        bestAt := i;
      }
    }
    assert indexes[..|indexes|] == indexes;
  }

  /**
   * Plans the query: takes the forced index or every schema index as
   * candidates, computes the query-wide sort facts once, and keeps the best
   * plan. With no candidate at all it fails.
   */
  method GetQueryPlan(schema: Schema, query: Query) returns (result: Result<QueryPlan, PlannerError>)
    ensures result.Err? <==> |Candidates(schema, query)| == 0
    ensures result.Err? ==> result.error == NoIndexFound(query)
    ensures query.index.Some? ==> result == Ok(PlanFor(schema, query, query.index.value))
    ensures query.index.None? && result.Ok? ==>
      exists k: nat :: k < |schema.indexes| && IsLastBest(PlansFor(schema, query, schema.indexes), k) &&
        result.value == PlansFor(schema, query, schema.indexes)[k]
    ensures result.Ok? ==> result.value.index in Candidates(schema, query)
    ensures result.Ok? ==> |result.value.startKeys| == |result.value.index| && |result.value.endKeys| == |result.value.index|
  {
    var selector := query.selector;
    var indexes := schema.indexes;
    if query.index.Some? {
      indexes := [query.index.value];
    }
    var hasDescSorting := HasDescSorting(query.sort);
    var sortIrrelevantFields := CollectSortIrrelevantFields(schema, selector);
    var optimalSortIndex := SortFields(query.sort);
    var optimalSortIndexCompareString := Join(Without(optimalSortIndex, sortIrrelevantFields));
    var currentBestQueryPlan, bestAt := SelectBestPlan(schema, query, indexes, hasDescSorting, sortIrrelevantFields, optimalSortIndexCompareString);
    if currentBestQueryPlan.None? {
      return Err(NoIndexFound(query));
    }
    result := Ok(currentBestQueryPlan.value);
    PlansForAt(schema, query, indexes);
    if query.index.Some? {
      assert PlansFor(schema, query, indexes)[0] == PlanFor(schema, query, query.index.value) by {
        assert indexes[..0] == [];
      }
    }
  }

  /**
   * The query after the assignment `selector[field].$eq = v`: an existing
   * `$eq` keeps its place in the operator map and takes the new value,
   * otherwise `$eq` becomes the field's last operator.
   */
  function WithEquality(query: Query, field: FieldName, v: Value): Query {
    var ops := if field in query.selector then query.selector[field] else [];
    query.(selector := query.selector[field := SetOp(ops, "$eq", v)])
  }

  /** The selector does not already pin `field` with `$eq`. */
  predicate NoEqualityOn(query: Query, field: FieldName) {
    field !in query.selector || !HasOp(query.selector[field], "$eq")
  }

  /** Setting `$eq` on a field changes no field's own inclusivity. */
  lemma EqualityKeepsFlags(query: Query, field: FieldName, v: Value, f: FieldName)
    ensures ClosedStart(MatcherOf(WithEquality(query, field, v).selector, f)) == ClosedStart(MatcherOf(query.selector, f))
    ensures ClosedEnd(MatcherOf(WithEquality(query, field, v).selector, f)) == ClosedEnd(MatcherOf(query.selector, f))
  {
    if f == field {
      var ops := if field in query.selector then query.selector[field] else [];
      SetOpOtherKey(ops, "$eq", v, "$gt");
      SetOpOtherKey(ops, "$eq", v, "$lt");
    }
  }

  /**
   * After adding `$eq: v` to a field that had no `$eq`, every position of
   * that field in the index has `v` as both its start and end key, and every
   * other position keeps its range.
   */
  lemma EqualityBounds(query: Query, field: FieldName, v: Value, index: Index, i: nat)
    requires NoEqualityOn(query, field)
    requires i < |index|
    ensures index[i] == field ==>
      BoundsAt(index, WithEquality(query, field, v).selector, i).startKey == Val(v) &&
      BoundsAt(index, WithEquality(query, field, v).selector, i).endKey == Val(v)
    ensures index[i] != field ==>
      BoundsAt(index, WithEquality(query, field, v).selector, i) == BoundsAt(index, query.selector, i)
  {
    var selector' := WithEquality(query, field, v).selector;
    var ops := if field in query.selector then query.selector[field] else [];
    SetOpAppends(ops, "$eq", v);
    forall j | 0 <= j < |index| {
      EqualityKeepsFlags(query, field, v, index[j]);
    }
    assert InclusiveStartBefore(index, selector', i) == InclusiveStartBefore(index, query.selector, i);
    assert InclusiveEndBefore(index, selector', i) == InclusiveEndBefore(index, query.selector, i);
  }

  /**
   * After adding `$eq` to a field that had none, a real start key stays real
   * and an equal start and end key stay equal.
   */
  lemma EqualityKeepsKeys(query: Query, field: FieldName, v: Value, index: Index)
    requires NoEqualityOn(query, field)
    ensures forall i :: 0 <= i < |index| ==>
      (!IsSentinel(StartKeys(index, query.selector)[i]) ==> !IsSentinel(StartKeys(index, WithEquality(query, field, v).selector)[i]))
    ensures forall i :: 0 <= i < |index| ==>
      (StartKeys(index, query.selector)[i] == EndKeys(index, query.selector)[i] ==>
        StartKeys(index, WithEquality(query, field, v).selector)[i] == EndKeys(index, WithEquality(query, field, v).selector)[i])
  {
    forall i | 0 <= i < |index| {
      EqualityBounds(query, field, v, index, i);
    }
  }

  /** Setting `$eq` on a field only adds sort-irrelevant fields. */
  lemma EqualityGrowsIrrelevantFields(schema: Schema, query: Query, field: FieldName, v: Value)
    ensures SortIrrelevantFields(schema, query.selector) <= SortIrrelevantFields(schema, WithEquality(query, field, v).selector)
  {
    var selector' := WithEquality(query, field, v).selector;
    forall f | f in SortIrrelevantFields(schema, query.selector)
      ensures f in SortIrrelevantFields(schema, selector')
    {
      if f == field {
        SetOpHasKey(query.selector[field], "$eq", v);
      }
    }
  }

  /**
   * Adding an equality constraint on a field that had none never lowers the
   * quality of the plan for an index: the start keys only gain real values,
   * the start and end keys only gain equal positions, and a satisfied sort
   * stays satisfied since the field can only become sort-irrelevant.
   */
  lemma AddingEqualityNeverLowersQuality(schema: Schema, query: Query, index: Index, field: FieldName, v: Value)
    requires NoEqualityOn(query, field)
    requires PlainNames(index) && PlainNames(SortFields(query.sort))
    ensures Quality(PlanFor(schema, query, index)) <= Quality(PlanFor(schema, WithEquality(query, field, v), index))
  {
    var query' := WithEquality(query, field, v);
    EqualityKeepsKeys(query, field, v, index);
    BoundedPrefixMonotone(StartKeys(index, query.selector), StartKeys(index, query'.selector));
    EqualPrefixMonotone(StartKeys(index, query.selector), EndKeys(index, query.selector),
      StartKeys(index, query'.selector), EndKeys(index, query'.selector));
    EqualityGrowsIrrelevantFields(schema, query, field, v);
    if SortSatisfiedByIndex(index, query.sort, SortIrrelevantFields(schema, query.selector)) {
      MoreIrrelevantFieldsKeepSort(index, query.sort,
        SortIrrelevantFields(schema, query.selector), SortIrrelevantFields(schema, query'.selector));
    }
  }

  /**
   * Overwriting an existing `$eq` can lower the quality: on `[a]`, changing
   * `{a: {$eq: 5, $gte: 5}}` to `{a: {$eq: 7, $gte: 5}}` keeps the start key
   * 5 from the later `$gte` but moves the end key to 7, so the plan loses its
   * equal position and drops from 35 to 20.
   */
  lemma OverwritingEqualityCanLowerQuality()
    ensures var query := Query(map["a" := [("$eq", Num(5)), ("$gte", Num(5))]], [], None);
      var schema := Schema([["a"]], map[]);
      Quality(PlanFor(schema, query, ["a"])) == 35 &&
      Quality(PlanFor(schema, WithEquality(query, "a", Num(7)), ["a"])) == 20
  {
    var ops := [("$eq", Num(5)), ("$gte", Num(5))];
    var ops' := [("$eq", Num(7)), ("$gte", Num(5))];
    var query := Query(map["a" := ops], [], None);
    var schema := Schema([["a"]], map[]);
    assert SetOp(ops, "$eq", Num(7)) == ops';
    assert WithEquality(query, "a", Num(7)).selector == map["a" := ops'];
    assert ops[..1] == [("$eq", Num(5))] && ops'[..1] == [("$eq", Num(7))];
    assert LastValueIn(ops, UpperBoundOperators) == Some(Val(Num(5)));
    assert LastValueIn(ops', UpperBoundOperators) == Some(Val(Num(7)));
    assert !HasOp(ops, "$gt") && !HasOp(ops, "$lt") && !HasOp(ops', "$gt") && !HasOp(ops', "$lt");
    assert StartKeys(["a"], map["a" := ops]) == [Val(Num(5))];
    assert EndKeys(["a"], map["a" := ops]) == [Val(Num(5))];
    assert StartKeys(["a"], map["a" := ops']) == [Val(Num(5))];
    assert EndKeys(["a"], map["a" := ops']) == [Val(Num(7))];
    assert Without([], {}) == [] && Without(["a"], {}) == ["a"];
    assert SortIrrelevantFields(schema, map["a" := ops]) == {};
    assert SortIrrelevantFields(schema, map["a" := ops']) == {};
  }
}
