/**
 * Worked queries: the plans and checks the planner produces for a few
 * concrete selectors, sorts and indexes.
 */
module PlannerScenarios {
  import opened Wrappers
  import opened PlannerTypes
  import opened Operators
  import opened RangeDerivation
  import opened SortSatisfaction
  import opened SelectorSatisfaction
  import opened QueryPlanner

  /** `{age: {$gte: 18, $lt: 65}}` on `[age]`: keys 18 and 65, start inclusive, end exclusive. */
  lemma AgeRange(schema: Schema)
    ensures var plan := PlanFor(schema, Query(map["age" := [("$gte", Num(18)), ("$lt", Num(65))]], [], None), ["age"]);
      plan.startKeys == [Val(Num(18))] && plan.endKeys == [Val(Num(65))] && plan.inclusiveStart && !plan.inclusiveEnd
  {
    var ops := [("$gte", Num(18)), ("$lt", Num(65))];
    var selector := map["age" := ops];
    assert HasOp(ops, "$lt") by {
      assert ops[1].0 == "$lt";
    }
    assert LastValueIn(ops, LowerBoundOperators) == Some(Val(Num(18))) by {
      assert ops[..1] == [("$gte", Num(18))];
    }
    assert BoundsAt(["age"], selector, 0).startKey == Val(Num(18));
  }

  /** `{a: {$gt: 5}, b: {$eq: 1}}` on `[a, b]`: `b` has a lower bound after `a` opened a range. */
  lemma LowerBoundAfterRange()
    ensures !SelectorSatisfiedByIndex(["a", "b"], map["a" := [("$gt", Num(5))], "b" := [("$eq", Num(1))]])
  {
    var index: Index := ["a", "b"];
    var selector := map["a" := [("$gt", Num(5))], "b" := [("$eq", Num(1))]];
    assert OpensRange(index, selector, LowerBoundOperators, 0);
    assert NoSelectorFieldBetween(index, selector, 0, 1);
    assert TrackerSet(index, selector, LowerBoundOperators, 1);
    assert HasBound(index, selector, LowerBoundOperators, 1);
    assert FirstViolationAt(index, selector, LowerBoundOperators, 1);
  }

  /** `{b: {$eq: 1}}` on `[a, b]`: the index starts with a field the selector leaves open. */
  lemma SelectorSkipsFirstIndexField()
    ensures !SelectorSatisfiedByIndex(["a", "b"], map["b" := [("$eq", Num(1))]])
  {
    var index: Index := ["a", "b"];
    var selector := map["b" := [("$eq", Num(1))]];
    assert "b" in selector.Keys && "b" !in index[..0];
    NotCoveredAt(index, selector.Keys, 0);
  }

  /**
   * `{a: {$gt: 5}, b: {$lt: 10}, c: {$gt: 3}}` on `[a, b, c]` counts as
   * satisfied: `b` has no lower-bound operator, which clears the lower
   * tracker before `c`, and `c` has no upper-bound operator, which clears
   * the upper tracker.
   */
  lemma TrackerResetBySelectorField()
    ensures SelectorSatisfiedByIndex(["a", "b", "c"],
      map["a" := [("$gt", Num(5))], "b" := [("$lt", Num(10))], "c" := [("$gt", Num(3))]])
  {
    var index: Index := ["a", "b", "c"];
    var selector := map["a" := [("$gt", Num(5))], "b" := [("$lt", Num(10))], "c" := [("$gt", Num(3))]];
    assert FirstOpIn(selector["b"], LowerBoundOperators).None?;
    assert FirstOpIn(selector["a"], UpperBoundOperators).None?;
    assert FirstOpIn(selector["c"], UpperBoundOperators).None?;
    assert !NoSelectorFieldBetween(index, selector, 0, 2) by {
      assert index[1] in selector;
    }
    assert DistinctPrefixOf(index, selector.Keys, 3);
    BlockingViolationIsBoundaryViolation(index, selector, LowerBoundOperators);
    BlockingViolationIsBoundaryViolation(index, selector, UpperBoundOperators);
  }

  /**
   * `{a: {$gt: 1}, "": {$eq: 2}}` on `[a, ""]` counts as satisfied: the walk
   * stops at the field `""` after `a` opened a lower range, but the field it
   * reports has an empty name and reads as "nothing found".
   */
  lemma EmptyFieldNameHidesViolation()
    ensures var index: Index := ["a", ""];
      var selector := map["a" := [("$gt", Num(1))], "" := [("$eq", Num(2))]];
      BoundaryViolation(index, selector, LowerBoundOperators) && SelectorSatisfiedByIndex(index, selector)
  {
    var index: Index := ["a", ""];
    var selector := map["a" := [("$gt", Num(1))], "" := [("$eq", Num(2))]];
    assert OpensRange(index, selector, LowerBoundOperators, 0);
    assert NoSelectorFieldBetween(index, selector, 0, 1);
    assert TrackerSet(index, selector, LowerBoundOperators, 1);
    assert HasBound(index, selector, LowerBoundOperators, 1);
    assert FirstViolationAt(index, selector, LowerBoundOperators, 1);
    FirstViolationDecides(index, selector, LowerBoundOperators, 1);
    ViolationSomewhere(index, selector, LowerBoundOperators);
    assert FirstOpIn(selector["a"], UpperBoundOperators).None?;
    assert !TrackerSet(index, selector, UpperBoundOperators, 1);
    assert !ViolationAt(index, selector, UpperBoundOperators, 0);
    assert !ViolationAt(index, selector, UpperBoundOperators, 1);
    ViolationSomewhere(index, selector, UpperBoundOperators);
    BlockingViolationIsBoundaryViolation(index, selector, UpperBoundOperators);
    assert DistinctPrefixOf(index, selector.Keys, 2);
  }

  /** On `[a, b]` with nothing sort-irrelevant: sort `[a]` is too short, `[a, b]` matches, `[b, a]` is in the wrong order. */
  lemma SortExactness()
    ensures !SortSatisfiedByIndex(["a", "b"], [SortEntry("a", Asc)], {})
    ensures SortSatisfiedByIndex(["a", "b"], [SortEntry("a", Asc), SortEntry("b", Asc)], {})
    ensures !SortSatisfiedByIndex(["a", "b"], [SortEntry("b", Asc), SortEntry("a", Asc)], {})
  {
    assert Join(["a", "b"]) == "a,b" && Join(["b", "a"]) == "b,a";
  }

  /**
   * A sort on a field named `""` is satisfied by the index `[deleted]` once
   * the boolean `deleted` is pinned with `$eq`: both sides join to the empty
   * string although the field lists differ.
   */
  lemma EmptySortFieldMatchesNothing(indexes: seq<Index>)
    ensures var schema := Schema(indexes, map["deleted" := "boolean"]);
      var selector := map["deleted" := [("$eq", Bool(true))]];
      PlanFor(schema, Query(selector, [SortEntry("", Asc)], None), ["deleted"]).sortSatisfiedByIndex
  {
    var schema := Schema(indexes, map["deleted" := "boolean"]);
    var selector := map["deleted" := [("$eq", Bool(true))]];
    assert HasOp(selector["deleted"], "$eq") by {
      assert selector["deleted"][0].0 == "$eq";
    }
    assert SortIrrelevantFields(schema, selector) == {"deleted"};
    assert SortFields([SortEntry("", Asc)]) == [""];
    assert Without([""], {"deleted"}) == [""] by {
      assert [""][1..] == [];
    }
    assert Without(["deleted"], {"deleted"}) == [] by {
      assert ["deleted"][1..] == [];
    }
  }

  /**
   * A boolean field pinned with `$eq` drops out of the sort comparison: on
   * `[deleted, name]`, both the sort `[deleted, name]` and the sort `[name]`
   * are satisfied.
   */
  lemma BooleanFieldIsSortIrrelevant(indexes: seq<Index>)
    ensures var schema := Schema(indexes, map["deleted" := "boolean", "name" := "string"]);
      var selector := map["deleted" := [("$eq", Bool(true))]];
      PlanFor(schema, Query(selector, [SortEntry("deleted", Asc), SortEntry("name", Asc)], None), ["deleted", "name"]).sortSatisfiedByIndex &&
      PlanFor(schema, Query(selector, [SortEntry("name", Asc)], None), ["deleted", "name"]).sortSatisfiedByIndex
  {
    var schema := Schema(indexes, map["deleted" := "boolean", "name" := "string"]);
    var selector := map["deleted" := [("$eq", Bool(true))]];
    assert HasOp(selector["deleted"], "$eq") by {
      assert selector["deleted"][0].0 == "$eq";
    }
    assert SortIrrelevantFields(schema, selector) == {"deleted"};
    var index: Index := ["deleted", "name"];
    assert Without(index, {"deleted"}) == ["name"] by {
      assert index[1..] == ["name"];
      assert index[1..][1..] == [];
    }
    var sort1 := [SortEntry("deleted", Asc), SortEntry("name", Asc)];
    assert SortFields(sort1) == index;
    var sort2 := [SortEntry("name", Asc)];
    assert SortFields(sort2) == ["name"];
    assert Without(["name"], {"deleted"}) == ["name"] by {
      assert ["name"][1..] == [];
    }
    assert Join(["name"]) == "name";
  }
}
