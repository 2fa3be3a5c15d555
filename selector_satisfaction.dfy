/**
 * Whether the index range alone returns exactly the documents the selector
 * matches, so that the storage need not filter the results again.
 */
module SelectorSatisfaction {
  import opened Wrappers
  import opened PlannerTypes
  import opened Operators

  /**
   * Some selector field is not part of the index, or carries an operator
   * outside the five comparison operators.
   */
  predicate HasNonMatchingOperator(index: Index, selector: Selector) {
    exists field :: field in selector &&
      (field !in index || exists k :: 0 <= k < |selector[field]| && selector[field][k].0 !in LogicalOperators)
  }

  /**
   * The field at position `k` opens a range on the `bound` side: the
   * selector constrains it and the first of its operators that belongs to
   * `bound` is not `$eq`.
   */
  predicate OpensRange(index: Index, selector: Selector, bound: set<Operator>, k: nat)
    requires k < |index|
  {
    index[k] in selector && FirstOpIn(selector[index[k]], bound).Some? &&
    FirstOpIn(selector[index[k]], bound).value != "$eq"
  }

  /** The field at position `j` carries an operator of `bound`. */
  predicate HasBound(index: Index, selector: Selector, bound: set<Operator>, j: nat)
    requires j < |index|
  {
    index[j] in selector && FirstOpIn(selector[index[j]], bound).Some?
  }

  /** No field strictly between positions `k` and `j` of the index is constrained by the selector. */
  predicate NoSelectorFieldBetween(index: Index, selector: Selector, k: nat, j: nat)
    requires k <= j <= |index|
  {
    forall m :: k < m < j ==> index[m] !in selector
  }

  /**
   * A boundary violation on the `bound` side: a field that opens a range
   * followed, as the next selector field in index order, by a field that
   * carries a `bound` operator (`$eq` included). A selector field in between
   * whose operators are all of the other side resets the search.
   */
  predicate BoundaryViolation(index: Index, selector: Selector, bound: set<Operator>) {
    exists k: nat, j: nat :: k < j < |index| && OpensRange(index, selector, bound, k) &&
      HasBound(index, selector, bound, j) && NoSelectorFieldBetween(index, selector, k, j)
  }

  /**
   * The tracker is set before position `i`: some earlier field opened a
   * range and no selector field came after it.
   */
  predicate TrackerSet(index: Index, selector: Selector, bound: set<Operator>, i: nat)
    requires i <= |index|
  {
    exists k: nat :: k < i && OpensRange(index, selector, bound, k) && NoSelectorFieldBetween(index, selector, k, i)
  }

  /** A field the selector does not constrain leaves the tracker alone; any other field decides it. */
  lemma TrackerStep(index: Index, selector: Selector, bound: set<Operator>, i: nat)
    requires i < |index|
    ensures index[i] !in selector ==> TrackerSet(index, selector, bound, i + 1) == TrackerSet(index, selector, bound, i)
    ensures index[i] in selector ==> TrackerSet(index, selector, bound, i + 1) == OpensRange(index, selector, bound, i)
  {
  }

  /**
   * The walk stops at position `j`: the field carries a `bound` operator
   * while the tracker is set.
   */
  predicate ViolationAt(index: Index, selector: Selector, bound: set<Operator>, j: nat)
    requires j < |index|
  {
    HasBound(index, selector, bound, j) && TrackerSet(index, selector, bound, j)
  }

  /** Position `j` is the first at which the walk stops. */
  predicate FirstViolationAt(index: Index, selector: Selector, bound: set<Operator>, j: nat) {
    j < |index| && ViolationAt(index, selector, bound, j) &&
    forall i: nat :: i < j ==> !ViolationAt(index, selector, bound, i)
  }

  /** A boundary violation is exactly a position at which the walk stops. */
  lemma ViolationSomewhere(index: Index, selector: Selector, bound: set<Operator>)
    ensures BoundaryViolation(index, selector, bound) <==>
      exists j: nat :: j < |index| && ViolationAt(index, selector, bound, j)
  {
    if j: nat :| j < |index| && ViolationAt(index, selector, bound, j) {
      var k: nat :| k < j && OpensRange(index, selector, bound, k) && NoSelectorFieldBetween(index, selector, k, j);
      assert k < j < |index| && OpensRange(index, selector, bound, k) &&
        HasBound(index, selector, bound, j) && NoSelectorFieldBetween(index, selector, k, j);
    }
    if BoundaryViolation(index, selector, bound) {
      var k: nat, j: nat :| k < j < |index| && OpensRange(index, selector, bound, k) &&
        HasBound(index, selector, bound, j) && NoSelectorFieldBetween(index, selector, k, j);
      assert TrackerSet(index, selector, bound, j);
      assert ViolationAt(index, selector, bound, j);
    }
  }

  /** Where the walk stops somewhere, there is a first position at which it stops. */
  lemma {:induction false} FirstViolationExists(index: Index, selector: Selector, bound: set<Operator>, j: nat)
    requires j < |index| && ViolationAt(index, selector, bound, j)
    ensures exists f: nat :: f <= j && FirstViolationAt(index, selector, bound, f)
    decreases j
  {
    if i: nat :| i < j && ViolationAt(index, selector, bound, i) {
      FirstViolationExists(index, selector, bound, i);
    } else {
      assert FirstViolationAt(index, selector, bound, j);
    }
  }

  /**
   * A boundary violation that makes the selector check fail: the walk stops
   * at a field whose name is not the empty string. The walk reports the
   * field it stopped at, and an empty name reads as "nothing found".
   */
  predicate BlockingViolation(index: Index, selector: Selector, bound: set<Operator>) {
    exists j: nat :: j < |index| && FirstViolationAt(index, selector, bound, j) && index[j] != ""
  }

  /** The first position at which the walk stops decides whether the violation blocks. */
  lemma FirstViolationDecides(index: Index, selector: Selector, bound: set<Operator>, j: nat)
    requires FirstViolationAt(index, selector, bound, j)
    ensures BlockingViolation(index, selector, bound) <==> index[j] != ""
  {
  }

  /** A blocking violation is a boundary violation, and on an index without an empty field name the two coincide. */
  lemma BlockingViolationIsBoundaryViolation(index: Index, selector: Selector, bound: set<Operator>)
    ensures BlockingViolation(index, selector, bound) ==> BoundaryViolation(index, selector, bound)
    ensures (forall i :: 0 <= i < |index| ==> index[i] != "") ==>
      (BlockingViolation(index, selector, bound) <==> BoundaryViolation(index, selector, bound))
  {
    ViolationSomewhere(index, selector, bound);
    if j: nat :| j < |index| && ViolationAt(index, selector, bound, j) {
      FirstViolationExists(index, selector, bound, j);
    }
  }

  /**
   * Walks the index with a tracker holding the first `bound` operator of the
   * last selector field that was not pinned by `$eq`, and returns the first
   * field met that carries a `bound` operator while the tracker is set. A
   * selector field without any `bound` operator clears the tracker.
   */
  method HasMoreThanOneBoundaryField(index: Index, selector: Selector, bound: set<Operator>)
    returns (found: Option<FieldName>)
    ensures found.None? <==> !BoundaryViolation(index, selector, bound)
    ensures found.Some? ==> exists j: nat :: FirstViolationAt(index, selector, bound, j) && found.value == index[j]
    ensures BlockingViolation(index, selector, bound) <==> found.Some? && found.value != ""
  {
    var prevBoundaryField: Option<Operator> := None;
    for i := 0 to |index|
      invariant prevBoundaryField.Some? <==> TrackerSet(index, selector, bound, i)
      invariant forall j: nat :: j < i ==> !ViolationAt(index, selector, bound, j)
    {
      var fieldName := index[i];
      TrackerStep(index, selector, bound, i);
      if fieldName in selector {
        var hasBoundOp := FirstOpIn(selector[fieldName], bound);
        if prevBoundaryField.Some? && hasBoundOp.Some? {
          assert FirstViolationAt(index, selector, bound, i);
          FirstViolationDecides(index, selector, bound, i);
          ViolationSomewhere(index, selector, bound);
          return Some(fieldName);
        } else if hasBoundOp != Some("$eq") {
          prevBoundaryField := hasBoundOp;
        }
      }
    }
    ViolationSomewhere(index, selector, bound);
    BlockingViolationIsBoundaryViolation(index, selector, bound);
    return None;
  }

  /** The first `p` index fields are distinct members of `fields`. */
  predicate DistinctPrefixOf(index: Index, fields: set<FieldName>, p: nat)
    requires p <= |index|
  {
    (forall i :: 0 <= i < p ==> index[i] in fields) &&
    (forall i, j :: 0 <= i < j < p ==> index[i] != index[j])
  }

  /**
   * The selector fields are consumed by the front of the index: a run of
   * distinct selector fields at the start of the index that either holds
   * every selector field or is the whole index.
   */
  predicate PrefixCovers(index: Index, fields: set<FieldName>) {
    exists p: nat :: p <= |index| && DistinctPrefixOf(index, fields, p) &&
      (p == |index| || forall f :: f in fields ==> f in index[..p])
  }

  /**
   * Walks the index removing each field from the set of selector fields
   * still to consume; stops successfully once the set is empty and fails at
   * the first index field that is not in it.
   */
  method CoversPrefix(index: Index, selector: Selector) returns (covered: bool)
    ensures covered == PrefixCovers(index, selector.Keys)
  {
    var selectorFields := selector.Keys;
    for i := 0 to |index|
      invariant forall f :: f in selectorFields <==> f in selector && f !in index[..i]
      invariant DistinctPrefixOf(index, selector.Keys, i)
    {
      if |selectorFields| == 0 {
        assert forall f :: f in selector ==> f in index[..i];
        return true;
      }
      var fieldName := index[i];
      if fieldName in selectorFields {
        selectorFields := selectorFields - {fieldName};
      } else {
        NotCoveredAt(index, selector.Keys, i);
        return false;
      }
      assert index[..i + 1] == index[..i] + [fieldName];
    }
    assert DistinctPrefixOf(index, selector.Keys, |index|);
    return true;
  }

  /**
   * If the first `i` fields are distinct selector fields, some selector
   * field is not among them, and field `i` is not a fresh selector field,
   * no prefix covers the selector.
   */
  lemma NotCoveredAt(index: Index, fields: set<FieldName>, i: nat)
    requires i < |index| && DistinctPrefixOf(index, fields, i)
    requires exists f :: f in fields && f !in index[..i]
    requires index[i] !in fields || index[i] in index[..i]
    ensures !PrefixCovers(index, fields)
  {
  }

  /**
   * The index alone satisfies the selector: every selector field is an index
   * field with only comparison operators, there is no blocking boundary
   * violation on either side, and the selector fields are consumed by the
   * front of the index.
   */
  predicate SelectorSatisfiedByIndex(index: Index, selector: Selector) {
    !HasNonMatchingOperator(index, selector) &&
    !BlockingViolation(index, selector, LowerBoundOperators) &&
    !BlockingViolation(index, selector, UpperBoundOperators) &&
    PrefixCovers(index, selector.Keys)
  }

  /**
   * The selector this planner is built for: on an index whose fields are
   * distinct, the selector constrains exactly the first `n` index fields,
   * uses only comparison operators, and pins every one of them but the last
   * with `$eq` alone. The last may carry any range.
   */
  ghost predicate EqualityPrefixThenRange(index: Index, selector: Selector, n: nat) {
    n <= |index| &&
    (forall i, j :: 0 <= i < j < |index| ==> index[i] != index[j]) &&
    (forall f :: f in selector <==> f in index[..n]) &&
    (forall f, k :: f in selector && 0 <= k < |selector[f]| ==> selector[f][k].0 in LogicalOperators) &&
    (forall i, k :: 0 <= i < n - 1 && index[i] in selector && 0 <= k < |selector[index[i]]| ==> selector[index[i]][k].0 == "$eq")
  }

  /** Under such a selector, only the last constrained field can open a range, and no selector field follows it. */
  lemma NoViolationAfterEqualityPrefix(index: Index, selector: Selector, n: nat, bound: set<Operator>)
    requires EqualityPrefixThenRange(index, selector, n)
    ensures !BoundaryViolation(index, selector, bound)
  {
  }

  /** An equality prefix followed by one range field is answered by the index range alone. */
  lemma EqualityPrefixThenRangeSatisfied(index: Index, selector: Selector, n: nat)
    requires EqualityPrefixThenRange(index, selector, n)
    ensures SelectorSatisfiedByIndex(index, selector)
  {
    NoViolationAfterEqualityPrefix(index, selector, n, LowerBoundOperators);
    NoViolationAfterEqualityPrefix(index, selector, n, UpperBoundOperators);
    BlockingViolationIsBoundaryViolation(index, selector, LowerBoundOperators);
    BlockingViolationIsBoundaryViolation(index, selector, UpperBoundOperators);
    assert DistinctPrefixOf(index, selector.Keys, n);
  }

  /**
   * Runs the four checks in turn and returns false at the first that fails;
   * a boundary check fails only when the field it found has a non-empty name.
   */
  method IsSelectorSatisfiedByIndex(index: Index, selector: Selector) returns (satisfied: bool)
    ensures satisfied == SelectorSatisfiedByIndex(index, selector)
  {
    if HasNonMatchingOperator(index, selector) {
      return false;
    }
    var hasMoreThanOneLowerBoundaryField := HasMoreThanOneBoundaryField(index, selector, LowerBoundOperators);
    if hasMoreThanOneLowerBoundaryField.Some? && hasMoreThanOneLowerBoundaryField.value != "" {
      return false;
    }
    var hasMoreThanOneUpperBoundaryField := HasMoreThanOneBoundaryField(index, selector, UpperBoundOperators);
    if hasMoreThanOneUpperBoundaryField.Some? && hasMoreThanOneUpperBoundaryField.value != "" {
      return false;
    }
    satisfied := CoversPrefix(index, selector);
  }
}
