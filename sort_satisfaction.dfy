/**
 * Whether an index's natural ascending order already gives the order the
 * query asks for, so the storage need not re-sort.
 */
module SortSatisfaction {
  import opened PlannerTypes
  import opened Operators

  /** Whether the schema declares `field` with type `boolean`. */
  predicate IsBooleanField(schema: Schema, field: FieldName) {
    field in schema.fieldTypes && schema.fieldTypes[field] == "boolean"
  }

  /**
   * The sort-irrelevant fields: boolean fields the selector pins with `$eq`.
   * Every matching document has the same value there, so they carry no
   * ordering information.
   */
  function SortIrrelevantFields(schema: Schema, selector: Selector): set<FieldName> {
    set field | field in selector && IsBooleanField(schema, field) && HasOp(selector[field], "$eq")
  }

  /** Collects the sort-irrelevant fields by visiting every selector field once. */
  method CollectSortIrrelevantFields(schema: Schema, selector: Selector) returns (fields: set<FieldName>)
    ensures fields == SortIrrelevantFields(schema, selector)
  {
    fields := {};
    var todo := selector.Keys;
    while todo != {}
      invariant todo <= selector.Keys
      invariant forall f :: f in fields <==>
        f in selector && f !in todo && IsBooleanField(schema, f) && HasOp(selector[f], "$eq")
      decreases todo
    {
      var fieldName :| fieldName in todo;
      if IsBooleanField(schema, fieldName) && HasOp(selector[fieldName], "$eq") {
        fields := fields + {fieldName};
      }
      todo := todo - {fieldName};
    }
  }

  /** Whether any sort entry asks for descending order (a `find` over the sort list). */
  function HasDescSorting(sort: seq<SortEntry>): (r: bool)
    ensures r <==> exists i :: 0 <= i < |sort| && sort[i].direction == Desc
  {
    if |sort| == 0 then false
    else if sort[0].direction == Desc then true
    else
      assert forall i :: 1 <= i < |sort| ==> sort[i] == sort[1..][i - 1];
      HasDescSorting(sort[1..])
  }

  /** The field of every sort entry, in order. */
  function SortFields(sort: seq<SortEntry>): seq<FieldName> {
    seq(|sort|, i requires 0 <= i < |sort| => sort[i].field)
  }

  /** `fields` with every member of `drop` removed, the rest kept in order. */
  function Without(fields: seq<FieldName>, drop: set<FieldName>): (r: seq<FieldName>)
    ensures |r| <= |fields|
    ensures forall f :: f in r <==> f in fields && f !in drop
  {
    if |fields| == 0 then []
    else (if fields[0] in drop then [] else [fields[0]]) + Without(fields[1..], drop)
  }

  /** `fields.join(',')`: the names separated by commas. */
  function Join(fields: seq<FieldName>): string {
    if |fields| == 0 then ""
    else if |fields| == 1 then fields[0]
    else fields[0] + "," + Join(fields[1..])
  }

  /** Names that `join(',')` keeps apart: none is empty and none holds a comma. */
  predicate PlainNames(fields: seq<FieldName>) {
    forall i :: 0 <= i < |fields| ==> fields[i] != "" && ',' !in fields[i]
  }

  /** Plain names join to the empty string only when there are none. */
  lemma JoinEmpty(fields: seq<FieldName>)
    requires PlainNames(fields)
    ensures Join(fields) == "" <==> |fields| == 0
  {
  }

  /** Joining plain names loses nothing: equal joined strings come from equal lists. */
  lemma {:induction false} JoinInjective(a: seq<FieldName>, b: seq<FieldName>)
    requires PlainNames(a) && PlainNames(b)
    requires Join(a) == Join(b)
    ensures a == b
  {
    JoinEmpty(a);
    JoinEmpty(b);
    if |a| > 0 && |b| > 0 {
      var x, y := a[0], b[0];
      assert Join(a)[..|x|] == x && Join(b)[..|y|] == y;
      assert forall i :: 0 <= i < |x| ==> Join(a)[i] == x[i] && x[i] != ',';
      assert forall i :: 0 <= i < |y| ==> Join(b)[i] == y[i] && y[i] != ',';
      assert |a| == 1 ==> |Join(a)| == |x|;
      assert |b| == 1 ==> |Join(b)| == |y|;
      assert |a| > 1 ==> |Join(a)| > |x| && Join(a)[|x|] == ',';
      assert |b| > 1 ==> |Join(b)| > |y| && Join(b)[|y|] == ',';
      assert |x| == |y|;
      assert x == y;
      if |a| == 1 || |b| == 1 {
        assert |a| == 1 && |b| == 1;
        assert a == [x] && b == [y];
      } else {
        assert Join(a)[|x| + 1..] == Join(a[1..]);
        assert Join(b)[|y| + 1..] == Join(b[1..]);
        JoinInjective(a[1..], b[1..]);
        assert a == [x] + a[1..] && b == [y] + b[1..];
      }
    }
  }

  /** Filtering keeps names plain. */
  lemma WithoutPlain(fields: seq<FieldName>, drop: set<FieldName>)
    requires PlainNames(fields)
    ensures PlainNames(Without(fields, drop))
  {
  }

  /**
   * The index satisfies the sort when no entry is descending and the sort
   * fields and the index fields, both with the sort-irrelevant fields
   * removed, join to the same comma-separated string.
   */
  predicate SortSatisfiedByIndex(index: Index, sort: seq<SortEntry>, irrelevant: set<FieldName>) {
    !HasDescSorting(sort) && Join(Without(SortFields(sort), irrelevant)) == Join(Without(index, irrelevant))
  }

  /**
   * For plain names, comparing the joined strings is comparing the filtered
   * lists: the same fields in the same order.
   */
  lemma SortSatisfiedForPlainNames(index: Index, sort: seq<SortEntry>, irrelevant: set<FieldName>)
    requires PlainNames(index) && PlainNames(SortFields(sort))
    ensures SortSatisfiedByIndex(index, sort, irrelevant) <==>
      !HasDescSorting(sort) && Without(SortFields(sort), irrelevant) == Without(index, irrelevant)
  {
    WithoutPlain(index, irrelevant);
    WithoutPlain(SortFields(sort), irrelevant);
    if Join(Without(SortFields(sort), irrelevant)) == Join(Without(index, irrelevant)) {
      JoinInjective(Without(SortFields(sort), irrelevant), Without(index, irrelevant));
    }
  }

  /** Removing nothing leaves a field list unchanged. */
  lemma {:induction false} WithoutNothing(fields: seq<FieldName>)
    ensures Without(fields, {}) == fields
  {
    if |fields| > 0 {
      WithoutNothing(fields[1..]);
    }
  }

  /** Removing `a` and then `b` is removing both at once. */
  lemma {:induction false} WithoutTwice(fields: seq<FieldName>, a: set<FieldName>, b: set<FieldName>)
    ensures Without(Without(fields, a), b) == Without(fields, a + b)
  {
    if |fields| > 0 {
      WithoutTwice(fields[1..], a, b);
      var head := if fields[0] in a then [] else [fields[0]];
      WithoutConcat(head, Without(fields[1..], a), b);
      assert Without(head, b) == (if fields[0] in a + b then [] else [fields[0]]) by {
        if fields[0] !in a {
          assert head[1..] == [];
        }
      }
    }
  }

  /** Removing from a concatenation removes from each part. */
  lemma {:induction false} WithoutConcat(xs: seq<FieldName>, ys: seq<FieldName>, drop: set<FieldName>)
    ensures Without(xs + ys, drop) == Without(xs, drop) + Without(ys, drop)
  {
    if |xs| > 0 {
      assert (xs + ys)[1..] == xs[1..] + ys;
      WithoutConcat(xs[1..], ys, drop);
    } else {
      assert xs + ys == ys;
    }
  }

  /**
   * With plain names, no descending entry and no sort-irrelevant field, the
   * sort is satisfied exactly when the sort fields are the index.
   */
  lemma SortSatisfiedIsExactMatch(index: Index, sort: seq<SortEntry>)
    requires PlainNames(index) && PlainNames(SortFields(sort))
    requires forall i :: 0 <= i < |sort| ==> sort[i].direction == Asc
    ensures SortSatisfiedByIndex(index, sort, {}) <==> SortFields(sort) == index
  {
    SortSatisfiedForPlainNames(index, sort, {});
    WithoutNothing(index);
    WithoutNothing(SortFields(sort));
  }

  /** A descending entry anywhere in the sort list rules out every index. */
  lemma DescendingNeverSatisfied(index: Index, sort: seq<SortEntry>, irrelevant: set<FieldName>, i: nat)
    requires i < |sort| && sort[i].direction == Desc
    ensures !SortSatisfiedByIndex(index, sort, irrelevant)
  {
  }

  /**
   * With plain names, declaring more fields sort-irrelevant never turns a
   * satisfied sort into an unsatisfied one.
   */
  lemma MoreIrrelevantFieldsKeepSort(index: Index, sort: seq<SortEntry>, irrelevant: set<FieldName>, more: set<FieldName>)
    requires PlainNames(index) && PlainNames(SortFields(sort))
    requires irrelevant <= more
    requires SortSatisfiedByIndex(index, sort, irrelevant)
    ensures SortSatisfiedByIndex(index, sort, more)
  {
    SortSatisfiedForPlainNames(index, sort, irrelevant);
    SortSatisfiedForPlainNames(index, sort, more);
    WithoutTwice(SortFields(sort), irrelevant, more);
    WithoutTwice(index, irrelevant, more);
    assert irrelevant + more == more;
  }
}
