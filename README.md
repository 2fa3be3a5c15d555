# RxDB query planner, modelled in Dafny

This project models the query planner of RxDB (`dist/cjs/query-planner.js`).
Given a schema's indexes and a Mango-style query (a selector, a sort list and
an optional forced index), the planner does the following:

- For each candidate index, it derives a key range: one start key and one end
  key per index field, plus the overall start and end inclusivity.
- It decides whether the sort can be read straight off the index order.
- It decides whether the index range alone matches exactly the documents the
  selector matches.
- It scores each plan and keeps the best one.

The modules follow the structure of the source:

- `Operators`: the operator sets, `getMatcherQueryOpts`, and the
  `Object.assign` merge of one field's operators.
- `RangeDerivation`: the `index.map` walk that derives the start and end keys
  and carries the running inclusivity flags.
- `SortSatisfaction`: the sort-irrelevant boolean fields, the descending-sort
  test, and the comparison of sort fields with index fields.
- `SelectorSatisfaction`: `isSelectorSatisfiedByIndex` with its four checks.
- `Rating`: `rateQueryPlan`.
- `QueryPlanner`: `getQueryPlan`, which builds, rates and selects a plan per
  candidate.
- `PlannerScenarios`: worked queries with their expected plans.

The source's loops that update variables step by step are Dafny `method`s
with loop invariants. These are:

- the `forEach` over the selector fields (line 55),
  `CollectSortIrrelevantFields`;
- the `forEach` over the candidate indexes (line 65), `SelectBestPlan`;
- the `index.map` with its running flags (line 68), `DeriveRange`;
- the `forEach` over one field's operators (line 81), `MergeOperators`;
- the tracker `find`s (lines 153 and 170), `HasMoreThanOneBoundaryField`;
- the consuming `for` loop (line 187), `CoversPrefix`.

Each of these methods is proved equal to a declarative definition:

- `CollectSortIrrelevantFields` against `SortIrrelevantFields`;
- `SelectBestPlan` and `GetQueryPlan` against `PlanFor` and `IsLastBest`;
- `DeriveRange` against `BoundsAt`;
- `MergeOperators` against `Merged`;
- `HasMoreThanOneBoundaryField` against `BoundaryViolation`, `FirstViolationAt`
  and `BlockingViolation`;
- `CoversPrefix` against `PrefixCovers`;
- `RateQueryPlan`, which accumulates the quality, against `Quality`.

The source's loops that only compute a value are functions:

- the `find` for a descending entry (line 45), the recursive `HasDescSorting`;
- the `map` to sort fields (line 61), the comprehension `SortFields`;
- the `filter`s of irrelevant fields (lines 62 and 117), the recursive
  `Without`;
- the nested `find`s for a non-matching operator (lines 142-148), the
  quantified predicate `HasNonMatchingOperator`;
- the `find` for a field's first bound operator (line 158), the recursive
  `FirstOpIn`.

Lemmas then state the planner's guarantees about those definitions.

The model follows the code as written, including these details:

- After an exclusive bound, an unconstrained field gets its sentinels swapped
  (lines 73-76).
- Later operators overwrite earlier ones through `Object.assign` (line 85).
- The boundary check uses the *first* bound operator of a field, found with
  `find` (line 158).
- The tracker `find`s return the field they stop at, and the check fails only
  when that result is truthy (lines 166 and 183), so a field named `""` hides
  the violation.
- The sort comparison joins the filtered field lists with `,` and compares the
  strings (lines 62 and 117).
- A selector field with no operator of the checked side clears the boundary
  tracker (lines 161-162 and 178-179).
- The rating counts the bounded start keys twice, once for the start keys and
  once more, again over the start keys (lines 241-244).

Keys are a tagged type: `IndexMin`, `IndexMax`, or a real value. Operator maps
are sequences of `(operator, value)` pairs in key order.

### Behaviour that is easy to miss

- **Boundary tracker reset (lines 159-164).** One would expect that once a
  field has carried an inequality bound, every later field with a bound on
  the same side breaks the match. The code instead resets the tracker at a
  selector field with no operator on that side, so
  `{a:{$gt:5}, b:{$lt:10}, c:{$gt:3}}` on `[a, b, c]` counts as satisfied.
  The model follows the code: `BoundaryViolation` only looks at the next
  selector field after a range field, and
  `PlannerScenarios.TrackerResetBySelectorField` proves this example
  satisfied.
- **Unconstrained fields (lines 73-79).** One would expect a field without a
  matcher to span `INDEX_MIN`..`INDEX_MAX`. The code does so only while the
  running flags are true; after a `$gt` or `$lt` on an earlier field the
  sentinels are swapped. The model follows the code; see
  `RangeDerivation.UnconstrainedFieldSentinels`.
- **Adding `$eq` to a field that already has one.** Assigning `$eq` overwrites
  the existing key where it stands. A later `$gte` or `$lte` on the field then
  still wins for its side, so the quality can drop. Never lowering the
  quality therefore holds only for a field without `$eq`, and
  `QueryPlanner.OverwritingEqualityCanLowerQuality` proves a drop from 35 to
  20.
- **A field named `""` (lines 153-183).** The tracker `find` returns the
  violating field itself, and `""` is falsy, so a violation found at a field
  named `""` does not fail the check. `{a:{$gt:1}, "":{$eq:2}}` on `[a, ""]`
  counts as satisfied; see `PlannerScenarios.EmptyFieldNameHidesViolation`.
- **Joined sort fields (lines 62 and 117).** The sort verdict compares the
  field lists joined with `,`, and `[""]` and `[]` both join to `""`. So a
  sort on a field named `""` is satisfied by `[deleted]` once the boolean
  `deleted` is pinned with `$eq`; see
  `PlannerScenarios.EmptySortFieldMatchesNothing`. For field names that are
  non-empty and contain no comma, the joined strings are equal exactly when
  the lists are (`SortSatisfaction.JoinInjective`).

## Model

| member | source | states |
|---|---|---|
| Operators.GetMatcherQueryOpts | dist/cjs/query-planner.js:199-226 | An operator is accepted exactly when it is one of `$eq $gt $gte $lt $lte`; any other fails with that operator. Start key = the value exactly for `$eq/$gt/$gte`. End key = the value exactly for `$eq/$lt/$lte`. `inclusiveStart` is `false` exactly for `$gt` and `inclusiveEnd` exactly for `$lt`; otherwise they stay undefined. |
| Operators.FirstOpIn | dist/cjs/query-planner.js:158 | The `find` over a field's operator keys: `None` exactly when no key is in the set; otherwise a key in the set with no earlier key in it. |
| Operators.LastValueInIsLast | dist/cjs/query-planner.js:81-87 | The merged start (or end) key is undefined exactly when no operator of that side occurs. Otherwise it is the value of the last such operator in key order, so later operators win. |
| Operators.MergeOperators | dist/cjs/query-planner.js:81-87 | Folding `Object.assign` over the recognised operators in key order gives `Merged`: the last lower-bound value, the last upper-bound value, and an exclusive flag exactly when `$gt` (or `$lt`) occurs. Unrecognised operators are skipped. |
| RangeDerivation.FieldRange | dist/cjs/query-planner.js:70-102 | A field's own `inclusiveStart` is false exactly when its operator map has `$gt`, and its `inclusiveEnd` exactly when it has `$lt`, whether or not it is constrained. |
| RangeDerivation.UnconstrainedFieldSentinels | dist/cjs/query-planner.js:72-79 | An unconstrained field starts at `INDEX_MAX` iff some earlier field has `$gt`, and otherwise at `INDEX_MIN`. It ends at `INDEX_MIN` iff some earlier field has `$lt`, and otherwise at `INDEX_MAX`. Its own range stays inclusive. |
| RangeDerivation.ConstrainedFieldRange | dist/cjs/query-planner.js:80-102 | A constrained field's range ignores the running flags. Its start key is `INDEX_MIN` iff it has no lower-bound operator, and otherwise the value of the last one. Its end key is `INDEX_MAX` iff it has no upper-bound operator, and otherwise the value of the last one. |
| RangeDerivation.FieldOpts | dist/cjs/query-planner.js:69-102 | One step of the `index.map`: sentinels for an unconstrained field, otherwise the merged operators, then the defaults filled in. It equals `FieldRange`. |
| RangeDerivation.DeriveRange | dist/cjs/query-planner.js:66-116 | There are exactly as many start keys and end keys as index fields, each equal to that field's `BoundsAt`. The plan's `inclusiveStart` holds iff no index field has `$gt`, and `inclusiveEnd` iff none has `$lt`. The walk visits every field after a flag turns false. |
| SortSatisfaction.CollectSortIrrelevantFields | dist/cjs/query-planner.js:54-60 | Returns exactly the selector fields whose schema type is `boolean` and whose operator map has `$eq`. |
| SortSatisfaction.HasDescSorting | dist/cjs/query-planner.js:45 | True iff some sort entry is descending. |
| SortSatisfaction.Without | dist/cjs/query-planner.js:62 | The `filter` of the irrelevant fields: no longer than its input, and it keeps exactly the fields not dropped. |
| SortSatisfaction.WithoutNothing | dist/cjs/query-planner.js:62 | Filtering with an empty set of irrelevant fields changes nothing. |
| SortSatisfaction.WithoutTwice | dist/cjs/query-planner.js:62 | Filtering by `a` and then by `b` equals filtering by `a + b`. |
| SortSatisfaction.JoinEmpty | dist/cjs/query-planner.js:62 | A list of non-empty field names joins to the empty string iff the list is empty. |
| SortSatisfaction.JoinInjective | dist/cjs/query-planner.js:62 | Two lists of non-empty, comma-free field names with the same `join(',')` are the same list. |
| SortSatisfaction.WithoutPlain | dist/cjs/query-planner.js:62 | Filtering keeps field names non-empty and comma-free. |
| SortSatisfaction.SortSatisfiedForPlainNames | dist/cjs/query-planner.js:117 | For non-empty, comma-free names, comparing the joined strings is the same as comparing the filtered field lists. |
| SortSatisfaction.SortSatisfiedIsExactMatch | dist/cjs/query-planner.js:117 | For non-empty, comma-free names, with no descending entry and nothing sort-irrelevant, the sort is satisfied iff the sort fields equal the index fields, in the same order and not as a prefix. |
| SortSatisfaction.DescendingNeverSatisfied | dist/cjs/query-planner.js:117 | A descending entry anywhere in the sort rules out every index. |
| SortSatisfaction.MoreIrrelevantFieldsKeepSort | dist/cjs/query-planner.js:117 | For non-empty, comma-free names, declaring more fields sort-irrelevant never turns a satisfied sort into an unsatisfied one. |
| SelectorSatisfaction.ViolationSomewhere | dist/cjs/query-planner.js:152-167 | A boundary violation exists iff the tracker walk stops at some index field: one with a bound operator while the tracker is set. |
| SelectorSatisfaction.FirstViolationExists | dist/cjs/query-planner.js:153 | If the walk stops anywhere, there is a first position at which it stops, no later than that one. |
| SelectorSatisfaction.FirstViolationDecides | dist/cjs/query-planner.js:153-167 | The violation blocks the selector check iff the field at the first stopping position has a non-empty name. |
| SelectorSatisfaction.BlockingViolationIsBoundaryViolation | dist/cjs/query-planner.js:153-185 | A blocking violation is a boundary violation, and on an index with no field named `""` the two coincide. |
| SelectorSatisfaction.HasMoreThanOneBoundaryField | dist/cjs/query-planner.js:152-185 | The tracker walk finds nothing iff there is no boundary violation: no field whose first bound operator is not `$eq` is followed, as the next selector field, by a field with a bound operator. Otherwise it returns the field at the first position where the walk stops. The violation blocks iff that field's name is non-empty. One definition covers both the lower and the upper side. |
| SelectorSatisfaction.CoversPrefix | dist/cjs/query-planner.js:186-197 | The consuming loop succeeds iff the index starts with distinct selector fields that either hold every selector field or make up the whole index. |
| SelectorSatisfaction.NotCoveredAt | dist/cjs/query-planner.js:191-195 | If an index field is met while selector fields remain and it is not one of them, no prefix covers the selector. |
| SelectorSatisfaction.IsSelectorSatisfiedByIndex | dist/cjs/query-planner.js:140-198 | True iff every selector field is in the index and uses only the five comparison operators, neither side has a blocking boundary violation (one whose first stopping field has a non-empty name), and the selector fields are consumed by the front of the index. |
| SelectorSatisfaction.NoViolationAfterEqualityPrefix | dist/cjs/query-planner.js:152-185 | On an index with distinct fields, suppose the selector pins a prefix with `$eq` and puts any range on the next field. Then there is no boundary violation on either side. |
| SelectorSatisfaction.EqualityPrefixThenRangeSatisfied | dist/cjs/query-planner.js:140-198 | Such a selector (an `$eq` prefix followed by one range field) is satisfied by the index alone. |
| Rating.BoundedPrefixIsLongestRun | dist/cjs/query-planner.js:241 | The count is the longest leading run of start keys that are neither sentinel: every key in the run is real, and the key after it, if any, is a sentinel. |
| Rating.EqualPrefixIsLongestRun | dist/cjs/query-planner.js:245-251 | The count is the longest leading run of positions where the start key equals the end key; the next position, if any, differs. |
| Rating.RateQueryPlan | dist/cjs/query-planner.js:233-256 | The accumulated quality is 20 per leading bounded start key (the start-key count is added twice), plus 15 per leading equal position, plus 5 when the sort is satisfied. It lies between 0 and `35 * |startKeys| + 5`. |
| Rating.BoundedPrefixMonotone | dist/cjs/query-planner.js:241-244 | If every real start key stays real, the bounded run cannot shrink. |
| Rating.EqualPrefixMonotone | dist/cjs/query-planner.js:245-252 | If every equal position stays equal, the equal run cannot shrink. |
| QueryPlanner.BuildPlan | dist/cjs/query-planner.js:66-119 | The plan built for one index is `PlanFor`: the derived keys and flags, the sort verdict, and the selector verdict. |
| QueryPlanner.PlanCandidate | dist/cjs/query-planner.js:111-120 | Builds the next candidate's plan (extending `PlansFor` by one) and rates it with `Quality`. |
| QueryPlanner.SelectBestPlan | dist/cjs/query-planner.js:63-125 | The selection loop keeps nothing iff there is no candidate. Otherwise it keeps a plan that no candidate out-rates, and every later candidate rates strictly lower, so ties go to the later candidate. |
| QueryPlanner.GetQueryPlan | dist/cjs/query-planner.js:34-136 | Fails with the query iff there is no candidate index. A forced index yields exactly the plan for that index. Otherwise the result is the last best-rated plan among the schema indexes. A returned plan uses a candidate index and has one start key and one end key per index field. |
| QueryPlanner.EqualityKeepsFlags | dist/cjs/query-planner.js:103-108 | Setting `$eq` on any field, whether it overwrites an existing `$eq` or appends one, changes no field's own inclusivity. |
| QueryPlanner.EqualityBounds | dist/cjs/query-planner.js:68-102 | After adding `$eq: v` to a field that had no `$eq`, that field's start and end key are `v`, and every other field keeps its range. |
| QueryPlanner.EqualityKeepsKeys | dist/cjs/query-planner.js:111-114 | After adding `$eq` to a field that had none, a real start key stays real, and an equal pair of start and end keys stays equal. |
| QueryPlanner.EqualityGrowsIrrelevantFields | dist/cjs/query-planner.js:54-60 | Setting `$eq` on any field can only add sort-irrelevant fields. |
| QueryPlanner.AddingEqualityNeverLowersQuality | dist/cjs/query-planner.js:233-256 | Adding an equality constraint on a field that had no `$eq` never lowers the quality of the plan for any index. |
| QueryPlanner.OverwritingEqualityCanLowerQuality | dist/cjs/query-planner.js:241-252 | On `[a]`, overwriting `$eq: 5` with `$eq: 7` in `{a:{$eq:5,$gte:5}}` lowers the quality from 35 to 20: the start key stays 5 and the end key becomes 7. |
| PlannerScenarios.AgeRange | dist/cjs/query-planner.js:66-116 | `{age:{$gte:18,$lt:65}}` on `[age]` gives start keys `[18]`, end keys `[65]`, an inclusive start and an exclusive end. |
| PlannerScenarios.LowerBoundAfterRange | dist/cjs/query-planner.js:152-168 | `{a:{$gt:5}, b:{$eq:1}}` on `[a, b]` is not satisfied by the index. |
| PlannerScenarios.SelectorSkipsFirstIndexField | dist/cjs/query-planner.js:186-197 | `{b:{$eq:1}}` on `[a, b]` is not satisfied by the index. |
| PlannerScenarios.TrackerResetBySelectorField | dist/cjs/query-planner.js:152-185 | `{a:{$gt:5}, b:{$lt:10}, c:{$gt:3}}` on `[a, b, c]` is counted as satisfied, because `b` and `c` each reset one tracker. |
| PlannerScenarios.EmptyFieldNameHidesViolation | dist/cjs/query-planner.js:152-168 | `{a:{$gt:1}, "":{$eq:2}}` on `[a, ""]` has a lower boundary violation and is still counted as satisfied. |
| PlannerScenarios.SortExactness | dist/cjs/query-planner.js:117 | On `[a, b]`, sort `[a]` and sort `[b, a]` are not satisfied, and sort `[a, b]` is. |
| PlannerScenarios.BooleanFieldIsSortIrrelevant | dist/cjs/query-planner.js:54-62 | With `deleted` a boolean pinned by `$eq`, both sort `[deleted, name]` and sort `[name]` are satisfied by `[deleted, name]`. |
| PlannerScenarios.EmptySortFieldMatchesNothing | dist/cjs/query-planner.js:54-117 | With `deleted` a boolean pinned by `$eq`, the sort on a field named `""` is satisfied by `[deleted]`. |

## Left out

- The storage plugins that call the planner (the MongoDB and Dexie storages). They only pass settings through and are not part of this model.
- `getSchemaByObjectPath` (line 56) is not part of this model. The schema carries a `fieldTypes` map from field path to declared type instead.
- `countUntilNotMatching` (lines 241-245) is not part of this model. It is taken to return the length of the longest leading run that satisfies its predicate (`BoundedPrefix`, `EqualPrefix`).
- The sentinel encodings (`String.fromCharCode(65535)` and `Number.MIN_SAFE_INTEGER`, lines 14 and 25) are the tags `IndexMax` and `IndexMin`. The source rates a real value equal to either constant as a sentinel; the tagged model does not.
- Rating.RateQueryPlan: the `1.5` multiplier (line 252) is written as the integer 15 per equal key; JavaScript floating point is not modelled.
- JavaScript values are `Str`, `Num` (integers) and `Bool`; `===` on them is value equality. Non-integer numbers, `null`, objects and arrays as operator values are not modelled.
- QueryPlanner.AddingEqualityNeverLowersQuality: holds only for a field without `$eq`. Overwriting an existing `$eq` can lower the quality, as `QueryPlanner.OverwritingEqualityCanLowerQuality` proves. It also requires non-empty, comma-free index and sort field names, because it relies on `SortSatisfaction.MoreIrrelevantFieldsKeepSort`.
- SortSatisfaction.SortSatisfiedIsExactMatch: stated only for non-empty, comma-free field names. Otherwise different lists can join to the same string: sort `[""]` matches index `[]`, and `["a,b"]` matches `["a", "b"]`. The model keeps the string comparison, and `PlannerScenarios.EmptySortFieldMatchesNothing` shows the first case.
- SortSatisfaction.MoreIrrelevantFieldsKeepSort: stated only for non-empty, comma-free field names, for the same reason. Once the joined strings collide, dropping one more field from both lists can separate them.
- QueryPlanner.EqualityBounds: holds only for a field without `$eq`. When the field had one, a later `$gte`/`$lte` keeps its own value for that side.
- QueryPlanner.EqualityKeepsKeys: holds only for a field without `$eq`, for the same reason.
- Selector values that are not operator objects (shorthand equality) and operator maps with duplicate keys are not modelled. The model's operator map is a sequence of pairs and assumes distinct keys.
- `schema.indexes` being absent (line 36) is modelled as an empty index list.
- The `schema` and `query` parameters of `rateQueryPlan` are unused there and are left out of `RateQueryPlan`.
- The internal error `newRxError('SNH', {query})` (line 131) and the `SNH` throw in `getMatcherQueryOpts` (line 225) are `Err` results: `NoIndexFound` and `UnknownOperator`.
