/**
 * The values the query planner works on: selectors, sort orders, indexes,
 * schemas, queries and the query plan it produces.
 */
module PlannerTypes {
  import opened Wrappers

  /** A (possibly dotted) path to a document field. */
  type FieldName = string

  /** A selector operator such as `$eq` or `$gte`; any string may occur. */
  type Operator = string

  /**
   * A scalar a selector compares against. The planner only ever compares
   * these for equality; JSON numbers are modelled as integers.
   */
  datatype Value = Str(s: string) | Num(n: int) | Bool(b: bool)

  /**
   * A key in the index key space: the two reserved "unbounded" sentinels
   * (INDEX_MIN below every real key, INDEX_MAX above every real key) or a
   * real value.
   */
  datatype Key = IndexMin | IndexMax | Val(v: Value)

  /** An operator map such as `{ $gte: 18, $lt: 65 }`, its entries in key order. */
  type OpMap = seq<(Operator, Value)>

  /** A selector: for each constrained field, its operator map. */
  type Selector = map<FieldName, OpMap>

  /** An index: an ordered list of field paths. */
  type Index = seq<FieldName>

  datatype Direction = Asc | Desc

  /** One entry of a sort list, such as `{ name: 'asc' }`. */
  datatype SortEntry = SortEntry(field: FieldName, direction: Direction)

  /**
   * What the planner reads from a schema: its indexes (an absent list is the
   * empty list) and, for the field paths the schema declares, their type name.
   */
  datatype Schema = Schema(indexes: seq<Index>, fieldTypes: map<FieldName, string>)

  /** A query: its selector, its sort list and, optionally, an index the caller forces. */
  datatype Query = Query(selector: Selector, sort: seq<SortEntry>, index: Option<Index>)

  /** The plan the planner hands to a storage backend. */
  datatype QueryPlan = QueryPlan(
    index: Index,
    startKeys: seq<Key>,
    endKeys: seq<Key>,
    inclusiveEnd: bool,
    inclusiveStart: bool,
    sortSatisfiedByIndex: bool,
    selectorSatisfiedByIndex: bool)

  /** The planner's "should not happen" errors. */
  datatype PlannerError =
    | NoIndexFound(query: Query)
    | UnknownOperator(op: Operator)
}
