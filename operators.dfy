/**
 * The comparison operators the planner understands, what each one
 * contributes to a field's range, and how the operators of one field's
 * operator map are merged.
 */
module Operators {
  import opened Wrappers
  import opened PlannerTypes

  /** The operators a range over an index can express. */
  const LogicalOperators: set<Operator> := {"$eq", "$gt", "$gte", "$lt", "$lte"}

  /** The operators that bound a field from below. */
  const LowerBoundOperators: set<Operator> := {"$eq", "$gt", "$gte"}

  /** The operators that bound a field from above. */
  const UpperBoundOperators: set<Operator> := {"$eq", "$lt", "$lte"}

  /** Whether the operator map has the key `op`. */
  predicate HasOp(ops: OpMap, op: Operator) {
    exists k :: 0 <= k < |ops| && ops[k].0 == op
  }

  lemma HasOpAppend(ops: OpMap, entry: (Operator, Value), op: Operator)
    ensures HasOp(ops + [entry], op) <==> HasOp(ops, op) || entry.0 == op
  {
    var all := ops + [entry];
    if HasOp(all, op) && entry.0 != op {
      var k :| 0 <= k < |all| && all[k].0 == op;
      assert k < |ops| && ops[k].0 == op;
    }
    if HasOp(ops, op) {
      var k :| 0 <= k < |ops| && ops[k].0 == op;
      assert all[k].0 == op;
    }
    if entry.0 == op {
      assert all[|ops|].0 == op;
    }
  }

  /**
   * Property assignment `ops[op] = v` on an operator object: an existing key
   * keeps its place and takes the new value, a new key goes last.
   */
  function SetOp(ops: OpMap, op: Operator, v: Value): OpMap {
    if |ops| == 0 then [(op, v)]
    else if ops[0].0 == op then [(op, v)] + ops[1..]
    else [ops[0]] + SetOp(ops[1..], op, v)
  }

  /** After the assignment `op` is a key. */
  lemma {:induction false} SetOpHasKey(ops: OpMap, op: Operator, v: Value)
    ensures HasOp(SetOp(ops, op, v), op)
  {
    var r := SetOp(ops, op, v);
    if |ops| == 0 || ops[0].0 == op {
      assert r[0].0 == op;
    } else {
      SetOpHasKey(ops[1..], op, v);
      var rt := SetOp(ops[1..], op, v);
      var k :| 0 <= k < |rt| && rt[k].0 == op;
      assert r[k + 1].0 == op;
    }
  }

  /** The assignment neither adds nor removes any key other than `op`. */
  lemma {:induction false} SetOpOtherKey(ops: OpMap, op: Operator, v: Value, o: Operator)
    requires o != op
    ensures HasOp(SetOp(ops, op, v), o) <==> HasOp(ops, o)
  {
    if |ops| > 0 {
      var r := SetOp(ops, op, v);
      var tail := ops[1..];
      var rt := r[1..];
      if ops[0].0 != op {
        SetOpOtherKey(tail, op, v, o);
      }
      assert HasOp(rt, o) <==> HasOp(tail, o);
      assert (r[0].0 == o) == (ops[0].0 == o);
      assert forall m :: 0 <= m < |tail| ==> tail[m] == ops[m + 1];
      assert forall m :: 0 <= m < |rt| ==> rt[m] == r[m + 1];
      assert HasOp(ops, o) <==> ops[0].0 == o || HasOp(tail, o);
      assert HasOp(r, o) <==> r[0].0 == o || HasOp(rt, o);
    }
  }

  /** Assigning a key the object does not have appends it. */
  lemma {:induction false} SetOpAppends(ops: OpMap, op: Operator, v: Value)
    requires !HasOp(ops, op)
    ensures SetOp(ops, op, v) == ops + [(op, v)]
  {
    if |ops| > 0 {
      var tail := ops[1..];
      assert forall m :: 0 <= m < |tail| ==> tail[m] == ops[m + 1];
      assert ops[0].0 != op;
      SetOpAppends(tail, op, v);
      assert ops == [ops[0]] + tail;
    }
  }

  /**
   * The first key of `ops`, in key order, that belongs to `s`; `None` when
   * no key does.
   */
  function FirstOpIn(ops: OpMap, s: set<Operator>): (r: Option<Operator>)
    ensures r.None? <==> forall k :: 0 <= k < |ops| ==> ops[k].0 !in s
    ensures r.Some? ==> r.value in s
    ensures r.Some? ==>
      exists k :: 0 <= k < |ops| && ops[k].0 == r.value && forall m :: 0 <= m < k ==> ops[m].0 !in s
  {
    if |ops| == 0 then None
    else if ops[0].0 in s then Some(ops[0].0)
    else
      var rest := FirstOpIn(ops[1..], s);
      assert forall k :: 1 <= k < |ops| ==> ops[k] == ops[1..][k - 1];
      if rest.Some? then
        var k :| 0 <= k < |ops[1..]| && ops[1..][k].0 == rest.value &&
          forall m :: 0 <= m < k ==> ops[1..][m].0 !in s;
        assert ops[k + 1].0 == rest.value && forall m :: 0 <= m < k + 1 ==> ops[m].0 !in s;
        rest
      else
        rest
  }

  /**
   * A partially filled range for one field. `None` is an attribute that is
   * still undefined.
   */
  datatype MatcherOpts = MatcherOpts(
    startKey: Option<Key>,
    endKey: Option<Key>,
    inclusiveStart: Option<bool>,
    inclusiveEnd: Option<bool>)

  const NoOpts := MatcherOpts(None, None, None, None)

  /**
   * What one operator with its value contributes to a field's range. An
   * operator outside the five comparison operators is an internal error.
   */
  function GetMatcherQueryOpts(op: Operator, v: Value): (r: Result<MatcherOpts, PlannerError>)
    ensures r.Ok? <==> op in LogicalOperators
    ensures r.Err? ==> r.error == UnknownOperator(op)
    ensures r.Ok? ==> r.value.startKey == if op in LowerBoundOperators then Some(Val(v)) else None
    ensures r.Ok? ==> r.value.endKey == if op in UpperBoundOperators then Some(Val(v)) else None
    ensures r.Ok? ==> r.value.inclusiveStart == if op == "$gt" then Some(false) else None
    ensures r.Ok? ==> r.value.inclusiveEnd == if op == "$lt" then Some(false) else None
  {
    if op == "$eq" then Ok(MatcherOpts(Some(Val(v)), Some(Val(v)), None, None))
    else if op == "$lte" then Ok(MatcherOpts(None, Some(Val(v)), None, None))
    else if op == "$gte" then Ok(MatcherOpts(Some(Val(v)), None, None, None))
    else if op == "$lt" then Ok(MatcherOpts(None, Some(Val(v)), None, Some(false)))
    else if op == "$gt" then Ok(MatcherOpts(Some(Val(v)), None, Some(false), None))
    else Err(UnknownOperator(op))
  }

  /** Object.assign: every attribute `source` defines overwrites the one in `target`. */
  function Assign(target: MatcherOpts, source: MatcherOpts): MatcherOpts {
    MatcherOpts(
      if source.startKey.Some? then source.startKey else target.startKey,
      if source.endKey.Some? then source.endKey else target.endKey,
      if source.inclusiveStart.Some? then source.inclusiveStart else target.inclusiveStart,
      if source.inclusiveEnd.Some? then source.inclusiveEnd else target.inclusiveEnd)
  }

  /** The value of the last entry of `ops` whose operator is in `s`, as a key. */
  function LastValueIn(ops: OpMap, s: set<Operator>): Option<Key> {
    if |ops| == 0 then None
    else if ops[|ops| - 1].0 in s then Some(Val(ops[|ops| - 1].1))
    else LastValueIn(ops[..|ops| - 1], s)
  }

  /**
   * `LastValueIn` finds nothing exactly when no operator is in `s`, and
   * otherwise the value of an entry in `s` that no later entry in `s` follows.
   */
  lemma {:induction false} LastValueInIsLast(ops: OpMap, s: set<Operator>)
    ensures LastValueIn(ops, s).None? <==> forall k :: 0 <= k < |ops| ==> ops[k].0 !in s
    ensures LastValueIn(ops, s).Some? ==>
      exists k :: 0 <= k < |ops| && ops[k].0 in s && LastValueIn(ops, s).value == Val(ops[k].1) && forall m :: k < m < |ops| ==> ops[m].0 !in s
  {
    if |ops| > 0 && ops[|ops| - 1].0 !in s {
      var front := ops[..|ops| - 1];
      LastValueInIsLast(front, s);
      assert forall k :: 0 <= k < |front| ==> front[k] == ops[k];
      if LastValueIn(front, s).Some? {
        var k :| 0 <= k < |front| && front[k].0 in s && LastValueIn(front, s).value == Val(front[k].1) &&
          forall m :: k < m < |front| ==> front[m].0 !in s;
        assert forall m :: k < m < |ops| ==> ops[m].0 !in s;
      }
    }
  }

  /**
   * The range a field's operator map describes before defaults are filled
   * in: the start key is the value of the last lower-bound operator, the end
   * key that of the last upper-bound operator, and an exclusive flag is
   * present exactly when `$gt` (for the start) or `$lt` (for the end) occurs,
   * since no operator sets a flag back to true. Unrecognised operators play
   * no part.
   */
  function Merged(ops: OpMap): MatcherOpts {
    MatcherOpts(
      LastValueIn(ops, LowerBoundOperators),
      LastValueIn(ops, UpperBoundOperators),
      if HasOp(ops, "$gt") then Some(false) else None,
      if HasOp(ops, "$lt") then Some(false) else None)
  }

  /**
   * Applies the recognised operators of `ops` in key order, each one's
   * contribution overwriting what earlier ones set, and skips the others.
   */
  method MergeOperators(ops: OpMap) returns (opts: MatcherOpts)
    ensures opts == Merged(ops)
  {
    opts := NoOpts;
    for i := 0 to |ops|
      invariant opts == Merged(ops[..i])
    {
      var (op, v) := ops[i];
      if op in LogicalOperators {
        opts := Assign(opts, GetMatcherQueryOpts(op, v).value);
      }
      assert ops[..i + 1] == ops[..i] + [ops[i]];
      HasOpAppend(ops[..i], ops[i], "$gt");
      HasOpAppend(ops[..i], ops[i], "$lt");
    }
    assert ops[..|ops|] == ops;
  }
}
