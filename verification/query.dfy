/**
 The query expressions the library sends to the store: a tree whose leaves
 compare one field (`{field, operator, value|values}`) and whose inner
 nodes combine children with AND or OR (`{operator, children}`).

 The store evaluates them remotely, and the library does not say how.
 `HoldsOnSpan` gives the time clauses an assumed reading (a comparison
 with a null field is false, ISNULL tests for null), so that the window
 clauses the library builds can be compared with the overlap rule it
 applies locally.
 */
module Query {
  import opened Base
  import opened Temporal
  import Seqs

  datatype Comparison = Eq | In | ContainedBy | Gte | Lte | IsNull

  datatype Connective = And | Or

  datatype Scalar = Text(text: string) | Time(instant: Instant)

  /** A leaf carries no operand (ISNULL), one `value`, or a list of `values`. */
  datatype Operand = NoOperand | One(value: Scalar) | Many(values: seq<string>)

  datatype QueryNode =
    | Clause(field: string, op: Comparison, operand: Operand)
    | Combine(connective: Connective, children: seq<QueryNode>)

  /** Field names the time clauses compare. */
  const StartField := "start"
  const EndField := "end"

  /** The value a time clause compares against a record's bound. */
  function BoundOf(span: Interval, field: string): Option<Instant> {
    if field == StartField then span.start else span.end
  }

  /** The assumed store reading of a node on the `start`/`end` of one record.
      Clauses on any other field constrain other attributes of the record
      and impose nothing on its time bounds. */
  predicate HoldsOnSpan(node: QueryNode, span: Interval)
    decreases node
  {
    match node
    case Clause(field, op, operand) =>
      if field != StartField && field != EndField then true
      else
        var bound := BoundOf(span, field);
        (match op
         case IsNull => bound.None?
         case Gte => operand.One? && operand.value.Time? && bound.Some? && bound.value >= operand.value.instant
         case Lte => operand.One? && operand.value.Time? && bound.Some? && bound.value <= operand.value.instant
         case Eq => operand.One? && operand.value.Time? && bound.Some? && bound.value == operand.value.instant
         case _ => false)
    case Combine(connective, children) =>
      if connective == And then forall i :: 0 <= i < |children| ==> HoldsOnSpan(children[i], span)
      else exists i :: 0 <= i < |children| && HoldsOnSpan(children[i], span)
  }

  /** A top-level AND over a list of nodes, as `search_objects` sends it. */
  predicate AllHoldOnSpan(nodes: seq<QueryNode>, span: Interval) {
    forall i :: 0 <= i < |nodes| ==> HoldsOnSpan(nodes[i], span)
  }

  /** `{'operator': 'OR', 'children': [{'field': 'end', 'operator': 'ISNULL'},
      {'field': 'end', 'operator': 'GTE', 'value': t}]}`. */
  function EndOpenOrFrom(t: Instant): QueryNode {
    Combine(Or, [Clause(EndField, IsNull, NoOperand), Clause(EndField, Gte, One(Time(t)))])
  }

  /** `{'field': 'start', 'operator': 'LTE', 'value': t}`. */
  function StartUntil(t: Instant): QueryNode {
    Clause(StartField, Lte, One(Time(t)))
  }

  /** The window clauses the device fetches add: the open-end clause when
      a window start is given, then the start clause when a window end is
      given (devices.py). */
  function WindowClauses(windowStart: Option<Instant>, windowEnd: Option<Instant>): (q: seq<QueryNode>)
    ensures |q| == (if windowStart.Some? then 1 else 0) + (if windowEnd.Some? then 1 else 0)
  {
    (if windowStart.Some? then [EndOpenOrFrom(windowStart.value)] else [])
    + (if windowEnd.Some? then [StartUntil(windowEnd.value)] else [])
  }

  /** Under the assumed store reading, the window clauses select exactly the records that
      overlap the window, except that a record with a null start fails the
      start comparison whenever a window end is given. */
  lemma WindowClausesMeaning(windowStart: Option<Instant>, windowEnd: Option<Instant>, span: Interval)
    ensures AllHoldOnSpan(WindowClauses(windowStart, windowEnd), span)
        <==> Overlaps(span, windowStart, windowEnd) && (windowEnd.Some? ==> span.start.Some?)
  {
    var q := WindowClauses(windowStart, windowEnd);
    if windowStart.Some? {
      var n := EndOpenOrFrom(windowStart.value);
      assert q[0] == n;
      assert HoldsOnSpan(n, span) <==> HoldsOnSpan(n.children[0], span) || HoldsOnSpan(n.children[1], span);
    }
    if windowEnd.Some? {
      assert q[|q| - 1] == StartUntil(windowEnd.value);
    }
  }

  /** The values of the first clause on `field` that lists values. */
  function ValuesFor(nodes: seq<QueryNode>, field: string): Option<seq<string>>
    decreases |nodes|
  {
    if |nodes| == 0 then None
    else if nodes[0].Clause? && nodes[0].field == field && nodes[0].operand.Many? then Some(nodes[0].operand.values)
    else ValuesFor(nodes[1..], field)
  }

  /** One `{field, op, values}` clause per given list, in the order of
      `fields`; absent lists add nothing. */
  function ListClauses(fields: seq<string>, lists: seq<Option<seq<string>>>, op: Comparison): (q: seq<QueryNode>)
    requires |fields| == |lists|
    ensures forall i :: 0 <= i < |q| ==> q[i].Clause? && q[i].op == op && q[i].field in fields
    decreases |fields|
  {
    if |fields| == 0 then []
    else
      (if lists[0].Some? then [Clause(fields[0], op, Many(lists[0].value))] else [])
      + ListClauses(fields[1..], lists[1..], op)
  }

  /** The clause list built from optional lists has one clause per given
      list, all with the same operator, and reading the clauses back
      recovers every argument: a list that was given is found under its
      field, a list that was absent is not. */
  lemma {:induction false} ListClausesRoundTrip(fields: seq<string>, lists: seq<Option<seq<string>>>, op: Comparison, k: nat)
    requires |fields| == |lists|
    requires forall i, j :: 0 <= i < j < |fields| ==> fields[i] != fields[j]
    requires k < |fields|
    ensures ValuesFor(ListClauses(fields, lists, op), fields[k]) == lists[k]
    decreases |fields|
  {
    var q := ListClauses(fields, lists, op);
    var rest := ListClauses(fields[1..], lists[1..], op);
    if k == 0 {
      if lists[0].None? {
        assert q == rest;
        ValuesForAbsent(fields[1..], lists[1..], op, fields[0]);
      }
    } else {
      ListClausesRoundTrip(fields[1..], lists[1..], op, k - 1);
      assert fields[1..][k - 1] == fields[k] != fields[0];
      if lists[0].Some? {
        assert q == [Clause(fields[0], op, Many(lists[0].value))] + rest;
        assert q[1..] == rest;
        assert ValuesFor(q, fields[k]) == ValuesFor(rest, fields[k]);
      } else {
        assert q == rest;
      }
    }
  }

  /** A field that is not among `fields` has no clause. */
  lemma {:induction false} ValuesForAbsent(fields: seq<string>, lists: seq<Option<seq<string>>>, op: Comparison, f: string)
    requires |fields| == |lists|
    requires f !in fields
    ensures ValuesFor(ListClauses(fields, lists, op), f) == None
    decreases |fields|
  {
    if |fields| > 0 {
      var q := ListClauses(fields, lists, op);
      var rest := ListClauses(fields[1..], lists[1..], op);
      ValuesForAbsent(fields[1..], lists[1..], op, f);
      assert fields[0] in fields;
      if lists[0].Some? {
        assert q == [Clause(fields[0], op, Many(lists[0].value))] + rest;
        assert q[1..] == rest;
        assert ValuesFor(q, f) == ValuesFor(rest, f);
      } else {
        assert q == rest;
      }
    }
  }

  /** Number of given lists. */
  function CountGiven(lists: seq<Option<seq<string>>>): nat
    decreases |lists|
  {
    if |lists| == 0 then 0 else (if lists[0].Some? then 1 else 0) + CountGiven(lists[1..])
  }

  /** The clause list has exactly one clause per given list. */
  lemma {:induction false} ListClausesShape(fields: seq<string>, lists: seq<Option<seq<string>>>, op: Comparison)
    requires |fields| == |lists|
    ensures |ListClauses(fields, lists, op)| == CountGiven(lists)
    decreases |fields|
  {
    if |fields| > 0 {
      ListClausesShape(fields[1..], lists[1..], op);
    }
  }

  /** `x` is listed in `fields` before `y`. */
  predicate ListedBefore(fields: seq<string>, x: string, y: string) {
    exists a, b :: 0 <= a < b < |fields| && x == fields[a] && y == fields[b]
  }

  /** The clauses follow the order of `fields`: of any two clauses, the
      earlier one is on an earlier field. */
  lemma {:induction false} ListClausesOrder(fields: seq<string>, lists: seq<Option<seq<string>>>, op: Comparison)
    requires |fields| == |lists|
    ensures forall i, j :: 0 <= i < j < |ListClauses(fields, lists, op)| ==>
      ListedBefore(fields, ListClauses(fields, lists, op)[i].field, ListClauses(fields, lists, op)[j].field)
    decreases |fields|
  {
    if |fields| > 0 {
      ListClausesOrder(fields[1..], lists[1..], op);
      if lists[0].Some? {
        ListClausesOrderGiven(fields, lists, op);
      } else {
        ListClausesOrderAbsent(fields, lists, op);
      }
    }
  }

  /** The step of `ListClausesOrder` for an absent first list: the clauses
      are those of the rest, whose fields come later. */
  lemma ListClausesOrderAbsent(fields: seq<string>, lists: seq<Option<seq<string>>>, op: Comparison)
    requires |fields| == |lists| > 0 && lists[0].None?
    requires forall i, j :: 0 <= i < j < |ListClauses(fields[1..], lists[1..], op)| ==>
      ListedBefore(fields[1..], ListClauses(fields[1..], lists[1..], op)[i].field,
                   ListClauses(fields[1..], lists[1..], op)[j].field)
    ensures forall i, j :: 0 <= i < j < |ListClauses(fields, lists, op)| ==>
      ListedBefore(fields, ListClauses(fields, lists, op)[i].field, ListClauses(fields, lists, op)[j].field)
  {
    var q := ListClauses(fields, lists, op);
    var rest := ListClauses(fields[1..], lists[1..], op);
    assert q == rest;
    forall i, j | 0 <= i < j < |q|
      ensures ListedBefore(fields, q[i].field, q[j].field)
    {
      assert ListedBefore(fields[1..], rest[i].field, rest[j].field);
      ListedBeforeTail(fields, q[i].field, q[j].field);
    }
  }

  /** The step of `ListClausesOrder` for a given first list: its clause
      comes first and is on the first field. */
  lemma ListClausesOrderGiven(fields: seq<string>, lists: seq<Option<seq<string>>>, op: Comparison)
    requires |fields| == |lists| > 0 && lists[0].Some?
    requires forall i, j :: 0 <= i < j < |ListClauses(fields[1..], lists[1..], op)| ==>
      ListedBefore(fields[1..], ListClauses(fields[1..], lists[1..], op)[i].field,
                   ListClauses(fields[1..], lists[1..], op)[j].field)
    ensures forall i, j :: 0 <= i < j < |ListClauses(fields, lists, op)| ==>
      ListedBefore(fields, ListClauses(fields, lists, op)[i].field, ListClauses(fields, lists, op)[j].field)
  {
    var q := ListClauses(fields, lists, op);
    var rest := ListClauses(fields[1..], lists[1..], op);
    assert q == [Clause(fields[0], op, Many(lists[0].value))] + rest;
    forall i, j | 0 <= i < j < |q|
      ensures ListedBefore(fields, q[i].field, q[j].field)
    {
      assert q[j] == rest[j - 1];
      if i == 0 {
        ListedBeforeHead(fields, q[j].field);
      } else {
        assert q[i] == rest[i - 1];
        assert ListedBefore(fields[1..], rest[i - 1].field, rest[j - 1].field);
        ListedBeforeTail(fields, q[i].field, q[j].field);
      }
    }
  }

  lemma ListedBeforeHead(fields: seq<string>, y: string)
    requires |fields| > 0 && y in fields[1..]
    ensures ListedBefore(fields, fields[0], y)
  {
    var b := Seqs.IndexOf(fields[1..], y);
    assert fields[b + 1] == y;
  }

  lemma ListedBeforeTail(fields: seq<string>, x: string, y: string)
    requires |fields| > 0 && ListedBefore(fields[1..], x, y)
    ensures ListedBefore(fields, x, y)
  {
    var a, b :| 0 <= a < b < |fields| - 1 && x == fields[1..][a] && y == fields[1..][b];
    assert x == fields[a + 1] && y == fields[b + 1];
  }
}
