/**
 UWB tag lookups (honeycomb_io/uwb_data.py): the datapoint search over a
 time range, and the table binding each UWB tag assigned to an environment
 to the person it was assigned to during a window.
 */
module UwbData {
  import opened Base
  import Seqs
  import opened Temporal
  import opened Query
  import Core

  // ---------------------------------------------------------------------
  // `fetch_uwb_data_ids`
  // ---------------------------------------------------------------------

  /** The datapoint search: timestamps from `timestampMin` up to
      `timestampMax`, both inclusive, produced by one of the listed
      assignments. */
  function UwbDataIdsQuery(timestampMin: Instant, timestampMax: Instant, assignmentIds: seq<Id>): (q: seq<QueryNode>)
    ensures |q| == 3 && ValuesFor(q, "source") == Some(assignmentIds)
    ensures forall i :: 0 <= i < |q| ==> q[i].Clause?
    ensures q[0].field == q[1].field == "timestamp"
    ensures q[0].op == Gte && q[0].operand == One(Time(timestampMin))
    ensures q[1].op == Lte && q[1].operand == One(Time(timestampMax))
    ensures q[2] == Clause("source", In, Many(assignmentIds))
  {
    var q := [ Clause("timestamp", Gte, One(Time(timestampMin))),
               Clause("timestamp", Lte, One(Time(timestampMax))),
               Clause("source", In, Many(assignmentIds)) ];
    assert ValuesFor(q[2..], "source") == Some(assignmentIds);
    assert q[1..][1..] == q[2..];
    q
  }

  /** `fetch_uwb_data_ids`: the `data_id` of every datapoint the AND of the
      search clauses returns, in the order returned. */
  function UwbDataIds(
    timestampMin: Instant, timestampMax: Instant, assignmentIds: seq<Id>, chunkSize: nat,
    store: Core.BulkQuery -> seq<Core.Record>)
    : (r: seq<Option<string>>)
    ensures var sent := Core.SearchQuery("searchDatapoints", UwbDataIdsQuery(timestampMin, timestampMax, assignmentIds),
                                         ["data_id"], "data_id", chunkSize);
      && |r| == |store(sent)|
      && forall i :: 0 <= i < |r| ==> r[i] == Core.Get(store(sent)[i], "data_id")
  {
    var result := Core.SearchObjects("searchDatapoints", UwbDataIdsQuery(timestampMin, timestampMax, assignmentIds),
                                     ["data_id"], "data_id", chunkSize, store);
    Seqs.Map(result, (datum: Core.Record) => Core.Get(datum, "data_id"))
  }

  // ---------------------------------------------------------------------
  // `fetch_person_tag_info`
  // ---------------------------------------------------------------------

  /** The person fields of an entity, read through the `...on Person`
      fragment (all null for any other kind of entity). */
  datatype Person = Person(
    personId: Option<Id>, personType: Option<string>, name: Option<string>, shortName: Option<string>)

  const NoPerson := Person(None, None, None, None)

  /** One entity assignment of a tag device. */
  datatype TagEntityAssignment = TagEntityAssignment(span: Interval, entityType: Option<string>, entity: Person)

  /** The assigned device of an environment assignment. */
  datatype TagDevice = TagDevice(
    deviceId: Option<Id>, deviceType: Option<string>, name: Option<string>, tagId: Option<string>,
    entityAssignments: seq<TagEntityAssignment>)

  /** One record of the environment's device assignments. */
  datatype TagAssignment = TagAssignment(assignmentId: Id, span: Interval, device: TagDevice)

  /** One row of the resulting table, indexed by `assignmentId`. */
  datatype PersonTagRow = PersonTagRow(
    assignmentId: Id, deviceId: Option<Id>, deviceName: Option<string>, tagId: Option<string>,
    personId: Option<Id>, personType: Option<string>, personName: Option<string>, shortName: Option<string>)

  /** The assignment search: the environment, assignments starting by the
      window end, ending (if at all) from the window start, and assigning
      a device. */
  function PersonTagQuery(environmentId: Id, start: Instant, end: Instant): (q: seq<QueryNode>)
    ensures Clause("environment", Eq, One(Scalar.Text(environmentId))) in q
    ensures Clause("assigned_type", Eq, One(Scalar.Text("DEVICE"))) in q
    ensures forall i :: 0 <= i < |q| && q[i].Clause? && q[i].field != StartField && q[i].field != EndField ==>
      q[i] == Clause("environment", Eq, One(Scalar.Text(environmentId)))
      || q[i] == Clause("assigned_type", Eq, One(Scalar.Text("DEVICE")))
  {
    [ Clause("environment", Eq, One(Scalar.Text(environmentId))),
      StartUntil(end),
      EndOpenOrFrom(start),
      Clause("assigned_type", Eq, One(Scalar.Text("DEVICE"))) ]
  }

  /** Under the assumed store reading, the time clauses of the search select the
      assignments that overlap the window and have a start. */
  lemma PersonTagQueryMeaning(environmentId: Id, start: Instant, end: Instant, span: Interval)
    ensures AllHoldOnSpan(PersonTagQuery(environmentId, start, end), span)
        <==> Overlaps(span, Some(start), Some(end)) && span.start.Some?
  {
    var q := PersonTagQuery(environmentId, start, end);
    var n := q[2];
    assert HoldsOnSpan(n, span) <==> HoldsOnSpan(n.children[0], span) || HoldsOnSpan(n.children[1], span);
    assert HoldsOnSpan(q[0], span) && HoldsOnSpan(q[3], span);
    assert AllHoldOnSpan(q, span) <==> HoldsOnSpan(q[1], span) && HoldsOnSpan(q[2], span);
  }

  /** The device is a UWB tag. */
  predicate IsUwbTag(a: TagAssignment) {
    a.device.deviceType == Some("UWBTAG")
  }

  /** The tag's entity assignments that overlap the window. */
  function Windowed(a: TagAssignment, start: Instant, end: Instant): seq<TagEntityAssignment> {
    FilterAssignments(a.device.entityAssignments, (e: TagEntityAssignment) => e.span, Some(start), Some(end))
  }

  /** A UWB tag with more than one entity assignment in the window. */
  predicate Overloaded(a: TagAssignment, start: Instant, end: Instant) {
    IsUwbTag(a) && |Windowed(a, start, end)| > 1
  }

  /** The tag has exactly one entity assignment in the window. */
  predicate SingleEntity(a: TagAssignment, start: Instant, end: Instant) {
    |Windowed(a, start, end)| == 1
  }

  /** The first entity assignment in the window is of a person. The
      emptiness test never decides anything: the source only looks at
      tags that have exactly one. */
  predicate PersonEntity(a: TagAssignment, start: Instant, end: Instant) {
    |Windowed(a, start, end)| > 0 && Windowed(a, start, end)[0].entityType == Some("PERSON")
  }

  /** A UWB tag bound to exactly one entity in the window, a person. */
  predicate IsPersonTag(a: TagAssignment, start: Instant, end: Instant) {
    IsUwbTag(a) && SingleEntity(a, start, end) && PersonEntity(a, start, end)
  }

  /** The row of a tag: its device fields and the person of its first
      entity assignment in the window. */
  function RowOf(a: TagAssignment, start: Instant, end: Instant): PersonTagRow {
    var w := Windowed(a, start, end);
    var person := if |w| > 0 then w[0].entity else NoPerson;
    PersonTagRow(a.assignmentId, a.device.deviceId, a.device.name, a.device.tagId,
                 person.personId, person.personType, person.name, person.shortName)
  }

  /** `fetch_person_tag_info`, given the records the assignment search
      returned: keep the UWB tags; fail on the first of them with more than
      one entity assignment in the window, naming it; keep the tags with
      exactly one; keep those whose one entity is a person; one row each.
      With no row the table has no `assignment_id` column to index by and
      the call fails. */
  function PersonTagInfo(result: seq<TagAssignment>, start: Instant, end: Instant): (r: Result<seq<PersonTagRow>>)
    ensures r.Failure? ==> r.error.MultipleEntityAssignments? || r.error == MissingColumn("assignment_id")
  {
    var tags := Seqs.Filter(result, IsUwbTag);
    match Seqs.FirstIndex(tags, a => |Windowed(a, start, end)| > 1)
    case Some(k) => Failure(MultipleEntityAssignments(tags[k].device.name))
    case None =>
      var single := Seqs.Filter(tags, a => SingleEntity(a, start, end));
      var persons := Seqs.Filter(single, a => PersonEntity(a, start, end));
      var rows := Seqs.Map(persons, a => RowOf(a, start, end));
      if |rows| == 0 then Failure(MissingColumn("assignment_id")) else Success(rows)
  }

  /** The check for several entity assignments fires exactly when some UWB
      tag has them, whether or not its entity is a person, and names the
      first such tag in search order. */
  lemma PersonTagInfoOverloaded(result: seq<TagAssignment>, start: Instant, end: Instant)
    ensures var r := PersonTagInfo(result, start, end);
      r.Failure? && r.error.MultipleEntityAssignments? <==>
        exists i :: 0 <= i < |result| && Overloaded(result[i], start, end)
    ensures var r := PersonTagInfo(result, start, end);
      r.Failure? && r.error.MultipleEntityAssignments? ==>
        var k := Seqs.FirstIndex(result, a => Overloaded(a, start, end));
        k.Some? && r.error.tagName == result[k.value].device.name
  {
    Seqs.FirstIndexFilter(result, IsUwbTag, a => |Windowed(a, start, end)| > 1, a => Overloaded(a, start, end));
  }

  /** The person tags of a search result, in search order. */
  function PersonTags(result: seq<TagAssignment>, start: Instant, end: Instant): seq<TagAssignment> {
    Seqs.Filter(result, a => IsPersonTag(a, start, end))
  }

  /** Without an overloaded tag, the call tabulates the person tags. */
  lemma PersonTagInfoTabulates(result: seq<TagAssignment>, start: Instant, end: Instant)
    requires forall i :: 0 <= i < |result| ==> !Overloaded(result[i], start, end)
    ensures PersonTagInfo(result, start, end)
         == if |PersonTags(result, start, end)| == 0 then Failure(MissingColumn("assignment_id"))
            else Success(Seqs.Map(PersonTags(result, start, end), a => RowOf(a, start, end)))
  {
    Seqs.FirstIndexFilter(result, IsUwbTag, a => |Windowed(a, start, end)| > 1, a => Overloaded(a, start, end));
    PersonTagsAreFiltered(result, start, end);
  }

  /** Without an overloaded tag, the call fails for want of rows exactly
      when no tag is a person tag. */
  lemma PersonTagInfoEmpty(result: seq<TagAssignment>, start: Instant, end: Instant)
    requires forall i :: 0 <= i < |result| ==> !Overloaded(result[i], start, end)
    ensures PersonTagInfo(result, start, end) == Failure(MissingColumn("assignment_id"))
        <==> forall i :: 0 <= i < |result| ==> !IsPersonTag(result[i], start, end)
  {
    PersonTagInfoTabulates(result, start, end);
    Seqs.FilterCount(result, a => IsPersonTag(a, start, end));
  }

  /** Without an overloaded tag, the rows are those of the person tags, in
      search order. */
  lemma PersonTagInfoRows(result: seq<TagAssignment>, start: Instant, end: Instant)
    requires forall i :: 0 <= i < |result| ==> !Overloaded(result[i], start, end)
    ensures PersonTagInfo(result, start, end).Success? ==>
      forall row :: row in PersonTagInfo(result, start, end).value <==>
        exists a :: a in result && IsPersonTag(a, start, end) && row == RowOf(a, start, end)
    ensures PersonTagInfo(result, start, end).Success? ==>
      Seqs.IsSubsequence(PersonTagInfo(result, start, end).value, Seqs.Map(result, a => RowOf(a, start, end)))
  {
    var r := PersonTagInfo(result, start, end);
    PersonTagInfoTabulates(result, start, end);
    if r.Success? {
      PersonTagRows(result, start, end);
    }
  }

  /** The rows of the person tags are those of the person tags of the
      search, in search order. */
  lemma PersonTagRows(result: seq<TagAssignment>, start: Instant, end: Instant)
    ensures var rows := Seqs.Map(PersonTags(result, start, end), a => RowOf(a, start, end));
      && (forall row :: row in rows <==> exists a :: a in result && IsPersonTag(a, start, end) && row == RowOf(a, start, end))
      && Seqs.IsSubsequence(rows, Seqs.Map(result, a => RowOf(a, start, end)))
  {
    Seqs.FilterProjected(result, a => IsPersonTag(a, start, end), a => RowOf(a, start, end));
  }

  /** The three successive filters are one filter by `IsPersonTag`. */
  lemma PersonTagsAreFiltered(result: seq<TagAssignment>, start: Instant, end: Instant)
    ensures Seqs.Filter(Seqs.Filter(Seqs.Filter(result, IsUwbTag), a => SingleEntity(a, start, end)),
                        a => PersonEntity(a, start, end))
         == Seqs.Filter(result, a => IsPersonTag(a, start, end))
  {
    var single := a => IsUwbTag(a) && SingleEntity(a, start, end);
    Seqs.FilterFilter(result, IsUwbTag, a => SingleEntity(a, start, end), single);
    Seqs.FilterFilter(result, single, a => PersonEntity(a, start, end), a => IsPersonTag(a, start, end));
  }

  /** A person tag's row names the one entity assignment of the tag that
      overlaps the window, and that assignment is of a person. */
  lemma PersonTagRowIsSoleEntity(a: TagAssignment, start: Instant, end: Instant)
    requires IsPersonTag(a, start, end)
    ensures exists e ::
      && e in a.device.entityAssignments
      && Overlaps(e.span, Some(start), Some(end))
      && e.entityType == Some("PERSON")
      && (forall f :: f in a.device.entityAssignments && Overlaps(f.span, Some(start), Some(end)) ==> f == e)
      && RowOf(a, start, end).personId == e.entity.personId
      && RowOf(a, start, end).personName == e.entity.name
  {
    var w := Windowed(a, start, end);
    var e := w[0];
    assert e in w;
    forall f | f in a.device.entityAssignments && Overlaps(f.span, Some(start), Some(end))
      ensures f == e
    {
      assert f in w;
    }
  }
}
