/**
 Device fetches (honeycomb_io/devices.py): the per-device uniqueness and
 completeness checks on assignment searches, the device search by
 characteristics or by assignment, grouping assignments by device, the
 output-format switch, and the device position lookups.

 Every search is a parameter `search`: the store's answer to the query
 list the fetch builds (the list `search_objects` wraps in one AND node).
 */
module Devices {
  import opened Base
  import Seqs
  import opened Temporal
  import opened Query
  import Environments
  import Text

  // ---------------------------------------------------------------------
  // Output format

  /** A fetch returns the records themselves (`'list'`) or their rows in a
      data frame (`'dataframe'`). */
  datatype Output<T, R> = Listed(items: seq<T>) | Tabulated(rows: seq<R>)

  /** The `output_format` switch at the end of each fetch: the records as
      they are, one row per record (one all-null row when there are none),
      or an error for any other format name. */
  function FormatOutput<T, R>(items: seq<T>, outputFormat: string, row: T -> R, nullRow: R): (r: Result<Output<T, R>>)
    ensures outputFormat == "list" <==> r == Success(Listed(items))
    ensures outputFormat == "dataframe" <==> r.Success? && r.value.Tabulated?
    ensures r.Failure? <==> outputFormat != "list" && outputFormat != "dataframe"
    ensures r.Failure? ==> r.error == UnrecognizedFormat(outputFormat)
    ensures r.Success? && r.value.Tabulated? && |items| == 0 ==> r.value.rows == [nullRow]
    ensures r.Success? && r.value.Tabulated? && |items| > 0 ==>
      |r.value.rows| == |items| && forall i :: 0 <= i < |items| ==> r.value.rows[i] == row(items[i])
  {
    if outputFormat == "list" then Success(Listed(items))
    else if outputFormat == "dataframe" then
      Success(Tabulated(if |items| == 0 then [nullRow] else Seqs.Map(items, row)))
    else Failure(UnrecognizedFormat(outputFormat))
  }

  // ---------------------------------------------------------------------
  // Uniqueness and completeness checks

  /** The two switches of the assignment fetches. */
  datatype Checks = Checks(requireUniqueAssignment: bool, requireAllDevices: bool)

  /** Defaults of `fetch_device_assignments_by_device_id`. */
  const AssignmentChecks := Checks(true, true)

  /** Defaults of `fetch_device_entity_assignments_by_device_id`: missing
      devices are allowed. */
  const EntityAssignmentChecks := Checks(true, false)

  /** The device ids that occur more than once, in the order of their first
      occurrence (the key order of the `Counter`). */
  function Duplicated(subjects: seq<Option<Id>>): (d: seq<Option<Id>>)
    ensures forall k :: k in d <==> multiset(subjects)[k] > 1
    ensures Seqs.NoDuplicates(d)
    ensures Seqs.IsSubsequence(d, Seqs.Distinct(subjects))
    ensures |d| == 0 <==> Seqs.NoDuplicates(subjects)
  {
    var p := k => multiset(subjects)[k] > 1;
    var d := Seqs.Filter(Seqs.Distinct(subjects), p);
    Seqs.FilterSpec(Seqs.Distinct(subjects), p);
    Seqs.FilterNoDuplicates(Seqs.Distinct(subjects), p);
    forall k
      ensures k in d <==> multiset(subjects)[k] > 1
    {
      Seqs.FilterMembership(Seqs.Distinct(subjects), p, k);
    }
    Seqs.NoDuplicatesCounts(subjects);
    assert |d| > 0 ==> d[0] in d;
    d
  }

  /** Requested ids that no returned record names. */
  function Missing(requested: seq<Id>, subjects: seq<Option<Id>>): (m: set<Id>)
    ensures forall i :: i in m <==> i in requested && Some(i) !in subjects
  {
    set i | i in requested && Some(i) !in subjects
  }

  /** The checks on the device ids of the returned records: with
      `requireUniqueAssignment`, no device may occur twice; then, with
      `requireAllDevices`, every requested device must occur. */
  function Validate(requested: seq<Id>, subjects: seq<Option<Id>>, checks: Checks): (r: Result<()>)
    ensures r.Success? <==>
      && (checks.requireUniqueAssignment ==> Seqs.NoDuplicates(subjects))
      && (checks.requireAllDevices ==> forall i :: i in requested ==> Some(i) in subjects)
    ensures r.Failure? && r.error.DuplicateAssignments? <==>
      checks.requireUniqueAssignment && !Seqs.NoDuplicates(subjects)
    ensures r.Failure? && r.error.DuplicateAssignments? ==> r.error.duplicated == Duplicated(subjects)
    ensures r.Failure? && !r.error.DuplicateAssignments? ==>
      r.error == MissingAssignments(Missing(requested, subjects)) && Missing(requested, subjects) != {}
  {
    var duplicated := Duplicated(subjects);
    var missing := Missing(requested, subjects);
    if checks.requireUniqueAssignment && |duplicated| > 0 then Failure(DuplicateAssignments(duplicated))
    else if checks.requireAllDevices && |missing| > 0 then
      Failure(MissingAssignments(missing))
    else
      assert checks.requireAllDevices ==> forall i :: i in requested ==> i !in missing;
      Success(())
  }

  /** The checks and then the output switch, shared by both assignment
      fetches: a failed check wins over an unknown format. */
  function CheckedOutput<T, R>(
    requested: seq<Id>, records: seq<T>, deviceOf: T -> Option<Id>, checks: Checks,
    outputFormat: string, row: T -> R, nullRow: R): (r: Result<Output<T, R>>)
    ensures var v := Validate(requested, Seqs.Map(records, deviceOf), checks);
      && (v.Failure? ==> r == Failure(v.error))
      && (v.Success? ==> r == FormatOutput(records, outputFormat, row, nullRow))
  {
    var _ :- Validate(requested, Seqs.Map(records, deviceOf), checks);
    FormatOutput(records, outputFormat, row, nullRow)
  }

  /** The query list of both assignment fetches: the records of the given
      devices (`field` CONTAINED_BY the ids) within the time window. */
  function DevicesInWindowQuery(field: string, deviceIds: seq<Id>, start: Option<Instant>, end: Option<Instant>)
    : (q: seq<QueryNode>)
    ensures |q| >= 1 && q[0] == Clause(field, ContainedBy, Many(deviceIds))
    ensures ValuesFor(q, field) == Some(deviceIds)
    ensures q[1..] == WindowClauses(start, end)
  {
    [Clause(field, ContainedBy, Many(deviceIds))] + WindowClauses(start, end)
  }

  /** Under the assumed store reading, the query keeps the records that overlap the
      window, except that a null start fails whenever a window end is
      given. */
  lemma DevicesInWindowQueryMeaning(field: string, deviceIds: seq<Id>, start: Option<Instant>, end: Option<Instant>, span: Interval)
    requires field != StartField && field != EndField
    ensures AllHoldOnSpan(DevicesInWindowQuery(field, deviceIds, start, end), span)
        <==> Overlaps(span, start, end) && (end.Some? ==> span.start.Some?)
  {
    var q := DevicesInWindowQuery(field, deviceIds, start, end);
    WindowClausesMeaning(start, end, span);
    assert forall i :: 1 <= i < |q| ==> q[i] == WindowClauses(start, end)[i - 1];
    assert AllHoldOnSpan(q, span) <==> AllHoldOnSpan(q[1..], span);
  }

  // ---------------------------------------------------------------------
  // Device assignments

  /** The `environment` sub-record of an assignment. */
  datatype EnvironmentRef = EnvironmentRef(environmentId: Option<Id>, name: Option<string>)

  /** One record of the device-assignment search. The data frame reads the
      environment through `.get('environment', {})`, so an absent key reads
      as the all-null sub-record; a present null value has no
      representation here (the data frame raises on it). */
  datatype DeviceAssignment = DeviceAssignment(
    assignmentId: Option<Id>,
    deviceId: Option<Id>,
    span: Interval,
    environment: EnvironmentRef)

  /** One row of `generate_device_assignment_dataframe`. */
  datatype AssignmentRow = AssignmentRow(
    assignmentId: Option<Id>,
    deviceId: Option<Id>,
    start: Option<Instant>,
    end: Option<Instant>,
    environmentId: Option<Id>,
    environmentName: Option<string>)

  const NullAssignmentRow := AssignmentRow(None, None, None, None, None, None)

  /** A row copies the record's own fields and those of its environment. */
  function AssignmentRowOf(a: DeviceAssignment): (row: AssignmentRow)
    ensures row.assignmentId == a.assignmentId && row.deviceId == a.deviceId
    ensures row.start == a.span.start && row.end == a.span.end
    ensures row.environmentId == a.environment.environmentId && row.environmentName == a.environment.name
  {
    AssignmentRow(
      a.assignmentId, a.deviceId, a.span.start, a.span.end,
      a.environment.environmentId, a.environment.name)
  }

  /** `fetch_device_assignments_by_device_id`: null ids are dropped; with no
      id left there is no search and no record, otherwise the records are
      the store's answer to the assignment query for those ids. The records
      are then checked and formatted. */
  function FetchDeviceAssignments(
    deviceIds: seq<Option<Id>>, start: Option<Instant>, end: Option<Instant>, checks: Checks,
    outputFormat: string, search: seq<QueryNode> -> seq<DeviceAssignment>): (r: Result<Output<DeviceAssignment, AssignmentRow>>)
    ensures var requested := Seqs.Present(deviceIds);
      var records := if |requested| == 0 then [] else search(DevicesInWindowQuery("assigned", requested, start, end));
      var subjects := Seqs.Map(records, (a: DeviceAssignment) => a.deviceId);
      && (r.Success? <==>
            && (checks.requireUniqueAssignment ==> Seqs.NoDuplicates(subjects))
            && (checks.requireAllDevices ==> forall i :: i in requested ==> Some(i) in subjects)
            && (outputFormat == "list" || outputFormat == "dataframe"))
      && (r.Success? && outputFormat == "list" ==> r.value == Listed(records))
      && (r.Success? && outputFormat == "dataframe" && |records| > 0 ==>
            r.value.Tabulated? && |r.value.rows| == |records|
            && forall i :: 0 <= i < |records| ==> r.value.rows[i] == AssignmentRowOf(records[i]))
      && (r.Success? && outputFormat == "dataframe" && |records| == 0 ==> r.value == Tabulated([NullAssignmentRow]))
  {
    var requested := Seqs.Present(deviceIds);
    var records := if |requested| == 0 then [] else search(DevicesInWindowQuery("assigned", requested, start, end));
    CheckedOutput(requested, records, (a: DeviceAssignment) => a.deviceId, checks, outputFormat, AssignmentRowOf, NullAssignmentRow)
  }

  /** With no non-null id, no search is made and both checks pass whatever
      their switches: the answer is empty in the requested format. */
  lemma NoDeviceIdsPassChecks(
    deviceIds: seq<Option<Id>>, start: Option<Instant>, end: Option<Instant>, checks: Checks,
    outputFormat: string, search: seq<QueryNode> -> seq<DeviceAssignment>)
    requires forall i :: 0 <= i < |deviceIds| ==> deviceIds[i].None?
    ensures var r := FetchDeviceAssignments(deviceIds, start, end, checks, outputFormat, search);
      && (outputFormat == "list" ==> r == Success(Listed([])))
      && (outputFormat == "dataframe" ==> r == Success(Tabulated([NullAssignmentRow])))
      && (outputFormat != "list" && outputFormat != "dataframe" ==> r == Failure(UnrecognizedFormat(outputFormat)))
  {
    assert Seqs.NoDuplicates(Seqs.Map([], (a: DeviceAssignment) => a.deviceId));
  }

  /** The assignment fetch fails for a duplicated device exactly when the
      uniqueness check is on and some device has two returned assignments;
      it fails for a missing device only when that check passed. */
  lemma AssignmentChecksOrder(
    deviceIds: seq<Option<Id>>, start: Option<Instant>, end: Option<Instant>, checks: Checks,
    outputFormat: string, search: seq<QueryNode> -> seq<DeviceAssignment>)
    requires |Seqs.Present(deviceIds)| > 0
    ensures var records := search(DevicesInWindowQuery("assigned", Seqs.Present(deviceIds), start, end));
      var subjects := Seqs.Map(records, (a: DeviceAssignment) => a.deviceId);
      var r := FetchDeviceAssignments(deviceIds, start, end, checks, outputFormat, search);
      && (r.Failure? && r.error.DuplicateAssignments? <==> checks.requireUniqueAssignment && !Seqs.NoDuplicates(subjects))
      && (r.Failure? && r.error.MissingAssignments? ==>
            && (checks.requireUniqueAssignment ==> Seqs.NoDuplicates(subjects))
            && checks.requireAllDevices
            && exists i :: i in Seqs.Present(deviceIds) && Some(i) !in subjects)
  {
    var records := search(DevicesInWindowQuery("assigned", Seqs.Present(deviceIds), start, end));
    var subjects := Seqs.Map(records, (a: DeviceAssignment) => a.deviceId);
    var v := Validate(Seqs.Present(deviceIds), subjects, checks);
    if v.Failure? && v.error.MissingAssignments? {
      var m := Missing(Seqs.Present(deviceIds), subjects);
      var i :| i in m;
      assert i in Seqs.Present(deviceIds) && Some(i) !in subjects;
    }
  }

  // ---------------------------------------------------------------------
  // Device entity assignments

  /** The `entity` sub-record of an entity assignment: its type and the
      fields of the tray or person it names. An absent `entity` key reads
      as the all-null sub-record. */
  datatype Entity = Entity(
    entityType: Option<string>,
    trayId: Option<Id>,
    personId: Option<Id>,
    personType: Option<string>,
    name: Option<string>)

  /** One record of the device entity-assignment search. */
  datatype EntityAssignment = EntityAssignment(
    entityAssignmentId: Option<Id>,
    deviceId: Option<Id>,
    span: Interval,
    entity: Entity)

  /** One row of `generate_device_entity_assignment_dataframe` (the
      identifying columns; the remaining person and tray columns are
      copied the same way). */
  datatype EntityAssignmentRow = EntityAssignmentRow(
    entityAssignmentId: Option<Id>,
    deviceId: Option<Id>,
    start: Option<Instant>,
    end: Option<Instant>,
    entityType: Option<string>,
    trayId: Option<Id>,
    trayName: Option<string>,
    personId: Option<Id>,
    personType: Option<string>,
    personName: Option<string>)

  const NullEntityAssignmentRow := EntityAssignmentRow(None, None, None, None, None, None, None, None, None, None)

  /** The upper-cased entity type the name columns are chosen by; an
      absent type reads as the empty string. */
  function EntityKind(e: Entity): string {
    Text.Upper(if e.entityType.Some? then e.entityType.value else "")
  }

  /** The entity's name lands in the tray-name column for a tray and in the
      person-name column for a person, never in both. */
  function EntityAssignmentRowOf(a: EntityAssignment): (row: EntityAssignmentRow)
    ensures row.entityAssignmentId == a.entityAssignmentId && row.deviceId == a.deviceId
    ensures row.start == a.span.start && row.end == a.span.end
    ensures row.entityType == a.entity.entityType && row.trayId == a.entity.trayId
    ensures row.personId == a.entity.personId && row.personType == a.entity.personType
    ensures row.trayName == if EntityKind(a.entity) == "TRAY" then a.entity.name else None
    ensures row.personName == if EntityKind(a.entity) == "PERSON" then a.entity.name else None
    ensures row.trayName.None? || row.personName.None?
  {
    var e := a.entity;
    var kind := EntityKind(e);
    EntityAssignmentRow(
      a.entityAssignmentId, a.deviceId, a.span.start, a.span.end,
      e.entityType, e.trayId,
      if kind == "TRAY" then e.name else None,
      e.personId, e.personType,
      if kind == "PERSON" then e.name else None)
  }

  /** `fetch_device_entity_assignments_by_device_id`: the same steps as the
      assignment fetch, on entity assignments selected by `device`. */
  function FetchDeviceEntityAssignments(
    deviceIds: seq<Option<Id>>, start: Option<Instant>, end: Option<Instant>, checks: Checks,
    outputFormat: string, search: seq<QueryNode> -> seq<EntityAssignment>)
    : (r: Result<Output<EntityAssignment, EntityAssignmentRow>>)
    ensures var requested := Seqs.Present(deviceIds);
      var records := if |requested| == 0 then [] else search(DevicesInWindowQuery("device", requested, start, end));
      var subjects := Seqs.Map(records, (a: EntityAssignment) => a.deviceId);
      && (r.Success? <==>
            && (checks.requireUniqueAssignment ==> Seqs.NoDuplicates(subjects))
            && (checks.requireAllDevices ==> forall i :: i in requested ==> Some(i) in subjects)
            && (outputFormat == "list" || outputFormat == "dataframe"))
      && (r.Success? && outputFormat == "list" ==> r.value == Listed(records))
      && (r.Success? && outputFormat == "dataframe" && |records| > 0 ==>
            r.value.Tabulated? && |r.value.rows| == |records|
            && forall i :: 0 <= i < |records| ==> r.value.rows[i] == EntityAssignmentRowOf(records[i]))
      && (r.Success? && outputFormat == "dataframe" && |records| == 0 ==> r.value == Tabulated([NullEntityAssignmentRow]))
  {
    var requested := Seqs.Present(deviceIds);
    var records := if |requested| == 0 then [] else search(DevicesInWindowQuery("device", requested, start, end));
    CheckedOutput(requested, records, (a: EntityAssignment) => a.deviceId, checks, outputFormat, EntityAssignmentRowOf, NullEntityAssignmentRow)
  }

  /** With ids to look for, the entity fetch sends the entity-assignment
      query for the non-null ids and fails for a duplicated device exactly
      when the uniqueness check is on and some device has two returned
      entity assignments; otherwise a successful fetch lists the records
      as the store returned them. */
  lemma EntityChecksOrder(
    deviceIds: seq<Option<Id>>, start: Option<Instant>, end: Option<Instant>, checks: Checks,
    search: seq<QueryNode> -> seq<EntityAssignment>)
    requires |Seqs.Present(deviceIds)| > 0
    ensures var records := search(DevicesInWindowQuery("device", Seqs.Present(deviceIds), start, end));
      var subjects := Seqs.Map(records, (a: EntityAssignment) => a.deviceId);
      var r := FetchDeviceEntityAssignments(deviceIds, start, end, checks, "list", search);
      && (r.Failure? && r.error.DuplicateAssignments? <==> checks.requireUniqueAssignment && !Seqs.NoDuplicates(subjects))
      && (r.Success? ==> r.value == Listed(records))
  {
  }

  /** With its default switches, the entity fetch never fails for a
      requested device that has no entity assignment. */
  lemma EntityDefaultsAllowMissing(
    deviceIds: seq<Option<Id>>, start: Option<Instant>, end: Option<Instant>,
    outputFormat: string, search: seq<QueryNode> -> seq<EntityAssignment>)
    ensures var r := FetchDeviceEntityAssignments(deviceIds, start, end, EntityAssignmentChecks, outputFormat, search);
      !(r.Failure? && r.error.MissingAssignments?)
  {
  }

  // ---------------------------------------------------------------------
  // Device search

  /** The device characteristics `fetch_devices` can search on; each list
      is optional. */
  datatype Characteristics = Characteristics(
    deviceTypes: Option<seq<string>>,
    deviceIds: Option<seq<string>>,
    partNumbers: Option<seq<string>>,
    serialNumbers: Option<seq<string>>,
    tagIds: Option<seq<string>>,
    names: Option<seq<string>>)

  predicate AnyCharacteristic(c: Characteristics) {
    c.deviceTypes.Some? || c.deviceIds.Some? || c.partNumbers.Some?
    || c.serialNumbers.Some? || c.tagIds.Some? || c.names.Some?
  }

  /** The device fields the characteristics are compared with, in the
      order their clauses are added. */
  const CharacteristicFields: seq<string> := ["device_type", "device_id", "part_number", "serial_number", "tag_id", "name"]

  function CharacteristicLists(c: Characteristics): seq<Option<seq<string>>> {
    [c.deviceTypes, c.deviceIds, c.partNumbers, c.serialNumbers, c.tagIds, c.names]
  }

  /** One CONTAINED_BY clause per given characteristic, in the order of
      `CharacteristicFields`; reading the query back recovers each list. */
  function CharacteristicQuery(c: Characteristics): (q: seq<QueryNode>)
    ensures |q| == CountGiven(CharacteristicLists(c))
    ensures forall i :: 0 <= i < |q| ==> q[i].Clause? && q[i].op == ContainedBy
    ensures forall i, j :: 0 <= i < j < |q| ==> ListedBefore(CharacteristicFields, q[i].field, q[j].field)
    ensures ValuesFor(q, "device_type") == c.deviceTypes
    ensures ValuesFor(q, "device_id") == c.deviceIds
    ensures ValuesFor(q, "part_number") == c.partNumbers
    ensures ValuesFor(q, "serial_number") == c.serialNumbers
    ensures ValuesFor(q, "tag_id") == c.tagIds
    ensures ValuesFor(q, "name") == c.names
  {
    var fields := CharacteristicFields;
    var lists := CharacteristicLists(c);
    ListClausesShape(fields, lists, ContainedBy);
    ListClausesOrder(fields, lists, ContainedBy);
    ListClausesRoundTrip(fields, lists, ContainedBy, 0);
    ListClausesRoundTrip(fields, lists, ContainedBy, 1);
    ListClausesRoundTrip(fields, lists, ContainedBy, 2);
    ListClausesRoundTrip(fields, lists, ContainedBy, 3);
    ListClausesRoundTrip(fields, lists, ContainedBy, 4);
    ListClausesRoundTrip(fields, lists, ContainedBy, 5);
    ListClauses(fields, lists, ContainedBy)
  }

  /** An assignment reduced to the fields a device keeps of it. */
  datatype AssignmentSummary = AssignmentSummary(
    assignmentId: Option<Id>,
    span: Interval,
    environment: Option<EnvironmentRef>)

  /** A device with its assignments, as both branches of `fetch_devices`
      return it. */
  datatype DeviceRecord = DeviceRecord(device: Device, assignments: seq<AssignmentSummary>)

  /** One record of the assignment search, with the assigned device. */
  datatype AssignedDevice = AssignedDevice(
    assignmentId: Option<Id>,
    span: Interval,
    environment: Option<EnvironmentRef>,
    device: Device)

  function Summarize(a: AssignedDevice): AssignmentSummary {
    AssignmentSummary(a.assignmentId, a.span, a.environment)
  }

  function DeviceIdsOf(xs: seq<AssignedDevice>): seq<Id> {
    Seqs.Map(xs, (a: AssignedDevice) => a.device.deviceId)
  }

  /** The summaries of the assignments of device `id`, in input order. */
  function AssignmentsOf(xs: seq<AssignedDevice>, id: Id): seq<AssignmentSummary> {
    Seqs.Map(Seqs.Filter(xs, (a: AssignedDevice) => a.device.deviceId == id), Summarize)
  }

  /** The device record of the first assignment of device `id`. */
  function FirstDevice(xs: seq<AssignedDevice>, id: Id): (d: Device)
    requires id in DeviceIdsOf(xs)
    ensures d.deviceId == id
  {
    xs[Seqs.IndexOf(DeviceIdsOf(xs), id)].device
  }

  /** The intended grouping: one record per distinct device, in order of
      first appearance, with the device fields of its first assignment and
      the summaries of all its assignments in input order. */
  function Grouped(xs: seq<AssignedDevice>): (g: seq<DeviceRecord>)
    ensures |g| == |Seqs.Distinct(DeviceIdsOf(xs))|
    ensures forall j :: 0 <= j < |g| ==> g[j].device.deviceId == Seqs.Distinct(DeviceIdsOf(xs))[j]
  {
    var ids := Seqs.Distinct(DeviceIdsOf(xs));
    seq(|ids|, j requires 0 <= j < |ids| => DeviceRecord(FirstDevice(xs, ids[j]), AssignmentsOf(xs, ids[j])))
  }

  /** Every assignment lands in exactly one group, so no assignment is lost
      or repeated, and the groups are for distinct devices. */
  lemma GroupedDistinct(xs: seq<AssignedDevice>)
    ensures forall i, j :: 0 <= i < j < |Grouped(xs)| ==> Grouped(xs)[i].device.deviceId != Grouped(xs)[j].device.deviceId
    ensures forall a :: a in xs ==> exists j :: 0 <= j < |Grouped(xs)| && Grouped(xs)[j].device.deviceId == a.device.deviceId
  {
    var ids := Seqs.Distinct(DeviceIdsOf(xs));
    forall a | a in xs
      ensures exists j :: 0 <= j < |Grouped(xs)| && Grouped(xs)[j].device.deviceId == a.device.deviceId
    {
      var i :| 0 <= i < |xs| && xs[i] == a;
      assert DeviceIdsOf(xs)[i] == a.device.deviceId;
      var j := Seqs.IndexOf(ids, a.device.deviceId);
      assert Grouped(xs)[j].device.deviceId == a.device.deviceId;
    }
  }

  lemma AssignmentsOfSnoc(xs: seq<AssignedDevice>, a: AssignedDevice, id: Id)
    ensures AssignmentsOf(xs + [a], id) ==
      if a.device.deviceId == id then AssignmentsOf(xs, id) + [Summarize(a)] else AssignmentsOf(xs, id)
  {
    var p := (b: AssignedDevice) => b.device.deviceId == id;
    Seqs.FilterSnoc(xs, a, p);
    if p(a) {
      Seqs.MapSnoc(Seqs.Filter(xs, p), a, Summarize);
    }
  }

  lemma FirstDeviceSnoc(xs: seq<AssignedDevice>, a: AssignedDevice, id: Id)
    requires id in DeviceIdsOf(xs)
    ensures id in DeviceIdsOf(xs + [a]) && FirstDevice(xs + [a], id) == FirstDevice(xs, id)
  {
    var ys := xs + [a];
    assert DeviceIdsOf(ys)[..|xs|] == DeviceIdsOf(xs);
    Seqs.IndexOfPrefix(DeviceIdsOf(ys), |xs|, id);
  }

  /** A known device at position `k` of the grouping gains one summary at
      the end when one more of its assignments arrives. */
  lemma GroupedSnocKnown(xs: seq<AssignedDevice>, a: AssignedDevice, k: nat)
    requires k < |Seqs.Distinct(DeviceIdsOf(xs))| && Seqs.Distinct(DeviceIdsOf(xs))[k] == a.device.deviceId
    ensures Grouped(xs + [a]) ==
      Grouped(xs)[k := Grouped(xs)[k].(assignments := Grouped(xs)[k].assignments + [Summarize(a)])]
  {
    var id := a.device.deviceId;
    var ys := xs + [a];
    var ids := Seqs.Distinct(DeviceIdsOf(xs));
    assert DeviceIdsOf(ys) == DeviceIdsOf(xs) + [id];
    assert id in DeviceIdsOf(xs);
    Seqs.DistinctSnoc(DeviceIdsOf(xs), id);
    assert Seqs.Distinct(DeviceIdsOf(ys)) == ids;
    var g, h := Grouped(xs), Grouped(ys);
    var updated := g[k := g[k].(assignments := g[k].assignments + [Summarize(a)])];
    forall j | 0 <= j < |h|
      ensures h[j] == updated[j]
    {
      GroupedAt(ys, j);
      GroupedAt(xs, j);
      if j == k {
        FirstDeviceSnoc(xs, a, id);
        AssignmentsOfSnoc(xs, a, id);
      } else {
        assert ids[j] != id;
        OtherEntrySnoc(xs, a, ids[j]);
      }
    }
  }

  /** The first assignment of a new device appends a record for it. */
  lemma GroupedSnocNew(xs: seq<AssignedDevice>, a: AssignedDevice)
    requires a.device.deviceId !in DeviceIdsOf(xs)
    ensures Grouped(xs + [a]) == Grouped(xs) + [DeviceRecord(a.device, [Summarize(a)])]
  {
    var id := a.device.deviceId;
    var ys := xs + [a];
    var ids := Seqs.Distinct(DeviceIdsOf(xs));
    assert Seqs.Distinct(DeviceIdsOf(ys)) == ids + [id] by {
      assert DeviceIdsOf(ys) == DeviceIdsOf(xs) + [id];
      Seqs.DistinctSnoc(DeviceIdsOf(xs), id);
    }
    var g, h := Grouped(xs), Grouped(ys);
    var extended := g + [DeviceRecord(a.device, [Summarize(a)])];
    assert |h| == |ids| + 1 == |extended|;
    forall j | 0 <= j < |h|
      ensures h[j] == extended[j]
    {
      GroupedAt(ys, j);
      if j < |ids| {
        GroupedAt(xs, j);
        OtherEntrySnoc(xs, a, ids[j]);
      } else {
        NewDeviceEntry(xs, a);
      }
    }
  }

  lemma GroupedAt(xs: seq<AssignedDevice>, j: nat)
    requires j < |Seqs.Distinct(DeviceIdsOf(xs))|
    ensures var id := Seqs.Distinct(DeviceIdsOf(xs))[j];
      id in DeviceIdsOf(xs) && Grouped(xs)[j] == DeviceRecord(FirstDevice(xs, id), AssignmentsOf(xs, id))
  {
    assert Seqs.Distinct(DeviceIdsOf(xs))[j] in Seqs.Distinct(DeviceIdsOf(xs));
  }

  lemma OtherEntrySnoc(xs: seq<AssignedDevice>, a: AssignedDevice, id: Id)
    requires id in DeviceIdsOf(xs) && id != a.device.deviceId
    ensures id in DeviceIdsOf(xs + [a])
    ensures FirstDevice(xs + [a], id) == FirstDevice(xs, id)
    ensures AssignmentsOf(xs + [a], id) == AssignmentsOf(xs, id)
  {
    FirstDeviceSnoc(xs, a, id);
    AssignmentsOfSnoc(xs, a, id);
  }

  lemma NewDeviceEntry(xs: seq<AssignedDevice>, a: AssignedDevice)
    requires a.device.deviceId !in DeviceIdsOf(xs)
    ensures a.device.deviceId in DeviceIdsOf(xs + [a])
    ensures FirstDevice(xs + [a], a.device.deviceId) == a.device
    ensures AssignmentsOf(xs + [a], a.device.deviceId) == [Summarize(a)]
  {
    var id := a.device.deviceId;
    var ys := xs + [a];
    assert DeviceIdsOf(ys) == DeviceIdsOf(xs) + [id];
    assert Seqs.IndexOf(DeviceIdsOf(ys), id) == |xs|;
    AssignmentsOfSnoc(xs, a, id);
    NoAssignmentsOfAbsent(xs, id);
  }

  lemma NoAssignmentsOfAbsent(xs: seq<AssignedDevice>, id: Id)
    requires id !in DeviceIdsOf(xs)
    ensures AssignmentsOf(xs, id) == []
  {
    var p := (b: AssignedDevice) => b.device.deviceId == id;
    forall i | 0 <= i < |xs|
      ensures !p(xs[i])
    {
      assert DeviceIdsOf(xs)[i] == xs[i].device.deviceId;
    }
    Seqs.FilterCongruent(xs, p, (b: AssignedDevice) => false);
    EmptyFilter(xs);
  }

  lemma {:induction false} EmptyFilter(xs: seq<AssignedDevice>)
    ensures Seqs.Filter(xs, (b: AssignedDevice) => false) == []
    decreases |xs|
  {
    if |xs| > 0 {
      EmptyFilter(xs[..|xs| - 1]);
    }
  }

  /** The `device_dict` loop of `fetch_devices`: each assignment either
      starts a new device entry (keeping the device fields of that first
      assignment) or is appended to the entry of its device. The result is
      the grouping described by `Grouped`. */
  method GroupByDevice(xs: seq<AssignedDevice>) returns (devices: seq<DeviceRecord>)
    ensures devices == Grouped(xs)
  {
    devices := [];
    var position: map<Id, nat> := map[];
    for i := 0 to |xs|
      invariant devices == Grouped(xs[..i])
      invariant forall id :: id in position <==> id in DeviceIdsOf(xs[..i])
      invariant forall id :: id in position ==>
        position[id] < |Seqs.Distinct(DeviceIdsOf(xs[..i]))| && Seqs.Distinct(DeviceIdsOf(xs[..i]))[position[id]] == id
    {
      var a := xs[i];
      var id := a.device.deviceId;
      assert xs[..i + 1] == xs[..i] + [a];
      assert DeviceIdsOf(xs[..i + 1]) == DeviceIdsOf(xs[..i]) + [id];
      Seqs.DistinctSnoc(DeviceIdsOf(xs[..i]), id);
      if id in position {
        var k := position[id];
        GroupedSnocKnown(xs[..i], a, k);
        devices := devices[k := devices[k].(assignments := devices[k].assignments + [Summarize(a)])];
      } else {
        GroupedSnocNew(xs[..i], a);
        devices := devices + [DeviceRecord(a.device, [Summarize(a)])];
        position := position[id := |devices| - 1];
      }
    }
    assert xs[..|xs|] == xs;
  }

  /** `{'field': 'assigned_type', 'operator': 'EQ', 'value': 'DEVICE'}`. */
  const DeviceAssignmentsOnly := Clause("assigned_type", Eq, One(Scalar.Text("DEVICE")))

  /** The search criteria of the assignment branch: the environment when
      known, then the window clauses. */
  function AssignmentCriteria(environmentId: Option<Id>, start: Option<Instant>, end: Option<Instant>)
    : (q: seq<QueryNode>)
    ensures |q| == 0 <==> environmentId.None? && start.None? && end.None?
  {
    (if environmentId.Some? then [Clause("environment", Eq, One(Scalar.Text(environmentId.value)))] else [])
    + WindowClauses(start, end)
  }

  /** The assignment-branch query AS WRITTEN: the list of criteria is never
      `None`, so the guard meant to stop a search without criteria never
      fires and the query always goes out, DEVICE clause appended. `None`
      here would stand for that early exit. */
  function AssignmentSearchAsWritten(environmentId: Option<Id>, start: Option<Instant>, end: Option<Instant>)
    : (q: Option<seq<QueryNode>>)
    ensures q.Some?
  {
    var queryList: Option<seq<QueryNode>> := Some(AssignmentCriteria(environmentId, start, end));
    if queryList.None? then None else Some(queryList.value + [DeviceAssignmentsOnly])
  }

  /** With no environment and no window, the query as written is the lone
      DEVICE clause, which every device assignment satisfies: the fetch
      meant to return no devices returns every device ever assigned. */
  lemma AsWrittenSearchesEverything(span: Interval)
    ensures AssignmentSearchAsWritten(None, None, None) == Some([DeviceAssignmentsOnly])
    ensures AllHoldOnSpan(AssignmentSearchAsWritten(None, None, None).value, span)
  {
    assert AssignmentCriteria(None, None, None) == [];
    assert [] + [DeviceAssignmentsOnly] == [DeviceAssignmentsOnly];
  }

  /** The assignment-branch query as intended: no query at all without
      criteria; otherwise the criteria followed by the DEVICE clause. */
  function AssignmentSearch(environmentId: Option<Id>, start: Option<Instant>, end: Option<Instant>)
    : (q: Option<seq<QueryNode>>)
    ensures q.None? <==> environmentId.None? && start.None? && end.None?
    ensures q.Some? ==> |q.value| >= 2 && q.value[|q.value| - 1] == DeviceAssignmentsOnly
    ensures q.Some? && environmentId.Some? ==>
      q.value[0] == Clause("environment", Eq, One(Scalar.Text(environmentId.value)))
  {
    var criteria := AssignmentCriteria(environmentId, start, end);
    if |criteria| == 0 then None else Some(criteria + [DeviceAssignmentsOnly])
  }

  /** Under the assumed store reading, the intended query keeps the assignments that
      overlap the window (a null start failing against a window end), the
      environment and DEVICE clauses constraining other fields. */
  lemma AssignmentSearchMeaning(environmentId: Option<Id>, start: Option<Instant>, end: Option<Instant>, span: Interval)
    requires AssignmentSearch(environmentId, start, end).Some?
    ensures AllHoldOnSpan(AssignmentSearch(environmentId, start, end).value, span)
        <==> Overlaps(span, start, end) && (end.Some? ==> span.start.Some?)
  {
    var q := AssignmentSearch(environmentId, start, end).value;
    var w := WindowClauses(start, end);
    var e := if environmentId.Some? then 1 else 0;
    WindowClausesMeaning(start, end, span);
    assert forall i :: 0 <= i < |w| ==> q[e + i] == w[i];
    assert AllHoldOnSpan(q, span) <==> AllHoldOnSpan(w, span) by {
      if AllHoldOnSpan(w, span) {
        forall i | 0 <= i < |q|
          ensures HoldsOnSpan(q[i], span)
        {
          if e <= i < e + |w| {
            assert q[i] == w[i - e];
          }
        }
      }
    }
  }

  /** The environment id the assignment branch searches with: the given id
      (a name given with it is ignored), else the id the name resolves to. */
  function ResolveEnvironment(environmentId: Option<Id>, environmentName: Option<string>, matches: seq<Option<Id>>)
    : (r: Result<Option<Id>>)
    ensures environmentId.Some? ==> r == Success(environmentId)
    ensures environmentId.None? ==> r == Environments.FetchEnvironmentId(None, environmentName, matches)
  {
    if environmentId.None? && environmentName.Some? then Environments.FetchEnvironmentId(None, environmentName, matches)
    else Success(environmentId)
  }

  /** One row of `generate_device_dataframe` for a searched device. */
  datatype DeviceRow = DeviceRow(
    deviceId: Option<Id>,
    deviceType: Option<string>,
    partNumber: Option<string>,
    serialNumber: Option<string>,
    tagId: Option<string>,
    name: Option<string>)

  const NullDeviceRow := DeviceRow(None, None, None, None, None, None)

  function DeviceRowOf(d: DeviceRecord): (row: DeviceRow)
    ensures row.deviceId == Some(d.device.deviceId) && row.name == d.device.name
    ensures row.deviceType == d.device.deviceType && row.partNumber == d.device.partNumber
    ensures row.serialNumber == d.device.serialNumber && row.tagId == d.device.tagId
  {
    DeviceRow(Some(d.device.deviceId), d.device.deviceType, d.device.partNumber,
              d.device.serialNumber, d.device.tagId, d.device.name)
  }

  predicate AnyAssignmentFilter(environmentId: Option<Id>, environmentName: Option<string>,
                                start: Option<Instant>, end: Option<Instant>) {
    environmentId.Some? || environmentName.Some? || start.Some? || end.Some?
  }

  /** `fetch_devices`, with the no-criteria exit working as intended.

      With device characteristics, the devices are searched by them and,
      when an environment or time bound is also given, kept only if
      `hasMatchingAssignment` (the collaborator that filters a device's
      assignments by environment and time found one). Without
      characteristics, the environment is resolved, the assignments are
      searched and grouped by device. */
  function FetchDevices(
    characteristics: Characteristics,
    environmentId: Option<Id>, environmentName: Option<string>,
    start: Option<Instant>, end: Option<Instant>,
    outputFormat: string,
    searchDevices: seq<QueryNode> -> seq<DeviceRecord>,
    hasMatchingAssignment: DeviceRecord -> bool,
    environmentMatches: seq<Option<Id>>,
    searchAssignments: seq<QueryNode> -> seq<AssignedDevice>): (r: Result<Output<DeviceRecord, DeviceRow>>)
    ensures AnyCharacteristic(characteristics) ==>
      var devices := searchDevices(CharacteristicQuery(characteristics));
      && (!AnyAssignmentFilter(environmentId, environmentName, start, end) ==>
            r == FormatOutput(devices, outputFormat, DeviceRowOf, NullDeviceRow))
      && (AnyAssignmentFilter(environmentId, environmentName, start, end) ==>
            r == FormatOutput(Seqs.Filter(devices, hasMatchingAssignment), outputFormat, DeviceRowOf, NullDeviceRow))
    ensures !AnyCharacteristic(characteristics) && environmentId.None? && environmentName.Some? ==>
      (r.Failure? && (r.error.NotFound? || r.error.Ambiguous?) <==> |environmentMatches| != 1)
    ensures !AnyCharacteristic(characteristics) && !AnyAssignmentFilter(environmentId, environmentName, start, end) ==>
      r == Success(Listed([]))
    ensures !AnyCharacteristic(characteristics) ==>
      var env := ResolveEnvironment(environmentId, environmentName, environmentMatches);
      && (env.Failure? ==> r == Failure(env.error))
      && (env.Success? && AssignmentSearch(env.value, start, end).None? ==> r == Success(Listed([])))
      && (env.Success? && (env.value.Some? || start.Some? || end.Some?) ==>
            var q := AssignmentSearch(env.value, start, end);
            q.Some? && r == FormatOutput(Grouped(searchAssignments(q.value)), outputFormat, DeviceRowOf, NullDeviceRow))
  {
    if AnyCharacteristic(characteristics) then
      var devices := searchDevices(CharacteristicQuery(characteristics));
      var selected :=
        if AnyAssignmentFilter(environmentId, environmentName, start, end)
        then Seqs.Filter(devices, hasMatchingAssignment)
        else devices;
      FormatOutput(selected, outputFormat, DeviceRowOf, NullDeviceRow)
    else
      var env :- ResolveEnvironment(environmentId, environmentName, environmentMatches);
      match AssignmentSearch(env, start, end)
      case None => Success(Listed([]))
      case Some(q) => FormatOutput(Grouped(searchAssignments(q)), outputFormat, DeviceRowOf, NullDeviceRow)
  }

  /** Every device found by characteristics and kept by the assignment
      filter was in the search result and passes the filter, and every
      such device is kept, in search order. */
  lemma CharacteristicSearchFiltered(
    characteristics: Characteristics,
    environmentId: Option<Id>, environmentName: Option<string>,
    start: Option<Instant>, end: Option<Instant>,
    searchDevices: seq<QueryNode> -> seq<DeviceRecord>,
    hasMatchingAssignment: DeviceRecord -> bool,
    environmentMatches: seq<Option<Id>>,
    searchAssignments: seq<QueryNode> -> seq<AssignedDevice>)
    requires AnyCharacteristic(characteristics)
    ensures var devices := searchDevices(CharacteristicQuery(characteristics));
      var r := FetchDevices(characteristics, environmentId, environmentName, start, end, "list",
                            searchDevices, hasMatchingAssignment, environmentMatches, searchAssignments);
      && r.Success? && r.value.Listed?
      && Seqs.IsSubsequence(r.value.items, devices)
      && forall d :: d in r.value.items <==> d in devices && (AnyAssignmentFilter(environmentId, environmentName, start, end) ==> hasMatchingAssignment(d))
  {
    var devices := searchDevices(CharacteristicQuery(characteristics));
    if AnyAssignmentFilter(environmentId, environmentName, start, end) {
      Seqs.FilterSpec(devices, hasMatchingAssignment);
      forall d
        ensures d in Seqs.Filter(devices, hasMatchingAssignment) <==> d in devices && hasMatchingAssignment(d)
      {
        Seqs.FilterMembership(devices, hasMatchingAssignment, d);
      }
    } else {
      Seqs.FilterKeepsAll(devices, d => true);
      Seqs.FilterSpec(devices, d => true);
    }
  }

  // ---------------------------------------------------------------------
  // Device positions

  /** Position coordinates, kept as the store returns them. */
  type Coordinates = seq<real>

  /** A device's placement in a coordinate space over a time span. */
  datatype PositionAssignment = PositionAssignment(span: Interval, spaceId: Option<Id>, coordinates: Option<Coordinates>)

  /** The device fields the environment search returns with each
      assignment; the position assignments may be absent. */
  datatype PositionedDevice = PositionedDevice(
    deviceId: Option<Id>,
    name: Option<string>,
    deviceType: Option<string>,
    positionAssignments: Option<seq<PositionAssignment>>)

  /** One assignment of a device to the environment. */
  datatype EnvironmentDevice = EnvironmentDevice(assignmentId: Option<Id>, span: Interval, device: PositionedDevice)

  /** What `fetch_device_positions` records for a placed device. */
  datatype DevicePosition = DevicePosition(name: string, position: Option<Coordinates>)

  /** The `searchAssignments` query: the environment's device assignments. */
  function EnvironmentDevicesQuery(environmentId: Id): (q: seq<QueryNode>)
    ensures |q| == 2 && q[1] == DeviceAssignmentsOnly
    ensures q[0] == Clause("environment", Eq, One(Scalar.Text(environmentId)))
  {
    [Clause("environment", Eq, One(Scalar.Text(environmentId))), DeviceAssignmentsOnly]
  }

  /** A device counts only with a name and a list of position assignments. */
  predicate Considered(d: PositionedDevice) {
    d.name.Some? && d.positionAssignments.Some?
  }

  /** The device's position assignments active at `t`. */
  function ActivePositions(d: PositionedDevice, t: Instant): seq<PositionAssignment>
    requires d.positionAssignments.Some?
  {
    FilterAssignments(d.positionAssignments.value, (p: PositionAssignment) => p.span, Some(t), Some(t))
  }

  /** Two or more positions at once: an error. */
  predicate Offends(d: PositionedDevice, t: Instant) {
    Considered(d) && |ActivePositions(d, t)| > 1
  }

  /** Exactly one position: the device is placed. */
  predicate Places(d: PositionedDevice, t: Instant) {
    Considered(d) && |ActivePositions(d, t)| == 1
  }

  function PositionOf(d: PositionedDevice, t: Instant): DevicePosition
    requires Places(d, t)
  {
    DevicePosition(d.name.value, ActivePositions(d, t)[0].coordinates)
  }

  /** No later candidate places the same device as candidate `i`. */
  predicate LastPlacement(cs: seq<EnvironmentDevice>, i: nat, t: Instant)
    requires i < |cs|
  {
    && Places(cs[i].device, t)
    && forall j :: i < j < |cs| && Places(cs[j].device, t) ==> cs[j].device.deviceId != cs[i].device.deviceId
  }

  /** The loop of `fetch_device_positions` over the candidate assignments:
      devices without a name, without position assignments or with no
      active position are skipped, a device with two active positions
      fails, and a later placement of the same device replaces an earlier
      one. */
  function PositionsOf(cs: seq<EnvironmentDevice>, t: Instant): (r: Result<map<Option<Id>, DevicePosition>>)
    ensures r.Failure? ==>
      exists i :: 0 <= i < |cs| && Offends(cs[i].device, t) && r.error == MultiplePositions(cs[i].device.name.value)
    decreases |cs|
  {
    if |cs| == 0 then Success(map[])
    else
      assert forall i :: 0 <= i < |cs| - 1 ==> cs[..|cs| - 1][i] == cs[i];
      var positions :- PositionsOf(cs[..|cs| - 1], t);
      var d := cs[|cs| - 1].device;
      if !Considered(d) then Success(positions)
      else if |ActivePositions(d, t)| > 1 then Failure(MultiplePositions(d.name.value))
      else if |ActivePositions(d, t)| == 0 then Success(positions)
      else Success(positions[d.deviceId := PositionOf(d, t)])
  }

  /** Candidate `i` has two active positions and no earlier one has. */
  predicate FirstOffender(cs: seq<EnvironmentDevice>, i: nat, t: Instant)
    requires i < |cs|
  {
    Offends(cs[i].device, t) && forall j :: 0 <= j < i ==> !Offends(cs[j].device, t)
  }

  /** The loop fails exactly when some candidate has two active positions,
      and then names the first such device. */
  lemma PositionsOfFailure(cs: seq<EnvironmentDevice>, t: Instant)
    ensures PositionsOf(cs, t).Failure? <==> exists i :: 0 <= i < |cs| && Offends(cs[i].device, t)
    ensures PositionsOf(cs, t).Failure? ==>
      exists i: nat :: && i < |cs| && FirstOffender(cs, i, t)
                       && PositionsOf(cs, t).error == MultiplePositions(cs[i].device.name.value)
  {
    PositionsOfFirstOffender(cs, t);
    PositionsOfOffenderFails(cs, t);
  }

  /** A failure of the loop names its first offending candidate. */
  lemma {:induction false} PositionsOfFirstOffender(cs: seq<EnvironmentDevice>, t: Instant)
    ensures PositionsOf(cs, t).Failure? ==>
      exists i: nat :: && i < |cs| && FirstOffender(cs, i, t)
                       && PositionsOf(cs, t).error == MultiplePositions(cs[i].device.name.value)
    decreases |cs|
  {
    if |cs| > 0 && PositionsOf(cs, t).Failure? {
      var n := |cs| - 1;
      var init := cs[..n];
      PositionsOfFirstOffender(init, t);
      PositionsOfOffenderFails(init, t);
      PositionsOfStep(cs, t);
      assert forall i :: 0 <= i < n ==> init[i] == cs[i];
      var before := PositionsOf(init, t);
      if before.Failure? {
        var i: nat :| i < n && FirstOffender(init, i, t) && before.error == MultiplePositions(init[i].device.name.value);
        assert FirstOffender(cs, i, t);
      } else {
        assert forall i :: 0 <= i < n ==> !Offends(cs[i].device, t);
        assert FirstOffender(cs, n, t);
      }
    }
  }

  /** A candidate with two active positions fails the loop. */
  lemma {:induction false} PositionsOfOffenderFails(cs: seq<EnvironmentDevice>, t: Instant)
    ensures (exists i :: 0 <= i < |cs| && Offends(cs[i].device, t)) ==> PositionsOf(cs, t).Failure?
    decreases |cs|
  {
    if exists i :: 0 <= i < |cs| && Offends(cs[i].device, t) {
      var i :| 0 <= i < |cs| && Offends(cs[i].device, t);
      var n := |cs| - 1;
      var init := cs[..n];
      PositionsOfStep(cs, t);
      if i < n {
        assert init[i] == cs[i];
        PositionsOfOffenderFails(init, t);
      }
    }
  }

  /** One step of the loop: an earlier failure stands, and otherwise the
      last candidate fails the loop exactly when it has two active
      positions. */
  lemma PositionsOfStep(cs: seq<EnvironmentDevice>, t: Instant)
    requires |cs| > 0
    ensures var before := PositionsOf(cs[..|cs| - 1], t);
      && (before.Failure? ==> PositionsOf(cs, t) == before)
      && (before.Success? && Offends(cs[|cs| - 1].device, t) ==>
            PositionsOf(cs, t) == Failure(MultiplePositions(cs[|cs| - 1].device.name.value)))
      && (before.Success? && !Offends(cs[|cs| - 1].device, t) ==> PositionsOf(cs, t).Success?)
  {
  }

  /** Some candidate places device `k`. */
  predicate PlacedBy(cs: seq<EnvironmentDevice>, k: Option<Id>, t: Instant) {
    Seqs.Any(cs, (c: EnvironmentDevice) => Places(c.device, t) && c.device.deviceId == k)
  }

  /** On success, the devices placed are exactly the devices some candidate
      places. */
  lemma {:induction false} PositionsOfKeys(cs: seq<EnvironmentDevice>, t: Instant)
    ensures var r := PositionsOf(cs, t);
      r.Success? ==> forall k :: k in r.value <==> PlacedBy(cs, k, t)
    decreases |cs|
  {
    var r := PositionsOf(cs, t);
    if |cs| > 0 && r.Success? {
      var n := |cs| - 1;
      var d := cs[n].device;
      PositionsOfKeys(cs[..n], t);
      var before := PositionsOf(cs[..n], t);
      assert before.Success?;
      forall k
        ensures k in r.value <==> PlacedBy(cs, k, t)
      {
        var placesK := (c: EnvironmentDevice) => Places(c.device, t) && c.device.deviceId == k;
        Seqs.AnySnoc(cs, placesK);
        assert PlacedBy(cs, k, t) <==> PlacedBy(cs[..n], k, t) || placesK(cs[n]);
        assert k in before.value <==> PlacedBy(cs[..n], k, t);
        if Places(d, t) {
          assert r.value == before.value[d.deviceId := PositionOf(d, t)];
        } else {
          assert r.value == before.value;
          assert !placesK(cs[n]);
        }
      }
    }
  }

  /** On success, each device holds the position of its LAST placing
      candidate. */
  lemma {:induction false} PositionsOfValues(cs: seq<EnvironmentDevice>, t: Instant)
    ensures var r := PositionsOf(cs, t);
      r.Success? ==> forall i :: 0 <= i < |cs| && LastPlacement(cs, i, t) ==>
        cs[i].device.deviceId in r.value && r.value[cs[i].device.deviceId] == PositionOf(cs[i].device, t)
    decreases |cs|
  {
    var r := PositionsOf(cs, t);
    if |cs| > 0 && r.Success? {
      var n := |cs| - 1;
      var init := cs[..n];
      var d := cs[n].device;
      PositionsOfValues(init, t);
      var before := PositionsOf(init, t);
      assert before.Success?;
      assert forall i :: 0 <= i < n ==> init[i] == cs[i];
      forall i | 0 <= i < |cs| && LastPlacement(cs, i, t)
        ensures cs[i].device.deviceId in r.value && r.value[cs[i].device.deviceId] == PositionOf(cs[i].device, t)
      {
        if i == n {
          assert r.value == before.value[d.deviceId := PositionOf(d, t)];
        } else {
          assert LastPlacement(init, i, t);
          if Places(d, t) {
            assert d.deviceId != cs[i].device.deviceId;
            assert r.value == before.value[d.deviceId := PositionOf(d, t)];
          } else {
            assert r.value == before.value;
          }
        }
      }
    }
  }

  /** A candidate has the type asked for; a null type never matches. */
  predicate OfType(a: EnvironmentDevice, deviceTypes: seq<string>) {
    a.device.deviceType.Some? && a.device.deviceType.value in deviceTypes
  }

  /** The candidates AS WRITTEN: the type filter is applied to the whole
      search result, so the filter on activity at `t` computed just before
      it is discarded. */
  function CandidatesAsWritten(result: seq<EnvironmentDevice>, t: Instant, deviceTypes: seq<string>)
    : (cs: seq<EnvironmentDevice>)
    ensures forall a :: a in cs <==> a in result && OfType(a, deviceTypes)
  {
    var active := FilterAssignments(result, (a: EnvironmentDevice) => a.span, Some(t), Some(t));
    forall a ensures a in Seqs.Filter(result, x => OfType(x, deviceTypes)) <==> a in result && OfType(a, deviceTypes) {
      Seqs.FilterMembership(result, x => OfType(x, deviceTypes), a);
    }
    Seqs.Filter(result, x => OfType(x, deviceTypes))
  }

  /** The candidates as intended: the device assignments active at `t`
      with the type asked for. */
  function Candidates(result: seq<EnvironmentDevice>, t: Instant, deviceTypes: seq<string>)
    : (cs: seq<EnvironmentDevice>)
    ensures forall a :: a in cs <==> a in result && ActiveAt(a.span, t) && OfType(a, deviceTypes)
    ensures Seqs.IsSubsequence(cs, FilterAssignments(result, (a: EnvironmentDevice) => a.span, Some(t), Some(t)))
  {
    var span := (a: EnvironmentDevice) => a.span;
    var active := FilterAssignments(result, span, Some(t), Some(t));
    var p := x => OfType(x, deviceTypes);
    Seqs.FilterSpec(active, p);
    forall a ensures a in Seqs.Filter(active, p) <==> a in result && ActiveAt(a.span, t) && OfType(a, deviceTypes) {
      Seqs.FilterMembership(active, p, a);
    }
    Seqs.Filter(active, p)
  }

  /** `fetch_device_positions` AS WRITTEN, on the environment's search
      result. */
  function DevicePositionsAsWritten(result: seq<EnvironmentDevice>, t: Instant, deviceTypes: seq<string>)
    : (r: Result<map<Option<Id>, DevicePosition>>)
    ensures r.Success? ==> forall k :: k in r.value ==>
      exists a :: a in result && OfType(a, deviceTypes) && Places(a.device, t) && a.device.deviceId == k
  {
    var cs := CandidatesAsWritten(result, t, deviceTypes);
    PlacedFrom(cs, t);
    PositionsOf(cs, t)
  }

  /** Every placed device was placed by one of the assignments looked at. */
  lemma PlacedFrom(cs: seq<EnvironmentDevice>, t: Instant)
    ensures PositionsOf(cs, t).Success? ==> forall k :: k in PositionsOf(cs, t).value ==>
      exists a :: a in cs && Places(a.device, t) && a.device.deviceId == k
  {
    PositionsOfKeys(cs, t);
    var r := PositionsOf(cs, t);
    if r.Success? {
      forall k | k in r.value
        ensures exists a :: a in cs && Places(a.device, t) && a.device.deviceId == k
      {
        assert PlacedBy(cs, k, t);
        var i :| 0 <= i < |cs| && Places(cs[i].device, t) && cs[i].device.deviceId == k;
        assert cs[i] in cs;
      }
    }
  }

  /** `fetch_device_positions` as intended: the environment's device
      assignments are searched, and only those active at `t` and of a
      requested type are placed. */
  function DevicePositions(
    environmentId: Id, t: Instant, deviceTypes: seq<string>, search: seq<QueryNode> -> seq<EnvironmentDevice>)
    : (r: Result<map<Option<Id>, DevicePosition>>)
    ensures r.Success? ==> forall k :: k in r.value ==>
      exists a :: a in search(EnvironmentDevicesQuery(environmentId)) && ActiveAt(a.span, t)
        && OfType(a, deviceTypes) && Places(a.device, t) && a.device.deviceId == k
  {
    var result := search(EnvironmentDevicesQuery(environmentId));
    PlacedDevicesAreActive(result, t, deviceTypes);
    PositionsOf(Candidates(result, t, deviceTypes), t)
  }

  lemma PlacedDevicesAreActive(result: seq<EnvironmentDevice>, t: Instant, deviceTypes: seq<string>)
    ensures var r := PositionsOf(Candidates(result, t, deviceTypes), t);
      r.Success? ==> forall k :: k in r.value ==>
        exists a :: a in result && ActiveAt(a.span, t) && OfType(a, deviceTypes) && Places(a.device, t) && a.device.deviceId == k
  {
    PlacedFrom(Candidates(result, t, deviceTypes), t);
  }

  /** The intended fetch, exactly: it fails iff an assignment active at `t`
      and of a requested type has a device with two active positions, and
      otherwise places exactly the devices such an assignment places. */
  lemma DevicePositionsExact(
    environmentId: Id, t: Instant, deviceTypes: seq<string>, search: seq<QueryNode> -> seq<EnvironmentDevice>)
    ensures var result := search(EnvironmentDevicesQuery(environmentId));
      var r := DevicePositions(environmentId, t, deviceTypes, search);
      && (r.Failure? <==>
            exists a :: a in result && ActiveAt(a.span, t) && OfType(a, deviceTypes) && Offends(a.device, t))
      && (r.Success? ==> forall k :: k in r.value <==>
            exists a :: a in result && ActiveAt(a.span, t) && OfType(a, deviceTypes)
              && Places(a.device, t) && a.device.deviceId == k)
  {
    var result := search(EnvironmentDevicesQuery(environmentId));
    CandidatesFailure(result, t, deviceTypes);
    CandidatesKeys(result, t, deviceTypes);
  }

  /** The intended loop fails iff an active assignment of a requested type
      has a device with two active positions. */
  lemma CandidatesFailure(result: seq<EnvironmentDevice>, t: Instant, deviceTypes: seq<string>)
    ensures PositionsOf(Candidates(result, t, deviceTypes), t).Failure? <==>
      exists a :: a in result && ActiveAt(a.span, t) && OfType(a, deviceTypes) && Offends(a.device, t)
  {
    var cs := Candidates(result, t, deviceTypes);
    PositionsOfFailure(cs, t);
    OffendingCandidate(cs, result, t, deviceTypes);
  }

  /** Some candidate offends iff some active assignment of a requested
      type does. */
  lemma OffendingCandidate(cs: seq<EnvironmentDevice>, result: seq<EnvironmentDevice>, t: Instant, deviceTypes: seq<string>)
    requires forall a :: a in cs <==> a in result && ActiveAt(a.span, t) && OfType(a, deviceTypes)
    ensures (exists i :: 0 <= i < |cs| && Offends(cs[i].device, t)) <==>
      exists a :: a in result && ActiveAt(a.span, t) && OfType(a, deviceTypes) && Offends(a.device, t)
  {
    if exists a :: a in result && ActiveAt(a.span, t) && OfType(a, deviceTypes) && Offends(a.device, t) {
      var a :| a in result && ActiveAt(a.span, t) && OfType(a, deviceTypes) && Offends(a.device, t);
      var i :| 0 <= i < |cs| && cs[i] == a;
      assert Offends(cs[i].device, t);
    }
    if exists i :: 0 <= i < |cs| && Offends(cs[i].device, t) {
      var i :| 0 <= i < |cs| && Offends(cs[i].device, t);
      assert cs[i] in cs;
    }
  }

  /** On success the intended loop places exactly the devices an active
      assignment of a requested type places. */
  lemma CandidatesKeys(result: seq<EnvironmentDevice>, t: Instant, deviceTypes: seq<string>)
    ensures var r := PositionsOf(Candidates(result, t, deviceTypes), t);
      r.Success? ==> forall k :: k in r.value <==>
        exists a :: a in result && ActiveAt(a.span, t) && OfType(a, deviceTypes)
          && Places(a.device, t) && a.device.deviceId == k
  {
    var cs := Candidates(result, t, deviceTypes);
    PositionsOfKeys(cs, t);
    forall k
      ensures PlacedBy(cs, k, t) <==>
        exists a :: a in result && ActiveAt(a.span, t) && OfType(a, deviceTypes)
          && Places(a.device, t) && a.device.deviceId == k
    {
      PlacingCandidate(cs, result, t, deviceTypes, k);
    }
  }

  /** Some candidate places `k` iff some active assignment of a requested
      type does. */
  lemma PlacingCandidate(
    cs: seq<EnvironmentDevice>, result: seq<EnvironmentDevice>, t: Instant, deviceTypes: seq<string>, k: Option<Id>)
    requires forall a :: a in cs <==> a in result && ActiveAt(a.span, t) && OfType(a, deviceTypes)
    ensures PlacedBy(cs, k, t) <==>
      exists a :: a in result && ActiveAt(a.span, t) && OfType(a, deviceTypes)
        && Places(a.device, t) && a.device.deviceId == k
  {
    if PlacedBy(cs, k, t) {
      var i :| 0 <= i < |cs| && Places(cs[i].device, t) && cs[i].device.deviceId == k;
      assert cs[i] in cs;
    }
    if exists a :: a in result && ActiveAt(a.span, t) && OfType(a, deviceTypes)
         && Places(a.device, t) && a.device.deviceId == k {
      var a :| a in result && ActiveAt(a.span, t) && OfType(a, deviceTypes)
        && Places(a.device, t) && a.device.deviceId == k;
      var i :| 0 <= i < |cs| && cs[i] == a;
      assert PlacedBy(cs, k, t);
    }
  }

  /** A device whose assignment to the environment ended before `t` but
      which still has a position at `t`: as written it is placed, as
      intended it is not. */
  lemma EndedAssignmentStillPlaced()
    ensures var positions := [PositionAssignment(Interval(None, None), None, Some([1.0, 2.0, 0.0]))];
      var device := PositionedDevice(Some("camera-1"), Some("Camera 1"), Some("CAMERA"), Some(positions));
      var result := [EnvironmentDevice(Some("assignment-1"), Interval(Some(0), Some(5)), device)];
      && DevicePositionsAsWritten(result, 10, ["CAMERA"]) == Success(map[Some("camera-1") := DevicePosition("Camera 1", Some([1.0, 2.0, 0.0]))])
      && PositionsOf(Candidates(result, 10, ["CAMERA"]), 10) == Success(map[])
  {
    var positions := [PositionAssignment(Interval(None, None), None, Some([1.0, 2.0, 0.0]))];
    var device := PositionedDevice(Some("camera-1"), Some("Camera 1"), Some("CAMERA"), Some(positions));
    var a := EnvironmentDevice(Some("assignment-1"), Interval(Some(0), Some(5)), device);
    EndedPlacedAsWritten(a, 10);
    EndedNotCandidate(a, 10, ["CAMERA"]);
  }

  /** A candidate list of one device with one open-ended position places
      that device, whether or not its environment assignment is active. */
  lemma EndedPlacedAsWritten(a: EnvironmentDevice, t: Instant)
    requires a.device.deviceType == Some("CAMERA") && a.device.name == Some("Camera 1")
    requires a.device.deviceId == Some("camera-1")
    requires a.device.positionAssignments == Some([PositionAssignment(Interval(None, None), None, Some([1.0, 2.0, 0.0]))])
    ensures DevicePositionsAsWritten([a], t, ["CAMERA"])
         == Success(map[Some("camera-1") := DevicePosition("Camera 1", Some([1.0, 2.0, 0.0]))])
  {
    var positions := a.device.positionAssignments.value;
    assert ActivePositions(a.device, t) == positions by {
      Seqs.FilterKeepsAll(positions, (p: PositionAssignment) => Overlaps(p.span, Some(t), Some(t)));
    }
    assert CandidatesAsWritten([a], t, ["CAMERA"]) == [a] by {
      Seqs.FilterKeepsAll([a], x => OfType(x, ["CAMERA"]));
    }
    assert [a][..0] == [];
    assert PositionsOf([a][..0], t) == Success(map[]);
    assert PositionOf(a.device, t) == DevicePosition("Camera 1", Some([1.0, 2.0, 0.0]));
  }

  /** An assignment that is not active at `t` is no candidate, so the
      intended loop places nothing. */
  lemma EndedNotCandidate(a: EnvironmentDevice, t: Instant, deviceTypes: seq<string>)
    requires !ActiveAt(a.span, t)
    ensures PositionsOf(Candidates([a], t, deviceTypes), t) == Success(map[])
  {
    var cs := Candidates([a], t, deviceTypes);
    assert a !in cs;
    assert forall x :: x !in multiset(cs);
    assert multiset(cs) == multiset{};
    assert |cs| == |multiset(cs)| == 0;
  }

  // ---------------------------------------------------------------------
  // Single device position

  /** One record of the position-assignment search. */
  datatype PositionRecord = PositionRecord(positionAssignmentId: Option<Id>, coordinates: Option<Coordinates>)

  /** `searchPositionAssignments` for one device at `t`: assigned to the
      device, started by `t`, and not ended before `t`. */
  function DevicePositionQuery(deviceId: Id, t: Instant): (q: seq<QueryNode>)
    ensures Clause("assigned", Eq, One(Scalar.Text(deviceId))) in q
    ensures forall i :: 0 <= i < |q| && q[i].Clause? && q[i].field != StartField && q[i].field != EndField ==>
      q[i] == Clause("assigned", Eq, One(Scalar.Text(deviceId)))
  {
    [ Clause("assigned", Eq, One(Scalar.Text(deviceId))),
      StartUntil(t),
      Combine(Or, [Clause(EndField, Gte, One(Time(t))), Clause(EndField, IsNull, NoOperand)]) ]
  }

  /** Under the assumed store reading, the query keeps exactly the position assignments
      active at `t`, except that a null start never matches. */
  lemma DevicePositionQueryMeaning(deviceId: Id, t: Instant, span: Interval)
    ensures AllHoldOnSpan(DevicePositionQuery(deviceId, t), span) <==> ActiveAt(span, t) && span.start.Some?
  {
    var q := DevicePositionQuery(deviceId, t);
    assert HoldsOnSpan(q[0], span);
    assert HoldsOnSpan(q[1], span) <==> span.start.Some? && span.start.value <= t;
    assert HoldsOnSpan(q[2], span) <==> HoldsOnSpan(q[2].children[0], span) || HoldsOnSpan(q[2].children[1], span);
  }

  /** `fetch_device_position`: no matching assignment gives `None`, one
      gives its coordinates, more than one fails. */
  function FetchDevicePosition(deviceId: Id, t: Instant, search: seq<QueryNode> -> seq<PositionRecord>)
    : (r: Result<Option<Coordinates>>)
    ensures var result := search(DevicePositionQuery(deviceId, t));
      && (|result| == 0 ==> r == Success(None))
      && (|result| == 1 ==> r == Success(result[0].coordinates))
      && (|result| > 1 <==> r.Failure?)
      && (|result| > 1 ==> r == Failure(Ambiguous("position assignment")))
  {
    var only :- AtMostOne(search(DevicePositionQuery(deviceId, t)), Ambiguous("position assignment"));
    if only.None? then Success(None) else Success(only.value.coordinates)
  }
}
