/**
 Camera lookups (honeycomb_io/cameras.py): which cameras were assigned to
 an environment during a time window, which devices match given camera
 properties, and the per-camera calibration maps built from calibration
 records.

 The store replies are inputs: a function of the request for a search,
 or the list of records a request returned.
 */
module Cameras {
  import opened Base
  import Seqs
  import opened Temporal
  import opened Query
  import Environments

  /** `DEFAULT_CAMERA_DEVICE_TYPES`. */
  const DefaultCameraDeviceTypes: seq<string> := ["PI3WITHCAMERA", "PI4WITHCAMERA", "PIZEROWITHCAMERA"]

  /** `camera_device_types`, defaulted when absent. */
  function CameraTypesOrDefault(cameraDeviceTypes: Option<seq<string>>): seq<string> {
    if cameraDeviceTypes.Some? then cameraDeviceTypes.value else DefaultCameraDeviceTypes
  }

  // ---------------------------------------------------------------------
  // The inline window rule of `extract_assignment` and `fetch_camera_device_ids`
  // ---------------------------------------------------------------------

  /** The two `continue` tests, negated: a record is kept unless it starts
      after the window end or ends before the window start. */
  predicate InWindow(span: Interval, startTime: Instant, endTime: Instant) {
    && !(span.start.Some? && span.start.value > endTime)
    && !(span.end.Some? && span.end.value < startTime)
  }

  /** The inline rule is the library-wide overlap rule on a window with
      both bounds present. */
  lemma InWindowIsOverlap(span: Interval, startTime: Instant, endTime: Instant)
    ensures InWindow(span, startTime, endTime) <==> Overlaps(span, Some(startTime), Some(endTime))
  {
  }

  /** `extract_assignment`: the single record that overlaps the window,
      `None` when no record does, a failure when two or more do. */
  function ExtractAssignment<T>(assignments: seq<T>, span: T -> Interval, startTime: Instant, endTime: Instant)
    : (r: Result<Option<T>>)
    ensures r.Success? && r.value.None? <==>
      forall i :: 0 <= i < |assignments| ==> !InWindow(span(assignments[i]), startTime, endTime)
    ensures r.Failure? <==>
      exists i, j :: 0 <= i < j < |assignments| &&
        InWindow(span(assignments[i]), startTime, endTime) && InWindow(span(assignments[j]), startTime, endTime)
    ensures r.Failure? ==> r.error == Ambiguous("assignment")
    ensures r.Success? && r.value.Some? ==>
      r.value.value in assignments && InWindow(span(r.value.value), startTime, endTime)
  {
    var keep := a => InWindow(span(a), startTime, endTime);
    var matched := Seqs.Filter(assignments, keep);
    Seqs.FilterCount(assignments, keep);
    if |matched| == 1 then
      Seqs.FilterMembership(assignments, keep, matched[0]);
      AtMostOne(matched, Ambiguous("assignment"))
    else AtMostOne(matched, Ambiguous("assignment"))
  }

  /** When a record overlaps the window and no other does, it is the one
      extracted. */
  lemma ExtractSoleMatch<T>(assignments: seq<T>, span: T -> Interval, startTime: Instant, endTime: Instant, k: nat)
    requires k < |assignments| && InWindow(span(assignments[k]), startTime, endTime)
    requires forall i :: 0 <= i < |assignments| && i != k ==> !InWindow(span(assignments[i]), startTime, endTime)
    ensures ExtractAssignment(assignments, span, startTime, endTime) == Success(Some(assignments[k]))
  {
    var r := ExtractAssignment(assignments, span, startTime, endTime);
    assert r.Success?;
    var x := r.value.value;
    var i :| 0 <= i < |assignments| && assignments[i] == x;
    assert i == k;
  }

  // ---------------------------------------------------------------------
  // `fetch_camera_device_ids`
  // ---------------------------------------------------------------------

  /** The `assigned` object of an environment assignment, read through the
      `... on Device` fragment: the device fields are null for anything
      that is not a device. */
  datatype AssignedRef = AssignedRef(typename: string, deviceId: Option<Id>, deviceType: Option<string>)

  /** An environment's assignment as the camera queries return it. */
  datatype CameraAssignment = CameraAssignment(assignmentId: Id, span: Interval, assignedObject: AssignedRef)

  /** The record is a camera device assigned during the window. */
  predicate IsCameraInWindow(a: CameraAssignment, startTime: Instant, endTime: Instant, cameraDeviceTypes: seq<string>) {
    && InWindow(a.span, startTime, endTime)
    && a.assignedObject.typename == "Device"
    && a.assignedObject.deviceType.Some? && a.assignedObject.deviceType.value in cameraDeviceTypes
  }

  /** `fetch_camera_device_ids`, given the environments the name search
      returned: exactly one environment must match the name; then the ids
      of the camera devices assigned to it during the window, in
      assignment order. */
  function CameraDeviceIds(
    startTime: Instant, endTime: Instant, cameraDeviceTypes: seq<string>, environments: seq<seq<CameraAssignment>>)
    : (r: Result<seq<Option<Id>>>)
    ensures |environments| == 0 <==> r == Failure(NotFound("environment"))
    ensures |environments| > 1 <==> r == Failure(Ambiguous("environment"))
    ensures r.Success? ==> |environments| == 1
    ensures r.Success? ==>
      Seqs.IsSubsequence(r.value, Seqs.Map(environments[0], (a: CameraAssignment) => a.assignedObject.deviceId))
    ensures r.Success? ==> forall id :: id in r.value <==>
      exists a :: a in environments[0] && IsCameraInWindow(a, startTime, endTime, cameraDeviceTypes) &&
        a.assignedObject.deviceId == id
    ensures r.Success? ==>
      forall id :: multiset(r.value)[id] ==
        |Seqs.Filter(environments[0], (a: CameraAssignment) =>
           IsCameraInWindow(a, startTime, endTime, cameraDeviceTypes) && a.assignedObject.deviceId == id)|
    ensures r.Success? ==>
      exists sel: seq<CameraAssignment> ::
        && Seqs.IsSubsequence(sel, environments[0])
        && (forall a :: multiset(sel)[a] ==
              if IsCameraInWindow(a, startTime, endTime, cameraDeviceTypes) then multiset(environments[0])[a] else 0)
        && r.value == Seqs.Map(sel, (a: CameraAssignment) => a.assignedObject.deviceId)
  {
    if |environments| == 0 then Failure(NotFound("environment"))
    else if |environments| > 1 then Failure(Ambiguous("environment"))
    else
      var assignments := environments[0];
      var keep := a => IsCameraInWindow(a, startTime, endTime, cameraDeviceTypes);
      var project := (a: CameraAssignment) => a.assignedObject.deviceId;
      var kept := Seqs.Filter(assignments, keep);
      Seqs.FilterProjected(assignments, keep, project);
      InWindowIds(assignments, startTime, endTime, cameraDeviceTypes);
      Success(Seqs.Map(kept, project))
  }

  // ---------------------------------------------------------------------
  // `fetch_camera_ids_from_environment`, `fetch_camera_assignment_ids_from_environment`
  // ---------------------------------------------------------------------

  /** The environment's assignments that overlap the (optionally bounded)
      window and carry a camera device type, in their original order: the
      window filter of `minimal_honeycomb.filter_assignments` followed by
      the type test of the loop. Unlike `CameraDeviceIds`, the `__typename`
      is not checked; a non-device has no device type and is dropped. */
  function CameraSelection(
    assignments: seq<CameraAssignment>, start: Option<Instant>, end: Option<Instant>, cameraDeviceTypes: seq<string>)
    : (r: seq<CameraAssignment>)
    ensures r == Seqs.Filter(assignments, a => IsSelected(a, start, end, cameraDeviceTypes))
    ensures Seqs.IsSubsequence(r, assignments)
    ensures forall a :: a in r <==> a in assignments && IsSelected(a, start, end, cameraDeviceTypes)
  {
    var inWindow := FilterAssignments(assignments, (a: CameraAssignment) => a.span, start, end);
    SelectionIsFilter(assignments, start, end, cameraDeviceTypes);
    Seqs.FilterSpec(assignments, a => IsSelected(a, start, end, cameraDeviceTypes));
    forall a
      ensures a in Seqs.Filter(assignments, a => IsSelected(a, start, end, cameraDeviceTypes))
          <==> a in assignments && IsSelected(a, start, end, cameraDeviceTypes)
    {
      Seqs.FilterMembership(assignments, a => IsSelected(a, start, end, cameraDeviceTypes), a);
    }
    Seqs.Filter(inWindow, a => IsCamera(a, cameraDeviceTypes))
  }

  /** The type test of the loop: a non-null device type in the list. */
  predicate IsCamera(a: CameraAssignment, cameraDeviceTypes: seq<string>) {
    a.assignedObject.deviceType.Some? && a.assignedObject.deviceType.value in cameraDeviceTypes
  }

  /** The record overlaps the window and has a device type in the list. */
  predicate IsSelected(a: CameraAssignment, start: Option<Instant>, end: Option<Instant>, cameraDeviceTypes: seq<string>) {
    Overlaps(a.span, start, end) && IsCamera(a, cameraDeviceTypes)
  }

  /** The environment id `fetch_environment_id` resolves to, when it
      succeeds with one. */
  function Resolved(environmentId: Option<Id>, environmentName: Option<string>, environmentMatches: seq<Option<Id>>)
    : Option<Id>
  {
    var r := Environments.FetchEnvironmentId(environmentId, environmentName, environmentMatches);
    if r.Success? then r.value else None
  }

  /** The shared body of the two environment fetches: resolve the
      environment (an unresolved one gives `None`), select its camera
      assignments in the window, fail when there are none, and otherwise
      project each selected assignment. */
  function CamerasInEnvironment<U(!new)>(
    start: Option<Instant>, end: Option<Instant>,
    environmentId: Option<Id>, environmentName: Option<string>, cameraDeviceTypes: Option<seq<string>>,
    environmentMatches: seq<Option<Id>>, environmentAssignments: Id -> seq<CameraAssignment>,
    project: CameraAssignment -> U)
    : (r: Result<Option<seq<U>>>)
    ensures Environments.FetchEnvironmentId(environmentId, environmentName, environmentMatches).Failure? ==>
      r == Failure(Environments.FetchEnvironmentId(environmentId, environmentName, environmentMatches).error)
    ensures Environments.FetchEnvironmentId(environmentId, environmentName, environmentMatches) == Success(None) ==>
      r == Success(None)
    ensures Resolved(environmentId, environmentName, environmentMatches).Some? ==>
      var id := Resolved(environmentId, environmentName, environmentMatches).value;
      var types := CameraTypesOrDefault(cameraDeviceTypes);
      (forall a :: a in environmentAssignments(id) ==> !IsSelected(a, start, end, types))
        <==> r == Failure(NotFound("camera devices"))
    ensures Resolved(environmentId, environmentName, environmentMatches).Some? && r.Success? ==>
      var id := Resolved(environmentId, environmentName, environmentMatches).value;
      r.value.Some? && |r.value.value| > 0 &&
      Seqs.IsSubsequence(r.value.value, Seqs.Map(environmentAssignments(id), project))
    ensures Resolved(environmentId, environmentName, environmentMatches).Some? && r.Success? ==>
      var id := Resolved(environmentId, environmentName, environmentMatches).value;
      var types := CameraTypesOrDefault(cameraDeviceTypes);
      forall u :: u in r.value.value <==>
        exists a :: a in environmentAssignments(id) && IsSelected(a, start, end, types) && project(a) == u
    ensures Resolved(environmentId, environmentName, environmentMatches).Some? && r.Success? ==>
      var id := Resolved(environmentId, environmentName, environmentMatches).value;
      var types := CameraTypesOrDefault(cameraDeviceTypes);
      r.value.value == Seqs.Map(Seqs.Filter(environmentAssignments(id), a => IsSelected(a, start, end, types)), project)
  {
    var types := CameraTypesOrDefault(cameraDeviceTypes);
    var resolved :- Environments.FetchEnvironmentId(environmentId, environmentName, environmentMatches);
    if resolved.None? then Success(None)
    else
      var assignments := environmentAssignments(resolved.value);
      var selected := CameraSelection(assignments, start, end, types);
      var keep := a => IsSelected(a, start, end, types);
      Seqs.FilterProjected(assignments, keep, project);
      assert |selected| > 0 ==> selected[0] in selected;
      if |selected| == 0 then Failure(NotFound("camera devices"))
      else Success(Some(Seqs.Map(selected, project)))
  }

  /** The ids `CameraDeviceIds` lists for one environment's assignments
      are those of a record-level selection that keeps every assignment in
      the window, as often as it occurs, and nothing else, in order; each
      id occurs once per kept assignment carrying it. */
  lemma InWindowIds(
    assignments: seq<CameraAssignment>, startTime: Instant, endTime: Instant, cameraDeviceTypes: seq<string>)
    ensures var ids := Seqs.Map(Seqs.Filter(assignments, a => IsCameraInWindow(a, startTime, endTime, cameraDeviceTypes)),
                                (a: CameraAssignment) => a.assignedObject.deviceId);
      forall id :: multiset(ids)[id] ==
        |Seqs.Filter(assignments, (a: CameraAssignment) =>
           IsCameraInWindow(a, startTime, endTime, cameraDeviceTypes) && a.assignedObject.deviceId == id)|
    ensures var ids := Seqs.Map(Seqs.Filter(assignments, a => IsCameraInWindow(a, startTime, endTime, cameraDeviceTypes)),
                                (a: CameraAssignment) => a.assignedObject.deviceId);
      exists sel: seq<CameraAssignment> ::
        && Seqs.IsSubsequence(sel, assignments)
        && (forall a :: multiset(sel)[a] ==
              if IsCameraInWindow(a, startTime, endTime, cameraDeviceTypes) then multiset(assignments)[a] else 0)
        && ids == Seqs.Map(sel, (a: CameraAssignment) => a.assignedObject.deviceId)
  {
    var keep := a => IsCameraInWindow(a, startTime, endTime, cameraDeviceTypes);
    var project := (a: CameraAssignment) => a.assignedObject.deviceId;
    Seqs.FilterSpec(assignments, keep);
    forall id
      ensures multiset(Seqs.Map(Seqs.Filter(assignments, keep), project))[id] ==
        |Seqs.Filter(assignments, (a: CameraAssignment) =>
           IsCameraInWindow(a, startTime, endTime, cameraDeviceTypes) && a.assignedObject.deviceId == id)|
    {
      Seqs.MapFilterCount(assignments, keep, project, id, (a: CameraAssignment) =>
        IsCameraInWindow(a, startTime, endTime, cameraDeviceTypes) && a.assignedObject.deviceId == id);
    }
  }

  /** The two-stage selection is a single filter by `IsSelected`. */
  lemma SelectionIsFilter(
    assignments: seq<CameraAssignment>, start: Option<Instant>, end: Option<Instant>, cameraDeviceTypes: seq<string>)
    ensures Seqs.Filter(FilterAssignments(assignments, (a: CameraAssignment) => a.span, start, end),
                        a => IsCamera(a, cameraDeviceTypes))
         == Seqs.Filter(assignments, a => IsSelected(a, start, end, cameraDeviceTypes))
  {
    FilterAssignmentsThen(assignments, (a: CameraAssignment) => a.span, start, end,
      a => IsCamera(a, cameraDeviceTypes), a => IsSelected(a, start, end, cameraDeviceTypes));
  }

  /** `fetch_camera_ids_from_environment`: the device ids. */
  function CameraIdsFromEnvironment(
    start: Option<Instant>, end: Option<Instant>,
    environmentId: Option<Id>, environmentName: Option<string>, cameraDeviceTypes: Option<seq<string>>,
    environmentMatches: seq<Option<Id>>, environmentAssignments: Id -> seq<CameraAssignment>)
    : (r: Result<Option<seq<Option<Id>>>>)
    ensures Environments.FetchEnvironmentId(environmentId, environmentName, environmentMatches).Failure? ==>
      r == Failure(Environments.FetchEnvironmentId(environmentId, environmentName, environmentMatches).error)
    ensures Environments.FetchEnvironmentId(environmentId, environmentName, environmentMatches) == Success(None) ==>
      r == Success(None)
    ensures Resolved(environmentId, environmentName, environmentMatches).Some? ==>
      var id := Resolved(environmentId, environmentName, environmentMatches).value;
      var types := CameraTypesOrDefault(cameraDeviceTypes);
      (forall a :: a in environmentAssignments(id) ==> !IsSelected(a, start, end, types))
        <==> r == Failure(NotFound("camera devices"))
    ensures Resolved(environmentId, environmentName, environmentMatches).Some? && r.Success? ==> r.value.Some?
    ensures r.Success? && r.value.Some? && Resolved(environmentId, environmentName, environmentMatches).Some? ==>
      var id := Resolved(environmentId, environmentName, environmentMatches).value;
      forall d :: d in r.value.value <==>
        exists a :: a in environmentAssignments(id) &&
          IsSelected(a, start, end, CameraTypesOrDefault(cameraDeviceTypes)) && a.assignedObject.deviceId == d
    ensures r.Success? && r.value.Some? && Resolved(environmentId, environmentName, environmentMatches).Some? ==>
      var id := Resolved(environmentId, environmentName, environmentMatches).value;
      var types := CameraTypesOrDefault(cameraDeviceTypes);
      r.value.value == Seqs.Map(Seqs.Filter(environmentAssignments(id), a => IsSelected(a, start, end, types)),
                                (a: CameraAssignment) => a.assignedObject.deviceId)
  {
    CamerasInEnvironment(start, end, environmentId, environmentName, cameraDeviceTypes,
      environmentMatches, environmentAssignments, (a: CameraAssignment) => a.assignedObject.deviceId)
  }

  /** `fetch_camera_assignment_ids_from_environment`: the assignment ids. */
  function CameraAssignmentIdsFromEnvironment(
    start: Option<Instant>, end: Option<Instant>,
    environmentId: Option<Id>, environmentName: Option<string>, cameraDeviceTypes: Option<seq<string>>,
    environmentMatches: seq<Option<Id>>, environmentAssignments: Id -> seq<CameraAssignment>)
    : (r: Result<Option<seq<Id>>>)
    ensures Environments.FetchEnvironmentId(environmentId, environmentName, environmentMatches).Failure? ==>
      r == Failure(Environments.FetchEnvironmentId(environmentId, environmentName, environmentMatches).error)
    ensures Environments.FetchEnvironmentId(environmentId, environmentName, environmentMatches) == Success(None) ==>
      r == Success(None)
    ensures Resolved(environmentId, environmentName, environmentMatches).Some? ==>
      var id := Resolved(environmentId, environmentName, environmentMatches).value;
      var types := CameraTypesOrDefault(cameraDeviceTypes);
      (forall a :: a in environmentAssignments(id) ==> !IsSelected(a, start, end, types))
        <==> r == Failure(NotFound("camera devices"))
    ensures Resolved(environmentId, environmentName, environmentMatches).Some? && r.Success? ==> r.value.Some?
    ensures r.Success? && r.value.Some? && Resolved(environmentId, environmentName, environmentMatches).Some? ==>
      var id := Resolved(environmentId, environmentName, environmentMatches).value;
      forall x :: x in r.value.value <==>
        exists a :: a in environmentAssignments(id) &&
          IsSelected(a, start, end, CameraTypesOrDefault(cameraDeviceTypes)) && a.assignmentId == x
    ensures r.Success? && r.value.Some? && Resolved(environmentId, environmentName, environmentMatches).Some? ==>
      var id := Resolved(environmentId, environmentName, environmentMatches).value;
      var types := CameraTypesOrDefault(cameraDeviceTypes);
      r.value.value == Seqs.Map(Seqs.Filter(environmentAssignments(id), a => IsSelected(a, start, end, types)),
                                (a: CameraAssignment) => a.assignmentId)
  {
    CamerasInEnvironment(start, end, environmentId, environmentName, cameraDeviceTypes,
      environmentMatches, environmentAssignments, (a: CameraAssignment) => a.assignmentId)
  }

  // ---------------------------------------------------------------------
  // `fetch_camera_ids_from_camera_properties`
  // ---------------------------------------------------------------------

  /** The fields the property search lists, in the order the clauses are
      added. */
  const PropertyFields: seq<string> := ["device_type", "part_number", "name", "serial_number"]

  /** The property search: one `IN` clause per given list, in the order of
      `PropertyFields`, and every given list readable back under its
      field. */
  function PropertyQuery(
    deviceTypes: Option<seq<string>>, partNumbers: Option<seq<string>>,
    names: Option<seq<string>>, serialNumbers: Option<seq<string>>)
    : (q: seq<QueryNode>)
    ensures |q| == CountGiven([deviceTypes, partNumbers, names, serialNumbers])
    ensures forall i :: 0 <= i < |q| ==> q[i].Clause? && q[i].op == In
    ensures forall i, j :: 0 <= i < j < |q| ==> ListedBefore(PropertyFields, q[i].field, q[j].field)
    ensures ValuesFor(q, "device_type") == deviceTypes
    ensures ValuesFor(q, "part_number") == partNumbers
    ensures ValuesFor(q, "name") == names
    ensures ValuesFor(q, "serial_number") == serialNumbers
  {
    var lists := [deviceTypes, partNumbers, names, serialNumbers];
    ListClausesShape(PropertyFields, lists, In);
    ListClausesOrder(PropertyFields, lists, In);
    ListClausesRoundTrip(PropertyFields, lists, In, 0);
    ListClausesRoundTrip(PropertyFields, lists, In, 1);
    ListClausesRoundTrip(PropertyFields, lists, In, 2);
    ListClausesRoundTrip(PropertyFields, lists, In, 3);
    ListClauses(PropertyFields, lists, In)
  }

  /** Names, part numbers or serial numbers were given; device types alone
      do not count. */
  predicate NarrowsByProperty(partNumbers: Option<seq<string>>, names: Option<seq<string>>, serialNumbers: Option<seq<string>>) {
    names.Some? || partNumbers.Some? || serialNumbers.Some?
  }

  /** `fetch_camera_ids_from_camera_properties`, given the device search.
      Explicit ids exclude names, part numbers and serial numbers but not
      device types, and are returned as given; without ids, the search runs
      only when a narrowing property is given, and finding nothing fails. */
  function CameraIdsFromProperties(
    cameraIds: Option<seq<Id>>, deviceTypes: Option<seq<string>>, partNumbers: Option<seq<string>>,
    names: Option<seq<string>>, serialNumbers: Option<seq<string>>,
    searchDevices: QueryNode -> seq<Device>)
    : (r: Result<Option<seq<Id>>>)
    ensures cameraIds.Some? && NarrowsByProperty(partNumbers, names, serialNumbers) ==>
      r == Failure(ConflictingArguments("camera ids and camera properties"))
    ensures cameraIds.Some? && !NarrowsByProperty(partNumbers, names, serialNumbers) ==> r == Success(cameraIds)
    ensures cameraIds.None? && !NarrowsByProperty(partNumbers, names, serialNumbers) ==> r == Success(None)
    ensures cameraIds.None? && NarrowsByProperty(partNumbers, names, serialNumbers) ==>
      var found := searchDevices(Combine(And, PropertyQuery(deviceTypes, partNumbers, names, serialNumbers)));
      && (|found| == 0 <==> r == Failure(NotFound("devices")))
      && (|found| > 0 ==> r.Success? && r.value.Some? && |r.value.value| == |found|)
      && (|found| > 0 ==> forall i :: 0 <= i < |found| ==> r.value.value[i] == found[i].deviceId)
  {
    if cameraIds.Some? then
      if NarrowsByProperty(partNumbers, names, serialNumbers)
      then Failure(ConflictingArguments("camera ids and camera properties"))
      else Success(cameraIds)
    else if NarrowsByProperty(partNumbers, names, serialNumbers) then
      var found := searchDevices(Combine(And, PropertyQuery(deviceTypes, partNumbers, names, serialNumbers)));
      if |found| == 0 then Failure(NotFound("devices"))
      else Success(Some(Seqs.Map(found, (d: Device) => d.deviceId)))
    else Success(None)
  }

  // ---------------------------------------------------------------------
  // Calibration maps: `fetch_intrinsic_calibrations`, `fetch_extrinsic_calibrations`
  // ---------------------------------------------------------------------

  /** The intrinsic values kept per camera; matrices are opaque. */
  datatype Intrinsics = Intrinsics(
    cameraMatrix: seq<seq<real>>, distortionCoefficients: seq<real>,
    imageWidth: Option<int>, imageHeight: Option<int>)

  /** One intrinsic calibration record of the store. */
  datatype IntrinsicRecord = IntrinsicRecord(
    intrinsicCalibrationId: Id, span: Interval, cameraId: Id, intrinsics: Intrinsics)

  /** The extrinsic values kept per camera. */
  datatype Extrinsics = Extrinsics(spaceId: Id, rotationVector: seq<real>, translationVector: seq<real>)

  /** One extrinsic calibration record of the store. */
  datatype ExtrinsicRecord = ExtrinsicRecord(
    extrinsicCalibrationId: Id, span: Interval, cameraId: Id, spaceId: Id,
    translationVector: seq<real>, rotationVector: seq<real>)

  /** No two of the first `n` records name the same camera. */
  predicate KeysUniqueUpTo<T>(xs: seq<T>, key: T -> Id, n: nat)
    requires n <= |xs|
  {
    forall i, j :: 0 <= i < j < n ==> key(xs[i]) != key(xs[j])
  }

  /** No two records name the same camera. */
  predicate KeysUnique<T>(xs: seq<T>, key: T -> Id) {
    KeysUniqueUpTo(xs, key, |xs|)
  }

  /** The loop both calibration fetches run: a dictionary keyed by camera,
      filled in record order, that raises on the first record whose camera
      already has an entry. */
  method OnePerCamera<T, V>(xs: seq<T>, key: T -> Id, value: T -> V) returns (r: Result<map<Id, V>>)
    ensures r.Success? <==> KeysUnique(xs, key)
    ensures r.Success? ==> forall k :: k in r.value <==> exists i :: 0 <= i < |xs| && key(xs[i]) == k
    ensures r.Success? ==> forall i :: 0 <= i < |xs| ==> key(xs[i]) in r.value && r.value[key(xs[i])] == value(xs[i])
    ensures r.Failure? ==>
      exists j :: 0 <= j < |xs| && r.error == MultipleCalibrations(key(xs[j])) &&
        KeysUniqueUpTo(xs, key, j) && exists i :: 0 <= i < j && key(xs[i]) == key(xs[j])
  {
    var m: map<Id, V> := map[];
    for j := 0 to |xs|
      invariant KeysUniqueUpTo(xs, key, j)
      invariant forall k :: k in m <==> exists i :: 0 <= i < j && key(xs[i]) == k
      invariant forall i :: 0 <= i < j ==> key(xs[i]) in m && m[key(xs[i])] == value(xs[i])
    {
      var k := key(xs[j]);
      if k in m {
        var i :| 0 <= i < j && key(xs[i]) == k;
        return Failure(MultipleCalibrations(k));
      }
      m := m[k := value(xs[j])];
    }
    return Success(m);
  }

  /** The intrinsic records that overlap the window. */
  function IntrinsicsInWindow(records: seq<IntrinsicRecord>, start: Option<Instant>, end: Option<Instant>)
    : seq<IntrinsicRecord>
  {
    FilterAssignments(records, (c: IntrinsicRecord) => c.span, start, end)
  }

  /** The extrinsic records that overlap the window. */
  function ExtrinsicsInWindow(records: seq<ExtrinsicRecord>, start: Option<Instant>, end: Option<Instant>)
    : seq<ExtrinsicRecord>
  {
    FilterAssignments(records, (c: ExtrinsicRecord) => c.span, start, end)
  }

  /** `fetch_intrinsic_calibrations`, given the records the store returned
      for the cameras: one entry per camera among the records in the
      window, holding that record's values; two records in the window for
      one camera fail. */
  method IntrinsicCalibrations(records: seq<IntrinsicRecord>, start: Option<Instant>, end: Option<Instant>)
    returns (r: Result<map<Id, Intrinsics>>)
    ensures var inWindow := IntrinsicsInWindow(records, start, end);
      r.Success? <==> KeysUnique(inWindow, (c: IntrinsicRecord) => c.cameraId)
    ensures r.Failure? ==> r.error.MultipleCalibrations?
    ensures r.Failure? ==> var inWindow := IntrinsicsInWindow(records, start, end);
      exists i, j :: 0 <= i < j < |inWindow| && inWindow[i].cameraId == inWindow[j].cameraId
        && KeysUniqueUpTo(inWindow, (c: IntrinsicRecord) => c.cameraId, j)
        && r.error == MultipleCalibrations(inWindow[j].cameraId)
    ensures r.Success? ==> forall k :: k in r.value <==>
      exists c :: c in records && Overlaps(c.span, start, end) && c.cameraId == k
    ensures r.Success? ==> forall c :: c in records && Overlaps(c.span, start, end) ==>
      c.cameraId in r.value && r.value[c.cameraId] == c.intrinsics
  {
    var inWindow := IntrinsicsInWindow(records, start, end);
    r := OnePerCamera(inWindow, (c: IntrinsicRecord) => c.cameraId, (c: IntrinsicRecord) => c.intrinsics);
    if r.Success? {
      KeysFromWindow(records, inWindow, (c: IntrinsicRecord) => c.span, start, end,
        (c: IntrinsicRecord) => c.cameraId, (c: IntrinsicRecord) => c.intrinsics, r.value);
    }
  }

  /** All records lie in one coordinate space. */
  predicate OneSpace(records: seq<ExtrinsicRecord>) {
    forall i, j :: 0 <= i < |records| && 0 <= j < |records| ==> records[i].spaceId == records[j].spaceId
  }

  /** `fetch_extrinsic_calibrations`, given the records the store returned
      for the cameras: as for the intrinsic map, each entry carries its
      record's coordinate space; after the loop, records in the window
      from more than one space fail. A repeated camera is reported first. */
  method ExtrinsicCalibrations(records: seq<ExtrinsicRecord>, start: Option<Instant>, end: Option<Instant>)
    returns (r: Result<map<Id, Extrinsics>>)
    ensures var inWindow := ExtrinsicsInWindow(records, start, end);
      r.Failure? && r.error.MultipleCalibrations? <==> !KeysUnique(inWindow, (c: ExtrinsicRecord) => c.cameraId)
    ensures r.Failure? && r.error.MultipleCalibrations? ==> var inWindow := ExtrinsicsInWindow(records, start, end);
      exists i, j :: 0 <= i < j < |inWindow| && inWindow[i].cameraId == inWindow[j].cameraId
        && KeysUniqueUpTo(inWindow, (c: ExtrinsicRecord) => c.cameraId, j)
        && r.error == MultipleCalibrations(inWindow[j].cameraId)
    ensures var inWindow := ExtrinsicsInWindow(records, start, end);
      r == Failure(MultipleCoordinateSpaces) <==>
        KeysUnique(inWindow, (c: ExtrinsicRecord) => c.cameraId) && !OneSpace(inWindow)
    ensures r.Success? <==>
      var inWindow := ExtrinsicsInWindow(records, start, end);
      KeysUnique(inWindow, (c: ExtrinsicRecord) => c.cameraId) && OneSpace(inWindow)
    ensures r.Success? ==> forall k :: k in r.value <==>
      exists c :: c in records && Overlaps(c.span, start, end) && c.cameraId == k
    ensures r.Success? ==> forall c :: c in records && Overlaps(c.span, start, end) ==>
      c.cameraId in r.value && r.value[c.cameraId] == Extrinsics(c.spaceId, c.rotationVector, c.translationVector)
  {
    var inWindow := ExtrinsicsInWindow(records, start, end);
    var m :- OnePerCamera(inWindow, (c: ExtrinsicRecord) => c.cameraId,
      (c: ExtrinsicRecord) => Extrinsics(c.spaceId, c.rotationVector, c.translationVector));
    SpacesDiffer(inWindow);
    if |Seqs.Distinct(Seqs.Map(inWindow, (c: ExtrinsicRecord) => c.spaceId))| > 1 {
      return Failure(MultipleCoordinateSpaces);
    }
    KeysFromWindow(records, inWindow, (c: ExtrinsicRecord) => c.span, start, end,
      (c: ExtrinsicRecord) => c.cameraId,
      (c: ExtrinsicRecord) => Extrinsics(c.spaceId, c.rotationVector, c.translationVector), m);
    return Success(m);
  }

  /** `np.unique` of the space ids has more than one entry exactly when
      the records are not all in one space. */
  lemma SpacesDiffer(records: seq<ExtrinsicRecord>)
    ensures |Seqs.Distinct(Seqs.Map(records, (c: ExtrinsicRecord) => c.spaceId))| > 1 <==> !OneSpace(records)
  {
    var spaceIds := Seqs.Map(records, (c: ExtrinsicRecord) => c.spaceId);
    Seqs.DistinctMoreThanOne(spaceIds);
    if !OneSpace(records) {
      var i, j :| 0 <= i < |records| && 0 <= j < |records| && records[i].spaceId != records[j].spaceId;
      assert spaceIds[i] != spaceIds[j];
    }
  }

  /** The map a calibration loop built over the records in the window,
      restated over all records: a camera has an entry exactly when one of
      its records overlaps the window, and holds that record's values. */
  lemma KeysFromWindow<T(!new), V>(
    records: seq<T>, inWindow: seq<T>, span: T -> Interval, start: Option<Instant>, end: Option<Instant>,
    key: T -> Id, value: T -> V, m: map<Id, V>)
    requires forall c :: c in inWindow <==> c in records && Overlaps(span(c), start, end)
    requires forall k :: k in m <==> exists i :: 0 <= i < |inWindow| && key(inWindow[i]) == k
    requires forall i :: 0 <= i < |inWindow| ==> key(inWindow[i]) in m && m[key(inWindow[i])] == value(inWindow[i])
    ensures forall k :: k in m <==> exists c :: c in records && Overlaps(span(c), start, end) && key(c) == k
    ensures forall c :: c in records && Overlaps(span(c), start, end) ==> key(c) in m && m[key(c)] == value(c)
  {
    forall c | c in records && Overlaps(span(c), start, end)
      ensures key(c) in m && m[key(c)] == value(c)
    {
      var i :| 0 <= i < |inWindow| && inWindow[i] == c;
    }
    forall k | k in m
      ensures exists c :: c in records && Overlaps(span(c), start, end) && key(c) == k
    {
      var i :| 0 <= i < |inWindow| && key(inWindow[i]) == k;
      assert inWindow[i] in inWindow;
    }
  }

  // ---------------------------------------------------------------------
  // `fetch_camera_calibrations`
  // ---------------------------------------------------------------------

  /** A camera's merged calibration: the intrinsic and the extrinsic
      values side by side (their keys are disjoint, so the dictionary
      merge loses nothing). */
  datatype Calibration = Calibration(intrinsics: Intrinsics, extrinsics: Extrinsics)

  /** The merge loop: a requested camera gets an entry exactly when both
      maps have one; a camera missing from either is skipped, not an
      error. */
  method MergeCalibrations(cameraIds: seq<Id>, intrinsic: map<Id, Intrinsics>, extrinsic: map<Id, Extrinsics>)
    returns (merged: map<Id, Calibration>)
    ensures forall c :: c in merged <==> c in cameraIds && c in intrinsic && c in extrinsic
    ensures forall c :: c in merged ==> merged[c] == Calibration(intrinsic[c], extrinsic[c])
  {
    merged := map[];
    for i := 0 to |cameraIds|
      invariant forall c :: c in merged <==> c in cameraIds[..i] && c in intrinsic && c in extrinsic
      invariant forall c :: c in merged ==> merged[c] == Calibration(intrinsic[c], extrinsic[c])
    {
      var c := cameraIds[i];
      assert cameraIds[..i + 1] == cameraIds[..i] + [c];
      if c !in intrinsic || c !in extrinsic {
        continue;
      }
      merged := merged[c := Calibration(intrinsic[c], extrinsic[c])];
    }
    assert cameraIds[..|cameraIds|] == cameraIds;
  }

  /** `fetch_camera_calibrations`, given both stores' replies: the
      intrinsic fetch runs first and its failure wins; then the extrinsic
      fetch; then the merge. */
  method CameraCalibrations(
    cameraIds: seq<Id>, intrinsicRecords: seq<IntrinsicRecord>, extrinsicRecords: seq<ExtrinsicRecord>,
    start: Option<Instant>, end: Option<Instant>)
    returns (r: Result<map<Id, Calibration>>)
    ensures r.Success? <==>
      && KeysUnique(IntrinsicsInWindow(intrinsicRecords, start, end), (c: IntrinsicRecord) => c.cameraId)
      && KeysUnique(ExtrinsicsInWindow(extrinsicRecords, start, end), (c: ExtrinsicRecord) => c.cameraId)
      && OneSpace(ExtrinsicsInWindow(extrinsicRecords, start, end))
    ensures r.Success? ==> forall k :: k in r.value <==>
      && k in cameraIds
      && (exists c :: c in intrinsicRecords && Overlaps(c.span, start, end) && c.cameraId == k)
      && (exists c :: c in extrinsicRecords && Overlaps(c.span, start, end) && c.cameraId == k)
    ensures r.Success? ==>
      forall ci, ce :: && ci in intrinsicRecords && Overlaps(ci.span, start, end)
                       && ce in extrinsicRecords && Overlaps(ce.span, start, end)
                       && ci.cameraId == ce.cameraId && ci.cameraId in cameraIds ==>
        && ci.cameraId in r.value
        && r.value[ci.cameraId] == Calibration(ci.intrinsics, Extrinsics(ce.spaceId, ce.rotationVector, ce.translationVector))
    ensures var iw := IntrinsicsInWindow(intrinsicRecords, start, end);
      !KeysUnique(iw, (c: IntrinsicRecord) => c.cameraId) ==>
        && r.Failure?
        && (exists i, j :: 0 <= i < j < |iw| && iw[i].cameraId == iw[j].cameraId
              && KeysUniqueUpTo(iw, (c: IntrinsicRecord) => c.cameraId, j)
              && r.error == MultipleCalibrations(iw[j].cameraId))
    ensures var iw := IntrinsicsInWindow(intrinsicRecords, start, end);
      var ew := ExtrinsicsInWindow(extrinsicRecords, start, end);
      KeysUnique(iw, (c: IntrinsicRecord) => c.cameraId) && !KeysUnique(ew, (c: ExtrinsicRecord) => c.cameraId) ==>
        && r.Failure?
        && (exists i, j :: 0 <= i < j < |ew| && ew[i].cameraId == ew[j].cameraId
              && KeysUniqueUpTo(ew, (c: ExtrinsicRecord) => c.cameraId, j)
              && r.error == MultipleCalibrations(ew[j].cameraId))
    ensures var iw := IntrinsicsInWindow(intrinsicRecords, start, end);
      var ew := ExtrinsicsInWindow(extrinsicRecords, start, end);
      (KeysUnique(iw, (c: IntrinsicRecord) => c.cameraId) && KeysUnique(ew, (c: ExtrinsicRecord) => c.cameraId)
         && !OneSpace(ew)) ==> r == Failure(MultipleCoordinateSpaces)
  {
    var intrinsic :- IntrinsicCalibrations(intrinsicRecords, start, end);
    var extrinsic :- ExtrinsicCalibrations(extrinsicRecords, start, end);
    var merged := MergeCalibrations(cameraIds, intrinsic, extrinsic);
    return Success(merged);
  }

  // ---------------------------------------------------------------------
  // `fetch_camera_device_id_lookup`
  // ---------------------------------------------------------------------

  /** An assignment record read with its assigned device's id (null for
      anything that is not a device). */
  datatype AssignmentDevice = AssignmentDevice(assignmentId: Id, deviceId: Option<Id>)

  /** The dictionary from assignment id to device id, filled in record
      order: every returned assignment has an entry. */
  function DeviceIdLookup(records: seq<AssignmentDevice>): (m: map<Id, Option<Id>>)
    ensures forall a :: a in m <==> exists i :: 0 <= i < |records| && records[i].assignmentId == a
  {
    var pairs := Seqs.Map(records, (rec: AssignmentDevice) => (rec.assignmentId, rec.deviceId));
    assert forall i :: 0 <= i < |records| ==> pairs[i].0 == records[i].assignmentId;
    Seqs.LastWins(pairs)
  }

  /** An assignment's entry holds the device of its last record, and so
      the device of its only record when assignment ids are unique. */
  lemma DeviceIdLookupValue(records: seq<AssignmentDevice>, i: nat)
    requires i < |records|
    requires forall j :: i < j < |records| ==> records[j].assignmentId != records[i].assignmentId
    ensures DeviceIdLookup(records)[records[i].assignmentId] == records[i].deviceId
  {
    var pairs := Seqs.Map(records, (rec: AssignmentDevice) => (rec.assignmentId, rec.deviceId));
    Seqs.LastWinsValue(pairs, i);
  }
}
