# honeycomb_io, modelled in Dafny

`honeycomb_io` is a Python client library for the Honeycomb data store. The
store records physical sensing environments (classrooms), the devices placed
in them, which device is assigned where and when, camera calibrations, the
entities (people, trays) a tag is attached to, and the sensor data the
devices produce. This project models the library's core in Dafny:

- the generic create, search and delete operations and their naming schema
  (`core.py`, `schema.py`);
- resolving an environment from an id or a name (`environments.py`);
- the device fetches (`devices.py`). These are the characteristic search, the
  assignment and entity-assignment fetches with their uniqueness and
  completeness checks, grouping assignments by device, and device positions
  at an instant;
- the camera fetches (`cameras.py`). These are camera ids from an
  environment or from properties, the intrinsic and extrinsic calibration
  maps and their merge, the device-id lookup, and `extract_assignment`;
- the UWB fetches (`uwb_data.py`): datapoint ids and the person-tag table.

The store is not modelled. Each fetch is split into two parts:

- a function that builds the query the library sends. A small evaluator,
  `Query.HoldsOnSpan`, reads the time clauses of that query under an assumed
  store reading: a comparison with a null bound is false, and only clauses on
  `start` and `end` constrain the bounds. Lemmas then compare the store-side
  time window with the overlap rule the library applies locally
  (`Temporal.Overlaps`). The library does not define this reading; it is an
  assumption about the store.
- a function that takes the store's reply as a parameter and does what the
  library does with it: filtering, the cardinality checks, grouping, map
  building and the output-format switch.

Python's `ValueError`s become `Failure` values. Each has its own `Base.Error`
constructor, so contracts can say which check fired. Timestamps are integer
instants. A null bound is `None`.

Modules, one per file:

- `Base`: identifiers, `Option`, `Result`, errors, the `Device` record.
- `Text`: ASCII case mapping.
- `Seqs`: filter, map, distinct and subsequence, with their lemmas.
- `Temporal`: intervals and the overlap rule.
- `Query`: the query tree and its assumed reading by the store.
- `Schema`, `Core`, `Environments`, `Devices`, `Cameras`, `UwbData`: the
  source files of the same names.

## Model

| member | source | states |
|---|---|---|
| Base.AtMostOne | honeycomb_io/devices.py:876-881 | Zero records give `None` and one record gives that record. Two or more give the failure supplied, and that happens exactly when there is more than one record. |
| Text.LowerIdempotent | honeycomb_io/environments.py:77 | Lower-casing twice is lower-casing once. |
| Text.LowerIgnoresUpper | honeycomb_io/environments.py:77 | Upper-casing a string first does not change its lower-case form. The name comparison is therefore case-blind. |
| Seqs.FilterSpec | honeycomb_io/cameras.py:78-82 | Filtering keeps an order-preserving subsequence. Every kept element passes the predicate, and each element's multiplicity is kept exactly when it passes. |
| Seqs.FilterFilter | honeycomb_io/uwb_data.py:211-234 | Two filters in a row are one filter by the conjunction of their predicates. |
| Seqs.FilterCount | honeycomb_io/cameras.py:675-682 | The filtered list is empty iff no element passes. It has two or more entries iff two different positions pass. |
| Seqs.DistinctOrder | honeycomb_io/devices.py:297-319 | The distinct list has no duplicates and holds exactly the input's elements. Elements appear in order of first occurrence. |
| Seqs.LastWinsValue | honeycomb_io/cameras.py:513-516 | Building a map by successive assignment leaves each key with the value of its last occurrence. |
| Seqs.NoDuplicatesCounts | honeycomb_io/devices.py:456-465 | A list has no duplicates iff every element occurs at most once. |
| Seqs.FirstIndexFilter | honeycomb_io/uwb_data.py:215-226 | Filtering by `q` first and then searching for `p` finds the same element as searching the whole list for a predicate equivalent to both. |
| Temporal.OverlapIsSharedInstant | honeycomb_io/cameras.py:666-674 | For a well-formed record and a non-empty window, the inclusive overlap rule holds iff the record is active at some instant of the window. |
| Temporal.FilterAssignments | honeycomb_io/devices.py:780-784 | The window filter keeps an order-preserving subsequence. It holds exactly the records that overlap the window, with a null bound open on that side. |
| Temporal.OpenWindowKeepsAll | honeycomb_io/cameras.py:379-383 | With both window bounds null, every record is kept. |
| Temporal.FilterAssignmentsIdempotent | honeycomb_io/cameras.py:450-454 | Filtering an already filtered list by the same window changes nothing. |
| Temporal.FilterAssignmentsCounts | honeycomb_io/devices.py:780-784 | Each record's multiplicity survives exactly when it overlaps the window. No record is duplicated or lost. |
| Query.WindowClausesMeaning | honeycomb_io/devices.py:413-426 | Under the assumed store reading, the OR[end ISNULL, end GTE start] and start LTE end clauses select exactly the overlapping records. The exception is that a null start fails whenever a window end is given. |
| Query.ListClausesRoundTrip | honeycomb_io/devices.py:138-170 | Reading back the clauses built from optional value lists recovers each argument. A given list is found under its field, and an absent one is not. |
| Query.ListClausesShape | honeycomb_io/devices.py:138-170 | There is one clause per given list. |
| Query.ListClausesOrder | honeycomb_io/devices.py:138-170 | The clauses follow the order of the field list. |
| Schema.TableContents | honeycomb_io/schema.py:3-23 | The override table holds exactly the four object types that have overrides, each with its search endpoint and id field. |
| Schema.CreateEndpointName | honeycomb_io/schema.py:25-29 | The create request name is `create` followed by the object name. |
| Schema.CreateEndpointArgumentName | honeycomb_io/schema.py:31-35 | The argument name is the object name camelized with a lower first letter. |
| Schema.CreateEndpointArgumentType | honeycomb_io/schema.py:37-41 | The argument type is the object name followed by `Input`. |
| Schema.SearchEndpointName | honeycomb_io/schema.py:43-47 | The search endpoint comes from the override table for `Pose2D`, `Pose3D` and `PoseTrack2D`. Any other object name gives `search` + name + `s`. |
| Schema.DeleteEndpointName | honeycomb_io/schema.py:49-53 | The delete request name is `delete` followed by the object name. |
| Schema.IdFieldName | honeycomb_io/schema.py:55-59 | The id field is overridden for `Datapoint`, `Pose2D`, `Pose3D` and `PoseTrack2D`. Any other object name gives its underscored form followed by `_id`. |
| Core.GenerateClient | honeycomb_io/core.py:166-182 | A client that is passed in is used as it is. Otherwise a new client is built from the connection settings. |
| Core.ResolveCreateNames | honeycomb_io/core.py:28-43 | Resolution succeeds iff an object name is given or all four names are. A failure names the first missing one. Each supplied name wins, and each missing one is derived from the object name through the schema. |
| Core.CreateObjects | honeycomb_io/core.py:9-71 | No data gives an empty list without a store call. Otherwise a name failure propagates and a non-list reply fails. A list reply yields, position by position, the id field of each created record. |
| Core.SearchObjects | honeycomb_io/core.py:73-109 | The result is the store's answer to the AND of the query list, sent under the given request name, return fields and id field. |
| Core.ResolveDeleteNames | honeycomb_io/core.py:128-135 | Resolution succeeds iff an object name is given or both names are. A failure names the first missing one. Supplied names win over derived ones. |
| Core.DeleteObjects | honeycomb_io/core.py:111-164 | No identifiers gives `None`. Otherwise a name failure propagates, a non-list reply fails, and a list reply is returned as it is. |
| Environments.FetchEnvironmentId | honeycomb_io/environments.py:8-56 | An id together with a name fails, and an id alone is returned. With a name, no match is NotFound, several are Ambiguous and exactly one is its id. With neither, the result is `None`. |
| Environments.FirstMatch | honeycomb_io/environments.py:77-80 | The index found is the first record whose lower-cased name equals the lower-cased query. `None` means no record matches. |
| Environments.FetchEnvironmentByName | honeycomb_io/environments.py:58-80 | An empty table fails on the missing `name` column. No match gives `None`, and otherwise the first case-blind match is returned. |
| Environments.ByNameIgnoresCase | honeycomb_io/environments.py:77 | Looking up the upper-cased name gives the same answer as the name itself. |
| Devices.FormatOutput | honeycomb_io/devices.py:472-477 | `list` returns the records and `dataframe` returns one row per record. With no records, `dataframe` returns a single all-null row. Any other format fails, naming the format. |
| Devices.Duplicated | honeycomb_io/devices.py:456-461 | The ids reported are exactly those that occur more than once. Each is reported once, in order of first occurrence. None are reported iff there is no duplicate. |
| Devices.Missing | honeycomb_io/devices.py:466-467 | The missing ids are exactly the requested ids no returned record names. |
| Devices.Validate | honeycomb_io/devices.py:456-471 | The checks pass iff neither enabled check finds anything. The duplicate check runs first and reports `Duplicated`, and the completeness check reports `Missing`. |
| Devices.CheckedOutput | honeycomb_io/devices.py:456-477 | The output switch runs only when the checks pass. |
| Devices.DevicesInWindowQuery | honeycomb_io/devices.py:412-426 | The query has the CONTAINED_BY clause on the given ids first, followed by the window clauses. |
| Devices.DevicesInWindowQueryMeaning | honeycomb_io/devices.py:413-426 | Under the assumed store reading, the query keeps the records that overlap the window. A null start fails against a given window end. |
| Devices.AssignmentRowOf | honeycomb_io/devices.py:479-504 | A row carries the assignment's id, device, start and end, and the id and name of its environment. An absent environment reads as the all-null environment, so those two columns are then null. |
| Devices.NoDeviceIdsPassChecks | honeycomb_io/devices.py:412-455 | Without a non-null id, no search is made and the result is the output of the empty list whatever the checks are. |
| Devices.AssignmentChecksOrder | honeycomb_io/devices.py:441-477 | The assignment fetch fails with DuplicateAssignments exactly when uniqueness is required and `Duplicated` is non-empty. |
| Devices.EntityAssignmentRowOf | honeycomb_io/devices.py:606-664 | A row carries the entity-assignment fields and the entity's ids and type. The entity name goes to the tray column exactly when the upper-cased entity type is `TRAY`, and to the person column exactly when it is `PERSON`. So it never goes to both. |
| Devices.EntityChecksOrder | honeycomb_io/devices.py:583-604 | The entity fetch searches by the `device` field and applies the same checks and output switch. |
| Devices.EntityDefaultsAllowMissing | honeycomb_io/devices.py:510-511 | With the default switches, the entity fetch never fails because an id has no entity assignment. |
| Devices.CharacteristicQuery | honeycomb_io/devices.py:138-170 | There is one CONTAINED_BY clause per given characteristic, in field order. Reading the clauses back recovers each characteristic. |
| Devices.Grouped | honeycomb_io/devices.py:297-319 | There is one group per distinct device id, in order of first appearance. |
| Devices.GroupedDistinct | honeycomb_io/devices.py:297-319 | The groups are for distinct devices, and every assignment's device has a group. |
| Devices.GroupByDevice | honeycomb_io/devices.py:297-319 | The dictionary-building loop computes exactly `Grouped`. Each device keeps the fields of its first assignment and the summaries of all its assignments in input order. |
| Devices.AssignmentCriteria | honeycomb_io/devices.py:244-259 | The criteria are empty iff there is no environment and no window. |
| Devices.AssignmentSearchAsWritten | honeycomb_io/devices.py:244-265 | As written, the query is always sent. |
| Devices.AsWrittenSearchesEverything | honeycomb_io/devices.py:260-265 | With no criteria, the query as written is the lone DEVICE clause, which every assignment satisfies. |
| Devices.AssignmentSearch | honeycomb_io/devices.py:244-265 | As intended, there is no query without criteria. Otherwise the query is the criteria, led by the environment clause when one is given, followed by the DEVICE clause. |
| Devices.AssignmentSearchMeaning | honeycomb_io/devices.py:244-265 | Under the assumed store reading, the intended query keeps exactly the assignments that overlap the window. A null start fails against a window end. |
| Devices.ResolveEnvironment | honeycomb_io/devices.py:230-243 | A given id is used as it is. Otherwise the name is resolved as `fetch_environment_id` does. |
| Devices.DeviceRowOf | honeycomb_io/devices.py:327-395 | A device row carries the device's id, type, part number, serial number, tag id and name. |
| Devices.FetchDevices | honeycomb_io/devices.py:118-325 | With characteristics, the searched devices are returned, filtered by the assignment collaborator when an environment or window is given. With no characteristics, a failed name resolution propagates. A resolved environment or a window gives the grouped assignment search. With no criteria at all, including a name that resolves to a null id with no window, the result is an empty list: this is the corrected exit, and the source's missed exit at devices.py:260-262 is the first Findings row. |
| Devices.FetchDeviceAssignments | honeycomb_io/devices.py:397-477 | Null ids are dropped. With no id left nothing is searched. The fetch succeeds iff the uniqueness and completeness checks that are switched on pass and the format is `list` or `dataframe`. A list holds the records. A dataframe has one row per record, or the single all-null row when no record came back. |
| Devices.FetchDeviceEntityAssignments | honeycomb_io/devices.py:506-604 | The same for entity assignments: success iff the checks that are on pass and the format is known. The list holds the records. The dataframe has one entity row per record, or the single all-null row when there is none. |
| Devices.CharacteristicSearchFiltered | honeycomb_io/devices.py:204-227 | The devices kept are exactly the searched devices that the assignment filter accepts, in search order. |
| Devices.EnvironmentDevicesQuery | honeycomb_io/devices.py:735-778 | The query asks for the environment's DEVICE assignments. |
| Devices.PositionsOf | honeycomb_io/devices.py:788-813 | A failure of the position loop names a candidate device that has two active positions at `t`. |
| Devices.PositionsOfFailure | honeycomb_io/devices.py:788-813 | The position loop fails iff some candidate device has two active positions. The error names the first such device. |
| Devices.PositionsOfKeys | honeycomb_io/devices.py:788-813 | On success, the devices placed are exactly those some candidate places at `t`. |
| Devices.PositionsOfValues | honeycomb_io/devices.py:788-813 | On success, each device holds the position given by its last placing candidate. |
| Devices.CandidatesAsWritten | honeycomb_io/devices.py:780-786 | As written, the candidates are every assignment of a requested type, whether active or not. |
| Devices.DevicePositionsAsWritten | honeycomb_io/devices.py:716-814 | As written, every placed device comes from an assignment of a requested type. Nothing requires that assignment to be active. |
| Devices.EndedAssignmentStillPlaced | honeycomb_io/devices.py:780-786 | A device whose environment assignment ended before `t`, but which has a position at `t`, is placed by the code as written. The intended code does not place it. |
| Devices.Candidates | honeycomb_io/devices.py:780-786 | As intended, the candidates are exactly the assignments active at `t` that have a requested type. They form a subsequence of the time-filtered list. |
| Devices.DevicePositions | honeycomb_io/devices.py:716-814 | As intended, every placed device's environment assignment is active at `t` and has a requested type. |
| Devices.DevicePositionsExact | honeycomb_io/devices.py:716-814 | The intended fetch fails iff an assignment active at `t` with a requested type has a device with two active positions. Otherwise it places exactly the devices such an assignment places. |
| Devices.PlacedDevicesAreActive | honeycomb_io/devices.py:780-813 | Every device the intended fetch places has an active assignment of a requested type that places it. |
| Devices.DevicePositionQuery | honeycomb_io/devices.py:834-875 | Apart from its time clauses, the position query has exactly one clause: it selects the assigned device. |
| Devices.DevicePositionQueryMeaning | honeycomb_io/devices.py:834-875 | Under the assumed store reading, the position query keeps exactly the assignments active at `t` that have a start. |
| Devices.FetchDevicePosition | honeycomb_io/devices.py:816-881 | No matching record gives `None` and one gives its position. Several fail, and only then, with Ambiguous("position assignment"). |
| Cameras.ExtractAssignment | honeycomb_io/cameras.py:661-682 | No record in the window gives `None` and a sole record in the window is returned. The fetch fails with Ambiguous exactly when two records are in the window. |
| Cameras.ExtractSoleMatch | honeycomb_io/cameras.py:666-682 | When exactly one record lies in the window, it is the one returned. |
| Cameras.CameraDeviceIds | honeycomb_io/cameras.py:604-659 | No environment fails with NotFound and several fail with Ambiguous. Otherwise the ids form a subsequence of the assigned device ids, and they are exactly those of camera-type devices in the window. Each id occurs once for every camera assignment of that device in the window. In order, the ids are those of a subsequence of the environment's assignments that keeps each assignment in the window as often as it occurs and no other. |
| Cameras.CameraSelection | honeycomb_io/cameras.py:73-84 | The selected assignments are the window's assignments of camera-type devices, in order. |
| Cameras.SelectionIsFilter | honeycomb_io/cameras.py:73-84 | The window filter followed by the camera-type filter is a single filter. |
| Cameras.CamerasInEnvironment | honeycomb_io/cameras.py:15-86 | A failed environment resolution propagates, and no environment gives `None`. Otherwise, no selected camera fails with NotFound. On success the list is non-empty, in assignment order, and equals the projection of the environment's assignments that overlap the window and have a camera type, repeats included. |
| Cameras.CameraIdsFromEnvironment | honeycomb_io/cameras.py:15-86 | A failed environment lookup fails the same way, and no environment gives `None`. A resolved environment fails with NotFound exactly when none of its assignments is a camera in the window. Otherwise the list is the device id of every camera assignment of the environment in the window, in assignment order, repeats included. |
| Cameras.CameraAssignmentIdsFromEnvironment | honeycomb_io/cameras.py:88-160 | A failed environment lookup fails the same way, and no environment gives `None`. A resolved environment fails with NotFound exactly when none of its assignments is a camera in the window. Otherwise the list is the id of every camera assignment of the environment in the window, in assignment order. |
| Cameras.PropertyQuery | honeycomb_io/cameras.py:179-204 | There is one IN clause per given property, in field order. Reading the clauses back recovers each property. |
| Cameras.CameraIdsFromProperties | honeycomb_io/cameras.py:162-235 | Ids together with narrowing properties fail, and ids alone are returned. With nothing to search on, the result is `None`. Otherwise an empty search fails with NotFound, and a non-empty one gives the device ids. |
| Cameras.OnePerCamera | honeycomb_io/cameras.py:385-397 | The map is built iff every camera occurs once. Its keys are the cameras and each maps to its record's value. A failure names the first repeated camera. |
| Cameras.IntrinsicCalibrations | honeycomb_io/cameras.py:379-398 | Several intrinsic calibrations of one camera in the window fail, naming the camera of the first record that repeats an earlier one. Otherwise the map is keyed by exactly the cameras calibrated in the window, with their values. |
| Cameras.ExtrinsicCalibrations | honeycomb_io/cameras.py:450-473 | A repeated camera fails with MultipleCalibrations naming the camera of the first record that repeats an earlier one. Otherwise, more than one coordinate space fails with MultipleCoordinateSpaces. On success the map has exactly the window's cameras and their extrinsics. |
| Cameras.SpacesDiffer | honeycomb_io/cameras.py:471-472 | More than one distinct coordinate space exists iff not all records share one. |
| Cameras.MergeCalibrations | honeycomb_io/cameras.py:315-328 | A camera is in the merge iff it was requested and has both calibrations. Its value is the pair. |
| Cameras.CameraCalibrations | honeycomb_io/cameras.py:279-328 | The fetch succeeds iff both calibration maps build. A repeated intrinsic camera fails first, then a repeated extrinsic camera, each naming the first repeat; then several coordinate spaces fail. On success the keys are the requested cameras that have both calibrations. Each holds its intrinsic record's values beside its extrinsic record's space, rotation and translation. |
| Cameras.DeviceIdLookup | honeycomb_io/cameras.py:513-516 | The lookup's keys are exactly the assignment ids returned. |
| Cameras.DeviceIdLookupValue | honeycomb_io/cameras.py:513-516 | Each assignment id maps to the device id of its last record. |
| UwbData.UwbDataIdsQuery | honeycomb_io/uwb_data.py:125-129 | The query has the timestamp GTE and LTE clauses, then the `source` IN clause over exactly the given assignment ids. |
| UwbData.UwbDataIds | honeycomb_io/uwb_data.py:113-148 | The result is the `data_id` of each datapoint the store returns for that query, position by position. |
| UwbData.PersonTagQuery | honeycomb_io/uwb_data.py:162-170 | Apart from its time clauses, the query only selects the environment and assignments of devices, and it has both of those clauses. |
| UwbData.PersonTagQueryMeaning | honeycomb_io/uwb_data.py:162-170 | Under the assumed store reading, the query keeps exactly the assignments that overlap the window and have a start. |
| UwbData.PersonTagInfo | honeycomb_io/uwb_data.py:150-249 | The only failures are a tag with several entity assignments and a table with no rows. |
| UwbData.PersonTagInfoOverloaded | honeycomb_io/uwb_data.py:215-226 | The fetch fails with MultipleEntityAssignments iff some UWB tag has more than one entity assignment in the window. The error names the first such tag. |
| UwbData.PersonTagInfoTabulates | honeycomb_io/uwb_data.py:211-248 | Without such a tag, the fetch fails if no person tag remains. Otherwise it returns one row per person tag, in order. |
| UwbData.PersonTagInfoEmpty | honeycomb_io/uwb_data.py:235-248 | With no person tag left, the fetch fails on the missing `assignment_id` column. |
| UwbData.PersonTagInfoRows | honeycomb_io/uwb_data.py:211-246 | The rows are exactly those of the UWB tags whose sole window entity assignment is a person, in order. |
| UwbData.PersonTagsAreFiltered | honeycomb_io/uwb_data.py:211-234 | The three filter stages are one filter by `IsPersonTag`. |
| UwbData.PersonTagRowIsSoleEntity | honeycomb_io/uwb_data.py:227-246 | A person tag's row carries the fields of its one entity assignment in the window, which is a person. |

## Left out

- Store I/O, the GraphQL client, authentication and chunking are left out. Store replies are parameters, and the request each fetch sends is a separate function.
- `fetch_all_devices`, `fetch_device_ids` and the current-assignment helpers are left out: they only wrap the same searches without any checks of their own.
- `generate_device_dataframe` is reduced to its device columns. The current-assignment columns and the sorting are left out, as is the index (`set_index`) each dataframe builder puts on its id column.
- Datetime parsing and formatting (`utils.py`) are left out. Instants are integers, and the conversion is taken to preserve order.
- `fetch_entity_info` and `write_position_data` are left out: one is a plain query and the other writes to a file.
- `fetch_camera_names` and `fetch_camera_info` are left out. The first builds a dictionary from device id to name out of one device search. The second builds a dictionary per device from `extract_assignment` of its intrinsic and extrinsic calibrations, skipping devices that lack either; the device-id lookup and `extract_assignment` it uses are modelled.
- `add_person_tag_info` is left out: it is a pandas join. The UWB JSON payload parsing (`fetch_uwb_data_data_id`, `extract_position_data`) is left out too.
- Logging is left out.
- Query.HoldsOnSpan: the store's reading of a query is assumed, not derived from the library, which only sends the query. A comparison with a null field is taken to be false, `ISNULL` holds exactly on a null field, and only `start`/`end` clauses are read. So the statements that a null start fails against a window end hold under this assumption only.
- The calibration and device-id-lookup store queries (`device IN ids`, `assignment_id IN ids`) run in the store. The model takes their replies.
- Text.Lower: covers ASCII letters only. Python's `str.lower` is full Unicode, which Dafny strings cannot express simply.
- Text.Upper: covers ASCII letters only, while Python's `str.upper` is full Unicode. A non-ASCII entity type that Python would upper-case to `TRAY` or `PERSON` is not matched.
- `inflection.camelize` and `inflection.underscore` are function parameters, since their word rules are third-party code.
- `minimal_honeycomb.filter_assignments` is not part of this model. It is modelled by the inclusive overlap rule it is documented to implement (`Temporal.FilterAssignments`).
- `honeycomb_io.environments.filter_assignments`, which `fetch_devices` calls but the repository does not define, is the predicate parameter `hasMatchingAssignment`.
- Entity-assignment rows keep only the columns the fetch's checks and partners use.
- Positions and calibration matrices are kept opaque. No geometry is modelled.
- pandas raises a `KeyError` when `fetch_environment_by_name` receives an empty table, and when `fetch_person_tag_info` is left with no rows. The code is followed here: both are `MissingColumn` failures. With a non-empty table and no match, `fetch_environment_by_name` instead returns `None` (environments.py:80).
- The device fetches call `search_objects` with an `object_name=` keyword (devices.py:189, 285, 442 and 569), but `search_objects` (core.py:73-85) has no such parameter. In the source those calls raise a `TypeError`. The model assumes the search goes through, sent under the request name the schema gives the object.
- `utils.parse_data_sequence` and `utils.parse_data_id_sequence`, which the mutation helpers call (core.py:44 and 136), are not defined in utils.py and are not part of this model. The mutations send their data and ids unchanged.
- Devices.AssignmentRowOf: an `environment` key that is present but null raises `AttributeError` in the source. The model has no such value: the environment is always a record, and an absent key is the all-null record.
- Devices.EntityAssignmentRowOf: the same for a present but null `entity`. A present but null `entity_type` is also not represented; it reads as the empty type.
- UwbData.PersonTagInfo: its own contract names only the possible errors. The full statement is split into the lemmas `PersonTagInfoOverloaded`, `PersonTagInfoTabulates`, `PersonTagInfoEmpty` and `PersonTagInfoRows`.

## Findings

| source | as written | input that shows it | evidently intended | confidence | as-written member | corrected member |
|---|---|---|---|---|---|---|
| honeycomb_io/devices.py:260-262 | `query_list` is always a list, so the `is None` test meant to stop a search without criteria never fires. The lone DEVICE clause is then sent. | `fetch_devices()` with no characteristics, environment or window | no criteria returns no devices | not executed | Devices.AsWrittenSearchesEverything | Devices.AssignmentSearch |
| honeycomb_io/devices.py:780-786 | The device-type filter reads `result` rather than the time-filtered list, which discards the time filter. | An assignment that ended before `t` for a device with a position active at `t` | only devices assigned to the environment at `t` are placed | not executed | Devices.EndedAssignmentStillPlaced | Devices.PlacedDevicesAreActive |
