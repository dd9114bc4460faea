/**
 Endpoint and field naming (honeycomb_io/schema.py): each name is looked
 up in the `SCHEMA` override table and, when the table has no entry for
 it, derived from the object name by a fixed string rule.

 The word-case conversions of the `inflection` package (`camelize` with a
 lower-case first letter, `underscore`) are parameters here.
 */
module Schema {
  import opened Base
  import Seqs

  /** One table entry: a value for each name it overrides. */
  datatype Overrides = Overrides(
    createEndpointName: Option<string>,
    createEndpointArgumentName: Option<string>,
    createEndpointArgumentType: Option<string>,
    searchEndpointName: Option<string>,
    deleteEndpointName: Option<string>,
    idFieldName: Option<string>)

  /** `{}`, the entry used for an object name the table does not list. */
  const NoOverrides := Overrides(None, None, None, None, None, None)

  function SearchAndId(search: Option<string>, idField: Option<string>): Overrides {
    NoOverrides.(searchEndpointName := search, idFieldName := idField)
  }

  /** The table's dictionary display, key by key as written: 'Pose3D' is
      given twice. */
  const SchemaDisplay: seq<(string, Overrides)> := [
    ("Datapoint", SearchAndId(None, Some("data_id"))),
    ("Pose2D", SearchAndId(Some("searchPoses2D"), Some("pose_id"))),
    ("Pose3D", SearchAndId(Some("searchPoses3D"), Some("pose_id"))),
    ("PoseTrack2D", SearchAndId(Some("searchPoseTracks2D"), Some("pose_track_id"))),
    ("Pose3D", SearchAndId(Some("searchPoseTracks3D"), Some("pose_track_id")))
  ]

  /** `SCHEMA`: a dictionary display keeps the last value of a repeated key. */
  const Table: map<string, Overrides> := Seqs.LastWins(SchemaDisplay)

  /** The table holds four keys; the repeated 'Pose3D' key holds its
      second entry, so its first entry has no effect. */
  lemma TableContents()
    ensures Table == map[
      "Datapoint" := SearchAndId(None, Some("data_id")),
      "Pose2D" := SearchAndId(Some("searchPoses2D"), Some("pose_id")),
      "PoseTrack2D" := SearchAndId(Some("searchPoseTracks2D"), Some("pose_track_id")),
      "Pose3D" := SearchAndId(Some("searchPoseTracks3D"), Some("pose_track_id"))]
  {
    var d := SchemaDisplay;
    assert d[..1][..0] == d[..0] == [];
    assert Seqs.LastWins(d[..1]) == map[d[0].0 := d[0].1];
    assert d[..2][..1] == d[..1];
    assert Seqs.LastWins(d[..2]) == Seqs.LastWins(d[..1])[d[1].0 := d[1].1];
    assert d[..3][..2] == d[..2];
    assert Seqs.LastWins(d[..3]) == Seqs.LastWins(d[..2])[d[2].0 := d[2].1];
    assert d[..4][..3] == d[..3];
    assert Seqs.LastWins(d[..4]) == Seqs.LastWins(d[..3])[d[3].0 := d[3].1];
    assert d[..5][..4] == d[..4];
    assert d[..5] == d;
    assert Seqs.LastWins(d) == Seqs.LastWins(d[..4])[d[4].0 := d[4].1];
  }

  /** `SCHEMA.get(object_name, {})`. */
  function Lookup(objectName: string): Overrides {
    if objectName in Table then Table[objectName] else NoOverrides
  }

  function OrElse(o: Option<string>, default: string): string {
    if o.Some? then o.value else default
  }

  /** No entry overrides the create endpoint name. */
  function CreateEndpointName(objectName: string): (r: string)
    ensures r == "create" + objectName
  {
    TableContents();
    OrElse(Lookup(objectName).createEndpointName, "create" + objectName)
  }

  /** No entry overrides the create argument name, so it is always the
      lower-first camel case of the object name. */
  function CreateEndpointArgumentName(objectName: string, camelizeLowerFirst: string -> string): (r: string)
    ensures r == camelizeLowerFirst(objectName)
  {
    TableContents();
    OrElse(Lookup(objectName).createEndpointArgumentName, camelizeLowerFirst(objectName))
  }

  /** No entry overrides the create argument type. */
  function CreateEndpointArgumentType(objectName: string): (r: string)
    ensures r == objectName + "Input"
  {
    TableContents();
    OrElse(Lookup(objectName).createEndpointArgumentType, objectName + "Input")
  }

  /** The search endpoint is overridden for the three pose objects and is
      otherwise the pluralised `search<Name>s`. */
  function SearchEndpointName(objectName: string): (r: string)
    ensures objectName == "Pose2D" ==> r == "searchPoses2D"
    ensures objectName == "Pose3D" ==> r == "searchPoseTracks3D"
    ensures objectName == "PoseTrack2D" ==> r == "searchPoseTracks2D"
    ensures objectName !in {"Pose2D", "Pose3D", "PoseTrack2D"} ==> r == "search" + objectName + "s"
  {
    TableContents();
    OrElse(Lookup(objectName).searchEndpointName, "search" + objectName + "s")
  }

  /** No entry overrides the delete endpoint name. */
  function DeleteEndpointName(objectName: string): (r: string)
    ensures r == "delete" + objectName
  {
    TableContents();
    OrElse(Lookup(objectName).deleteEndpointName, "delete" + objectName)
  }

  /** The identifier field is overridden for the four listed objects and is
      otherwise `<snake_case name>_id`. */
  function IdFieldName(objectName: string, underscore: string -> string): (r: string)
    ensures objectName == "Datapoint" ==> r == "data_id"
    ensures objectName == "Pose2D" ==> r == "pose_id"
    ensures objectName in {"Pose3D", "PoseTrack2D"} ==> r == "pose_track_id"
    ensures objectName !in {"Datapoint", "Pose2D", "Pose3D", "PoseTrack2D"} ==> r == underscore(objectName) + "_id"
  {
    TableContents();
    OrElse(Lookup(objectName).idFieldName, underscore(objectName) + "_id")
  }

  /** Worked cases: names outside the table get the plural rule verbatim,
      with no attempt at English plurals. */
  lemma SearchEndpointExamples()
    ensures SearchEndpointName("Datapoint") == "searchDatapoints"
    ensures SearchEndpointName("Device") == "searchDevices"
    ensures SearchEndpointName("Pose2D") == "searchPoses2D"
    ensures SearchEndpointName("Pose3D") == "searchPoseTracks3D"
  {
    assert "Datapoint" !in {"Pose2D", "Pose3D", "PoseTrack2D"};
    assert "Device" !in {"Pose2D", "Pose3D", "PoseTrack2D"};
  }
}
