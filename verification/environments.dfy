/**
 Environment lookup (honeycomb_io/environments.py): resolving an
 environment name to its identifier through the store, and finding an
 environment record by case-insensitive name.
 */
module Environments {
  import opened Base
  import Text

  /** `fetch_environment_id`. `matches` is the `environment_id` of each
      record the store returns for the `findEnvironments` name query; it is
      consulted only when a name, and no identifier, is given. An explicit
      identifier is returned unchanged, and giving both is an error. */
  function FetchEnvironmentId(environmentId: Option<Id>, environmentName: Option<string>, matches: seq<Option<Id>>)
    : (r: Result<Option<Id>>)
    ensures environmentId.Some? && environmentName.Some? ==> r.Failure? && r.error.ConflictingArguments?
    ensures environmentId.Some? && environmentName.None? ==> r == Success(environmentId)
    ensures environmentId.None? && environmentName.None? ==> r == Success(None)
    ensures environmentId.None? && environmentName.Some? ==>
      && (|matches| == 0 <==> r.Failure? && r.error.NotFound?)
      && (|matches| > 1 <==> r.Failure? && r.error.Ambiguous?)
      && (|matches| == 1 <==> r.Success?)
      && (|matches| == 1 ==> r == Success(matches[0]))
  {
    if environmentId.Some? then
      if environmentName.Some? then Failure(ConflictingArguments("environment_id, environment_name"))
      else Success(environmentId)
    else if environmentName.Some? then
      if |matches| == 0 then Failure(NotFound("environment"))
      else if |matches| > 1 then Failure(Ambiguous("environment"))
      else Success(matches[0])
    else Success(None)
  }

  /** One record of the `environments` query. */
  datatype EnvironmentRow = EnvironmentRow(environmentId: Option<Id>, name: Option<string>)

  /** The row's name, lower-cased, equals the lower-cased target; a row
      with a null name never matches. */
  predicate NameMatches(row: EnvironmentRow, environmentName: string) {
    row.name.Some? && Text.Lower(row.name.value) == Text.Lower(environmentName)
  }

  /** Index of the first row whose name matches, if any. */
  function FirstMatch(rows: seq<EnvironmentRow>, environmentName: string): (k: Option<nat>)
    ensures k.Some? ==>
      && k.value < |rows|
      && NameMatches(rows[k.value], environmentName)
      && forall j :: 0 <= j < k.value ==> !NameMatches(rows[j], environmentName)
    ensures k.None? ==> forall j :: 0 <= j < |rows| ==> !NameMatches(rows[j], environmentName)
    decreases |rows|
  {
    if |rows| == 0 then None
    else if NameMatches(rows[0], environmentName) then Some(0)
    else
      match FirstMatch(rows[1..], environmentName)
      case None => None
      case Some(k) => Some(k + 1)
  }

  /** `fetch_environment_by_name`: the first environment whose name equals
      `environmentName` ignoring case, or none. With no environments at all
      the data frame has no `name` column and the lookup fails. */
  function FetchEnvironmentByName(environmentName: string, rows: seq<EnvironmentRow>): (r: Result<Option<EnvironmentRow>>)
    ensures |rows| == 0 <==> r == Failure(MissingColumn("name"))
    ensures r.Success? && r.value.None? <==> |rows| > 0 && forall j :: 0 <= j < |rows| ==> !NameMatches(rows[j], environmentName)
    ensures r.Success? && r.value.Some? ==>
      var k := FirstMatch(rows, environmentName);
      k.Some? && rows[k.value] == r.value.value
  {
    if |rows| == 0 then Failure(MissingColumn("name"))
    else
      match FirstMatch(rows, environmentName)
      case None => Success(None)
      case Some(k) => Success(Some(rows[k]))
  }

  /** The lookup does not depend on the case of the name asked for. */
  lemma {:induction false} ByNameIgnoresCase(environmentName: string, rows: seq<EnvironmentRow>)
    ensures FetchEnvironmentByName(Text.Upper(environmentName), rows) == FetchEnvironmentByName(environmentName, rows)
  {
    Text.LowerIgnoresUpper(environmentName);
    FirstMatchCongruent(rows, Text.Upper(environmentName), environmentName);
  }

  /** Two targets that lower-case alike find the same first row. */
  lemma {:induction false} FirstMatchCongruent(rows: seq<EnvironmentRow>, a: string, b: string)
    requires Text.Lower(a) == Text.Lower(b)
    ensures FirstMatch(rows, a) == FirstMatch(rows, b)
    decreases |rows|
  {
    if |rows| > 0 {
      FirstMatchCongruent(rows[1..], a, b);
    }
  }
}
