/**
 Shared vocabulary of the honeycomb_io model: identifiers, instants, the
 Option/Result wrappers that stand for Python's `None` and raised
 `ValueError`s, and the device record the store returns in several queries.
 */
module Base {

  /** Opaque store identifiers (UUID strings in the store). */
  type Id = string

  /** An instant, as an integer count of some fixed unit since an epoch. */
  type Instant = int

  /** A nullable value: Python's `None` is `None`. */
  datatype Option<+T> = None | Some(value: T)

  /** The kinds of failure the library raises; every one of them is a
      `ValueError` in the source, distinguished here by its message. */
  datatype Error =
    | ConflictingArguments(what: string)
    | MissingName(kind: NameKind)
    | NotFound(what: string)
    | Ambiguous(what: string)
    | DuplicateAssignments(duplicated: seq<Option<Id>>)
    | MissingAssignments(missing: set<Id>)
    | MultipleCalibrations(cameraId: Id)
    | MultipleCoordinateSpaces
    | MultiplePositions(deviceName: string)
    | MultipleEntityAssignments(tagName: Option<string>)
    | UnexpectedResult
    | UnrecognizedFormat(format: string)
    | MissingColumn(column: string)

  /** Which endpoint name a create/delete call could not derive. */
  datatype NameKind = RequestName | ArgumentName | ArgumentType | IdFieldName

  /** A call either returns a value or raises. */
  datatype Result<+T> = Success(value: T) | Failure(error: Error) {
    predicate IsFailure() { Failure? }

    function PropagateFailure<U>(): Result<U>
      requires Failure?
    {
      Failure(error)
    }

    function Extract(): T
      requires Success?
    {
      value
    }
  }

  /** The device fields the store returns for `... on Device` fragments.
      Every field but the identifier may be absent. */
  datatype Device = Device(
    deviceId: Id,
    deviceType: Option<string>,
    partNumber: Option<string>,
    serialNumber: Option<string>,
    tagId: Option<string>,
    name: Option<string>)

  /** The "zero, one or too many" rule used whenever the library expects
      at most one record: nothing gives `None`, a single record is returned,
      and more than one raises `tooMany`. */
  function AtMostOne<T>(xs: seq<T>, tooMany: Error): (r: Result<Option<T>>)
    ensures r.Success? <==> |xs| <= 1
    ensures r.Failure? ==> r.error == tooMany
    ensures r.Success? && r.value.Some? <==> |xs| == 1
    ensures r.Success? && r.value.Some? ==> r.value.value == xs[0]
  {
    if |xs| == 0 then Success(None)
    else if |xs| > 1 then Failure(tooMany)
    else Success(Some(xs[0]))
  }
}
