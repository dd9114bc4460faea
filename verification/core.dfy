/**
 The create/search/delete wrappers of honeycomb_io/core.py and the client
 factory they share.

 The store is a parameter: a function from the request the wrapper sends
 to the reply it gets back. A wrapper that returns before calling the store
 therefore gives a result that does not depend on that parameter.
 */
module Core {
  import opened Base
  import Schema
  import Query

  /** A record sent to or returned by the store: field name to value. */
  type Record = map<string, string>

  /** `datum.get(field)`. */
  function Get(datum: Record, field: string): Option<string> {
    if field in datum then Some(datum[field]) else None
  }

  /** Connection parameters used to build a client when none is supplied. */
  datatype ConnectionConfig = ConnectionConfig(
    uri: Option<string>,
    tokenUri: Option<string>,
    audience: Option<string>,
    clientId: Option<string>,
    clientSecret: Option<string>)

  /** A store client: one the caller already holds, or a fresh
      `MinimalHoneycombClient` built from connection parameters. */
  datatype Client = ExistingClient(handle: nat) | MinimalClient(config: ConnectionConfig)

  /** `generate_client`: a supplied client is used as it is; otherwise a new
      one is built from the connection parameters. */
  function GenerateClient(client: Option<Client>, config: ConnectionConfig): (r: Client)
    ensures client.Some? ==> r == client.value
    ensures client.None? ==> r.MinimalClient? && r.config == config
  {
    if client.Some? then client.value else MinimalClient(config)
  }

  /** What a bulk mutation sends: either whole records or bare identifiers. */
  datatype Payload = Records(records: seq<Record>) | Ids(ids: seq<Id>)

  /** `client.bulk_mutation(request_name, arguments={argument_name:
      {'type': argument_type, 'value': payload}}, return_object=fields)`. */
  datatype BulkMutation = BulkMutation(
    requestName: string,
    argumentName: string,
    argumentType: string,
    payload: Payload,
    returnFields: seq<string>,
    chunkSize: nat)

  /** `client.bulk_query(request_name, arguments={'query': {'type':
      'QueryExpression!', 'value': query}}, ...)`. */
  datatype BulkQuery = BulkQuery(
    requestName: string,
    query: Query.QueryNode,
    returnData: seq<string>,
    idFieldName: string,
    chunkSize: nat)

  /** A mutation reply: a list, or anything else. */
  datatype Reply = ListReply(items: seq<Record>) | OtherReply

  /** The four names a create request needs. */
  datatype CreateNames = CreateNames(
    requestName: string,
    argumentName: string,
    argumentType: string,
    idFieldName: string)

  /** The first name (in the order request name, argument name, argument
      type, ID field) that was not supplied; `None` if all were. */
  function FirstMissing(requestName: Option<string>, argumentName: Option<string>,
                        argumentType: Option<string>, idFieldName: Option<string>): Option<NameKind>
  {
    if requestName.None? then Some(RequestName)
    else if argumentName.None? then Some(ArgumentName)
    else if argumentType.None? then Some(ArgumentType)
    else if idFieldName.None? then Some(IdFieldName)
    else None
  }

  /** Each name is taken as supplied or, when missing, derived from the
      object name by the schema; with neither, the first missing name
      fails. */
  function ResolveCreateNames(
    objectName: Option<string>,
    requestName: Option<string>, argumentName: Option<string>,
    argumentType: Option<string>, idFieldName: Option<string>,
    camelizeLowerFirst: string -> string, underscore: string -> string): (r: Result<CreateNames>)
    ensures r.Success? <==> objectName.Some? || FirstMissing(requestName, argumentName, argumentType, idFieldName).None?
    ensures r.Failure? ==> r.error == MissingName(FirstMissing(requestName, argumentName, argumentType, idFieldName).value)
    ensures r.Success? && requestName.Some? ==> r.value.requestName == requestName.value
    ensures r.Success? && argumentName.Some? ==> r.value.argumentName == argumentName.value
    ensures r.Success? && argumentType.Some? ==> r.value.argumentType == argumentType.value
    ensures r.Success? && idFieldName.Some? ==> r.value.idFieldName == idFieldName.value
    ensures r.Success? && requestName.None? ==> r.value.requestName == "create" + objectName.value
    ensures r.Success? && argumentName.None? ==> r.value.argumentName == camelizeLowerFirst(objectName.value)
    ensures r.Success? && argumentType.None? ==> r.value.argumentType == objectName.value + "Input"
    ensures r.Success? && idFieldName.None? ==> r.value.idFieldName == Schema.IdFieldName(objectName.value, underscore)
  {
    if requestName.None? && objectName.None? then Failure(MissingName(RequestName))
    else if argumentName.None? && objectName.None? then Failure(MissingName(ArgumentName))
    else if argumentType.None? && objectName.None? then Failure(MissingName(ArgumentType))
    else if idFieldName.None? && objectName.None? then Failure(MissingName(IdFieldName))
    else
      Success(CreateNames(
        if requestName.Some? then requestName.value else Schema.CreateEndpointName(objectName.value),
        if argumentName.Some? then argumentName.value
        else Schema.CreateEndpointArgumentName(objectName.value, camelizeLowerFirst),
        if argumentType.Some? then argumentType.value else Schema.CreateEndpointArgumentType(objectName.value),
        if idFieldName.Some? then idFieldName.value else Schema.IdFieldName(objectName.value, underscore)))
  }

  /** The mutation `create_objects` sends for resolved names. */
  function CreateMutation(names: CreateNames, data: seq<Record>, chunkSize: nat): BulkMutation {
    BulkMutation(names.requestName, names.argumentName, names.argumentType, Records(data), [names.idFieldName], chunkSize)
  }

  /** `create_objects`: no data gives no identifiers, whatever the names
      and the store: no name is checked and the store is not called;
      otherwise the names are resolved, the
      records are sent, a reply that is not a list fails, and the result is
      the ID field of each returned record, one per record, in order. */
  function CreateObjects(
    objectName: Option<string>, data: Option<seq<Record>>,
    requestName: Option<string>, argumentName: Option<string>,
    argumentType: Option<string>, idFieldName: Option<string>,
    chunkSize: nat, store: BulkMutation -> Reply,
    camelizeLowerFirst: string -> string, underscore: string -> string): (r: Result<seq<Option<string>>>)
    ensures data.None? ==> r == Success([])
    ensures data.Some? ==>
      var names := ResolveCreateNames(objectName, requestName, argumentName, argumentType, idFieldName,
                                      camelizeLowerFirst, underscore);
      && (names.Failure? ==> r == Failure(names.error))
      && (names.Success? ==>
            var reply := store(CreateMutation(names.value, data.value, chunkSize));
            && (reply.OtherReply? ==> r == Failure(UnexpectedResult))
            && (reply.ListReply? ==>
                  && r.Success? && |r.value| == |reply.items|
                  && forall i :: 0 <= i < |reply.items| ==>
                       r.value[i] == Get(reply.items[i], names.value.idFieldName)))
  {
    if data.None? then Success([])
    else
      var names :- ResolveCreateNames(objectName, requestName, argumentName, argumentType, idFieldName,
                                      camelizeLowerFirst, underscore);
      var reply := store(CreateMutation(names, data.value, chunkSize));
      if reply.OtherReply? then Failure(UnexpectedResult)
      else Success(seq(|reply.items|, i requires 0 <= i < |reply.items| => Get(reply.items[i], names.idFieldName)))
  }

  /** The query `search_objects` sends: a single AND node whose children are
      exactly the given clauses. */
  function SearchQuery(requestName: string, queryList: seq<Query.QueryNode>, returnData: seq<string>,
                       idFieldName: string, chunkSize: nat): (q: BulkQuery)
    ensures q.query.Combine? && q.query.connective == Query.And && q.query.children == queryList
    ensures q.requestName == requestName && q.idFieldName == idFieldName
  {
    BulkQuery(requestName, Query.Combine(Query.And, queryList), returnData, idFieldName, chunkSize)
  }

  /** `search_objects`: the store's answer to the AND-wrapped query, as it is. */
  function SearchObjects<T>(requestName: string, queryList: seq<Query.QueryNode>, returnData: seq<string>,
                            idFieldName: string, chunkSize: nat, store: BulkQuery -> seq<T>): (r: seq<T>)
    ensures exists q: BulkQuery :: && q.query == Query.Combine(Query.And, queryList)
                                   && q.requestName == requestName && q.returnData == returnData
                                   && q.idFieldName == idFieldName && r == store(q)
  {
    var q := SearchQuery(requestName, queryList, returnData, idFieldName, chunkSize);
    store(q)
  }

  /** The two names a delete request needs, each supplied or derived from
      the object name; with neither, the first missing one fails. */
  function ResolveDeleteNames(objectName: Option<string>, requestName: Option<string>, idFieldName: Option<string>,
                              underscore: string -> string): (r: Result<(string, string)>)
    ensures r.Success? <==> objectName.Some? || (requestName.Some? && idFieldName.Some?)
    ensures r.Failure? ==> r.error == MissingName(if requestName.None? then RequestName else IdFieldName)
    ensures r.Success? ==> r.value.0 == if requestName.Some? then requestName.value else "delete" + objectName.value
    ensures r.Success? ==> r.value.1 == if idFieldName.Some? then idFieldName.value
                                         else Schema.IdFieldName(objectName.value, underscore)
  {
    if requestName.None? && objectName.None? then Failure(MissingName(RequestName))
    else if idFieldName.None? && objectName.None? then Failure(MissingName(IdFieldName))
    else
      Success((if requestName.Some? then requestName.value else Schema.DeleteEndpointName(objectName.value),
               if idFieldName.Some? then idFieldName.value else Schema.IdFieldName(objectName.value, underscore)))
  }

  /** The mutation `delete_objects` sends: the identifiers under the ID
      field name, typed 'ID', asking for status and error. */
  function DeleteMutation(requestName: string, idFieldName: string, ids: seq<Id>, chunkSize: nat): BulkMutation {
    BulkMutation(requestName, idFieldName, "ID", Ids(ids), ["status", "error"], chunkSize)
  }

  /** `delete_objects`: no identifiers gives no status and no store call;
      otherwise a reply that is not a list fails and a list is returned as
      it is. */
  function DeleteObjects(
    objectName: Option<string>, ids: Option<seq<Id>>,
    requestName: Option<string>, idFieldName: Option<string>,
    chunkSize: nat, store: BulkMutation -> Reply, underscore: string -> string): (r: Result<Option<seq<Record>>>)
    ensures ids.None? ==> r == Success(None)
    ensures ids.Some? ==>
      var names := ResolveDeleteNames(objectName, requestName, idFieldName, underscore);
      && (names.Failure? ==> r == Failure(names.error))
      && (names.Success? ==>
            var reply := store(DeleteMutation(names.value.0, names.value.1, ids.value, chunkSize));
            && (reply.OtherReply? ==> r == Failure(UnexpectedResult))
            && (reply.ListReply? ==> r == Success(Some(reply.items))))
  {
    if ids.None? then Success(None)
    else
      var names :- ResolveDeleteNames(objectName, requestName, idFieldName, underscore);
      var reply := store(DeleteMutation(names.0, names.1, ids.value, chunkSize));
      if reply.OtherReply? then Failure(UnexpectedResult) else Success(Some(reply.items))
  }
}
