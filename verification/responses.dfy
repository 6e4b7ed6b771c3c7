/** What the completion handlers of the table client receive: the routing of a
    session's answer (error, body, or neither) and the reading of a delete response. */
module Responses {
  import opened Common
  import opened Wire
  import opened Fields
  import opened Decoder

  /** What a delete completion receives. */
  datatype DeleteResult = DeleteResult(deleted: bool, error: Option<AirtableError>)

  /** The `do`/`catch` around the body of a delete response: only a parsed object with
      a boolean `deleted` member succeeds. */
  function DeleteResponse(payload: Payload): (r: DeleteResult)
    ensures r.error.None? <==>
      payload.Parsed? && payload.json.JObject? && "deleted" in payload.json.members
      && payload.json.members["deleted"].JBool?
    ensures r.error.None? ==> r.deleted == payload.json.members["deleted"].b
    ensures r.error.Some? ==> r == DeleteResult(false, Some(InvalidFormat))
  {
    match payload
    case Unparsable => DeleteResult(false, Some(InvalidFormat))
    case Parsed(j) =>
      if j.JObject? && "deleted" in j.members && j.members["deleted"].JBool?
      then DeleteResult(j.members["deleted"].b, None)
      else DeleteResult(false, Some(InvalidFormat))
  }

  /** The data task handler of `deleteObject`: a session error is passed on as is, a
      body is interpreted, and when the session reports neither the completion is
      never called (`None`). */
  function DeleteCompletion(sessionError: Option<string>, data: Option<Payload>): (r: Option<DeleteResult>)
    ensures r.Some? <==> sessionError.Some? || data.Some?
    ensures sessionError.Some? ==> r == Some(DeleteResult(false, Some(Transport(sessionError.value))))
    ensures sessionError.None? && data.Some? ==> r == Some(DeleteResponse(data.value))
  {
    if sessionError.Some? then Some(DeleteResult(false, Some(Transport(sessionError.value))))
    else if data.Some? then Some(DeleteResponse(data.value))
    else None
  }

  /** A body `{"deleted": true}` reports success, `{}` is a format error, and a
      session failure reports that failure rather than a format error. */
  lemma DeleteExamples(reason: string)
    ensures DeleteCompletion(None, Some(Parsed(JObject(map["deleted" := JBool(true)])))) == Some(DeleteResult(true, None))
    ensures DeleteCompletion(None, Some(Parsed(JObject(map[])))) == Some(DeleteResult(false, Some(InvalidFormat)))
    ensures DeleteCompletion(Some(reason), Some(Parsed(JObject(map[])))) == Some(DeleteResult(false, Some(Transport(reason))))
  {
  }

  /** The data task handler of `fetchAll` and `fetchObject`: a session error is passed
      on with no objects, a body goes through `handleFetchResponse`, and when the
      session reports neither the completion is never called (`None`). */
  function FetchCompletion<T>(sessionError: Option<string>, data: Option<Payload>, schema: TableSchema,
                              rt: Runtime, make: (string, Record) -> T): (r: Option<FetchResult<T>>)
    ensures r.Some? <==> sessionError.Some? || data.Some?
    ensures sessionError.Some? ==> r == Some(FetchResult([], Some(Transport(sessionError.value))))
    ensures sessionError.None? && data.Some? ==> r == Some(HandleFetchResponse(data.value, schema, rt, make))
    ensures r.Some? && r.value.error.Some? ==> r.value.objects == []
  {
    if sessionError.Some? then Some(FetchResult([], Some(Transport(sessionError.value))))
    else if data.Some? then Some(HandleFetchResponse(data.value, schema, rt, make))
    else None
  }

  /** What a create or update completion receives. */
  datatype WriteResult<T> = WriteResult(obj: Option<T>, error: Option<AirtableError>)

  /** How a create or update call ends: the completion is called with a result, or it
      is never called because the session reported neither data nor an error, or the
      program stops while building the body. */
  datatype WriteOutcome<T> =
    | Completed(result: WriteResult<T>)
    | NotCalled
    | Trapped(why: EncodeFailure)

  /** `createObject` and `updateObject`. A body that cannot be built stops the program
      before any request is made: the `catch` does not see a trap or an Objective-C
      exception. Otherwise the completion gets the session's error, or the first
      object decoded from the response together with the response's error. */
  function WriteCompletion<T>(body: Result<Json, EncodeFailure>, sessionError: Option<string>, data: Option<Payload>,
                              schema: TableSchema, rt: Runtime, make: (string, Record) -> T): (r: WriteOutcome<T>)
    ensures r.Trapped? <==> body.Err?
    ensures body.Err? ==> r.why == body.error
    ensures body.Ok? ==> (r.Completed? <==> sessionError.Some? || data.Some?)
    ensures body.Ok? && sessionError.Some? ==> r == Completed(WriteResult(None, Some(Transport(sessionError.value))))
    ensures body.Ok? && sessionError.None? && data.Some? ==>
      var fr := HandleFetchResponse(data.value, schema, rt, make);
      && r.Completed? && r.result.error == fr.error
      && (r.result.obj.Some? <==> |fr.objects| > 0)
      && (r.result.obj.Some? ==> r.result.obj.value == fr.objects[0])
    ensures r.Completed? && r.result.error.Some? ==> r.result.obj.None?
  {
    if body.Err? then Trapped(body.error)
    else
      match FetchCompletion(sessionError, data, schema, rt, make)
      case None => NotCalled
      case Some(fr) => Completed(WriteResult(if |fr.objects| > 0 then Some(fr.objects[0]) else None, fr.error))
  }
}
