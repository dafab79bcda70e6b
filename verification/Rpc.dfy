/** JSON-RPC requests and replies, in the 1.0 and 2.0 shapes bitcoind speaks. */
module Rpc {
  import opened Options

  datatype Json =
    | Null
    | Bool(b: bool)
    | Num(n: int)
    | Float(r: real)
    | Str(s: string)
    | Arr(items: seq<Json>)
    | Obj(fields: map<string, Json>)

  datatype Params = Array(values: seq<Json>) | Object(named: map<string, Json>)

  datatype Request = Request(jsonrpc: Option<Json>, id: Option<Json>, methodName: string, params: Params)

  datatype RpcError = RpcError(code: int, message: string, status: Option<nat>)

  datatype Response = Response(id: Option<Json>, error: Option<RpcError>, result: Option<Json>)

  datatype Http = Http(status: nat, body: Option<Json>)

  const OK: nat := 200
  const NO_CONTENT: nat := 204
  const FORBIDDEN: nat := 403
  const INTERNAL_SERVER_ERROR: nat := 500

  const MISC_ERROR_CODE: int := -1
  const METHOD_NOT_ALLOWED_ERROR_CODE: int := -32604

  predicate IsV2(req: Request) {
    req.jsonrpc == Some(Str("2.0"))
  }

  /** Section 4.1 of the JSON-RPC 2.0 specification: no id means no answer is
      wanted. Only 2.0 has the notion. */
  predicate IsNotification(req: Request) {
    req.id.None? && IsV2(req)
  }

  function FromError(e: RpcError): Response {
    Response(None, Some(e), None)
  }

  function OrNull(v: Option<Json>): Json {
    if v.Some? then v.value else Null
  }

  /** An error as it is written; the HTTP status is not part of it. */
  function ErrorJson(e: RpcError): Json {
    Obj(map["code" := Num(e.code), "message" := Str(e.message)])
  }

  function ErrorOrNull(e: Option<RpcError>): Json {
    if e.Some? then ErrorJson(e.value) else Null
  }

  /** What goes back for a call that was not passed on, in the version of the call. */
  function IntoReply(res: Response, req: Request): Json {
    var id := OrNull(req.id);
    if !IsV2(req) then Obj(map["id" := id, "error" := ErrorOrNull(res.error), "result" := OrNull(res.result)])
    else if res.error.Some? then Obj(map["jsonrpc" := Str("2.0"), "error" := ErrorJson(res.error.value), "id" := id])
    else Obj(map["jsonrpc" := Str("2.0"), "result" := OrNull(res.result), "id" := id])
  }

  /** The answer to a single request the proxy serves. */
  function IntoResponseTo(res: Response, req: Request): Http {
    if res.error.Some? && res.error.value.status.Some?
    then Http(res.error.value.status.value, Some(IntoReply(res, req)))
    else if IsNotification(req) then Http(NO_CONTENT, None)
    else if res.error.Some? && !IsV2(req) then Http(INTERNAL_SERVER_ERROR, Some(IntoReply(res, req)))
    else Http(OK, Some(IntoReply(res, req)))
  }

  /** The answer that stands for a whole batch when part of it failed. */
  function ErrorResponse(e: RpcError): Http {
    Http(if e.status.Some? then e.status.value else INTERNAL_SERVER_ERROR,
         Some(Obj(map["id" := Null, "error" := ErrorJson(e), "result" := Null])))
  }

  // ----- what the client makes of a reply -----

  /** The outcome of a call as a client reads it: the id and either a result or
      the code and message of an error. */
  datatype Reading = Reading(id: Json, outcome: Result<Json, (int, string)>)

  /** Section 5 of the JSON-RPC 2.0 specification: a reply has an id and exactly
      one of `result` and `error`. In 1.0 it has both, one of them null. */
  function ReadReply(v: Json): Option<Reading> {
    if !v.Obj? || "id" !in v.fields then None
    else if "error" in v.fields && v.fields["error"] != Null then
      var e := v.fields["error"];
      if !e.Obj? || "code" !in e.fields || "message" !in e.fields then None
      else if !e.fields["code"].Num? || !e.fields["message"].Str? then None
      else if "result" in v.fields && v.fields["result"] != Null then None
      else Some(Reading(v.fields["id"], Err((e.fields["code"].n, e.fields["message"].s))))
    else if "result" !in v.fields then None
    else Some(Reading(v.fields["id"], Ok(v.fields["result"])))
  }

  /** A client gets back the id it sent and the answer the proxy meant, in either
      version; an answer with both a result and an error is read as the error in
      2.0 and cannot be read in 1.0. */
  lemma ReplyReadsBack(res: Response, req: Request)
    ensures ReadReply(IntoReply(res, req)) ==
            if res.error.None? then Some(Reading(OrNull(req.id), Ok(OrNull(res.result))))
            else if !IsV2(req) && OrNull(res.result) != Null then None
            else Some(Reading(OrNull(req.id), Err((res.error.value.code, res.error.value.message))))
  {
  }

  function OwnStatus(res: Response): Option<nat> {
    if res.error.Some? then res.error.value.status else None
  }

  /** What a reply has in it: in 2.0 the version, the id and the one member that
      applies; in 1.0 the id and both members, of which one is null. */
  lemma ReplyShape(res: Response, req: Request)
    ensures var reply := IntoReply(res, req);
            && reply.Obj? && "id" in reply.fields && reply.fields["id"] == OrNull(req.id)
            && (req.jsonrpc == Some(Str("2.0")) ==>
                  && reply.fields.Keys == {"jsonrpc", "id", if res.error.Some? then "error" else "result"}
                  && reply.fields["jsonrpc"] == Str("2.0"))
            && (req.jsonrpc != Some(Str("2.0")) ==>
                  && reply.fields.Keys == {"id", "error", "result"}
                  && (reply.fields["error"] == Null <==> res.error.None?)
                  && (res.result.None? ==> reply.fields["result"] == Null))
  {
  }

  /** The error that stands for a whole batch, as a client reads it. */
  lemma ErrorReadsBack(e: RpcError)
    ensures var http := ErrorResponse(e);
            && http.status == (if e.status.Some? then e.status.value else 500)
            && http.body.Some? && ReadReply(http.body.value) == Some(Reading(Null, Err((e.code, e.message))))
  {
  }

  /** The status and what a client reads in the body go together: an error's own
      status is kept; otherwise nothing is sent exactly to notifications, a 2.0
      client gets success with either outcome, and a 1.0 client gets success
      exactly with a result it can read. */
  lemma StatusTells(res: Response, req: Request)
    ensures var http, own := IntoResponseTo(res, req), OwnStatus(res);
            && (own.Some? ==> http.status == own.value && http.body.Some?)
            && (http.body.Some? ==> http.body.value == IntoReply(res, req))
            && (own.None? ==>
                  (http.status == NO_CONTENT <==> http.body.None?) && (http.body.None? <==> IsNotification(req)))
            && (own.None? && IsV2(req) && http.body.Some? ==> http.status == OK && ReadReply(http.body.value).Some?)
            && (own.None? && !IsV2(req) ==>
                  var reading := ReadReply(http.body.value);
                  (http.status == OK <==> reading.Some? && reading.value.outcome.Ok?) &&
                  (http.status == INTERNAL_SERVER_ERROR <==> reading.None? || reading.value.outcome.Err?))
  {
    ReplyReadsBack(res, req);
  }
}
