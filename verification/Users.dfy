/** What a user may call, and which calls the proxy answers itself. */
module Users {
  import opened Batch
  import opened Encoding
  import opened Options
  import opened Requests
  import opened Rpc

  datatype User = User(allowedCalls: Option<set<string>>, fetchBlocks: bool)

  /** What came of fetching a block to answer `getblock`. */
  datatype BlockAnswer = Rendered(value: Json) | Gone | Refused(error: RpcError) | Aborted(error: RpcError)

  /** What came of looking a transaction up in a block. */
  datatype TxAnswer = Found(value: Json) | NotInBlock | BlockGone | LookupRefused(error: RpcError)

  /** The world outside `Intercept`: argument readers and the fetches. */
  datatype World = World(readHash: Json -> Option<Digest>,
                         readTxid: Json -> Option<Digest>,
                         rawBlock: Digest -> BlockAnswer,
                         verboseBlock: Digest -> BlockAnswer,
                         rawTransaction: (Digest, bool, Digest) -> TxAnswer,
                         parseError: RpcError)

  const METHOD_NOT_ALLOWED := RpcError(METHOD_NOT_ALLOWED_ERROR_CODE, "Method not allowed", Some(FORBIDDEN))
  const PRUNED := RpcError(MISC_ERROR_CODE, "Block not available (pruned data)", None)
  const NO_SUCH_TRANSACTION := RpcError(MISC_ERROR_CODE, "No such transaction found in the provided block.", None)

  predicate Allowed(user: User, req: Request) {
    user.allowedCalls.None? || req.methodName in user.allowedCalls.value
  }

  function AnswerBlock(req: Request, a: BlockAnswer): Outcome {
    match a
    case Rendered(v) => Answered(Response(req.id, None, Some(v)))
    case Gone => Answered(Response(req.id, Some(PRUNED), None))
    case Refused(e) => Answered(FromError(e))
    case Aborted(e) => Failed(e)
  }

  function AnswerTx(req: Request, a: TxAnswer): Outcome {
    match a
    case Found(v) => Answered(Response(req.id, None, Some(v)))
    case NotInBlock => Answered(Response(req.id, Some(NO_SUCH_TRANSACTION), None))
    case BlockGone => Answered(Response(req.id, Some(PRUNED), None))
    case LookupRefused(e) => Answered(FromError(e))
  }

  /** Core takes a missing or null verbosity, a boolean, and 0 and 1. */
  function Verbosity(params: seq<Json>): Option<bool> {
    if |params| < 2 || params[1] == Null then Some(false)
    else match params[1]
      case Bool(b) => Some(b)
      case Num(n) => if n == 0 then Some(false) else if n == 1 then Some(true) else None
      case _ => None
  }

  /** The arguments of a `getrawtransaction` call the proxy can answer. */
  function Interceptable(w: World, params: seq<Json>): Option<(Digest, bool, Digest)> {
    if |params| < 3 || w.readHash(params[2]).None? || Verbosity(params).None? || w.readTxid(params[0]).None? then None
    else Some((w.readTxid(params[0]).value, Verbosity(params).value, w.readHash(params[2]).value))
  }

  /** The call whose missing argument is read without a check. */
  predicate ReadsMissingArgument(user: User, req: Request) {
    Allowed(user, req) && user.fetchBlocks && req.methodName == "getblock" && req.params == Array([])
  }

  /** `None` where the code indexes past the end of the arguments and panics. */
  function Intercept(user: User, w: World, req: Request): (r: Option<Outcome>)
    ensures r.None? <==> ReadsMissingArgument(user, req)
    ensures r == Some(Forwarded) ==> Allowed(user, req)
    ensures !Allowed(user, req) ==> r == Some(Failed(METHOD_NOT_ALLOWED))
    ensures Allowed(user, req) && !user.fetchBlocks ==> r == Some(Forwarded)
  {
    if !Allowed(user, req) then Some(Failed(METHOD_NOT_ALLOWED))
    else if req.params.Array? && user.fetchBlocks && req.methodName == "getblock" then
      InterceptGetBlock(w, req, req.params.values)
    else if req.params.Array? && user.fetchBlocks && req.methodName == "getrawtransaction" then
      var args := Interceptable(w, req.params.values);
      if args.None? then Some(Forwarded)
      else Some(AnswerTx(req, w.rawTransaction(args.value.0, args.value.1, args.value.2)))
    else Some(Forwarded)
  }

  function InterceptGetBlock(w: World, req: Request, params: seq<Json>): (r: Option<Outcome>)
    ensures r.None? <==> params == []
  {
    var verbosity := if |params| > 1 then params[1] else Num(1);
    if verbosity != Num(0) && verbosity != Num(1) then Some(Forwarded)
    else if params == [] then None
    else
      var hash := w.readHash(params[0]);
      if hash.None? then Some(Failed(w.parseError))
      else if verbosity == Num(0) then Some(AnswerBlock(req, w.rawBlock(hash.value)))
      else Some(AnswerBlock(req, w.verboseBlock(hash.value)))
  }

  /** The calls the proxy takes on itself: `getblock` at verbosity 0 and 1, where
      a missing verbosity means 1, and `getrawtransaction` with a block hash and
      nothing else it cannot read. */
  predicate Serves(w: World, req: Request) {
    req.params.Array? &&
    var params := req.params.values;
    || (req.methodName == "getblock" && (|params| < 2 || params[1] == Num(0) || params[1] == Num(1)))
    || (req.methodName == "getrawtransaction" && |params| >= 3 && Verbosity(params).Some? &&
        w.readTxid(params[0]).Some? && w.readHash(params[2]).Some?)
  }

  /** What is forwarded is what is allowed and not served, and nothing else. */
  lemma ForwardedIff(user: User, w: World, req: Request)
    ensures Intercept(user, w, req) == Some(Forwarded) <==> Allowed(user, req) && !(user.fetchBlocks && Serves(w, req))
  {
    assert "getblock" != "getrawtransaction" by {
      assert |"getblock"| != |"getrawtransaction"|;
    }
  }

  // ----- what an answered call is answered with -----

  /** The user may have the proxy answer this call. */
  predicate MayAsk(user: User, req: Request) {
    user.fetchBlocks && (user.allowedCalls == None || req.methodName in user.allowedCalls.value)
  }

  /** `getblock`: verbosity 0 gives the raw block and 1, or none, the verbose one. */
  lemma GetBlockAnswers(user: User, w: World, req: Request, params: seq<Json>, hash: Digest)
    requires MayAsk(user, req) && req.methodName == "getblock" && req.params == Array(params)
    requires |params| >= 1 && w.readHash(params[0]) == Some(hash)
    requires |params| == 1 || params[1] == Num(0) || params[1] == Num(1)
    ensures var raw := |params| > 1 && params[1] == Num(0);
            Intercept(user, w, req) == Some(
              match if raw then w.rawBlock(hash) else w.verboseBlock(hash)
              case Rendered(v) => Answered(Response(req.id, None, Some(v)))
              case Gone =>
                Answered(Response(req.id, Some(RpcError(-1, "Block not available (pruned data)", None)), None))
              case Refused(e) => Answered(Response(None, Some(e), None))
              case Aborted(e) => Failed(e))
  {
  }

  /** A block hash that cannot be read fails the call. */
  lemma GetBlockBadHash(user: User, w: World, req: Request, params: seq<Json>)
    requires MayAsk(user, req) && req.methodName == "getblock" && req.params == Array(params)
    requires |params| >= 1 && w.readHash(params[0]) == None
    requires |params| == 1 || params[1] == Num(0) || params[1] == Num(1)
    ensures Intercept(user, w, req) == Some(Failed(w.parseError))
  {
  }

  /** `getrawtransaction`: the transaction, whether to be verbose, and the block
      stand at positions 0, 1 and 2. */
  lemma GetRawTransactionAnswers(user: User, w: World, req: Request, params: seq<Json>,
                                 txid: Digest, verbose: bool, hash: Digest)
    requires MayAsk(user, req) && req.methodName == "getrawtransaction" && req.params == Array(params)
    requires |params| >= 3 && w.readTxid(params[0]) == Some(txid) && w.readHash(params[2]) == Some(hash)
    requires (params[1] == Null && !verbose) || params[1] == Bool(verbose) || params[1] == Num(if verbose then 1 else 0)
    ensures Intercept(user, w, req) == Some(
              match w.rawTransaction(txid, verbose, hash)
              case Found(v) => Answered(Response(req.id, None, Some(v)))
              case NotInBlock =>
                var error := RpcError(-1, "No such transaction found in the provided block.", None);
                Answered(Response(req.id, Some(error), None))
              case BlockGone =>
                Answered(Response(req.id, Some(RpcError(-1, "Block not available (pruned data)", None)), None))
              case LookupRefused(e) => Answered(Response(None, Some(e), None)))
  {
    assert |"getblock"| != |"getrawtransaction"|;
  }

  /** A call that is not allowed is refused in these words. */
  lemma NotAllowed(user: User, w: World, req: Request)
    requires user.allowedCalls.Some? && req.methodName !in user.allowedCalls.value
    ensures Intercept(user, w, req) == Some(Failed(RpcError(-32604, "Method not allowed", Some(403))))
  {
  }

  // ----- permission -----

  /** The interceptions of a batch all came to an end, with these outcomes. Each
      meets a world of its own, so equal calls may end differently. */
  ghost predicate Intercepted(user: User, worlds: seq<World>, reqs: seq<Request>, outcomes: seq<Outcome>) {
    |reqs| == |worlds| == |outcomes| &&
    forall i :: 0 <= i < |reqs| ==> Intercept(user, worlds[i], reqs[i]) == Some(outcomes[i])
  }

  /** A request that is not allowed gets the refusal. One that is forwarded is
      allowed and, if it was parsed, arrives as it was read. And a client learns
      something of the node only by a call that is allowed: with any other, two
      nodes that answer differently cannot be told apart. */
  lemma SinglePermission(user: User, w: World, d: Document, req: Request, outcome: Outcome,
                         node: Request -> Http, other: Request -> Http)
    requires Intercept(user, w, req) == Some(outcome)
    ensures !Allowed(user, req) ==>
              SendSingle(req, outcome, node) == Http(FORBIDDEN, Some(IntoReply(FromError(METHOD_NOT_ALLOWED), req)))
    ensures outcome.Forwarded? ==> SendSingle(req, outcome, node) == node(req)
    ensures outcome.Forwarded? && Parse(d) == Some(Single(req)) ==>
              Allowed(user, req) && Parse(Print(Single(req))) == Some(Single(req))
    ensures SendSingle(req, outcome, node) != SendSingle(req, outcome, other) ==>
              Allowed(user, req) && outcome.Forwarded?
  {
    if Parse(d) == Some(Single(req)) {
      ParsedRoundTrips(d);
    }
  }

  lemma SelectPrintable(reqs: seq<Request>, idxs: seq<nat>)
    requires Within(idxs, |reqs|) && forall k :: 0 <= k < |reqs| ==> Printable(reqs[k])
    ensures PrintableMessage(Batched(Select(reqs, idxs)))
  {
  }

  /** Every request of a parsed batch that reaches bitcoind is one the client
      sent, is allowed, and arrives as it was read; and one that is not allowed
      fails the whole batch. */
  lemma BatchPermission(user: User, worlds: seq<World>, d: Document, reqs: seq<Request>, outcomes: seq<Outcome>,
                        order: seq<nat>)
    requires Parse(d) == Some(Batched(reqs)) && Intercepted(user, worlds, reqs, outcomes)
    requires IsCompletionOrder(order, |reqs|)
    ensures Within(ForwardedIn(outcomes, order), |reqs|)
    ensures var sent := Select(reqs, ForwardedIn(outcomes, order));
            && (forall r :: r in sent ==> r in reqs && Allowed(user, r))
            && Parse(Print(Batched(sent))) == Some(Batched(sent))
    ensures (exists i :: 0 <= i < |reqs| && !Allowed(user, reqs[i])) ==> FirstFailure(outcomes, order).Some?
    ensures forall i ::
              0 <= i < |reqs| && i in ForwardedIn(outcomes, order) <==> 0 <= i < |reqs| && outcomes[i].Forwarded?
  {
    ForwardedWithin(outcomes, order);
    var idxs := ForwardedIn(outcomes, order);
    var sent := Select(reqs, idxs);
    forall r | r in sent ensures r in reqs && Allowed(user, r) {
      var k :| 0 <= k < |sent| && sent[k] == r;
      assert idxs[k] in idxs && outcomes[idxs[k]].Forwarded?;
    }
    ElementsArePrintable(d.elements);
    SelectPrintable(reqs, idxs);
    RoundTripIff(Batched(sent));
    if i :| 0 <= i < |reqs| && !Allowed(user, reqs[i]) {
      assert i in order && outcomes[i].Failed?;
      var k :| 0 <= k < |order| && order[k] == i;
    }
  }
}
