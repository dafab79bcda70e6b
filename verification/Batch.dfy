/** Serving a batch: interceptions run concurrently and finish in any order, the
    rest is sent to bitcoind as a new batch, and the two sets of replies are put
    back into request order. */
module Batch {
  import opened Options
  import opened Rpc
  import opened Tagged

  /** How the interception of one request ended. */
  datatype Outcome = Answered(res: Response) | Forwarded | Failed(error: RpcError)

  /** What comes back for the batch sent on: an answer, a failure on the way, or
      a failure before anything could be written. */
  datatype NodeAnswer = Replies(values: seq<Json>) | NoContent | Broken(error: RpcError) | Unsent(error: RpcError)

  function NodeError(a: NodeAnswer): Option<RpcError> {
    match a
    case Broken(e) => Some(e)
    case Unsent(e) => Some(e)
    case _ => None
  }

  /** Every request is completed once, in some order. */
  ghost predicate IsCompletionOrder(order: seq<nat>, n: nat) {
    Within(order, n) && NoRepeats(order) && forall i: nat :: i < n ==> i in order
  }

  ghost predicate NoRepeats(s: seq<nat>) {
    forall i, j :: 0 <= i < j < |s| ==> s[i] != s[j]
  }

  ghost predicate Within(s: seq<nat>, n: nat) {
    forall k :: 0 <= k < |s| ==> s[k] < n
  }

  /** The requests forwarded, as their interceptions finish. */
  function ForwardedIn(outcomes: seq<Outcome>, order: seq<nat>): seq<nat>
    requires Within(order, |outcomes|)
  {
    if order == [] then [] else
      var init, i := ForwardedIn(outcomes, order[..|order| - 1]), order[|order| - 1];
      if outcomes[i].Forwarded? then init + [i] else init
  }

  /** Those of them bitcoind will answer. */
  function AnsweredIn(reqs: seq<Request>, idxs: seq<nat>): seq<nat>
    requires Within(idxs, |reqs|)
  {
    if idxs == [] then [] else
      var init, i := AnsweredIn(reqs, idxs[..|idxs| - 1]), idxs[|idxs| - 1];
      if IsNotification(reqs[i]) then init else init + [i]
  }

  function Select<T>(xs: seq<T>, idxs: seq<nat>): (r: seq<T>)
    requires Within(idxs, |xs|)
    ensures |r| == |idxs| && forall k :: 0 <= k < |idxs| ==> r[k] == xs[idxs[k]]
  {
    seq(|idxs|, k requires 0 <= k < |idxs| => xs[idxs[k]])
  }

  function Zip(idxs: seq<nat>, values: seq<Json>): (r: seq<Tagged>)
    ensures |r| == if |idxs| <= |values| then |idxs| else |values|
    ensures forall k :: 0 <= k < |r| ==> r[k] == Tagged(idxs[k], values[k])
  {
    seq(if |idxs| <= |values| then |idxs| else |values|,
        k requires 0 <= k < |idxs| && k < |values| => Tagged(idxs[k], values[k]))
  }

  function Find(pairs: seq<Tagged>, i: nat): Option<Json> {
    if pairs == [] then None else if pairs[0].idx == i then Some(pairs[0].value) else Find(pairs[1..], i)
  }

  /** The error of the first interception to fail. */
  function FirstFailure(outcomes: seq<Outcome>, order: seq<nat>): (e: Option<RpcError>)
    requires Within(order, |outcomes|)
    ensures e.None? <==> forall k :: 0 <= k < |order| ==> !outcomes[order[k]].Failed?
  {
    if order == [] then None
    else if outcomes[order[0]].Failed? then Some(outcomes[order[0]].error)
    else FirstFailure(outcomes, order[1..])
  }

  // ----- the reference -----

  /** The reply to request `i`, given the pairs made from bitcoind's reply. */
  function ReplyTo(reqs: seq<Request>, outcomes: seq<Outcome>, pairs: seq<Tagged>, i: nat): Option<Json>
    requires i < |reqs| == |outcomes|
  {
    if IsNotification(reqs[i]) then None else
    match outcomes[i]
    case Answered(res) => Some(IntoReply(res, reqs[i]))
    case Forwarded => Find(pairs, i)
    case Failed(_) => None
  }

  /** The replies to the first `n` requests, one request after the other. */
  function InOrder(reqs: seq<Request>, outcomes: seq<Outcome>, pairs: seq<Tagged>, n: nat): seq<Tagged>
    requires n <= |reqs| == |outcomes|
  {
    if n == 0 then [] else
      var init, reply := InOrder(reqs, outcomes, pairs, n - 1), ReplyTo(reqs, outcomes, pairs, n - 1);
      if reply.Some? then init + [Tagged(n - 1, reply.value)] else init
  }

  /** A batch is never answered with an empty array unless it was one. */
  function Respond(reqs: seq<Request>, values: seq<Json>): Http {
    if values == [] && reqs != [] then Http(NO_CONTENT, None) else Http(OK, Some(Arr(values)))
  }

  function Pairs(reqs: seq<Request>, outcomes: seq<Outcome>, order: seq<nat>, answer: NodeAnswer): seq<Tagged>
    requires |reqs| == |outcomes| && Within(order, |reqs|)
  {
    ForwardedWithin(outcomes, order);
    if answer.Replies? then Zip(AnsweredIn(reqs, ForwardedIn(outcomes, order)), answer.values) else []
  }

  lemma {:induction false} ForwardedWithin(outcomes: seq<Outcome>, order: seq<nat>)
    requires Within(order, |outcomes|)
    ensures Within(ForwardedIn(outcomes, order), |outcomes|)
    ensures forall i :: i in ForwardedIn(outcomes, order) <==> i in order && outcomes[i].Forwarded?
    ensures NoRepeats(order) ==> NoRepeats(ForwardedIn(outcomes, order))
  {
    if order != [] {
      ForwardedWithin(outcomes, order[..|order| - 1]);
      assert order == order[..|order| - 1] + [order[|order| - 1]];
    }
  }

  lemma {:induction false} AnsweredWithin(reqs: seq<Request>, idxs: seq<nat>)
    requires Within(idxs, |reqs|)
    ensures Within(AnsweredIn(reqs, idxs), |reqs|)
    ensures forall i :: i in AnsweredIn(reqs, idxs) <==> i in idxs && !IsNotification(reqs[i])
    ensures NoRepeats(idxs) ==> NoRepeats(AnsweredIn(reqs, idxs))
  {
    if idxs != [] {
      AnsweredWithin(reqs, idxs[..|idxs| - 1]);
      assert idxs == idxs[..|idxs| - 1] + [idxs[|idxs| - 1]];
    }
  }

  // ----- the code -----

  method SendBatch(reqs: seq<Request>, forwarded: seq<nat>, node: seq<Request> -> NodeAnswer)
    returns (r: Result<seq<Tagged>, RpcError>)
    requires Within(forwarded, |reqs|)
    ensures match node(Select(reqs, forwarded))
            case Replies(values) => r == Ok(Zip(AnsweredIn(reqs, forwarded), values))
            case NoContent => r == Ok([])
            case Broken(e) => r == Err(e)
            case Unsent(e) => r == Err(e)
  {
    var answered: seq<nat> := [];
    for k := 0 to |forwarded|
      invariant answered == AnsweredIn(reqs, forwarded[..k])
    {
      assert forwarded[..k + 1][..k] == forwarded[..k];
      if !IsNotification(reqs[forwarded[k]]) {
        answered := answered + [forwarded[k]];
      }
    }
    assert forwarded[..|forwarded|] == forwarded;
    match node(Select(reqs, forwarded))
    case Replies(values) => r := Ok(Zip(answered, values));
    case NoContent => r := Ok([]);
    case Broken(e) => r := Err(e);
    case Unsent(e) => r := Err(e);
  }

  /** One message in the channel of intercepted calls, if the call leaves one. */
  function Message(reqs: seq<Request>, outcomes: seq<Outcome>, i: nat): Option<Result<Tagged, RpcError>>
    requires i < |reqs| == |outcomes|
  {
    match outcomes[i]
    case Answered(res) => if IsNotification(reqs[i]) then None else Some(Ok(Tagged(i, IntoReply(res, reqs[i]))))
    case Forwarded => None
    case Failed(e) => Some(Err(e))
  }

  function Messages(reqs: seq<Request>, outcomes: seq<Outcome>, order: seq<nat>): seq<Result<Tagged, RpcError>>
    requires |reqs| == |outcomes| && Within(order, |reqs|)
  {
    if order == [] then [] else
      var init, m := Messages(reqs, outcomes, order[..|order| - 1]), Message(reqs, outcomes, order[|order| - 1]);
      if m.Some? then init + [m.value] else init
  }

  /** Everything in the channel, or the first error in it. */
  method TryCollect(channel: seq<Result<Tagged, RpcError>>) returns (r: Result<seq<Tagged>, RpcError>)
    ensures r.Ok? ==> |r.value| == |channel| && forall k :: 0 <= k < |channel| ==> channel[k] == Ok(r.value[k])
    ensures r.Err? ==>
              exists k :: 0 <= k < |channel| && channel[k] == Err(r.error) && forall m :: 0 <= m < k ==> channel[m].Ok?
  {
    var values: seq<Tagged> := [];
    for k := 0 to |channel|
      invariant |values| == k && forall m :: 0 <= m < k ==> channel[m] == Ok(values[m])
    {
      match channel[k]
      case Ok(t) => values := values + [t];
      case Err(e) => return Err(e);
    }
    return Ok(values);
  }

  /** Each interception that finishes leaves its result in one of two channels;
      an answered notification leaves none. */
  method Dispatch(reqs: seq<Request>, outcomes: seq<Outcome>, order: seq<nat>)
    returns (intercepted: seq<Result<Tagged, RpcError>>, forwarded: seq<nat>)
    requires |outcomes| == |reqs| && Within(order, |reqs|)
    ensures intercepted == Messages(reqs, outcomes, order) && forwarded == ForwardedIn(outcomes, order)
  {
    intercepted, forwarded := [], [];
    for k := 0 to |order|
      invariant forwarded == ForwardedIn(outcomes, order[..k]) && intercepted == Messages(reqs, outcomes, order[..k])
    {
      assert order[..k + 1][..k] == order[..k];
      var i := order[k];
      match outcomes[i]
      case Answered(answer) =>
        if !IsNotification(reqs[i]) {
          intercepted := intercepted + [Ok(Tagged(i, IntoReply(answer, reqs[i])))];
        }
      case Failed(e) => intercepted := intercepted + [Err(e)];
      case Forwarded => forwarded := forwarded + [i];
    }
    assert order[..|order|] == order;
  }

  /** What the client of a batch is to get: nothing for a batch of notifications,
      and otherwise an array, of which item `k` is the own reply of the `k`th
      request that wants one. The empty batch gets the empty array. */
  ghost predicate InRequestOrder(reqs: seq<Request>, outcomes: seq<Outcome>, answers: seq<Json>, res: Http)
    requires |reqs| == |outcomes| == |answers|
  {
    var idxs := Repliable(reqs, |reqs|);
    if idxs == [] && reqs != [] then res.status == 204 && res.body.None?
    else
      && res.status == 200 && res.body.Some? && res.body.value.Arr? && |res.body.value.items| == |idxs|
      && forall k :: 0 <= k < |idxs| ==> res.body.value.items[k] == OwnReply(reqs, outcomes, answers, idxs[k])
  }

  /** `order` is the order in which the interceptions finish and `node` answers
      whatever batch reaches it. A failed interception ends the join: `cutShort`
      says whether that happens before anything is written to the node, and
      `nodeFirst` which error the join sees if both sides have one. `sent` is the
      batch that reached the node, if one did. */
  method Send(reqs: seq<Request>, outcomes: seq<Outcome>, order: seq<nat>, node: seq<Request> -> NodeAnswer,
              cutShort: bool, nodeFirst: bool)
    returns (res: Http, sent: Option<seq<Request>>)
    requires |outcomes| == |reqs| && IsCompletionOrder(order, |reqs|)
    ensures Within(ForwardedIn(outcomes, order), |reqs|)
    ensures var batch, failure := Select(reqs, ForwardedIn(outcomes, order)), FirstFailure(outcomes, order);
            && (sent.Some? ==> sent.value == batch && !node(batch).Unsent?)
            && (failure.None? ==> (sent.Some? <==> !node(batch).Unsent?))
            && (failure.Some? ==> res == ErrorResponse(failure.value) ||
                                  (NodeError(node(batch)).Some? && res == ErrorResponse(NodeError(node(batch)).value)))
            && (failure.None? ==>
                  res == if NodeError(node(batch)).Some? then ErrorResponse(NodeError(node(batch)).value)
                         else Respond(reqs, Values(InOrder(reqs, outcomes, Pairs(reqs, outcomes, order, node(batch)),
                                                           |reqs|))))
    ensures var batch := Select(reqs, ForwardedIn(outcomes, order));
            FirstFailure(outcomes, order).None? ==>
              forall answers :: |answers| == |reqs| && Honest(reqs, outcomes, order, answers, node(batch)) ==>
                && res == Respond(reqs, Reference(reqs, outcomes, answers, |reqs|))
                && InRequestOrder(reqs, outcomes, answers, res)
  {
    var intercepted, forwarded := Dispatch(reqs, outcomes, order);
    ForwardedWithin(outcomes, order);
    var batch := Select(reqs, forwarded);
    var fromProxy := TryCollect(intercepted);
    FailureInChannel(reqs, outcomes, order);
    if fromProxy.Err? && cutShort {
      return ErrorResponse(fromProxy.error), None;
    }
    sent := if node(batch).Unsent? then None else Some(batch);
    var fromNode := SendBatch(reqs, forwarded, node);
    if fromNode.Err? && (nodeFirst || fromProxy.Ok?) {
      return ErrorResponse(fromNode.error), sent;
    }
    if fromProxy.Err? {
      return ErrorResponse(fromProxy.error), sent;
    }
    var values := Assemble(reqs, outcomes, order, node(batch), fromNode.value, fromProxy.value);
    if values == [] && reqs != [] {
      res := Http(NO_CONTENT, None);
    } else {
      res := Http(OK, Some(Arr(values)));
    }
    forall answers | |answers| == |reqs| && Honest(reqs, outcomes, order, answers, node(batch))
      ensures res == Respond(reqs, Reference(reqs, outcomes, answers, |reqs|))
      ensures InRequestOrder(reqs, outcomes, answers, res)
    {
      Confluence(reqs, outcomes, order, answers, node(batch));
      ReferenceInOrder(reqs, outcomes, answers, res);
    }
  }

  lemma ReferenceInOrder(reqs: seq<Request>, outcomes: seq<Outcome>, answers: seq<Json>, res: Http)
    requires |reqs| == |outcomes| == |answers| && res == Respond(reqs, Reference(reqs, outcomes, answers, |reqs|))
    ensures InRequestOrder(reqs, outcomes, answers, res)
  {
    OneReplyEach(reqs, outcomes, answers, |reqs|);
  }

  /** Both sides are sorted and merged. */
  method Assemble(reqs: seq<Request>, outcomes: seq<Outcome>, order: seq<nat>, answer: NodeAnswer,
                  fromNode: seq<Tagged>, fromProxy: seq<Tagged>)
    returns (values: seq<Json>)
    requires |reqs| == |outcomes| && IsCompletionOrder(order, |reqs|) && FirstFailure(outcomes, order).None?
    requires fromNode == Pairs(reqs, outcomes, order, answer)
    requires |fromProxy| == |Messages(reqs, outcomes, order)|
    requires forall k :: 0 <= k < |fromProxy| ==> Messages(reqs, outcomes, order)[k] == Ok(fromProxy[k])
    ensures values == Values(InOrder(reqs, outcomes, Pairs(reqs, outcomes, order, answer), |reqs|))
  {
    var left := SortByTag(fromNode);
    var right := SortByTag(fromProxy);
    MergeReady(reqs, outcomes, order, answer, fromNode, left, fromProxy, right);
    var merged := MergeByTag(left, right);
    MergeIsInOrder(reqs, outcomes, order, answer, left, right, merged);
    values := Values(merged);
  }

  // ----- why the merge is the reference -----

  ghost predicate FirstError(channel: seq<Result<Tagged, RpcError>>, e: Option<RpcError>) {
    if e.None? then forall k :: 0 <= k < |channel| ==> channel[k].Ok?
    else exists k :: 0 <= k < |channel| && channel[k] == Err(e.value) && forall m :: 0 <= m < k ==> channel[m].Ok?
  }

  lemma {:induction false} FailureSnoc(outcomes: seq<Outcome>, order: seq<nat>, i: nat)
    requires Within(order, |outcomes|) && i < |outcomes|
    ensures FirstFailure(outcomes, order + [i]) ==
            if FirstFailure(outcomes, order).Some? then FirstFailure(outcomes, order)
            else if outcomes[i].Failed? then Some(outcomes[i].error) else None
  {
    if order == [] {
      assert order + [i] == [i] && [i][1..] == [];
    } else {
      assert (order + [i])[1..] == order[1..] + [i];
      FailureSnoc(outcomes, order[1..], i);
    }
  }

  lemma {:induction false} FailureInChannel(reqs: seq<Request>, outcomes: seq<Outcome>, order: seq<nat>)
    requires |reqs| == |outcomes| && Within(order, |reqs|)
    ensures FirstError(Messages(reqs, outcomes, order), FirstFailure(outcomes, order))
  {
    if order != [] {
      var init, i := order[..|order| - 1], order[|order| - 1];
      FailureInChannel(reqs, outcomes, init);
      FailureSnoc(outcomes, init, i);
      assert order == init + [i];
      var channel, e := Messages(reqs, outcomes, init), FirstFailure(outcomes, init);
      if e.Some? {
        var k :| 0 <= k < |channel| && channel[k] == Err(e.value) && forall m :: 0 <= m < k ==> channel[m].Ok?;
        assert Messages(reqs, outcomes, order)[k] == channel[k];
      } else if outcomes[i].Failed? {
        assert Messages(reqs, outcomes, order)[|channel|] == Err(outcomes[i].error);
      }
    }
  }

  /** The messages are those of the requests completed. */
  lemma {:induction false} MessagesSound(reqs: seq<Request>, outcomes: seq<Outcome>, order: seq<nat>)
    requires |reqs| == |outcomes| && Within(order, |reqs|)
    ensures forall m ::
              m in Messages(reqs, outcomes, order) <==> exists i :: i in order && Message(reqs, outcomes, i) == Some(m)
  {
    if order != [] {
      var init, i := order[..|order| - 1], order[|order| - 1];
      MessagesSound(reqs, outcomes, init);
      assert order == init + [i];
      forall m
        ensures m in Messages(reqs, outcomes, order) <==>
                exists i :: i in order && Message(reqs, outcomes, i) == Some(m)
      {
        MessageSnoc(reqs, outcomes, init, i, m);
      }
    }
  }

  /** No two messages carry the same tag. */
  lemma {:induction false} MessagesDistinct(reqs: seq<Request>, outcomes: seq<Outcome>, order: seq<nat>)
    requires |reqs| == |outcomes| && Within(order, |reqs|) && NoRepeats(order)
    ensures DistinctOks(Messages(reqs, outcomes, order))
  {
    if order != [] {
      var init, last := order[..|order| - 1], order[|order| - 1];
      MessagesDistinct(reqs, outcomes, init);
      var c := Messages(reqs, outcomes, init);
      forall i | 0 <= i < |c| && c[i].Ok? ensures c[i].value.idx != last {
        MessagesSound(reqs, outcomes, init);
        assert c[i] in c;
        var k :| k in init && Message(reqs, outcomes, k) == Some(c[i]);
        var p :| 0 <= p < |init| && init[p] == k;
        assert order[p] != order[|order| - 1];
      }
    }
  }

  ghost predicate DistinctOks(c: seq<Result<Tagged, RpcError>>) {
    forall i, j :: 0 <= i < j < |c| && c[i].Ok? && c[j].Ok? ==> c[i].value.idx != c[j].value.idx
  }

  lemma MessageSnoc(reqs: seq<Request>, outcomes: seq<Outcome>, init: seq<nat>, i: nat, m: Result<Tagged, RpcError>)
    requires |reqs| == |outcomes| && Within(init, |reqs|) && i < |reqs|
    ensures (exists k :: k in init + [i] && Message(reqs, outcomes, k) == Some(m)) <==>
            (exists k :: k in init && Message(reqs, outcomes, k) == Some(m)) || Message(reqs, outcomes, i) == Some(m)
  {
    if k :| k in init && Message(reqs, outcomes, k) == Some(m) {
      assert k in init + [i];
    }
    assert i in init + [i];
  }

  lemma {:induction false} FindIn(pairs: seq<Tagged>, i: nat, v: Json)
    requires DistinctTags(pairs)
    ensures Find(pairs, i) == Some(v) <==> Tagged(i, v) in pairs
  {
    if pairs != [] {
      FindIn(pairs[1..], i, v);
      assert pairs == [pairs[0]] + pairs[1..];
      if pairs[0].idx == i {
        forall k | 0 <= k < |pairs[1..]| ensures pairs[1..][k].idx != i {
          assert pairs[1..][k] == pairs[k + 1];
        }
      }
    }
  }

  lemma SortedSnoc(init: seq<Tagged>, last: Tagged)
    requires StrictlySorted(init) && forall t :: t in init ==> t.idx < last.idx
    ensures StrictlySorted(init + [last]) && forall t :: t in init + [last] <==> t in init || t == last
  {
    forall k | 0 <= k < |init| ensures init[k].idx < last.idx {
      assert init[k] in init;
    }
  }

  lemma {:induction false} InOrderSound(reqs: seq<Request>, outcomes: seq<Outcome>, pairs: seq<Tagged>, n: nat)
    requires n <= |reqs| == |outcomes|
    ensures StrictlySorted(InOrder(reqs, outcomes, pairs, n))
    ensures forall t :: t in InOrder(reqs, outcomes, pairs, n) <==>
                        t.idx < n && ReplyTo(reqs, outcomes, pairs, t.idx) == Some(t.value)
  {
    if n > 0 {
      InOrderSound(reqs, outcomes, pairs, n - 1);
      var init, reply := InOrder(reqs, outcomes, pairs, n - 1), ReplyTo(reqs, outcomes, pairs, n - 1);
      if reply.Some? {
        SortedSnoc(init, Tagged(n - 1, reply.value));
      }
    }
  }

  /** Each pair belongs to a forwarded request that is not a notification. */
  lemma PairsSound(reqs: seq<Request>, outcomes: seq<Outcome>, order: seq<nat>, answer: NodeAnswer)
    requires |reqs| == |outcomes| && IsCompletionOrder(order, |reqs|)
    ensures DistinctTags(Pairs(reqs, outcomes, order, answer))
    ensures forall t :: t in Pairs(reqs, outcomes, order, answer) ==>
                        t.idx < |reqs| && outcomes[t.idx].Forwarded? && !IsNotification(reqs[t.idx])
  {
    ForwardedWithin(outcomes, order);
    var idxs := ForwardedIn(outcomes, order);
    AnsweredWithin(reqs, idxs);
    var pairs := Pairs(reqs, outcomes, order, answer);
    forall k | 0 <= k < |pairs| ensures pairs[k].idx in AnsweredIn(reqs, idxs) {
    }
  }

  /** The two sides carry the answered and the paired requests, and no tag twice. */
  lemma MergeReady(reqs: seq<Request>, outcomes: seq<Outcome>, order: seq<nat>, answer: NodeAnswer,
                   fromNode: seq<Tagged>, left: seq<Tagged>, fromProxy: seq<Tagged>, right: seq<Tagged>)
    requires |reqs| == |outcomes| && IsCompletionOrder(order, |reqs|)
    requires fromNode == Pairs(reqs, outcomes, order, answer) && multiset(left) == multiset(fromNode)
    requires |fromProxy| == |Messages(reqs, outcomes, order)| && multiset(right) == multiset(fromProxy)
    requires forall k :: 0 <= k < |fromProxy| ==> Messages(reqs, outcomes, order)[k] == Ok(fromProxy[k])
    ensures DistinctTags(fromNode) && DistinctTags(fromProxy) && DisjointTags(left, right)
    ensures forall t :: t in left <==> t in Pairs(reqs, outcomes, order, answer)
    ensures forall t :: t in right <==> t.idx < |reqs| && Message(reqs, outcomes, t.idx) == Some(Ok(t))
  {
    PairsSound(reqs, outcomes, order, answer);
    MessagesSound(reqs, outcomes, order);
    MessagesDistinct(reqs, outcomes, order);
    var c := Messages(reqs, outcomes, order);
    forall t ensures t in left <==> t in fromNode {
      assert t in left <==> t in multiset(left);
    }
    forall t ensures t in right <==> t.idx < |reqs| && Message(reqs, outcomes, t.idx) == Some(Ok(t)) {
      assert t in right <==> t in multiset(right);
      assert t in fromProxy <==> Ok(t) in c;
    }
  }

  lemma MergeIsInOrder(reqs: seq<Request>, outcomes: seq<Outcome>, order: seq<nat>, answer: NodeAnswer,
                       left: seq<Tagged>, right: seq<Tagged>, merged: seq<Tagged>)
    requires |reqs| == |outcomes| && IsCompletionOrder(order, |reqs|)
    requires FirstFailure(outcomes, order).None?
    requires forall t :: t in left <==> t in Pairs(reqs, outcomes, order, answer)
    requires forall t :: t in right <==> t.idx < |reqs| && Message(reqs, outcomes, t.idx) == Some(Ok(t))
    requires multiset(merged) == multiset(left) + multiset(right) && StrictlySorted(merged)
    ensures merged == InOrder(reqs, outcomes, Pairs(reqs, outcomes, order, answer), |reqs|)
  {
    var pairs := Pairs(reqs, outcomes, order, answer);
    PairsSound(reqs, outcomes, order, answer);
    InOrderSound(reqs, outcomes, pairs, |reqs|);
    forall t ensures t in merged <==> t in InOrder(reqs, outcomes, pairs, |reqs|) {
      assert t in merged <==> t in multiset(merged);
      assert t in multiset(left) + multiset(right) <==> t in left || t in right;
      FindIn(pairs, t.idx, t.value);
    }
    StrictOrderUnique(merged, InOrder(reqs, outcomes, pairs, |reqs|));
  }

  // ----- confluence -----

  /** Bitcoind answers the requests it was sent that are not notifications, in
      the order sent; `answers[i]` is its reply to request `i`. */
  ghost predicate Honest(reqs: seq<Request>, outcomes: seq<Outcome>, order: seq<nat>, answers: seq<Json>,
                         answer: NodeAnswer)
    requires |reqs| == |outcomes| == |answers| && Within(order, |reqs|)
  {
    ForwardedWithin(outcomes, order);
    AnsweredWithin(reqs, ForwardedIn(outcomes, order));
    var idxs := AnsweredIn(reqs, ForwardedIn(outcomes, order));
    answer == Replies(Select(answers, idxs)) || (idxs == [] && answer == NoContent)
  }

  function OwnReply(reqs: seq<Request>, outcomes: seq<Outcome>, answers: seq<Json>, i: nat): Json
    requires i < |reqs| == |outcomes| == |answers|
  {
    if outcomes[i].Answered? then IntoReply(outcomes[i].res, reqs[i]) else answers[i]
  }

  /** The positions of the requests that get a reply, in request order. */
  function Repliable(reqs: seq<Request>, n: nat): (r: seq<nat>)
    requires n <= |reqs|
    ensures Within(r, n) && forall i, j :: 0 <= i < j < |r| ==> r[i] < r[j]
    ensures forall i: nat :: i in r <==> i < n && !IsNotification(reqs[i])
  {
    if n == 0 then []
    else if IsNotification(reqs[n - 1]) then Repliable(reqs, n - 1)
    else Repliable(reqs, n - 1) + [n - 1]
  }

  /** The in-order reference: the first `n` requests answered one after the other. */
  function Reference(reqs: seq<Request>, outcomes: seq<Outcome>, answers: seq<Json>, n: nat): seq<Json>
    requires n <= |reqs| == |outcomes| == |answers|
  {
    if n == 0 then []
    else if IsNotification(reqs[n - 1]) then Reference(reqs, outcomes, answers, n - 1)
    else Reference(reqs, outcomes, answers, n - 1) + [OwnReply(reqs, outcomes, answers, n - 1)]
  }

  /** Exactly one reply per request that is not a notification, in request
      order, each the request's own. */
  lemma {:induction false} OneReplyEach(reqs: seq<Request>, outcomes: seq<Outcome>, answers: seq<Json>, n: nat)
    requires n <= |reqs| == |outcomes| == |answers|
    ensures var r, idxs := Reference(reqs, outcomes, answers, n), Repliable(reqs, n);
            |r| == |idxs| && forall k :: 0 <= k < |r| ==> r[k] == OwnReply(reqs, outcomes, answers, idxs[k])
  {
    if n > 0 {
      OneReplyEach(reqs, outcomes, answers, n - 1);
    }
  }

  lemma HonestPairs(reqs: seq<Request>, outcomes: seq<Outcome>, order: seq<nat>, answers: seq<Json>,
                    answer: NodeAnswer, i: nat)
    requires |reqs| == |outcomes| == |answers| && IsCompletionOrder(order, |reqs|)
    requires Honest(reqs, outcomes, order, answers, answer)
    requires i < |reqs| && outcomes[i].Forwarded? && !IsNotification(reqs[i])
    ensures Find(Pairs(reqs, outcomes, order, answer), i) == Some(answers[i])
  {
    ForwardedWithin(outcomes, order);
    AnsweredWithin(reqs, ForwardedIn(outcomes, order));
    var idxs := AnsweredIn(reqs, ForwardedIn(outcomes, order));
    assert i in idxs;
    var k :| 0 <= k < |idxs| && idxs[k] == i;
    var pairs := Pairs(reqs, outcomes, order, answer);
    assert pairs[k] == Tagged(i, answers[i]);
    PairsSound(reqs, outcomes, order, answer);
    FindIn(pairs, i, answers[i]);
  }

  lemma HonestReply(reqs: seq<Request>, outcomes: seq<Outcome>, order: seq<nat>, answers: seq<Json>,
                    answer: NodeAnswer, i: nat)
    requires i < |reqs| == |outcomes| == |answers| && IsCompletionOrder(order, |reqs|)
    requires FirstFailure(outcomes, order).None? && Honest(reqs, outcomes, order, answers, answer)
    ensures ReplyTo(reqs, outcomes, Pairs(reqs, outcomes, order, answer), i) ==
            if IsNotification(reqs[i]) then None else Some(OwnReply(reqs, outcomes, answers, i))
  {
    assert i in order;
    if !IsNotification(reqs[i]) && outcomes[i].Forwarded? {
      HonestPairs(reqs, outcomes, order, answers, answer, i);
    }
  }

  lemma {:induction false} ValuesAppend(a: seq<Tagged>, t: Tagged)
    ensures Values(a + [t]) == Values(a) + [t.value]
  {
    if a == [] {
      assert a + [t] == [t] && [t][1..] == [];
    } else {
      assert (a + [t])[1..] == a[1..] + [t];
      ValuesAppend(a[1..], t);
    }
  }

  lemma {:induction false} HonestInOrder(reqs: seq<Request>, outcomes: seq<Outcome>, order: seq<nat>,
                                         answers: seq<Json>, answer: NodeAnswer, n: nat)
    requires n <= |reqs| == |outcomes| == |answers| && IsCompletionOrder(order, |reqs|)
    requires FirstFailure(outcomes, order).None? && Honest(reqs, outcomes, order, answers, answer)
    ensures Values(InOrder(reqs, outcomes, Pairs(reqs, outcomes, order, answer), n)) ==
            Reference(reqs, outcomes, answers, n)
  {
    if n > 0 {
      HonestInOrder(reqs, outcomes, order, answers, answer, n - 1);
      HonestReply(reqs, outcomes, order, answers, answer, n - 1);
      ValuesAppend(InOrder(reqs, outcomes, Pairs(reqs, outcomes, order, answer), n - 1),
                   Tagged(n - 1, OwnReply(reqs, outcomes, answers, n - 1)));
    }
  }

  /** Whatever order the interceptions finish in, the reply is the same: the
      in-order reference. */
  lemma Confluence(reqs: seq<Request>, outcomes: seq<Outcome>, order: seq<nat>, answers: seq<Json>, answer: NodeAnswer)
    requires |reqs| == |outcomes| == |answers| && IsCompletionOrder(order, |reqs|)
    requires FirstFailure(outcomes, order).None? && Honest(reqs, outcomes, order, answers, answer)
    ensures Values(InOrder(reqs, outcomes, Pairs(reqs, outcomes, order, answer), |reqs|)) ==
            Reference(reqs, outcomes, answers, |reqs|)
  {
    HonestInOrder(reqs, outcomes, order, answers, answer, |reqs|);
  }

  /** The order of completion is the order in which requests are passed on. */
  lemma {:induction false} ForwardedAppend(outcomes: seq<Outcome>, first: seq<nat>, second: seq<nat>)
    requires Within(first, |outcomes|) && Within(second, |outcomes|)
    ensures Within(first + second, |outcomes|)
    ensures ForwardedIn(outcomes, first + second) == ForwardedIn(outcomes, first) + ForwardedIn(outcomes, second)
    decreases |second|
  {
    if second == [] {
      assert first + second == first;
    } else {
      var init, i := second[..|second| - 1], second[|second| - 1];
      ForwardedAppend(outcomes, first, init);
      assert (first + second)[..|first + second| - 1] == first + init;
    }
  }

  lemma ForwardedOne(outcomes: seq<Outcome>, i: nat)
    requires i < |outcomes|
    ensures ForwardedIn(outcomes, [i]) == if outcomes[i] == Forwarded then [i] else []
  {
    assert [i][..0] == [];
  }

  // ----- single requests -----

  /** A request on its own: answered by the proxy, or passed on unchanged. */
  function SendSingle(req: Request, outcome: Outcome, node: Request -> Http): Http {
    match outcome
    case Answered(res) => IntoResponseTo(res, req)
    case Failed(e) => IntoResponseTo(FromError(e), req)
    case Forwarded => node(req)
  }

  predicate CarriesStatus(res: Response) {
    res.error.Some? && res.error.value.status.Some?
  }

  /** A batch of one that the proxy answers has the reply of the single request
      in it. Both are empty together, except when an error that carries an HTTP
      status meets a notification: alone that error is sent, in a batch it is not. */
  lemma SingleAndBatchAgree(req: Request, res: Response, pairs: seq<Tagged>, node: Request -> Http)
    ensures var single := SendSingle(req, Answered(res), node);
            var batch := Respond([req], Values(InOrder([req], [Answered(res)], pairs, 1)));
            && (batch.body.Some? ==> single.body.Some? && batch == Http(OK, Some(Arr([single.body.value]))))
            && batch.body != Some(Arr([]))
            && ((single.body.None? <==> batch.body.None?) <==> !(IsNotification(req) && CarriesStatus(res)))
  {
    var reqs, outcomes := [req], [Answered(res)];
    assert InOrder(reqs, outcomes, pairs, 0) == [];
    if !IsNotification(req) {
      var t := Tagged(0, IntoReply(res, req));
      assert InOrder(reqs, outcomes, pairs, 1) == [] + [t];
      ValuesAppend([], t);
      assert Values(InOrder(reqs, outcomes, pairs, 1)) == [IntoReply(res, req)];
    }
  }

  /** A failed interception answers a batch of one as it would answer the request
      alone exactly when the request is of version 1.0 and its id is null or
      missing; otherwise the batch loses the id or the version. */
  lemma FailedSingleAndBatch(req: Request, e: RpcError, node: Request -> Http)
    ensures FirstFailure([Failed(e)], [0]) == Some(e)
    ensures SendSingle(req, Failed(e), node) == ErrorResponse(e) <==> !IsV2(req) && OrNull(req.id) == Null
  {
    var alone, whole := IntoReply(FromError(e), req).fields, ErrorResponse(e).body.value.fields;
    if IsV2(req) {
      assert "jsonrpc" in alone && "jsonrpc" !in whole;
    } else {
      assert alone["id"] == OrNull(req.id) && whole["id"] == Null;
      assert OrNull(req.id) == Null ==> alone == whole;
    }
  }
}
