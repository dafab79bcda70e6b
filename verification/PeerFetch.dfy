/** Asking one peer for one block over a connection the fetch owns. */
module PeerFetch {
  import opened Connections
  import opened Encoding
  import opened Merkle
  import opened Options
  import opened Witness

  /** The stream to a peer: what it will send, and what has gone over the wire. */
  class Connection {
    var inbox: seq<In>
    var wire: Wire

    constructor (inbox: seq<In>)
      ensures this.inbox == inbox && wire == Wire([], [])
    {
      this.inbox, wire := inbox, Wire([], []);
    }
  }

  /** How many messages come before the first block. */
  function BeforeBlock(msgs: seq<In>): (k: nat)
    ensures k <= |msgs| && (k < |msgs| ==> msgs[k].BlockMessage?)
    ensures forall i :: 0 <= i < k ==> !msgs[i].BlockMessage?
  {
    if msgs == [] || msgs[0].BlockMessage? then 0 else 1 + BeforeBlock(msgs[1..])
  }

  /** A pong with the same nonce for each ping, in order. */
  function PongsFor(msgs: seq<In>): seq<Out> {
    if msgs == [] then []
    else if msgs[|msgs| - 1].Ping? then PongsFor(msgs[..|msgs| - 1]) + [Pong(msgs[|msgs| - 1].nonce)]
    else PongsFor(msgs[..|msgs| - 1])
  }

  /** What has gone over the wire once the block was asked for and `msgs` were
      read, every ping among them answered. */
  function Exchange(w: Wire, hash: Digest, msgs: seq<In>): Wire {
    Wire(w.written + [GetData(hash)] + PongsFor(msgs), w.read + msgs)
  }

  /** Asks for the block and reads until one comes, answering pings on the way.
      `patience` is how many messages arrive before the time is up. A block of
      any kind ends the exchange; only one that passes every check is returned. */
  method FetchFromPeer(h: HashFn, conn: Connection, hash: Digest, patience: nat) returns (r: Option<Block>)
    modifies conn
    ensures var msgs := old(conn.inbox);
            var k := BeforeBlock(msgs);
            if k < |msgs| && k < patience then
              && conn.inbox == msgs[k + 1..] && conn.wire == Exchange(old(conn.wire), hash, msgs[..k + 1])
              && r == if CheckBlock(h, hash, msgs[k].block) then Some(msgs[k].block) else None
            else
              var n := if patience < |msgs| then patience else |msgs|;
              r.None? && conn.inbox == msgs[n..] && conn.wire == Exchange(old(conn.wire), hash, msgs[..n])
    ensures r.Some? && Balanced(h, old(conn.wire)) ==> Balanced(h, conn.wire)
  {
    ghost var msgs, before := conn.inbox, conn.wire;
    var left := patience;
    conn.wire := Write(conn.wire, GetData(hash));
    ghost var n := 0;
    JustAsked(before, hash);
    while left > 0 && conn.inbox != []
      invariant 0 <= n <= |msgs| && n + left == patience && n <= BeforeBlock(msgs)
      invariant conn.inbox == msgs[n..] && conn.wire == Exchange(before, hash, msgs[..n])
    {
      var m := conn.inbox[0];
      ReadStep(before, hash, msgs, n);
      BlockIsHere(msgs, n);
      conn.inbox, conn.wire, left := conn.inbox[1..], ReadOne(conn.wire, m), left - 1;
      match m {
        case BlockMessage(b) =>
          if CheckBlock(h, hash, b) {
            ExchangeBalances(h, before, hash, msgs, n);
            return Some(b);
          }
          return None;
        case Ping(nonce) => conn.wire := Write(conn.wire, Pong(nonce));
        case OtherMessage =>
      }
      n := n + 1;
    }
    return None;
  }

  lemma JustAsked(w: Wire, hash: Digest)
    ensures Write(w, GetData(hash)) == Exchange(w, hash, [])
  {
  }

  lemma PongsSnoc(msgs: seq<In>, m: In)
    ensures PongsFor(msgs + [m]) == PongsFor(msgs) + if m.Ping? then [Pong(m.nonce)] else []
  {
    assert (msgs + [m])[..|msgs|] == msgs;
  }

  lemma Associate<T>(a: seq<T>, b: seq<T>, c: seq<T>)
    ensures a + (b + c) == (a + b) + c
  {
  }

  /** One more message read, and answered if it is a ping. */
  lemma ExchangeSnoc(w: Wire, hash: Digest, msgs: seq<In>, m: In)
    ensures var v := ReadOne(Exchange(w, hash, msgs), m);
            Exchange(w, hash, msgs + [m]) == if m.Ping? then Write(v, Pong(m.nonce)) else v
  {
    PongsSnoc(msgs, m);
    Associate(w.read, msgs, [m]);
    Associate(w.written + [GetData(hash)], PongsFor(msgs), if m.Ping? then [Pong(m.nonce)] else []);
  }

  lemma BlockIsHere(msgs: seq<In>, n: nat)
    requires n < |msgs| && n <= BeforeBlock(msgs)
    ensures msgs[n].BlockMessage? <==> n == BeforeBlock(msgs)
  {
  }

  lemma ReadStep(w: Wire, hash: Digest, msgs: seq<In>, n: nat)
    requires n < |msgs|
    ensures var v := ReadOne(Exchange(w, hash, msgs[..n]), msgs[n]);
            Exchange(w, hash, msgs[..n + 1]) == if msgs[n].Ping? then Write(v, Pong(msgs[n].nonce)) else v
  {
    assert msgs[..n + 1] == msgs[..n] + [msgs[n]];
    ExchangeSnoc(w, hash, msgs[..n], msgs[n]);
  }

  /** Messages that are not blocks leave the request as it was, pings answered. */
  lemma {:induction false} ReadAll(h: HashFn, w: Wire, hash: Digest, msgs: seq<In>)
    requires forall i :: 0 <= i < |msgs| ==> !msgs[i].BlockMessage?
    requires InPhase(h, Write(w, GetData(hash)), Awaiting(hash))
    ensures InPhase(h, Exchange(w, hash, msgs), Awaiting(hash))
  {
    if msgs == [] {
      JustAsked(w, hash);
    } else {
      var init, m := msgs[..|msgs| - 1], msgs[|msgs| - 1];
      ReadAll(h, w, hash, init);
      var v := Exchange(w, hash, init);
      ReadPhase(h, v, hash, m);
      assert msgs == init + [m];
      ExchangeSnoc(w, hash, init, m);
      if m.Ping? {
        PongPhase(h, ReadOne(v, m), hash, m.nonce);
      }
    }
  }

  /** One exchange that ends in a block that passes the checks leaves the accounts even. */
  lemma ExchangeBalances(h: HashFn, w: Wire, hash: Digest, msgs: seq<In>, n: nat)
    requires n < |msgs| && msgs[n].BlockMessage? && CheckBlock(h, hash, msgs[n].block)
    requires forall i :: 0 <= i < n ==> !msgs[i].BlockMessage?
    ensures Balanced(h, w) ==> Balanced(h, Exchange(w, hash, msgs[..n + 1]))
  {
    if Balanced(h, w) {
      AskedPhase(h, w, hash);
      ReadAll(h, w, hash, msgs[..n]);
      ReadPhase(h, Exchange(w, hash, msgs[..n]), hash, msgs[n]);
      ReadStep(w, hash, msgs, n);
    }
  }
}
