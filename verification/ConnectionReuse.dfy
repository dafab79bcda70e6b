/** A connection put back into the pool is the one the next fetch uses. */
module ConnectionReuse {
  import opened Connections
  import opened Encoding
  import opened Merkle
  import opened Runs
  import opened Witness

  /** A connection on which the block asked for came goes into the slot of its peer if
      that is free, and is closed if it is not or the peer is gone. */
  lemma RecycledIsPooled(h: HashFn, s: State, f: nat)
    requires Enabled(h, s, Recycle(f))
    ensures var p, c, t := s.fetches[f].peer, s.fetches[f].conn, Do(h, s, Recycle(f));
            if p in s.pool && s.pool[p] == [] then t.pool == s.pool[p := [c]] && t.open == s.open
            else t.pool == s.pool && t.open == s.open - {c}
  {
    assert [] + [s.fetches[f].conn] == [s.fetches[f].conn];
  }

  lemma Perform(h: HashFn, run: seq<State>, step: Step) returns (longer: seq<State>)
    requires IsRun(Init, Steps(h), run) && Enabled(h, Last(run), step)
    ensures IsRun(Init, Steps(h), longer) && Last(longer) == Do(h, Last(run), step)
  {
    longer := run + [Do(h, Last(run), step)];
    Extend(Init, Steps(h), run, Do(h, Last(run), step));
  }

  /** One fetch, at one peer, over the one connection there is. */
  predicate OnlyFetch(s: State, phase: Phase, wire: Wire) {
    && s.pool == map[0 := []] && s.handles == map[] && s.orphans == map[] && s.open == {0}
    && s.fetches == map[0 := Fetch(0, 0, phase)] && s.wires == map[0 := wire]
  }

  lemma Dialled(h: HashFn) returns (run: seq<State>)
    ensures IsRun(Init, Steps(h), run) && OnlyFetch(Last(run), Ready, Wire([], []))
  {
    run := [State(map[], map[], map[], map[], map[], {}, {})];
    run := Perform(h, run, AddPeer(0));
    run := Perform(h, run, TakeHandle(0, 0));
    run := Perform(h, run, Dial(0, 0, 0));
  }

  /** What went over the connection when the block was asked for, a ping answered and
      the block read. */
  function Exchanged(hash: Digest, b: Block, nonce: nat): Wire {
    Wire([GetData(hash), Pong(nonce)], [Ping(nonce), BlockMessage(b)])
  }

  lemma Talked(h: HashFn, hash: Digest, b: Block, nonce: nat) returns (run: seq<State>)
    ensures IsRun(Init, Steps(h), run) && OnlyFetch(Last(run), GotBlock(hash, b), Exchanged(hash, b, nonce))
  {
    run := Dialled(h);
    run := Perform(h, run, WriteGetData(0, hash));
    assert Last(run).wires[0] == Wire([GetData(hash)], []);
    run := Perform(h, run, ReadMessage(0, Ping(nonce)));
    assert Last(run).wires[0] == Wire([GetData(hash)], [Ping(nonce)]);
    run := Perform(h, run, WritePong(0));
    assert Last(run).wires[0] == Wire([GetData(hash), Pong(nonce)], [Ping(nonce)]);
    run := Perform(h, run, ReadMessage(0, BlockMessage(b)));
    assert Last(run).wires[0] == Exchanged(hash, b, nonce);
  }

  /** For every block that passes the checks there is a run in which the connection
      it came on is pooled and the next fetch goes over it, with nothing dialled. */
  lemma ConnectionIsReused(h: HashFn, hash: Digest, b: Block, nonce: nat) returns (run: seq<State>)
    requires CheckBlock(h, hash, b)
    ensures IsRun(Init, Steps(h), run)
    ensures var s := Last(run);
            && 1 in s.fetches && s.fetches[1] == Fetch(0, 0, Ready) && s.open == {0}
            && 0 in s.wires && s.wires[0] == Exchanged(hash, b, nonce)
  {
    run := Talked(h, hash, b, nonce);
    run := Perform(h, run, Recycle(0));
    run := Perform(h, run, TakeHandle(0, 1));
    run := Perform(h, run, UsePooled(1, 1));
  }
}
