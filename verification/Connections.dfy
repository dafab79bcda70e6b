/** The life of peer connections: kept in a one-slot pool per peer, taken out by a
    handle, used by one fetch at a time, and put back only in good order. A fetch
    that is given up while a task of its own still blocks on the connection leaves
    it to that task. */
module Connections {
  import opened Encoding
  import opened Merkle
  import opened Options
  import opened Runs
  import opened Witness

  /** What the proxy writes to a peer, and what it reads, once the handshake is over. */
  datatype Out = GetData(hash: Digest) | Pong(nonce: nat)
  datatype In = BlockMessage(block: Block) | Ping(nonce: nat) | OtherMessage

  datatype Wire = Wire(written: seq<Out>, read: seq<In>)

  /** Where a fetch stands with its peer, and the hash it asked for. */
  datatype Phase =
    | Ready
    | Awaiting(hash: Digest)
    | OwesPong(hash: Digest, nonce: nat)
    | GotBlock(hash: Digest, block: Block)

  datatype Handle = Handle(peer: nat, conn: Option<nat>)
  datatype Fetch = Fetch(peer: nat, conn: nat, phase: Phase)

  /** `open` is every connection opened and not yet closed; `wires` remembers
      what went over every connection there ever was. */
  datatype State = State(pool: map<nat, seq<nat>>, handles: map<nat, Handle>, fetches: map<nat, Fetch>,
                         orphans: map<nat, nat>, wires: map<nat, Wire>, open: set<nat>, known: set<nat>)

  datatype Step =
    | AddPeer(peer: nat)
    | DropPeer(peer: nat)
    | TakeHandle(peer: nat, hd: nat)
    | DropHandle(hd: nat)
    | UsePooled(hd: nat, f: nat)
    | Dial(hd: nat, f: nat, conn: nat)
    | WriteGetData(f: nat, hash: Digest)
    | ReadMessage(f: nat, msg: In)
    | WritePong(f: nat)
    | Recycle(f: nat)
    | DropFetch(f: nat)
    | Detach(f: nat, o: nat)
    | DialDetached(hd: nat, o: nat, conn: nat)
    | OrphanTalks(o: nat, wire: Wire)
    | EndOrphan(o: nat)

  predicate Enabled(h: HashFn, s: State, step: Step) {
    match step
    case AddPeer(p) => p !in s.known
    case DropPeer(p) => p in s.pool
    case TakeHandle(p, hd) => p in s.pool && hd !in s.handles
    case DropHandle(hd) => hd in s.handles
    case UsePooled(hd, f) => hd in s.handles && s.handles[hd].conn.Some? && f !in s.fetches
    case Dial(hd, f, c) => hd in s.handles && s.handles[hd].conn.None? && f !in s.fetches && c !in s.wires
    case WriteGetData(f, _) => f in s.fetches && s.fetches[f].phase.Ready?
    case ReadMessage(f, _) => f in s.fetches && s.fetches[f].phase.Awaiting?
    case WritePong(f) => f in s.fetches && s.fetches[f].phase.OwesPong?
    case Recycle(f) =>
      f in s.fetches && s.fetches[f].phase.GotBlock? && CheckBlock(h, s.fetches[f].phase.hash, s.fetches[f].phase.block)
    case DropFetch(f) => f in s.fetches
    case Detach(f, o) => f in s.fetches && o !in s.orphans
    case DialDetached(hd, o, c) => hd in s.handles && s.handles[hd].conn.None? && o !in s.orphans && c !in s.wires
    case OrphanTalks(o, _) => o in s.orphans
    case EndOrphan(o) => o in s.orphans
  }

  function Write(w: Wire, m: Out): Wire {
    w.(written := w.written + [m])
  }

  function ReadOne(w: Wire, m: In): Wire {
    w.(read := w.read + [m])
  }

  /** What a message read means for the fetch. */
  function After(hash: Digest, m: In): Phase {
    match m
    case BlockMessage(b) => GotBlock(hash, b)
    case Ping(n) => OwesPong(hash, n)
    case OtherMessage => Awaiting(hash)
  }

  function Talk(s: State, f: nat, w: Wire, p: Phase): State
    requires f in s.fetches
  {
    s.(wires := s.wires[s.fetches[f].conn := w], fetches := s.fetches[f := s.fetches[f].(phase := p)])
  }

  function WireOf(s: State, f: nat): Wire
    requires f in s.fetches
  {
    if s.fetches[f].conn in s.wires then s.wires[s.fetches[f].conn] else Wire([], [])
  }

  /** The connection of a fetch goes to the end of its peer's pool. */
  function PutBack(s: State, f: nat): State
    requires f in s.fetches && s.fetches[f].peer in s.pool
  {
    var p := s.fetches[f].peer;
    s.(fetches := s.fetches - {f}, pool := s.pool[p := s.pool[p] + [s.fetches[f].conn]])
  }

  function Elements(q: seq<nat>): set<nat> {
    set c | c in q
  }

  function Do(h: HashFn, s: State, step: Step): State
    requires Enabled(h, s, step)
  {
    match step
    case AddPeer(p) => s.(pool := s.pool[p := []], known := s.known + {p})
    case DropPeer(p) => s.(pool := s.pool - {p}, open := s.open - Elements(s.pool[p]))
    case TakeHandle(p, hd) =>
      var q := s.pool[p];
      if q == [] then s.(handles := s.handles[hd := Handle(p, None)])
      else s.(pool := s.pool[p := q[1..]], handles := s.handles[hd := Handle(p, Some(q[0]))])
    case DropHandle(hd) =>
      var conn := s.handles[hd].conn;
      s.(handles := s.handles - {hd}, open := if conn.Some? then s.open - {conn.value} else s.open)
    case UsePooled(hd, f) =>
      s.(handles := s.handles - {hd},
         fetches := s.fetches[f := Fetch(s.handles[hd].peer, s.handles[hd].conn.value, Ready)])
    case Dial(hd, f, c) =>
      s.(handles := s.handles - {hd}, fetches := s.fetches[f := Fetch(s.handles[hd].peer, c, Ready)],
         wires := s.wires[c := Wire([], [])], open := s.open + {c})
    case WriteGetData(f, hash) => Talk(s, f, Write(WireOf(s, f), GetData(hash)), Awaiting(hash))
    case ReadMessage(f, m) => Talk(s, f, ReadOne(WireOf(s, f), m), After(s.fetches[f].phase.hash, m))
    case WritePong(f) =>
      Talk(s, f, Write(WireOf(s, f), Pong(s.fetches[f].phase.nonce)), Awaiting(s.fetches[f].phase.hash))
    case Recycle(f) =>
      var p, c := s.fetches[f].peer, s.fetches[f].conn;
      if p in s.pool && |s.pool[p]| < 1
      then PutBack(s, f)
      else s.(fetches := s.fetches - {f}, open := s.open - {c})
    case DropFetch(f) => s.(fetches := s.fetches - {f}, open := s.open - {s.fetches[f].conn})
    // The time was up, or another peer was first, while a blocking call had the connection.
    case Detach(f, o) => s.(fetches := s.fetches - {f}, orphans := s.orphans[o := s.fetches[f].conn])
    case DialDetached(hd, o, c) =>
      s.(handles := s.handles - {hd}, orphans := s.orphans[o := c], wires := s.wires[c := Wire([], [])],
         open := s.open + {c})
    // That call may still read or write before it returns and the connection is closed.
    case OrphanTalks(o, w) => s.(wires := s.wires[s.orphans[o] := w])
    case EndOrphan(o) => s.(orphans := s.orphans - {o}, open := s.open - {s.orphans[o]})
  }

  ghost predicate Next(h: HashFn, s: State, t: State) {
    exists step :: Enabled(h, s, step) && t == Do(h, s, step)
  }

  ghost function Steps(h: HashFn): (State, State) -> bool {
    (s, t) => Next(h, s, t)
  }

  ghost predicate Init(s: State) {
    s == State(map[], map[], map[], map[], map[], {}, {})
  }

  // ----- owners -----

  datatype Place = Slot(peer: nat, k: nat) | InHandle(hd: nat) | InFetch(f: nat) | Orphan(o: nat)

  function ConnAt(s: State, x: Place): Option<nat> {
    match x
    case Slot(p, k) => if p in s.pool && k < |s.pool[p]| then Some(s.pool[p][k]) else None
    case InHandle(hd) => if hd in s.handles then s.handles[hd].conn else None
    case InFetch(f) => if f in s.fetches then Some(s.fetches[f].conn) else None
    case Orphan(o) => if o in s.orphans then Some(s.orphans[o]) else None
  }

  /** Every open connection is in exactly one place, and nothing else is anywhere. */
  ghost predicate Owned(s: State) {
    (forall x, y :: ConnAt(s, x).Some? && ConnAt(s, x) == ConnAt(s, y) ==> x == y) &&
    (forall x :: ConnAt(s, x).Some? ==> ConnAt(s, x).value in s.open) &&
    (forall c :: c in s.open ==> exists x :: ConnAt(s, x) == Some(c))
  }

  // ----- the traffic on one connection -----

  function Requested(w: seq<Out>): seq<Digest> {
    if w == [] then []
    else if w[|w| - 1].GetData? then Requested(w[..|w| - 1]) + [w[|w| - 1].hash] else Requested(w[..|w| - 1])
  }

  function Pongs(w: seq<Out>): seq<nat> {
    if w == [] then [] else if w[|w| - 1].Pong? then Pongs(w[..|w| - 1]) + [w[|w| - 1].nonce] else Pongs(w[..|w| - 1])
  }

  function Delivered(r: seq<In>): seq<Block> {
    if r == [] then []
    else if r[|r| - 1].BlockMessage? then Delivered(r[..|r| - 1]) + [r[|r| - 1].block] else Delivered(r[..|r| - 1])
  }

  function Pings(r: seq<In>): seq<nat> {
    if r == [] then [] else if r[|r| - 1].Ping? then Pings(r[..|r| - 1]) + [r[|r| - 1].nonce] else Pings(r[..|r| - 1])
  }

  lemma WriteCounts(w: Wire, m: Out)
    ensures Requested(Write(w, m).written) == Requested(w.written) + if m.GetData? then [m.hash] else []
    ensures Pongs(Write(w, m).written) == Pongs(w.written) + if m.Pong? then [m.nonce] else []
  {
    assert (w.written + [m])[..|w.written|] == w.written;
  }

  lemma ReadCounts(w: Wire, m: In)
    ensures Delivered(ReadOne(w, m).read) == Delivered(w.read) + if m.BlockMessage? then [m.block] else []
    ensures Pings(ReadOne(w, m).read) == Pings(w.read) + if m.Ping? then [m.nonce] else []
  {
    assert (w.read + [m])[..|w.read|] == w.read;
  }

  /** The first `n` blocks delivered passed every check for the hashes requested. */
  ghost predicate Passed(h: HashFn, hashes: seq<Digest>, blocks: seq<Block>, n: nat) {
    n <= |hashes| && n <= |blocks| && forall k :: 0 <= k < n ==> CheckBlock(h, hashes[k], blocks[k])
  }

  /** Every request got its block, one that passed every check for the hash
      requested, and every ping its pong, in order; and there was nothing else. */
  ghost predicate Balanced(h: HashFn, w: Wire) {
    && |Requested(w.written)| == |Delivered(w.read)|
    && Passed(h, Requested(w.written), Delivered(w.read), |Delivered(w.read)|)
    && Pongs(w.written) == Pings(w.read)
  }

  /** All even, but for a request for `hash`. */
  ghost predicate Owed(h: HashFn, w: Wire, hash: Digest) {
    var asked, got := Requested(w.written), Delivered(w.read);
    |asked| == |got| + 1 && Passed(h, asked, got, |got|) && asked[|got|] == hash
  }

  ghost predicate InPhase(h: HashFn, w: Wire, p: Phase) {
    match p
    case Ready => Balanced(h, w)
    case Awaiting(hash) => Owed(h, w, hash) && Pongs(w.written) == Pings(w.read)
    case OwesPong(hash, n) => Owed(h, w, hash) && Pongs(w.written) + [n] == Pings(w.read)
    case GotBlock(hash, b) => (CheckBlock(h, hash, b) ==> Balanced(h, w))
  }

  lemma AskedPhase(h: HashFn, w: Wire, hash: Digest)
    requires InPhase(h, w, Ready)
    ensures InPhase(h, Write(w, GetData(hash)), Awaiting(hash))
  {
    WriteCounts(w, GetData(hash));
  }

  lemma ReadPhase(h: HashFn, w: Wire, hash: Digest, m: In)
    requires InPhase(h, w, Awaiting(hash))
    ensures InPhase(h, ReadOne(w, m), After(hash, m))
  {
    ReadCounts(w, m);
  }

  lemma PongPhase(h: HashFn, w: Wire, hash: Digest, nonce: nat)
    requires InPhase(h, w, OwesPong(hash, nonce))
    ensures InPhase(h, Write(w, Pong(nonce)), Awaiting(hash))
  {
    WriteCounts(w, Pong(nonce));
  }

  function PhaseAt(s: State, x: Place): Phase {
    if x.InFetch? && x.f in s.fetches then s.fetches[x.f].phase else Ready
  }

  function WireAt(s: State, x: Place): Wire {
    if ConnAt(s, x).Some? && ConnAt(s, x).value in s.wires then s.wires[ConnAt(s, x).value] else Wire([], [])
  }

  /** The traffic on a connection is as its place requires; nothing is asked of
      one left to a detached task. */
  ghost predicate TrafficOk(h: HashFn, s: State, x: Place) {
    ConnAt(s, x).Some? ==>
      var c := ConnAt(s, x).value;
      c in s.wires && (x.Orphan? || InPhase(h, s.wires[c], PhaseAt(s, x)))
  }

  ghost predicate Inv(h: HashFn, s: State) {
    Owned(s) && s.pool.Keys <= s.known && (forall p :: p in s.pool ==> |s.pool[p]| <= 1) &&
    forall x :: TrafficOk(h, s, x)
  }

  // ----- three ways ownership changes -----

  /** The connection at `from` is now at `to`. */
  ghost predicate Moved(s: State, t: State, from: Place, to: Place) {
    t.open == s.open && ConnAt(s, from).Some? && ConnAt(s, to).None? &&
    forall x :: ConnAt(t, x) == if x == to then ConnAt(s, from) else if x == from then None else ConnAt(s, x)
  }

  /** The connection at `from`, if any, is closed. */
  ghost predicate Closed(s: State, t: State, from: Place) {
    t.open == (if ConnAt(s, from).Some? then s.open - {ConnAt(s, from).value} else s.open) &&
    forall x :: ConnAt(t, x) == if x == from then None else ConnAt(s, x)
  }

  ghost predicate Opened(s: State, t: State, to: Place, c: nat) {
    t.open == s.open + {c} && c !in s.open && ConnAt(s, to).None? &&
    forall x :: ConnAt(t, x) == if x == to then Some(c) else ConnAt(s, x)
  }

  lemma MoveKeepsOwned(s: State, t: State, from: Place, to: Place)
    requires Owned(s) && Moved(s, t, from, to)
    ensures Owned(t)
  {
    forall c | c in t.open ensures exists x :: ConnAt(t, x) == Some(c) {
      var x :| ConnAt(s, x) == Some(c);
      assert ConnAt(t, if x == from then to else x) == Some(c);
    }
  }

  /** Moving a connection leaves the traffic on the others alone. */
  lemma MoveKeepsTraffic(h: HashFn, s: State, t: State, from: Place, to: Place)
    requires Moved(s, t, from, to) && s.wires == t.wires && forall x :: TrafficOk(h, s, x)
    requires forall x :: ConnAt(t, x).Some? && x != to ==> PhaseAt(t, x) == PhaseAt(s, x)
    requires !from.Orphan? && (to.Orphan? || InPhase(h, WireAt(s, from), PhaseAt(t, to)))
    ensures forall x :: TrafficOk(h, t, x)
  {
    forall x ensures TrafficOk(h, t, x) {
      assert TrafficOk(h, s, if x == to then from else x);
    }
  }

  lemma CloseKeepsOwned(s: State, t: State, from: Place)
    requires Owned(s) && Closed(s, t, from)
    ensures Owned(t)
  {
    forall c | c in t.open ensures exists x :: ConnAt(t, x) == Some(c) {
      var x :| ConnAt(s, x) == Some(c);
      assert ConnAt(t, x) == Some(c);
    }
  }

  lemma OpenKeepsOwned(s: State, t: State, to: Place, c: nat)
    requires Owned(s) && Opened(s, t, to, c)
    ensures Owned(t)
  {
    forall d | d in t.open ensures exists x :: ConnAt(t, x) == Some(d) {
      if d == c {
        assert ConnAt(t, to) == Some(d);
      } else {
        var x :| ConnAt(s, x) == Some(d);
        assert ConnAt(t, x) == Some(d);
      }
    }
  }

  lemma SamePlacesKeepOwned(s: State, t: State)
    requires Owned(s) && t.open == s.open && forall x :: ConnAt(t, x) == ConnAt(s, x)
    ensures Owned(t)
  {
    forall c | c in t.open ensures exists x :: ConnAt(t, x) == Some(c) {
      var x :| ConnAt(s, x) == Some(c);
      assert ConnAt(t, x) == Some(c);
    }
  }

  // ----- each step -----

  lemma DropPeerKeepsInv(h: HashFn, s: State, p: nat)
    requires Inv(h, s) && Enabled(h, s, DropPeer(p))
    ensures Inv(h, Do(h, s, DropPeer(p)))
  {
    var t := Do(h, s, DropPeer(p));
    assert s.pool[p] == [] || s.pool[p] == [s.pool[p][0]];
    assert Closed(s, t, Slot(p, 0));
    CloseKeepsOwned(s, t, Slot(p, 0));
    forall x ensures TrafficOk(h, t, x) {
      assert TrafficOk(h, s, x);
    }
  }

  lemma TakeNothing(h: HashFn, s: State, p: nat, hd: nat)
    requires Inv(h, s) && Enabled(h, s, TakeHandle(p, hd)) && s.pool[p] == []
    ensures Inv(h, Do(h, s, TakeHandle(p, hd)))
  {
    var t := Do(h, s, TakeHandle(p, hd));
    assert Closed(s, t, InHandle(hd));
    CloseKeepsOwned(s, t, InHandle(hd));
    forall x ensures TrafficOk(h, t, x) {
      assert TrafficOk(h, s, x);
    }
  }

  lemma TakePooledMoves(h: HashFn, s: State, p: nat, hd: nat)
    requires Enabled(h, s, TakeHandle(p, hd)) && |s.pool[p]| == 1
    ensures Moved(s, Do(h, s, TakeHandle(p, hd)), Slot(p, 0), InHandle(hd))
  {
    assert Do(h, s, TakeHandle(p, hd)).pool[p] == [];
  }

  lemma TakePooled(h: HashFn, s: State, p: nat, hd: nat)
    requires Inv(h, s) && Enabled(h, s, TakeHandle(p, hd)) && s.pool[p] != []
    ensures Inv(h, Do(h, s, TakeHandle(p, hd)))
  {
    var t := Do(h, s, TakeHandle(p, hd));
    TakePooledMoves(h, s, p, hd);
    MoveKeepsOwned(s, t, Slot(p, 0), InHandle(hd));
    assert TrafficOk(h, s, Slot(p, 0));
    MoveKeepsTraffic(h, s, t, Slot(p, 0), InHandle(hd));
  }

  lemma TakeHandleKeepsInv(h: HashFn, s: State, p: nat, hd: nat)
    requires Inv(h, s) && Enabled(h, s, TakeHandle(p, hd))
    ensures Inv(h, Do(h, s, TakeHandle(p, hd)))
  {
    if s.pool[p] == [] {
      TakeNothing(h, s, p, hd);
    } else {
      TakePooled(h, s, p, hd);
    }
  }

  lemma DropHandleKeepsInv(h: HashFn, s: State, hd: nat)
    requires Inv(h, s) && Enabled(h, s, DropHandle(hd))
    ensures Inv(h, Do(h, s, DropHandle(hd)))
  {
    var t := Do(h, s, DropHandle(hd));
    assert Closed(s, t, InHandle(hd));
    CloseKeepsOwned(s, t, InHandle(hd));
    forall x ensures TrafficOk(h, t, x) {
      assert TrafficOk(h, s, x);
    }
  }

  lemma UsePooledMoves(h: HashFn, s: State, hd: nat, f: nat)
    requires Enabled(h, s, UsePooled(hd, f))
    ensures Moved(s, Do(h, s, UsePooled(hd, f)), InHandle(hd), InFetch(f))
  {
  }

  lemma UsePooledKeepsInv(h: HashFn, s: State, hd: nat, f: nat)
    requires Inv(h, s) && Enabled(h, s, UsePooled(hd, f))
    ensures Inv(h, Do(h, s, UsePooled(hd, f)))
  {
    var t := Do(h, s, UsePooled(hd, f));
    UsePooledMoves(h, s, hd, f);
    MoveKeepsOwned(s, t, InHandle(hd), InFetch(f));
    assert TrafficOk(h, s, InHandle(hd));
    MoveKeepsTraffic(h, s, t, InHandle(hd), InFetch(f));
  }

  lemma OpenIsRemembered(h: HashFn, s: State)
    requires Inv(h, s)
    ensures s.open <= s.wires.Keys
  {
    forall c | c in s.open ensures c in s.wires {
      var x :| ConnAt(s, x) == Some(c);
      assert TrafficOk(h, s, x);
    }
  }

  lemma DialOpens(h: HashFn, s: State, hd: nat, f: nat, c: nat)
    requires Enabled(h, s, Dial(hd, f, c)) && s.open <= s.wires.Keys
    ensures Opened(s, Do(h, s, Dial(hd, f, c)), InFetch(f), c)
  {
  }

  lemma DialKeepsInv(h: HashFn, s: State, hd: nat, f: nat, c: nat)
    requires Inv(h, s) && Enabled(h, s, Dial(hd, f, c))
    ensures Inv(h, Do(h, s, Dial(hd, f, c)))
  {
    var t := Do(h, s, Dial(hd, f, c));
    OpenIsRemembered(h, s);
    DialOpens(h, s, hd, f, c);
    OpenKeepsOwned(s, t, InFetch(f), c);
    forall x ensures TrafficOk(h, t, x) {
      assert TrafficOk(h, s, x);
    }
  }

  lemma PutBackMoves(s: State, f: nat)
    requires f in s.fetches && s.fetches[f].peer in s.pool && s.pool[s.fetches[f].peer] == []
    ensures Moved(s, PutBack(s, f), InFetch(f), Slot(s.fetches[f].peer, 0))
  {
    assert PutBack(s, f).pool[s.fetches[f].peer] == [s.fetches[f].conn];
  }

  lemma RecycleIntoPool(h: HashFn, s: State, f: nat)
    requires Inv(h, s) && Enabled(h, s, Recycle(f))
    requires s.fetches[f].peer in s.pool && |s.pool[s.fetches[f].peer]| < 1
    ensures Inv(h, Do(h, s, Recycle(f)))
  {
    var t, slot := PutBack(s, f), Slot(s.fetches[f].peer, 0);
    PutBackMoves(s, f);
    MoveKeepsOwned(s, t, InFetch(f), slot);
    assert TrafficOk(h, s, InFetch(f));
    MoveKeepsTraffic(h, s, t, InFetch(f), slot);
  }

  lemma RecycleKeepsInv(h: HashFn, s: State, f: nat)
    requires Inv(h, s) && Enabled(h, s, Recycle(f))
    ensures Inv(h, Do(h, s, Recycle(f)))
  {
    var p := s.fetches[f].peer;
    if p in s.pool && |s.pool[p]| < 1 {
      RecycleIntoPool(h, s, f);
    } else {
      DropFetchKeepsInv(h, s, f);
    }
  }

  lemma DropFetchKeepsInv(h: HashFn, s: State, f: nat)
    requires Inv(h, s) && Enabled(h, s, DropFetch(f))
    ensures Inv(h, Do(h, s, DropFetch(f)))
  {
    var t := Do(h, s, DropFetch(f));
    assert Closed(s, t, InFetch(f));
    CloseKeepsOwned(s, t, InFetch(f));
    forall x ensures TrafficOk(h, t, x) {
      assert TrafficOk(h, s, x);
    }
  }

  /** Talking touches one connection, which no other place holds. */
  lemma TalkKeepsInv(h: HashFn, s: State, f: nat, w: Wire, p: Phase)
    requires Inv(h, s) && f in s.fetches && InPhase(h, w, p)
    ensures Inv(h, Talk(s, f, w, p))
  {
    var t := Talk(s, f, w, p);
    SamePlacesKeepOwned(s, t);
    forall x ensures TrafficOk(h, t, x) {
      assert TrafficOk(h, s, x) && (ConnAt(s, x) == ConnAt(s, InFetch(f)) ==> x == InFetch(f));
    }
  }

  lemma GetDataKeepsInv(h: HashFn, s: State, f: nat, hash: Digest)
    requires Inv(h, s) && Enabled(h, s, WriteGetData(f, hash))
    ensures Inv(h, Do(h, s, WriteGetData(f, hash)))
  {
    assert TrafficOk(h, s, InFetch(f));
    AskedPhase(h, WireOf(s, f), hash);
    TalkKeepsInv(h, s, f, Write(WireOf(s, f), GetData(hash)), Awaiting(hash));
  }

  lemma ReadKeepsInv(h: HashFn, s: State, f: nat, m: In)
    requires Inv(h, s) && Enabled(h, s, ReadMessage(f, m))
    ensures Inv(h, Do(h, s, ReadMessage(f, m)))
  {
    assert TrafficOk(h, s, InFetch(f));
    ReadPhase(h, WireOf(s, f), s.fetches[f].phase.hash, m);
    TalkKeepsInv(h, s, f, ReadOne(WireOf(s, f), m), After(s.fetches[f].phase.hash, m));
  }

  lemma PongKeepsInv(h: HashFn, s: State, f: nat)
    requires Inv(h, s) && Enabled(h, s, WritePong(f))
    ensures Inv(h, Do(h, s, WritePong(f)))
  {
    assert TrafficOk(h, s, InFetch(f));
    PongPhase(h, WireOf(s, f), s.fetches[f].phase.hash, s.fetches[f].phase.nonce);
    TalkKeepsInv(h, s, f, Write(WireOf(s, f), Pong(s.fetches[f].phase.nonce)), Awaiting(s.fetches[f].phase.hash));
  }

  lemma StepKeepsInv(h: HashFn, s: State, step: Step)
    requires Inv(h, s) && Enabled(h, s, step)
    ensures Inv(h, Do(h, s, step))
  {
    match step
    case AddPeer(p) => AddPeerKeepsInv(h, s, p);
    case DropPeer(p) => DropPeerKeepsInv(h, s, p);
    case TakeHandle(p, hd) => TakeHandleKeepsInv(h, s, p, hd);
    case DropHandle(hd) => DropHandleKeepsInv(h, s, hd);
    case UsePooled(hd, f) => UsePooledKeepsInv(h, s, hd, f);
    case Dial(hd, f, c) => DialKeepsInv(h, s, hd, f, c);
    case Recycle(f) => RecycleKeepsInv(h, s, f);
    case DropFetch(f) => DropFetchKeepsInv(h, s, f);
    case WriteGetData(f, hash) => GetDataKeepsInv(h, s, f, hash);
    case ReadMessage(f, m) => ReadKeepsInv(h, s, f, m);
    case WritePong(f) => PongKeepsInv(h, s, f);
    case Detach(f, o) => DetachKeepsInv(h, s, f, o);
    case DialDetached(hd, o, c) => DialDetachedKeepsInv(h, s, hd, o, c);
    case OrphanTalks(o, w) => OrphanTalksKeepsInv(h, s, o, w);
    case EndOrphan(o) => EndOrphanKeepsInv(h, s, o);
  }

  lemma DetachMoves(h: HashFn, s: State, f: nat, o: nat)
    requires Enabled(h, s, Detach(f, o))
    ensures Moved(s, Do(h, s, Detach(f, o)), InFetch(f), Orphan(o))
  {
  }

  lemma DetachKeepsInv(h: HashFn, s: State, f: nat, o: nat)
    requires Inv(h, s) && Enabled(h, s, Detach(f, o))
    ensures Inv(h, Do(h, s, Detach(f, o)))
  {
    var t := Do(h, s, Detach(f, o));
    DetachMoves(h, s, f, o);
    MoveKeepsOwned(s, t, InFetch(f), Orphan(o));
    MoveKeepsTraffic(h, s, t, InFetch(f), Orphan(o));
  }

  lemma DialDetachedOpens(h: HashFn, s: State, hd: nat, o: nat, c: nat)
    requires Enabled(h, s, DialDetached(hd, o, c)) && s.open <= s.wires.Keys
    ensures Opened(s, Do(h, s, DialDetached(hd, o, c)), Orphan(o), c)
  {
  }

  lemma DialDetachedKeepsInv(h: HashFn, s: State, hd: nat, o: nat, c: nat)
    requires Inv(h, s) && Enabled(h, s, DialDetached(hd, o, c))
    ensures Inv(h, Do(h, s, DialDetached(hd, o, c)))
  {
    var t := Do(h, s, DialDetached(hd, o, c));
    OpenIsRemembered(h, s);
    DialDetachedOpens(h, s, hd, o, c);
    OpenKeepsOwned(s, t, Orphan(o), c);
    forall x ensures TrafficOk(h, t, x) {
      assert TrafficOk(h, s, x);
    }
  }

  lemma OrphanTalksKeepsInv(h: HashFn, s: State, o: nat, w: Wire)
    requires Inv(h, s) && Enabled(h, s, OrphanTalks(o, w))
    ensures Inv(h, Do(h, s, OrphanTalks(o, w)))
  {
    var t := Do(h, s, OrphanTalks(o, w));
    SamePlacesKeepOwned(s, t);
    forall x ensures TrafficOk(h, t, x) {
      assert TrafficOk(h, s, x) && (ConnAt(s, x) == ConnAt(s, Orphan(o)) ==> x == Orphan(o));
    }
  }

  lemma EndOrphanKeepsInv(h: HashFn, s: State, o: nat)
    requires Inv(h, s) && Enabled(h, s, EndOrphan(o))
    ensures Inv(h, Do(h, s, EndOrphan(o)))
  {
    var t := Do(h, s, EndOrphan(o));
    assert Closed(s, t, Orphan(o));
    CloseKeepsOwned(s, t, Orphan(o));
    forall x ensures TrafficOk(h, t, x) {
      assert TrafficOk(h, s, x);
    }
  }

  lemma AddPeerKeepsInv(h: HashFn, s: State, p: nat)
    requires Inv(h, s) && Enabled(h, s, AddPeer(p))
    ensures Inv(h, Do(h, s, AddPeer(p)))
  {
    var t := Do(h, s, AddPeer(p));
    assert Closed(s, t, Slot(p, 0));
    CloseKeepsOwned(s, t, Slot(p, 0));
    forall x ensures TrafficOk(h, t, x) {
      assert TrafficOk(h, s, x);
    }
  }

  lemma RunKeepsInv(h: HashFn, run: seq<State>, n: nat)
    requires IsRun(Init, Steps(h), run) && n < |run|
    ensures Inv(h, run[n])
  {
    forall s, t | Inv(h, s) && Next(h, s, t) ensures Inv(h, t) {
      var step :| Enabled(h, s, step) && t == Do(h, s, step);
      StepKeepsInv(h, s, step);
    }
    RunKeeps(Init, Steps(h), s => Inv(h, s), run, n);
  }

  /** In every run each open connection has one owner, and each peer's pool holds
      at most one connection. */
  lemma OneOwner(h: HashFn, run: seq<State>, n: nat, c: nat)
    requires IsRun(Init, Steps(h), run) && n < |run|
    ensures c in run[n].open <==> exists x :: ConnAt(run[n], x) == Some(c)
    ensures forall x, y :: ConnAt(run[n], x) == Some(c) && ConnAt(run[n], y) == Some(c) ==> x == y
    ensures forall p :: p in run[n].pool ==> |run[n].pool[p]| <= 1
  {
    RunKeepsInv(h, run, n);
  }

  /** In every run a pooled connection has had, for every request, a block that
      passed the checks for its hash, and a pong with the same nonce for every
      ping. */
  lemma PooledIsBalanced(h: HashFn, run: seq<State>, n: nat, p: nat, k: nat)
    requires IsRun(Init, Steps(h), run) && n < |run| && p in run[n].pool && k < |run[n].pool[p]|
    ensures run[n].pool[p][k] in run[n].wires && Balanced(h, run[n].wires[run[n].pool[p][k]])
  {
    RunKeepsInv(h, run, n);
    assert TrafficOk(h, run[n], Slot(p, k));
  }

  // ----- no way back -----

  /** Only a detached task has the connection, or nobody any more. */
  ghost predicate Abandoned(s: State, c: nat) {
    c in s.wires && forall x :: ConnAt(s, x) == Some(c) ==> x.Orphan?
  }

  /** A connection at `x` after a step was there before, or moved there from
      where no detached task is, or is new. */
  ghost predicate CameFrom(s: State, t: State, x: Place) {
    ConnAt(t, x).None? || ConnAt(t, x) == ConnAt(s, x) || ConnAt(t, x).value !in s.wires ||
    exists y: Place :: !y.Orphan? && ConnAt(s, y) == ConnAt(t, x)
  }

  lemma TakenOut(h: HashFn, s: State, p: nat, hd: nat, x: Place)
    requires Enabled(h, s, TakeHandle(p, hd))
    ensures CameFrom(s, Do(h, s, TakeHandle(p, hd)), x)
  {
    var t := Do(h, s, TakeHandle(p, hd));
    if x == InHandle(hd) {
      assert ConnAt(t, x).Some? ==> ConnAt(s, Slot(p, 0)) == ConnAt(t, x);
    } else if x.Slot? && x.peer == p && ConnAt(t, x).Some? && s.pool[p] != [] {
      assert ConnAt(s, Slot(p, x.k + 1)) == ConnAt(t, x);
    }
  }

  lemma HandedOver(h: HashFn, s: State, step: Step, x: Place)
    requires Enabled(h, s, step) && (step.UsePooled? || step.Recycle?)
    ensures CameFrom(s, Do(h, s, step), x)
  {
    var t := Do(h, s, step);
    match step
    case UsePooled(hd, f) => assert x == InFetch(f) ==> ConnAt(s, InHandle(hd)) == ConnAt(t, x);
    case Recycle(f) =>
      if x.Slot? && x.peer == s.fetches[f].peer && ConnAt(t, x) != ConnAt(s, x) {
        assert ConnAt(s, InFetch(f)) == ConnAt(t, x);
      }
  }

  lemma NotHandedOver(h: HashFn, s: State, step: Step, x: Place)
    requires Enabled(h, s, step) && !step.TakeHandle? && !step.UsePooled? && !step.Recycle? && !x.Orphan?
    ensures CameFrom(s, Do(h, s, step), x)
  {
  }

  lemma StepKeepsAbandoned(h: HashFn, s: State, step: Step, c: nat)
    requires Enabled(h, s, step) && Abandoned(s, c)
    ensures Abandoned(Do(h, s, step), c)
  {
    var t := Do(h, s, step);
    forall x | ConnAt(t, x) == Some(c) ensures x.Orphan? {
      if !x.Orphan? {
        if step.TakeHandle? {
          TakenOut(h, s, step.peer, step.hd, x);
        } else if step.UsePooled? || step.Recycle? {
          HandedOver(h, s, step, x);
        } else {
          NotHandedOver(h, s, step, x);
        }
      }
    }
  }

  /** In every run a connection left to a detached task, or closed, is never again
      in a pool, a handle or a fetch. */
  lemma AbandonedStaysOut(h: HashFn, run: seq<State>, m: nat, n: nat, c: nat, x: Place)
    requires IsRun(Init, Steps(h), run) && m <= n < |run| && c in run[m].wires
    requires c !in run[m].open || exists o :: ConnAt(run[m], Orphan(o)) == Some(c)
    ensures ConnAt(run[n], x) == Some(c) ==> x.Orphan?
  {
    RunKeepsInv(h, run, m);
    forall s, t | Abandoned(s, c) && Next(h, s, t) ensures Abandoned(t, c) {
      var step :| Enabled(h, s, step) && t == Do(h, s, step);
      StepKeepsAbandoned(h, s, step, c);
    }
    KeptFrom(Init, Steps(h), s => Abandoned(s, c), run, m, n);
  }
}
