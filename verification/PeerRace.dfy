/** Asking several peers for one block and taking the first good answer. Peers
    finish in any order, and the two sides of the select are polled in any order. */
module PeerRace {
  import opened Encoding
  import opened Merkle
  import opened Options
  import opened Witness

  /** `accepted` lists the blocks that passed the checks, in the order they were
      sent; `queue` is what the channel took; `result` is set when the race is over. */
  datatype Race = Race(hash: Digest, waiting: set<nat>, queue: seq<Block>, accepted: seq<Block>,
                       result: Option<Option<Block>>)

  /** `room` says whether the channel took the block. A channel that is empty
      always does; one that is not may drop it. */
  datatype Move = Deliver(peer: nat, block: Block, room: bool) | PeerFails(peer: nat) | TakeBlock | RunnerDone

  function Start(hash: Digest, peers: set<nat>): Race {
    Race(hash, peers, [], [], None)
  }

  predicate Possible(r: Race, m: Move) {
    r.result.None? &&
    match m
    case Deliver(p, _, room) => p in r.waiting && (r.queue == [] ==> room)
    case PeerFails(p) => p in r.waiting
    case TakeBlock => r.queue != []
    case RunnerDone => r.waiting == {}
  }

  function Front(queue: seq<Block>): Option<Block> {
    if queue == [] then None else Some(queue[0])
  }

  /** A peer may deliver any block at all; one that fails a check counts as an error. */
  function Play(h: HashFn, r: Race, m: Move): Race
    requires Possible(r, m)
  {
    match m
    case Deliver(p, block, room) =>
      var rest := r.(waiting := r.waiting - {p});
      if !CheckBlock(h, r.hash, block) then rest
      else rest.(queue := if room then r.queue + [block] else r.queue, accepted := r.accepted + [block])
    case PeerFails(p) => r.(waiting := r.waiting - {p})
    case TakeBlock => r.(result := Some(Front(r.queue)))
    // The runner came first: the channel is polled once more.
    case RunnerDone => r.(result := Some(Front(r.queue)))
  }

  ghost predicate RaceInv(h: HashFn, r: Race) {
    (forall k :: 0 <= k < |r.accepted| ==> CheckBlock(h, r.hash, r.accepted[k])) &&
    Front(r.queue) == Front(r.accepted) &&
    (r.result.Some? ==> r.result.value == Front(r.accepted)) &&
    (r.result == Some(None) ==> r.waiting == {})
  }

  lemma PlayKeepsInv(h: HashFn, r: Race, m: Move)
    requires RaceInv(h, r) && Possible(r, m)
    ensures RaceInv(h, Play(h, r, m))
  {
  }

  /** The race after a schedule, if every move of it was possible. */
  function PlayAll(h: HashFn, r: Race, moves: seq<Move>): Option<Race> {
    if moves == [] then Some(r) else
      var before := PlayAll(h, r, moves[..|moves| - 1]);
      if before.None? || !Possible(before.value, moves[|moves| - 1]) then None
      else Some(Play(h, before.value, moves[|moves| - 1]))
  }

  lemma {:induction false} PlayAllKeepsInv(h: HashFn, r: Race, moves: seq<Move>)
    requires RaceInv(h, r) && PlayAll(h, r, moves).Some?
    ensures RaceInv(h, PlayAll(h, r, moves).value) && PlayAll(h, r, moves).value.hash == r.hash
  {
    if moves != [] {
      var init := moves[..|moves| - 1];
      PlayAllKeepsInv(h, r, init);
      PlayKeepsInv(h, PlayAll(h, r, init).value, moves[|moves| - 1]);
    }
  }

  /** The blocks a schedule delivers that pass every check, in order. */
  function GoodSent(h: HashFn, hash: Digest, moves: seq<Move>): seq<Block> {
    if moves == [] then [] else
      var before, last := GoodSent(h, hash, moves[..|moves| - 1]), moves[|moves| - 1];
      if last.Deliver? && CheckBlock(h, hash, last.block) then before + [last.block] else before
  }

  /** The peers a schedule hears from. */
  function HeardFrom(moves: seq<Move>): set<nat> {
    if moves == [] then {} else
      var before, last := HeardFrom(moves[..|moves| - 1]), moves[|moves| - 1];
      if last.Deliver? || last.PeerFails? then before + {last.peer} else before
  }

  lemma {:induction false} PlayedAs(h: HashFn, r: Race, moves: seq<Move>)
    requires PlayAll(h, r, moves).Some?
    ensures var end := PlayAll(h, r, moves).value;
            && end.hash == r.hash && end.accepted == r.accepted + GoodSent(h, r.hash, moves)
            && end.waiting == r.waiting - HeardFrom(moves)
  {
    if moves == [] {
      assert r.accepted + [] == r.accepted;
    } else {
      PlayedAs(h, r, moves[..|moves| - 1]);
    }
  }

  /** For every schedule, a race that is over gave nothing only if every peer was
      heard from and none sent a good block, and otherwise gave the first good
      block sent, which passed every check. */
  lemma NoLostBlock(h: HashFn, hash: Digest, peers: set<nat>, moves: seq<Move>)
    requires var end := PlayAll(h, Start(hash, peers), moves); end.Some? && end.value.result.Some?
    ensures var end := PlayAll(h, Start(hash, peers), moves).value;
            match end.result.value
            case None => peers <= HeardFrom(moves) && GoodSent(h, hash, moves) == []
            case Some(b) =>
              GoodSent(h, hash, moves) != [] && b == GoodSent(h, hash, moves)[0] && CheckBlock(h, hash, b)
  {
    PlayAllKeepsInv(h, Start(hash, peers), moves);
    PlayedAs(h, Start(hash, peers), moves);
    assert [] + GoodSent(h, hash, moves) == GoodSent(h, hash, moves);
  }

  /** No schedule is stuck: whatever has happened, the race can be brought to an
      end, if need be by every peer still waited for failing. */
  lemma {:induction false} CanEnd(h: HashFn, r: Race, moves: seq<Move>) returns (longer: seq<Move>)
    requires PlayAll(h, r, moves).Some?
    ensures moves <= longer && PlayAll(h, r, longer).Some? && PlayAll(h, r, longer).value.result.Some?
    ensures PlayAll(h, r, longer).value.accepted == PlayAll(h, r, moves).value.accepted
    decreases PlayAll(h, r, moves).value.waiting
  {
    var now := PlayAll(h, r, moves).value;
    if now.result.Some? {
      longer := moves;
    } else if now.waiting == {} {
      longer := moves + [RunnerDone];
      assert longer[..|longer| - 1] == moves;
    } else {
      var p :| p in now.waiting;
      var next := moves + [PeerFails(p)];
      assert next[..|next| - 1] == moves;
      longer := CanEnd(h, r, next);
    }
  }
}
