/** The stages that ask the peers for one block: the first holds at most one fetch
    and asks the next peer when that is done; the second takes the results while
    fewer than `max_peer_concurrency` of them are being handled. */
module PeerStage {
  import opened Encoding
  import opened Merkle
  import opened Options
  import opened PeerRace
  import opened Runs
  import opened Witness

  /** A fetch began, or ended with a block that passed the checks or an error;
      `room` says whether the channel took the block. */
  datatype Event = Asked(peer: nat) | Replied(peer: nat, block: Option<Block>, room: bool)

  /** `idle` are the peers not asked yet, `slot` the peer the first stage waits for,
      `handling` how many results the second stage still has in hand. */
  datatype State = State(idle: set<nat>, slot: Option<nat>, handling: nat, channel: seq<Block>, trail: seq<Event>)

  datatype Step = Ask(peer: nat) | Finish(block: Option<Block>, room: bool) | Handled

  /** Whether the second stage takes another result. No limit and zero are the same. */
  predicate HasRoom(limit: Option<nat>, handling: nat) {
    limit.None? || limit.value == 0 || handling < limit.value
  }

  predicate Enabled(h: HashFn, hash: Digest, limit: Option<nat>, s: State, step: Step) {
    match step
    case Ask(p) => HasRoom(limit, s.handling) && s.slot.None? && p in s.idle
    case Finish(block, room) =>
      HasRoom(limit, s.handling) && s.slot.Some? && (s.channel == [] ==> room) &&
      (block.Some? ==> CheckBlock(h, hash, block.value))
    case Handled => s.handling > 0
  }

  function Do(s: State, step: Step): State
    requires step.Finish? ==> s.slot.Some?
    requires step.Handled? ==> s.handling > 0
  {
    match step
    case Ask(p) => s.(idle := s.idle - {p}, slot := Some(p), trail := s.trail + [Asked(p)])
    case Finish(block, room) =>
      State(s.idle, None, s.handling + 1, if block.Some? && room then s.channel + [block.value] else s.channel,
            s.trail + [Replied(s.slot.value, block, room)])
    case Handled => s.(handling := s.handling - 1)
  }

  ghost predicate Next(h: HashFn, hash: Digest, limit: Option<nat>, s: State, t: State) {
    exists step :: Enabled(h, hash, limit, s, step) && t == Do(s, step)
  }

  ghost function Steps(h: HashFn, hash: Digest, limit: Option<nat>): (State, State) -> bool {
    (s, t) => Next(h, hash, limit, s, t)
  }

  function Begin(peers: set<nat>): State {
    State(peers, None, 0, [], [])
  }

  ghost function First(peers: set<nat>): State -> bool {
    s => s == Begin(peers)
  }

  // ----- what the trail tells -----

  /** The peers asked that have not replied. */
  function InFlight(trail: seq<Event>): set<nat> {
    if trail == [] then {} else
      var before := InFlight(trail[..|trail| - 1]);
      match trail[|trail| - 1]
      case Asked(p) => before + {p}
      case Replied(p, _, _) => before - {p}
  }

  function AskedPeers(trail: seq<Event>): seq<nat> {
    if trail == [] then [] else
      var before := AskedPeers(trail[..|trail| - 1]);
      if trail[|trail| - 1].Asked? then before + [trail[|trail| - 1].peer] else before
  }

  /** What the fetches did, as moves of the race. */
  function Schedule(trail: seq<Event>): seq<Move> {
    if trail == [] then [] else
      var before := Schedule(trail[..|trail| - 1]);
      match trail[|trail| - 1]
      case Asked(_) => before
      case Replied(p, block, room) => before + [if block.Some? then Deliver(p, block.value, room) else PeerFails(p)]
  }

  lemma TrailSnoc(trail: seq<Event>, e: Event)
    ensures InFlight(trail + [e]) == if e.Asked? then InFlight(trail) + {e.peer} else InFlight(trail) - {e.peer}
    ensures AskedPeers(trail + [e]) == AskedPeers(trail) + if e.Asked? then [e.peer] else []
    ensures Schedule(trail + [e]) == Schedule(trail) +
            match e
            case Asked(_) => []
            case Replied(p, block, room) => [if block.Some? then Deliver(p, block.value, room) else PeerFails(p)]
  {
    assert (trail + [e])[..|trail|] == trail;
  }

  // ----- what every step keeps -----

  function Held(s: State): set<nat> {
    if s.slot.Some? then {s.slot.value} else {}
  }

  ghost predicate NoRepeats(xs: seq<nat>) {
    forall i, j :: 0 <= i < j < |xs| ==> xs[i] != xs[j]
  }

  /** Every peer is idle or was asked once, and one is in flight at most. */
  ghost predicate Counted(peers: set<nat>, s: State) {
    && InFlight(s.trail) == Held(s) && s.idle <= peers
    && NoRepeats(AskedPeers(s.trail)) && forall p :: p in AskedPeers(s.trail) <==> p in peers - s.idle
  }

  /** The race that the fetches so far make, if nothing has been taken from the channel. */
  ghost predicate IsRace(h: HashFn, hash: Digest, peers: set<nat>, s: State) {
    var race := PlayAll(h, Start(hash, peers), Schedule(s.trail));
    race.Some? && race.value.hash == hash && race.value.result.None? &&
    race.value.waiting == s.idle + Held(s) && race.value.queue == s.channel && s.idle !! Held(s)
  }

  ghost predicate Inv(h: HashFn, hash: Digest, peers: set<nat>, s: State) {
    Counted(peers, s) && IsRace(h, hash, peers, s)
  }

  lemma StepKeepsCount(h: HashFn, hash: Digest, limit: Option<nat>, peers: set<nat>, s: State, step: Step)
    requires Counted(peers, s) && Enabled(h, hash, limit, s, step)
    ensures Counted(peers, Do(s, step))
  {
    match step
    case Ask(p) => TrailSnoc(s.trail, Asked(p));
    case Finish(block, room) => TrailSnoc(s.trail, Replied(s.slot.value, block, room));
    case Handled =>
  }

  lemma PlaySnoc(h: HashFn, r: Race, moves: seq<Move>, m: Move)
    requires PlayAll(h, r, moves).Some? && Possible(PlayAll(h, r, moves).value, m)
    ensures PlayAll(h, r, moves + [m]) == Some(Play(h, PlayAll(h, r, moves).value, m))
  {
    assert (moves + [m])[..|moves|] == moves;
  }

  lemma StepKeepsRace(h: HashFn, hash: Digest, limit: Option<nat>, peers: set<nat>, s: State, step: Step)
    requires IsRace(h, hash, peers, s) && Enabled(h, hash, limit, s, step)
    ensures IsRace(h, hash, peers, Do(s, step))
  {
    match step
    case Ask(p) =>
      TrailSnoc(s.trail, Asked(p));
      assert Schedule(s.trail) + [] == Schedule(s.trail);
      assert (s.idle - {p}) + {p} == s.idle + {};
    case Finish(block, room) =>
      var p := s.slot.value;
      var move := if block.Some? then Deliver(p, block.value, room) else PeerFails(p);
      TrailSnoc(s.trail, Replied(p, block, room));
      PlaySnoc(h, Start(hash, peers), Schedule(s.trail), move);
      assert s.idle + {p} - {p} == s.idle + {};
    case Handled =>
  }

  lemma RunKeepsInv(h: HashFn, hash: Digest, limit: Option<nat>, peers: set<nat>, run: seq<State>, n: nat)
    requires IsRun(First(peers), Steps(h, hash, limit), run) && n < |run|
    ensures Inv(h, hash, peers, run[n])
  {
    forall s, t | Inv(h, hash, peers, s) && Next(h, hash, limit, s, t) ensures Inv(h, hash, peers, t) {
      var step :| Enabled(h, hash, limit, s, step) && t == Do(s, step);
      StepKeepsCount(h, hash, limit, peers, s, step);
      StepKeepsRace(h, hash, limit, peers, s, step);
    }
    RunKeeps(First(peers), Steps(h, hash, limit), s => Inv(h, hash, peers, s), run, n);
  }

  // ----- one fetch at a time -----

  /** Whatever the limit: at most one fetch is in flight in any state of any run, no
      peer is asked twice, and once none is left idle every peer was asked. */
  lemma OneAtATime(h: HashFn, hash: Digest, limit: Option<nat>, peers: set<nat>, run: seq<State>, n: nat)
    requires IsRun(First(peers), Steps(h, hash, limit), run) && n < |run|
    ensures |InFlight(run[n].trail)| <= 1 && NoRepeats(AskedPeers(run[n].trail))
    ensures forall p :: p in AskedPeers(run[n].trail) <==> p in peers - run[n].idle
  {
    RunKeepsInv(h, hash, limit, peers, run, n);
  }

  /** All peers can be in flight at once exactly when there is at most one of them. */
  lemma AllAtOnceIff(h: HashFn, hash: Digest, limit: Option<nat>, peers: set<nat>)
    ensures (exists run :: IsRun(First(peers), Steps(h, hash, limit), run) && InFlight(Last(run).trail) == peers) <==>
            |peers| <= 1
  {
    if |peers| <= 1 {
      var run := AskOnly(h, hash, limit, peers);
    }
    if run :| IsRun(First(peers), Steps(h, hash, limit), run) && InFlight(Last(run).trail) == peers {
      OneAtATime(h, hash, limit, peers, run, |run| - 1);
    }
  }

  lemma AskOnly(h: HashFn, hash: Digest, limit: Option<nat>, peers: set<nat>) returns (run: seq<State>)
    requires |peers| <= 1
    ensures IsRun(First(peers), Steps(h, hash, limit), run) && InFlight(Last(run).trail) == peers
  {
    run := [Begin(peers)];
    if p :| p in peers {
      assert |peers - {p}| == 0 && peers == {p};
      run := Perform(h, hash, limit, peers, run, Ask(p));
      TrailSnoc([], Asked(p));
    }
  }

  lemma Perform(h: HashFn, hash: Digest, limit: Option<nat>, peers: set<nat>, run: seq<State>, step: Step)
    returns (longer: seq<State>)
    requires IsRun(First(peers), Steps(h, hash, limit), run) && Enabled(h, hash, limit, Last(run), step)
    ensures IsRun(First(peers), Steps(h, hash, limit), longer) && Last(longer) == Do(Last(run), step)
  {
    longer := run + [Do(Last(run), step)];
    Extend(First(peers), Steps(h, hash, limit), run, Do(Last(run), step));
  }

  /** The limit makes no difference: what happens under one can happen under any other. */
  lemma {:induction false} LimitMakesNoDifference(h: HashFn, hash: Digest, limit: Option<nat>, other: Option<nat>,
                                                  peers: set<nat>, run: seq<State>)
    returns (same: seq<State>)
    requires IsRun(First(peers), Steps(h, hash, limit), run)
    ensures IsRun(First(peers), Steps(h, hash, other), same) && Last(same) == Last(run).(handling := 0)
    decreases |run|
  {
    if |run| == 1 {
      same := run;
    } else {
      var init := run[..|run| - 1];
      assert Next(h, hash, limit, run[|run| - 2], run[|run| - 2 + 1]);
      Prefix(h, hash, limit, peers, run);
      same := LimitMakesNoDifference(h, hash, limit, other, peers, init);
      var step :| Enabled(h, hash, limit, Last(init), step) && Last(run) == Do(Last(init), step);
      if !step.Handled? {
        same := Perform(h, hash, other, peers, same, step);
      }
      if step.Finish? {
        same := Perform(h, hash, other, peers, same, Handled);
      }
    }
  }

  lemma Prefix(h: HashFn, hash: Digest, limit: Option<nat>, peers: set<nat>, run: seq<State>)
    requires IsRun(First(peers), Steps(h, hash, limit), run) && |run| > 1
    ensures var init := run[..|run| - 1];
            IsRun(First(peers), Steps(h, hash, limit), init) && Last(init) == run[|run| - 2]
  {
    var init := run[..|run| - 1];
    forall i | 0 <= i < |init| - 1 ensures Steps(h, hash, limit)(init[i], init[i + 1]) {
      assert Steps(h, hash, limit)(run[i], run[i + 1]);
    }
  }

  // ----- the race it is -----

  /** What the stages do is a schedule of the race, with the channel as its queue;
      and the race is over for the runner exactly when no peer is left. */
  lemma StageIsRace(h: HashFn, hash: Digest, limit: Option<nat>, peers: set<nat>, run: seq<State>, n: nat)
    requires IsRun(First(peers), Steps(h, hash, limit), run) && n < |run|
    ensures var s, race := run[n], PlayAll(h, Start(hash, peers), Schedule(run[n].trail));
            && race.Some? && race.value.queue == s.channel
            && (Possible(race.value, TakeBlock) <==> s.channel != [])
            && (Possible(race.value, RunnerDone) <==> s.idle == {} && s.slot.None?)
  {
    RunKeepsInv(h, hash, limit, peers, run, n);
    var s := run[n];
    assert s.idle + Held(s) == {} <==> s.idle == {} && s.slot.None?;
  }
}
