/** Whole runs of block fetching: any number of calls at once over one cache, a
    node that prunes as it goes, and peers that answer anything. */
module FetchRun {
  import opened Decoding
  import opened Encoding
  import opened Lru
  import opened Merkle
  import opened Options
  import opened PeerRace
  import opened Runs
  import opened Witness

  datatype Answer = FromCache(bytes: Bytes) | FromNode(bytes: Bytes) | FromPeers(bytes: Bytes) | NotFound | Failed

  datatype Event = CacheMiss | NodePruned | PeersAsked

  datatype Phase =
    | Started
    | MissedCache
    | MissedNode
    | Racing(race: Race)
    | Fetched(block: Block)
    | Done(answer: Answer)

  datatype Call = Call(hash: Digest, phase: Phase, trail: seq<Event>)

  /** `chain` is every block the node ever had, as it serializes them. */
  datatype State = State(cache: Cache<Digest>, chain: map<Digest, Bytes>, pruned: set<Digest>, calls: map<nat, Call>)

  datatype Step =
    | Prune(hash: Digest)
    | Begin(c: nat, hash: Digest)
    | TryCache(c: nat)
    | AskNode(c: nat)
    | AskPeers(c: nat, peers: set<nat>)
    | RaceOn(c: nat, move: Move)
    | EndRace(c: nat)
    | Keep(c: nat)
    | Fail(c: nat)

  predicate Enabled(s: State, step: Step) {
    match step
    case Prune(_) => true
    case Begin(c, _) => c !in s.calls
    case TryCache(c) => c in s.calls && s.calls[c].phase.Started?
    case AskNode(c) => c in s.calls && s.calls[c].phase.MissedCache? && s.calls[c].hash in s.chain
    case AskPeers(c, _) => c in s.calls && s.calls[c].phase.MissedNode?
    case RaceOn(c, move) => c in s.calls && s.calls[c].phase.Racing? && Possible(s.calls[c].phase.race, move)
    case EndRace(c) => c in s.calls && s.calls[c].phase.Racing? && s.calls[c].phase.race.result.Some?
    case Keep(c) => c in s.calls && s.calls[c].phase.Fetched? && |BlockBytes(s.calls[c].phase.block)| < VEC_LIMIT
    case Fail(c) => c in s.calls && (s.calls[c].phase.MissedCache? || s.calls[c].phase.MissedNode?)
  }

  function Set(s: State, c: nat, p: Phase, trail: seq<Event>): State
    requires c in s.calls
  {
    s.(calls := s.calls[c := s.calls[c].(phase := p, trail := s.calls[c].trail + trail)])
  }

  function Do(h: HashFn, max: nat, s: State, step: Step): State
    requires Enabled(s, step)
  {
    match step
    case Prune(hash) => s.(pruned := s.pruned + {hash})
    case Begin(c, hash) => s.(calls := s.calls[c := Call(hash, Started, [])])
    case TryCache(c) =>
      var hash := s.calls[c].hash;
      var found := Lookup(s.cache, hash);
      if found.Some? then Set(s, c, Done(FromCache(found.value)), []).(cache := Touch(s.cache, hash))
      else Set(s, c, MissedCache, [CacheMiss])
    case AskNode(c) =>
      var hash := s.calls[c].hash;
      if hash in s.pruned then Set(s, c, MissedNode, [NodePruned])
      else Set(s, c, Done(FromNode(s.chain[hash])), [])
    case AskPeers(c, peers) => Set(s, c, Racing(Start(s.calls[c].hash, peers)), [PeersAsked])
    case RaceOn(c, move) => Set(s, c, Racing(Play(h, s.calls[c].phase.race, move)), [])
    case EndRace(c) =>
      var result := s.calls[c].phase.race.result.value;
      Set(s, c, if result.Some? then Fetched(result.value) else Done(NotFound), [])
    case Keep(c) =>
      var bytes := BlockBytes(s.calls[c].phase.block);
      Set(s, c, Done(FromPeers(bytes)), []).(cache := Put(s.cache, max, s.calls[c].hash, bytes))
    // An error from the node, or from listing its peers, ends the call.
    case Fail(c) => Set(s, c, Done(Failed), [])
  }

  ghost predicate Next(h: HashFn, max: nat, s: State, t: State) {
    exists step :: Enabled(s, step) && t == Do(h, max, s, step)
  }

  ghost predicate Init(s: State) {
    s.cache == [] && s.calls == map[]
  }

  ghost function Steps(h: HashFn, max: nat): (State, State) -> bool {
    (s, t) => Next(h, max, s, t)
  }

  // ----- what every step keeps -----

  /** The bytes are a block that passed every check for this hash. */
  ghost predicate Genuine(h: HashFn, hash: Digest, bytes: Bytes) {
    exists b :: CheckBlock(h, hash, b) && bytes == BlockBytes(b)
  }

  ghost predicate CallOk(h: HashFn, s: State, call: Call) {
    match call.phase
    case Started => call.trail == []
    case MissedCache => call.trail == [CacheMiss]
    case MissedNode => call.trail == [CacheMiss, NodePruned] && call.hash in s.pruned
    case Racing(race) =>
      call.trail == [CacheMiss, NodePruned, PeersAsked] && call.hash in s.pruned &&
      race.hash == call.hash && RaceInv(h, race)
    case Fetched(b) =>
      call.trail == [CacheMiss, NodePruned, PeersAsked] && call.hash in s.pruned && CheckBlock(h, call.hash, b)
    case Done(FromCache(bytes)) => call.trail == [] && Genuine(h, call.hash, bytes)
    case Done(FromNode(bytes)) => call.trail == [CacheMiss] && call.hash in s.chain && bytes == s.chain[call.hash]
    case Done(FromPeers(bytes)) =>
      call.trail == [CacheMiss, NodePruned, PeersAsked] && call.hash in s.pruned && Genuine(h, call.hash, bytes)
    case Done(NotFound) => call.trail == [CacheMiss, NodePruned, PeersAsked] && call.hash in s.pruned
    case Done(Failed) => call.trail == [CacheMiss] || call.trail == [CacheMiss, NodePruned]
  }

  /** What is cached passed the checks, and the node no longer has it. */
  ghost predicate CacheOk(h: HashFn, max: nat, s: State) {
    Distinct(s.cache) && Total(s.cache) <= max &&
    forall e :: e in s.cache ==> Genuine(h, e.hash, e.block) && e.hash in s.pruned
  }

  ghost predicate Inv(h: HashFn, max: nat, s: State) {
    CacheOk(h, max, s) && forall c :: c in s.calls ==> CallOk(h, s, s.calls[c])
  }

  lemma SetKeepsInv(h: HashFn, max: nat, s: State, c: nat, p: Phase, trail: seq<Event>)
    requires Inv(h, max, s) && c in s.calls
    requires CallOk(h, s, s.calls[c].(phase := p, trail := s.calls[c].trail + trail))
    ensures Inv(h, max, Set(s, c, p, trail))
  {
    var t := Set(s, c, p, trail);
    forall d | d in t.calls ensures CallOk(h, t, t.calls[d]) {
    }
  }

  lemma CacheKeepsInv(h: HashFn, max: nat, s: State, cache: Cache<Digest>)
    requires Inv(h, max, s) && CacheOk(h, max, s.(cache := cache))
    ensures Inv(h, max, s.(cache := cache))
  {
    forall c | c in s.calls ensures CallOk(h, s.(cache := cache), s.calls[c]) {
    }
  }

  lemma PruneKeepsInv(h: HashFn, max: nat, s: State, hash: Digest)
    requires Inv(h, max, s)
    ensures Inv(h, max, s.(pruned := s.pruned + {hash}))
  {
    var t := s.(pruned := s.pruned + {hash});
    forall c | c in s.calls ensures CallOk(h, t, t.calls[c]) {
      assert CallOk(h, s, s.calls[c]);
    }
  }

  lemma TryCacheKeepsInv(h: HashFn, max: nat, s: State, c: nat)
    requires Inv(h, max, s) && Enabled(s, TryCache(c))
    ensures Inv(h, max, Do(h, max, s, TryCache(c)))
  {
    var hash := s.calls[c].hash;
    var found := Lookup(s.cache, hash);
    if found.Some? {
      var e := s.cache[IndexOf(s.cache, hash)];
      assert e in s.cache && e.hash == hash && e.block == found.value;
      SetKeepsInv(h, max, s, c, Done(FromCache(found.value)), []);
      TouchKeeps(s.cache, hash);
      CacheKeepsInv(h, max, Set(s, c, Done(FromCache(found.value)), []), Touch(s.cache, hash));
    } else {
      SetKeepsInv(h, max, s, c, MissedCache, [CacheMiss]);
    }
  }

  lemma KeepKeepsInv(h: HashFn, max: nat, s: State, c: nat)
    requires Inv(h, max, s) && Enabled(s, Keep(c))
    ensures Inv(h, max, Do(h, max, s, Keep(c)))
  {
    var hash, b := s.calls[c].hash, s.calls[c].phase.block;
    var bytes := BlockBytes(b);
    assert CallOk(h, s, s.calls[c]);
    assert Genuine(h, hash, bytes);
    SetKeepsInv(h, max, s, c, Done(FromPeers(bytes)), []);
    PutKeeps(s.cache, max, hash, bytes);
    CacheKeepsInv(h, max, Set(s, c, Done(FromPeers(bytes)), []), Put(s.cache, max, hash, bytes));
  }

  lemma AskNodeKeepsInv(h: HashFn, max: nat, s: State, c: nat)
    requires Inv(h, max, s) && Enabled(s, AskNode(c))
    ensures Inv(h, max, Do(h, max, s, AskNode(c)))
  {
    assert CallOk(h, s, s.calls[c]);
    if s.calls[c].hash in s.pruned {
      SetKeepsInv(h, max, s, c, MissedNode, [NodePruned]);
    } else {
      SetKeepsInv(h, max, s, c, Done(FromNode(s.chain[s.calls[c].hash])), []);
    }
  }

  lemma AskPeersKeepsInv(h: HashFn, max: nat, s: State, c: nat, peers: set<nat>)
    requires Inv(h, max, s) && Enabled(s, AskPeers(c, peers))
    ensures Inv(h, max, Do(h, max, s, AskPeers(c, peers)))
  {
    assert CallOk(h, s, s.calls[c]);
    SetKeepsInv(h, max, s, c, Racing(Start(s.calls[c].hash, peers)), [PeersAsked]);
  }

  lemma RaceOnKeepsInv(h: HashFn, max: nat, s: State, c: nat, move: Move)
    requires Inv(h, max, s) && Enabled(s, RaceOn(c, move))
    ensures Inv(h, max, Do(h, max, s, RaceOn(c, move)))
  {
    assert CallOk(h, s, s.calls[c]);
    PlayKeepsInv(h, s.calls[c].phase.race, move);
    SetKeepsInv(h, max, s, c, Racing(Play(h, s.calls[c].phase.race, move)), []);
  }

  lemma EndRaceKeepsInv(h: HashFn, max: nat, s: State, c: nat)
    requires Inv(h, max, s) && Enabled(s, EndRace(c))
    ensures Inv(h, max, Do(h, max, s, EndRace(c)))
  {
    assert CallOk(h, s, s.calls[c]);
    var result := s.calls[c].phase.race.result.value;
    SetKeepsInv(h, max, s, c, if result.Some? then Fetched(result.value) else Done(NotFound), []);
  }

  lemma BeginKeepsInv(h: HashFn, max: nat, s: State, c: nat, hash: Digest)
    requires Inv(h, max, s) && Enabled(s, Begin(c, hash))
    ensures Inv(h, max, Do(h, max, s, Begin(c, hash)))
  {
    var t := Do(h, max, s, Begin(c, hash));
    forall d | d in t.calls ensures CallOk(h, t, t.calls[d]) {
    }
  }

  lemma FailKeepsInv(h: HashFn, max: nat, s: State, c: nat)
    requires Inv(h, max, s) && Enabled(s, Fail(c))
    ensures Inv(h, max, Do(h, max, s, Fail(c)))
  {
    assert CallOk(h, s, s.calls[c]);
    SetKeepsInv(h, max, s, c, Done(Failed), []);
  }

  lemma StepKeepsInv(h: HashFn, max: nat, s: State, step: Step)
    requires Inv(h, max, s) && Enabled(s, step)
    ensures Inv(h, max, Do(h, max, s, step))
  {
    match step
    case Prune(hash) => PruneKeepsInv(h, max, s, hash);
    case Begin(c, hash) => BeginKeepsInv(h, max, s, c, hash);
    case TryCache(c) => TryCacheKeepsInv(h, max, s, c);
    case AskNode(c) => AskNodeKeepsInv(h, max, s, c);
    case Keep(c) => KeepKeepsInv(h, max, s, c);
    case Fail(c) => FailKeepsInv(h, max, s, c);
    case AskPeers(c, peers) => AskPeersKeepsInv(h, max, s, c, peers);
    case RaceOn(c, move) => RaceOnKeepsInv(h, max, s, c, move);
    case EndRace(c) => EndRaceKeepsInv(h, max, s, c);
  }

  lemma RunKeepsInv(h: HashFn, max: nat, run: seq<State>, n: nat)
    requires IsRun(Init, Steps(h, max), run) && n < |run|
    ensures Inv(h, max, run[n])
  {
    forall s, t | Inv(h, max, s) && Next(h, max, s, t) ensures Inv(h, max, t) {
      var step :| Enabled(s, step) && t == Do(h, max, s, step);
      StepKeepsInv(h, max, s, step);
    }
    RunKeeps(Init, Steps(h, max), s => Inv(h, max, s), run, n);
  }

  // ----- safety over whole runs -----

  /** In every reachable state what is cached passed the checks for its key, and
      only blocks the node has pruned are there. */
  lemma CacheHoldsOnlyChecked(h: HashFn, max: nat, run: seq<State>, n: nat, e: Entry<Digest>)
    requires IsRun(Init, Steps(h, max), run) && n < |run| && e in run[n].cache
    ensures Genuine(h, e.hash, e.block) && e.hash in run[n].pruned && Total(run[n].cache) <= max
  {
    RunKeepsInv(h, max, run, n);
  }

  /** Every block returned is the node's own bytes or a block that passed the checks. */
  lemma AnswersAreGenuine(h: HashFn, max: nat, run: seq<State>, n: nat, c: nat)
    requires IsRun(Init, Steps(h, max), run) && n < |run| && c in run[n].calls && run[n].calls[c].phase.Done?
    ensures var s, call := run[n], run[n].calls[c];
            match call.phase.answer
            case FromNode(bytes) => call.hash in s.chain && bytes == s.chain[call.hash]
            case FromCache(bytes) => Genuine(h, call.hash, bytes)
            case FromPeers(bytes) => Genuine(h, call.hash, bytes)
            case _ => true
  {
    RunKeepsInv(h, max, run, n);
    assert CallOk(h, run[n], run[n].calls[c]);
  }

  /** Peers are asked only after the cache missed and the node had pruned the block. */
  lemma PeersAreAskedLast(h: HashFn, max: nat, run: seq<State>, n: nat, c: nat)
    requires IsRun(Init, Steps(h, max), run) && n < |run| && c in run[n].calls && PeersAsked in run[n].calls[c].trail
    ensures run[n].calls[c].trail == [CacheMiss, NodePruned, PeersAsked] && run[n].calls[c].hash in run[n].pruned
  {
    RunKeepsInv(h, max, run, n);
    assert CallOk(h, run[n], run[n].calls[c]);
  }

  // ----- where answers come from -----

  /** The step that ended call `c`, from state `s`, and why the answer is this one. */
  ghost predicate Explains(s: State, step: Step, c: nat, answer: Answer) {
    c in s.calls &&
    var call := s.calls[c];
    match answer
    case FromCache(bytes) => step == TryCache(c) && call.phase.Started? && Lookup(s.cache, call.hash) == Some(bytes)
    case FromNode(bytes) =>
      && step == AskNode(c) && call.phase.MissedCache? && call.hash !in s.pruned
      && call.hash in s.chain && bytes == s.chain[call.hash]
    case FromPeers(bytes) => step == Keep(c) && call.phase.Fetched? && bytes == BlockBytes(call.phase.block)
    case NotFound => step == EndRace(c) && call.phase.Racing? && call.phase.race.result == Some(None)
    case Failed => step == Fail(c) && (call.phase.MissedCache? || call.phase.MissedNode?)
  }

  ghost predicate DoneIn(s: State, c: nat) {
    c in s.calls && s.calls[c].phase.Done?
  }

  lemma StepEnds(h: HashFn, max: nat, s: State, step: Step, c: nat)
    requires Enabled(s, step) && DoneIn(Do(h, max, s, step), c)
    ensures var after := Do(h, max, s, step).calls[c];
            if DoneIn(s, c) then after == s.calls[c] else Explains(s, step, c, after.phase.answer)
  {
  }

  /** In every run every answer has one cause: the cache held it, the node had the
      block and had not pruned it, a peer's block was kept, the race gave nothing,
      or an error came from the node. */
  lemma {:induction false} AnswersHaveCauses(h: HashFn, max: nat, run: seq<State>, n: nat, c: nat)
    returns (m: nat, step: Step)
    requires IsRun(Init, Steps(h, max), run) && n < |run| && DoneIn(run[n], c)
    ensures m < n && Enabled(run[m], step) && run[m + 1] == Do(h, max, run[m], step)
    ensures Explains(run[m], step, c, run[n].calls[c].phase.answer)
  {
    m := n - 1;
    step := StepAt(h, max, run, m);
    StepEnds(h, max, run[m], step, c);
    if DoneIn(run[m], c) {
      m, step := AnswersHaveCauses(h, max, run, m, c);
    }
  }

  lemma StepAt(h: HashFn, max: nat, run: seq<State>, m: nat) returns (step: Step)
    requires IsRun(Init, Steps(h, max), run) && m + 1 < |run|
    ensures Enabled(run[m], step) && run[m + 1] == Do(h, max, run[m], step)
  {
    assert Next(h, max, run[m], run[m + 1]);
    step :| Enabled(run[m], step) && run[m + 1] == Do(h, max, run[m], step);
  }

  /** A call that missed the cache gets the node's own block unless it was pruned,
      and then goes on to the peers. */
  lemma NodeServes(h: HashFn, max: nat, s: State, c: nat)
    requires Enabled(s, AskNode(c))
    ensures var call, after := s.calls[c], Do(h, max, s, AskNode(c)).calls[c];
            && after.hash == call.hash
            && (call.hash !in s.pruned ==> after.phase == Done(FromNode(s.chain[call.hash])))
            && (call.hash in s.pruned ==> after.phase == MissedNode)
  {
  }

  /** A call finds in the cache what is there, which then is the last to be evicted. */
  lemma CacheIsAskedFirst(h: HashFn, max: nat, s: State, c: nat)
    requires Enabled(s, TryCache(c))
    ensures var hash, t := s.calls[c].hash, Do(h, max, s, TryCache(c));
            if Holds(s.cache, hash) then
              && Ended(t, c, hash, FromCache(Lookup(s.cache, hash).value))
              && t.cache != [] && t.cache[|t.cache| - 1].hash == hash && |t.cache| == |s.cache|
            else t.calls[c].phase == MissedCache && t.cache == s.cache
  {
  }

  /** What came from the cache or from peers can be read back, to a block that passed. */
  lemma ServedDecodes(h: HashFn, max: nat, run: seq<State>, n: nat, c: nat)
    requires IsRun(Init, Steps(h, max), run) && n < |run| && DoneIn(run[n], c)
    requires NotFromNode(run[n].calls[c].phase.answer)
    ensures var read := ReadBlock(run[n].calls[c].phase.answer.bytes);
            read.Parsed? && read.value.1 == [] && CheckBlock(h, run[n].calls[c].hash, read.value.0)
  {
    AnswersAreGenuine(h, max, run, n, c);
    var bytes := run[n].calls[c].phase.answer.bytes;
    var b :| CheckBlock(h, run[n].calls[c].hash, b) && bytes == BlockBytes(b);
    assert bytes == BlockBytes(b) + [];
    ReadBlockIff(bytes, b, []);
  }

  predicate NotFromNode(a: Answer) {
    a.FromCache? || a.FromPeers?
  }

  /** Whatever peers answered and whenever: two blocks served for one hash at any
      two points of a run have one header; they are the same block, up to how a
      salt of zeros is written, exactly when they have as many transactions, and
      altogether exactly when the coinbases spend with the same witness as well.
      Neither has to be so: `LengthenedCanBeServed`, `ResaltedCanBeServed`. */
  lemma ServedBlocksAgree(h: HashFn, max: nat, run: seq<State>, m: nat, n: nat, c: nat, d: nat, a: Block, b: Block,
                          messages: set<Bytes>)
    requires IsRun(Init, Steps(h, max), run) && m < |run| && n < |run| && c in run[m].calls && d in run[n].calls
    requires run[m].calls[c].phase.Done? && NotFromNode(run[m].calls[c].phase.answer)
    requires run[n].calls[d].phase.Done? && NotFromNode(run[n].calls[d].phase.answer)
    requires run[m].calls[c].hash == run[n].calls[d].hash
    requires run[m].calls[c].phase.answer.bytes == BlockBytes(a) && run[n].calls[d].phase.answer.bytes == BlockBytes(b)
    requires BlockHashed(h, a, messages) && BlockHashed(h, b, messages) && CollisionFree(h, messages)
    ensures a.header == b.header && (SameBlockContents(a, b) <==> |a.txs| == |b.txs|)
    ensures a.txs != [] && b.txs != [] && (a == b <==> |a.txs| == |b.txs| && a.txs[0].inputs == b.txs[0].inputs)
  {
    var hash := run[m].calls[c].hash;
    AnswersAreGenuine(h, max, run, m, c);
    AnswersAreGenuine(h, max, run, n, d);
    GenuineBlock(h, hash, a);
    GenuineBlock(h, hash, b);
    AcceptedBlockUnique(h, hash, a, b, messages);
  }

  /** The bytes served decode to the block that was checked. */
  lemma GenuineBlock(h: HashFn, hash: Digest, a: Block)
    requires Genuine(h, hash, BlockBytes(a))
    ensures CheckBlock(h, hash, a)
  {
    var b :| CheckBlock(h, hash, b) && BlockBytes(a) == BlockBytes(b);
    BlockReadable(a, b);
  }

  // ----- what peers can bring about -----

  lemma Perform(h: HashFn, max: nat, run: seq<State>, step: Step) returns (longer: seq<State>)
    requires IsRun(Init, Steps(h, max), run) && Enabled(Last(run), step)
    ensures IsRun(Init, Steps(h, max), longer) && Last(longer) == Do(h, max, Last(run), step)
  {
    longer := run + [Do(h, max, Last(run), step)];
    Extend(Init, Steps(h, max), run, Do(h, max, Last(run), step));
  }

  /** A call for a pruned block is past the cache. */
  predicate Missed(s: State, c: nat, hash: Digest) {
    c in s.calls && s.calls[c].phase.MissedCache? && s.calls[c].hash == hash && hash in s.chain && hash in s.pruned
  }

  ghost predicate OthersUnchanged(s: State, t: State, c: nat) {
    && t.chain == s.chain && t.pruned == s.pruned && t.calls.Keys == s.calls.Keys + {c}
    && forall d :: d in s.calls && d != c ==> t.calls[d] == s.calls[d]
  }

  predicate Ended(s: State, c: nat, hash: Digest, a: Answer) {
    c in s.calls && s.calls[c].hash == hash && s.calls[c].phase == Done(a)
  }

  lemma StillMissed(s: State, t: State, c: nat, d: nat, hash: Digest)
    requires OthersUnchanged(s, t, c) && Missed(s, d, hash) && c != d
    ensures Missed(t, d, hash)
  {
  }

  lemma StillEnded(s: State, t: State, c: nat, d: nat, hash: Digest, a: Answer)
    requires OthersUnchanged(s, t, c) && Ended(s, d, hash, a) && c != d
    ensures Ended(t, d, hash, a)
  {
  }

  /** A call that missed the cache can come to hold any block that passes the checks. */
  lemma PeerDelivers(h: HashFn, max: nat, run: seq<State>, c: nat, hash: Digest, b: Block) returns (longer: seq<State>)
    requires IsRun(Init, Steps(h, max), run) && Missed(Last(run), c, hash) && CheckBlock(h, hash, b)
    ensures IsRun(Init, Steps(h, max), longer)
    ensures var s, t := Last(run), Last(longer);
            t.cache == s.cache && OthersUnchanged(s, t, c) && t.calls[c].hash == hash && t.calls[c].phase == Fetched(b)
  {
    longer := Perform(h, max, run, AskNode(c));
    longer := Perform(h, max, longer, AskPeers(c, {0}));
    longer := Perform(h, max, longer, RaceOn(c, Deliver(0, b, true)));
    longer := Perform(h, max, longer, RaceOn(c, TakeBlock));
    longer := Perform(h, max, longer, EndRace(c));
  }

  lemma PeerKept(h: HashFn, max: nat, run: seq<State>, c: nat) returns (longer: seq<State>)
    requires IsRun(Init, Steps(h, max), run) && Enabled(Last(run), Keep(c))
    ensures IsRun(Init, Steps(h, max), longer)
    ensures var s, t := Last(run), Last(longer);
            var hash, bytes := s.calls[c].hash, BlockBytes(s.calls[c].phase.block);
            t.cache == Put(s.cache, max, hash, bytes) && OthersUnchanged(s, t, c) && Ended(t, c, hash, FromPeers(bytes))
  {
    longer := Perform(h, max, run, Keep(c));
  }

  /** And can be answered with it. */
  lemma PeerServes(h: HashFn, max: nat, run: seq<State>, c: nat, hash: Digest, bytes: Vec<byte>)
    returns (longer: seq<State>)
    requires IsRun(Init, Steps(h, max), run) && Missed(Last(run), c, hash) && Genuine(h, hash, bytes)
    ensures IsRun(Init, Steps(h, max), longer)
    ensures var s, t := Last(run), Last(longer);
            t.cache == Put(s.cache, max, hash, bytes) && OthersUnchanged(s, t, c) && Ended(t, c, hash, FromPeers(bytes))
  {
    var b :| CheckBlock(h, hash, b) && bytes == BlockBytes(b);
    var held := PeerDelivers(h, max, run, c, hash, b);
    longer := PeerKept(h, max, held, c);
  }

  /** Two calls miss the cache for a block the node had, as `own`, and pruned. */
  lemma TwoMiss(h: HashFn, max: nat, hash: Digest, own: Bytes) returns (run: seq<State>)
    ensures IsRun(Init, Steps(h, max), run)
    ensures var s := Last(run);
            && s.cache == [] && s.chain == map[hash := own]
            && Missed(s, 0, hash) && Missed(s, 1, hash) && s.calls.Keys == {0, 1}
  {
    run := [State([], map[hash := own], {hash}, map[])];
    run := Perform(h, max, run, Begin(0, hash));
    run := Perform(h, max, run, Begin(1, hash));
    run := Perform(h, max, run, TryCache(0));
    run := Perform(h, max, run, TryCache(1));
  }

  lemma CacheServes(h: HashFn, max: nat, run: seq<State>, c: nat, hash: Digest) returns (longer: seq<State>)
    requires IsRun(Init, Steps(h, max), run) && c !in Last(run).calls && Holds(Last(run).cache, hash)
    ensures IsRun(Init, Steps(h, max), longer)
    ensures var s, t := Last(run), Last(longer);
            OthersUnchanged(s, t, c) && Ended(t, c, hash, FromCache(Lookup(s.cache, hash).value))
  {
    longer := Perform(h, max, run, Begin(c, hash));
    longer := Perform(h, max, longer, TryCache(c));
  }

  lemma FirstIsKept(max: nat, hash: Digest, x: Vec<byte>, y: Vec<byte>)
    requires 0 < |x| <= max
    ensures Lookup(Put(Put([], max, hash, x), max, hash, y), hash) == Some(x)
  {
    StoredComesBack([], max, hash, x);
  }

  lemma ServeFirst(h: HashFn, max: nat, hash: Digest, x: Vec<byte>, own: Bytes) returns (run: seq<State>)
    requires Genuine(h, hash, x)
    ensures IsRun(Init, Steps(h, max), run)
    ensures var s := Last(run);
            && Ended(s, 0, hash, FromPeers(x)) && Missed(s, 1, hash) && 2 !in s.calls
            && s.cache == Put([], max, hash, x) && s.chain == map[hash := own]
  {
    var missed := TwoMiss(h, max, hash, own);
    run := PeerServes(h, max, missed, 0, hash, x);
    StillMissed(Last(missed), Last(run), 0, 1, hash);
  }

  lemma ServeBoth(h: HashFn, max: nat, hash: Digest, x: Vec<byte>, y: Vec<byte>) returns (run: seq<State>)
    requires Genuine(h, hash, x) && Genuine(h, hash, y) && 0 < |x| <= max
    ensures IsRun(Init, Steps(h, max), run)
    ensures var s := Last(run);
            && Ended(s, 0, hash, FromPeers(x)) && Ended(s, 1, hash, FromPeers(y)) && 2 !in s.calls
            && Lookup(s.cache, hash) == Some(x) && s.chain == map[hash := y]
  {
    FirstIsKept(max, hash, x, y);
    var first := ServeFirst(h, max, hash, x, y);
    run := PeerServes(h, max, first, 1, hash, y);
    StillEnded(Last(first), Last(run), 1, 0, hash, FromPeers(x));
  }

  /** A block the node has is served as the node serializes it, and not cached. */
  lemma NodeCanServe(h: HashFn, max: nat, hash: Digest, own: Bytes) returns (run: seq<State>)
    ensures IsRun(Init, Steps(h, max), run)
    ensures Ended(Last(run), 0, hash, FromNode(own)) && Last(run).cache == []
  {
    run := [State([], map[hash := own], {}, map[])];
    run := Perform(h, max, run, Begin(0, hash));
    run := Perform(h, max, run, TryCache(0));
    run := Perform(h, max, run, AskNode(0));
  }

  /** Any two blocks that pass the checks for one hash can both be served, to two
      callers at once, and the first of them from the cache afterwards, though the
      node once had the second. */
  lemma BothCanBeServed(h: HashFn, max: nat, hash: Digest, a: Block, b: Block) returns (run: seq<State>)
    requires CheckBlock(h, hash, a) && CheckBlock(h, hash, b)
    requires |BlockBytes(a)| <= max && |BlockBytes(a)| < VEC_LIMIT && |BlockBytes(b)| < VEC_LIMIT
    ensures IsRun(Init, Steps(h, max), run)
    ensures var s := Last(run);
            && Ended(s, 0, hash, FromPeers(BlockBytes(a))) && Ended(s, 1, hash, FromPeers(BlockBytes(b)))
            && Ended(s, 2, hash, FromCache(BlockBytes(a))) && s.chain == map[hash := BlockBytes(b)]
  {
    var both := ServeBoth(h, max, hash, BlockBytes(a), BlockBytes(b));
    run := CacheServes(h, max, both, 2, hash);
  }

  /** So a peer can have a block with its last transaction twice served to one
      caller beside the block itself to another, and kept in the cache. */
  lemma LengthenedCanBeServed(h: HashFn, max: nat, hash: Digest, b: Block) returns (run: seq<State>)
    requires CheckBlock(h, hash, b) && |b.txs| % 2 == 1 && 1 < |b.txs| < VEC_LIMIT - 1
    requires |BlockBytes(Lengthened(b))| <= max
    requires |BlockBytes(Lengthened(b))| < VEC_LIMIT && |BlockBytes(b)| < VEC_LIMIT
    ensures IsRun(Init, Steps(h, max), run)
    ensures var s := Last(run);
            && Ended(s, 0, hash, FromPeers(BlockBytes(Lengthened(b)))) && Ended(s, 1, hash, FromPeers(BlockBytes(b)))
            && Ended(s, 2, hash, FromCache(BlockBytes(Lengthened(b))))
  {
    LengthenedAccepted(h, hash, b);
    run := BothCanBeServed(h, max, hash, Lengthened(b), b);
  }

  /** And so it can with a block whose salt of zeros is written the other way. */
  lemma ResaltedCanBeServed(h: HashFn, max: nat, hash: Digest, b: Block, stack: Vec<Vec<byte>>)
    returns (run: seq<State>)
    requires CheckBlock(h, hash, b) && b.txs != [] && AnyCommits(b.txs[0].outputs)
    requires ZeroSalted(b.txs[0]) && ZeroSalt(stack)
    requires |BlockBytes(Resalted(b, stack))| <= max
    requires |BlockBytes(Resalted(b, stack))| < VEC_LIMIT && |BlockBytes(b)| < VEC_LIMIT
    ensures IsRun(Init, Steps(h, max), run)
    ensures var s, other := Last(run), BlockBytes(Resalted(b, stack));
            && Ended(s, 0, hash, FromPeers(other)) && Ended(s, 1, hash, FromPeers(BlockBytes(b)))
            && Ended(s, 2, hash, FromCache(other))
  {
    ResaltedAccepted(h, hash, b, stack);
    run := BothCanBeServed(h, max, hash, Resalted(b, stack), b);
  }
}
