/** Loading the authorization header from the cookie file, any number of callers
    at once, while the file is replaced. */
module CookieHeader {
  import opened CookieFile
  import opened Options
  import opened Runs

  datatype Cached = Cached(mtime: nat, header: string)

  /** How far a call of `try_load` has come. */
  datatype Phase =
    | Begun
    | HasSnapshot(cache: Option<Cached>)
    | Missed(mtime: nat)
    | Loaded(mtime: nat, header: string)
    | Returned(header: string, end: nat)
    | Errored

  /** `start` is the version of the file when the call began. */
  datatype Call = Call(start: nat, phase: Phase)

  datatype State = State(history: History, cached: Option<Cached>, calls: map<nat, Call>)

  datatype Step =
    | Replace(file: File)
    | Begin(c: nat)
    | ReadCache(c: nat)
    | Stat(c: nat)
    | Load(c: nat)
    | Store(c: nat)
    | Fail(c: nat)

  /** One trailing newline is dropped. */
  function WithoutNewline(s: string): string {
    if s != [] && s[|s| - 1] == '\n' then s[..|s| - 1] else s
  }

  function Header(encode: string -> string, contents: string): string {
    "Basic " + encode(WithoutNewline(contents))
  }

  /** The header encodes the contents without the one newline they may end in. */
  lemma HeaderIs(encode: string -> string, contents: string)
    ensures Header(encode, contents + "\n") == "Basic " + encode(contents)
    ensures (contents == [] || contents[|contents| - 1] != '\n') ==>
              Header(encode, contents) == "Basic " + encode(contents)
  {
    assert (contents + "\n")[..|contents|] == contents;
  }

  ghost predicate Enabled(s: State, step: Step) {
    s.history != [] &&
    match step
    case Replace(f) => MayFollow(s.history, f)
    case Begin(c) => c !in s.calls
    case ReadCache(c) => c in s.calls && s.calls[c].phase.Begun?
    case Stat(c) => c in s.calls && s.calls[c].phase.HasSnapshot? && Now(s.history).Present?
    case Load(c) => c in s.calls && s.calls[c].phase.Missed? && Now(s.history).Present?
    case Store(c) => c in s.calls && s.calls[c].phase.Loaded?
    case Fail(c) => c in s.calls && (s.calls[c].phase.HasSnapshot? || s.calls[c].phase.Missed?)
  }

  function Set(s: State, c: nat, p: Phase): State
    requires c in s.calls
  {
    s.(calls := s.calls[c := s.calls[c].(phase := p)])
  }

  function Do(encode: string -> string, s: State, step: Step): State
    requires Enabled(s, step)
  {
    match step
    case Replace(f) => s.(history := s.history + [f])
    case Begin(c) => s.(calls := s.calls[c := Call(|s.history| - 1, Begun)])
    case ReadCache(c) => Set(s, c, HasSnapshot(s.cached))
    case Stat(c) =>
      var cache, modified := s.calls[c].phase.cache, Now(s.history).mtime;
      if cache.Some? && modified == cache.value.mtime then Set(s, c, Returned(cache.value.header, |s.history| - 1))
      else Set(s, c, Missed(modified))
    case Load(c) => Set(s, c, Loaded(s.calls[c].phase.mtime, Header(encode, Now(s.history).contents)))
    case Store(c) =>
      var p := s.calls[c].phase;
      Set(s, c, Returned(p.header, |s.history| - 1)).(cached := Some(Cached(p.mtime, p.header)))
    case Fail(c) => Set(s, c, Errored)
  }

  ghost predicate Next(encode: string -> string, s: State, t: State) {
    exists step :: Enabled(s, step) && t == Do(encode, s, step)
  }

  ghost predicate Init(s: State) {
    |s.history| == 1 && s.cached.None? && s.calls == map[]
  }

  ghost function Steps(encode: string -> string): (State, State) -> bool {
    (s, t) => Next(encode, s, t)
  }

  // ----- what every step keeps -----

  /** The file held contents with this header as its version `k`. */
  ghost predicate Held(encode: string -> string, h: History, k: nat, header: string) {
    k < |h| && h[k].Present? && header == Header(encode, h[k].contents)
  }

  /** A cached pair may join an old modification time to newer contents, never
      the other way round. */
  ghost predicate PairOk(encode: string -> string, h: History, mtime: nat, header: string) {
    exists k: nat :: Held(encode, h, k, header) && mtime <= h[k].mtime
  }

  /** The header is that of contents the file held between two instants. */
  ghost predicate HeldDuring(encode: string -> string, h: History, from: nat, to: nat, header: string) {
    exists k :: from <= k <= to && Held(encode, h, k, header)
  }

  ghost predicate CallOk(encode: string -> string, h: History, call: Call) {
    call.start < |h| &&
    match call.phase
    case HasSnapshot(cache) => cache.Some? ==> PairOk(encode, h, cache.value.mtime, cache.value.header)
    case Missed(mtime) => exists i :: 0 <= i < |h| && h[i].Present? && h[i].mtime == mtime
    case Loaded(mtime, header) =>
      exists k :: call.start <= k && Held(encode, h, k, header) && mtime <= h[k].mtime
    case Returned(header, end) => end < |h| && HeldDuring(encode, h, call.start, end, header)
    case _ => true
  }

  ghost predicate Inv(encode: string -> string, s: State) {
    s.history != [] && Increasing(s.history) &&
    (s.cached.Some? ==> PairOk(encode, s.history, s.cached.value.mtime, s.cached.value.header)) &&
    forall c :: c in s.calls ==> CallOk(encode, s.history, s.calls[c])
  }

  lemma PairStays(encode: string -> string, h: History, f: File, mtime: nat, header: string)
    requires PairOk(encode, h, mtime, header)
    ensures PairOk(encode, h + [f], mtime, header)
  {
    var k: nat :| Held(encode, h, k, header) && mtime <= h[k].mtime;
    assert Held(encode, h + [f], k, header);
  }

  lemma CallStays(encode: string -> string, h: History, f: File, call: Call)
    requires CallOk(encode, h, call)
    ensures CallOk(encode, h + [f], call)
  {
    match call.phase
    case HasSnapshot(cache) =>
      if cache.Some? {
        PairStays(encode, h, f, cache.value.mtime, cache.value.header);
      }
    case Missed(mtime) =>
      var i :| 0 <= i < |h| && h[i].Present? && h[i].mtime == mtime;
      assert (h + [f])[i] == h[i];
    case Loaded(mtime, header) =>
      var k :| call.start <= k && Held(encode, h, k, header) && mtime <= h[k].mtime;
      assert Held(encode, h + [f], k, header);
    case Returned(header, end) =>
      var k :| call.start <= k <= end && Held(encode, h, k, header);
      assert Held(encode, h + [f], k, header);
    case _ =>
  }

  /** A hit: a pair whose time is the current one holds the current contents. */
  lemma HitIsCurrent(encode: string -> string, h: History, mtime: nat, header: string)
    requires h != [] && Increasing(h) && Now(h).Present? && PairOk(encode, h, mtime, header) && mtime == Now(h).mtime
    ensures Held(encode, h, |h| - 1, header)
  {
    var k: nat :| Held(encode, h, k, header) && mtime <= h[k].mtime;
    NowIsLatest(h, k);
    SameTimeSameVersion(h, k, |h| - 1);
  }

  lemma SetKeepsInv(encode: string -> string, s: State, c: nat, p: Phase)
    requires Inv(encode, s) && c in s.calls && CallOk(encode, s.history, s.calls[c].(phase := p))
    ensures Inv(encode, Set(s, c, p))
  {
  }

  lemma ReplaceKeepsInv(encode: string -> string, s: State, f: File)
    requires Inv(encode, s) && MayFollow(s.history, f)
    ensures Inv(encode, s.(history := s.history + [f]))
  {
    if s.cached.Some? {
      PairStays(encode, s.history, f, s.cached.value.mtime, s.cached.value.header);
    }
    forall c | c in s.calls ensures CallOk(encode, s.history + [f], s.calls[c]) {
      CallStays(encode, s.history, f, s.calls[c]);
    }
  }

  lemma StepKeepsInv(encode: string -> string, s: State, step: Step)
    requires Inv(encode, s) && Enabled(s, step)
    ensures Inv(encode, Do(encode, s, step))
  {
    var h, last := s.history, |s.history| - 1;
    match step
    case Replace(f) => ReplaceKeepsInv(encode, s, f);
    case Begin(c) =>
    case ReadCache(c) => SetKeepsInv(encode, s, c, HasSnapshot(s.cached));
    case Stat(c) =>
      var cache := s.calls[c].phase.cache;
      if cache.Some? && Now(h).mtime == cache.value.mtime {
        HitIsCurrent(encode, h, cache.value.mtime, cache.value.header);
        SetKeepsInv(encode, s, c, Returned(cache.value.header, last));
      } else {
        assert h[last].Present?;
        SetKeepsInv(encode, s, c, Missed(Now(h).mtime));
      }
    case Load(c) =>
      var header := Header(encode, Now(h).contents);
      assert Held(encode, h, last, header);
      MissedIsEarlier(encode, h, s.calls[c]);
      SetKeepsInv(encode, s, c, Loaded(s.calls[c].phase.mtime, header));
    case Store(c) =>
      var p := s.calls[c].phase;
      var k :| s.calls[c].start <= k && Held(encode, h, k, p.header) && p.mtime <= h[k].mtime;
      SetKeepsInv(encode, s, c, Returned(p.header, last));
    case Fail(c) => SetKeepsInv(encode, s, c, Errored);
  }

  lemma MissedIsEarlier(encode: string -> string, h: History, call: Call)
    requires h != [] && Increasing(h) && Now(h).Present? && CallOk(encode, h, call) && call.phase.Missed?
    ensures call.phase.mtime <= Now(h).mtime
  {
    var i :| 0 <= i < |h| && h[i].Present? && h[i].mtime == call.phase.mtime;
    NowIsLatest(h, i);
  }

  lemma RunKeepsInv(encode: string -> string, run: seq<State>, n: nat)
    requires IsRun(Init, Steps(encode), run) && n < |run|
    ensures Inv(encode, run[n])
  {
    forall s, t | Inv(encode, s) && Next(encode, s, t) ensures Inv(encode, t) {
      var step :| Enabled(s, step) && t == Do(encode, s, step);
      StepKeepsInv(encode, s, step);
    }
    RunKeeps(Init, Steps(encode), s => Inv(encode, s), run, n);
  }

  /** Every header a call returns, in any interleaving of any number of calls
      with any replacements, is that of contents the file held during the call. */
  lemma HeadersAreFresh(encode: string -> string, run: seq<State>, n: nat, c: nat)
    requires IsRun(Init, Steps(encode), run) && n < |run| && c in run[n].calls && run[n].calls[c].phase.Returned?
    ensures var call := run[n].calls[c];
            HeldDuring(encode, run[n].history, call.start, call.phase.end, call.phase.header)
  {
    RunKeepsInv(encode, run, n);
  }

  lemma Perform(encode: string -> string, run: seq<State>, step: Step) returns (longer: seq<State>)
    requires IsRun(Init, Steps(encode), run) && Enabled(Last(run), step)
    ensures IsRun(Init, Steps(encode), longer) && Last(longer) == Do(encode, Last(run), step)
  {
    longer := run + [Do(encode, Last(run), step)];
    Extend(Init, Steps(encode), run, Do(encode, Last(run), step));
  }

  lemma FirstLoaded(encode: string -> string, first: string) returns (run: seq<State>)
    ensures IsRun(Init, Steps(encode), run)
    ensures var header := Header(encode, first);
            Last(run) == State([Present(1, first)], Some(Cached(1, header)), map[0 := Call(0, Returned(header, 0))])
  {
    run := [State([Present(1, first)], None, map[])];
    run := Perform(encode, run, Begin(0));
    run := Perform(encode, run, ReadCache(0));
    run := Perform(encode, run, Stat(0));
    run := Perform(encode, run, Load(0));
    run := Perform(encode, run, Store(0));
  }

  lemma LoadedAgain(encode: string -> string, run: seq<State>, second: string) returns (longer: seq<State>)
    requires IsRun(Init, Steps(encode), run) && 2 !in Last(run).calls
    requires var s := Last(run);
             |s.history| == 1 && s.history[0].Present? && s.history[0].mtime == 1 &&
             s.cached.Some? && s.cached.value.mtime == 1
    ensures IsRun(Init, Steps(encode), longer)
    ensures var calls := Last(longer).calls;
            && 2 in calls && calls[2].phase == Returned(Header(encode, second), 1)
            && forall c :: c in Last(run).calls ==> c in calls && calls[c] == Last(run).calls[c]
  {
    longer := Perform(encode, run, Replace(Present(2, second)));
    longer := Perform(encode, longer, Begin(2));
    longer := Perform(encode, longer, ReadCache(2));
    longer := Perform(encode, longer, Stat(2));
    longer := Perform(encode, longer, Load(2));
    longer := Perform(encode, longer, Store(2));
  }

  /** Left alone, a call loads the header, the next one gets it from the cache
      without reading, and one after a replacement gets the new one. */
  lemma HeaderIsFollowed(encode: string -> string, first: string, second: string) returns (run: seq<State>)
    ensures IsRun(Init, Steps(encode), run)
    ensures var calls := Last(run).calls;
            && 0 in calls && calls[0].phase == Returned(Header(encode, first), 0)
            && 1 in calls && calls[1].phase == Returned(Header(encode, first), 0)
            && 2 in calls && calls[2].phase == Returned(Header(encode, second), 1)
  {
    run := FirstLoaded(encode, first);
    run := Perform(encode, run, Begin(1));
    run := Perform(encode, run, ReadCache(1));
    run := Perform(encode, run, Stat(1));
    run := LoadedAgain(encode, run, second);
  }

  /** A call gives no header only if the file could not be examined or read. */
  lemma ErrorsHaveCauses(encode: string -> string, s: State, step: Step, c: nat)
    requires Enabled(s, step)
    requires c in Do(encode, s, step).calls && Do(encode, s, step).calls[c].phase.Errored?
    requires c !in s.calls || !s.calls[c].phase.Errored?
    ensures step == Fail(c)
  {
  }
}
