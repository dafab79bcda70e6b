/** Following the password in the cookie file, any number of comparisons at once,
    while the file is replaced. The modification time is taken again after the
    file is read, and the pair of that time and what was read is cached. */
module CookiePassword {
  import opened CookieFile
  import opened Options
  import opened Runs

  /** A cached pair, with the versions of the file it was made from: the one
      that was read and the one whose time was taken afterwards. */
  datatype Stored = Stored(mtime: nat, password: string, readAt: nat, statAt: nat)

  /** How far a call of `cookie_password` has come. */
  datatype Phase =
    | Begun
    | Statted(mtime: Option<nat>, at: nat)
    | Missed
    | HasRead(password: string, readAt: nat)
    | Restatted(stored: Stored)
    | Hit(from: Stored, at: nat)
    | Returned(password: string, readAt: nat)
    | Errored

  /** `start` is the version of the file when the call began. */
  datatype Call = Call(start: nat, phase: Phase)

  /** `log` keeps every pair ever stored. */
  datatype State = State(history: History, cached: Option<Stored>, log: seq<Stored>, calls: map<nat, Call>)

  /** `Stat` and `Restat` carry whether the call succeeded; a missing file never lets it. */
  datatype Step =
    | Replace(file: File)
    | Begin(c: nat)
    | Stat(c: nat, ok: bool)
    | Consult(c: nat)
    | Read(c: nat)
    | Restat(c: nat, ok: bool)
    | Store(c: nat)
    | Fail(c: nat)

  function TrimNewlines(s: string): string {
    if s != [] && s[|s| - 1] == '\n' then TrimNewlines(s[..|s| - 1]) else s
  }

  function AfterColon(s: string): Option<string> {
    if s == [] then None else if s[0] == ':' then Some(s[1..]) else AfterColon(s[1..])
  }

  /** What follows the first colon, if there is one. */
  function Password(contents: string): Option<string> {
    AfterColon(TrimNewlines(contents))
  }

  function Newlines(k: nat): string {
    seq(k, _ => '\n')
  }

  lemma {:induction false} TrimAll(s: string, k: nat)
    requires s != [] && s[|s| - 1] != '\n'
    ensures TrimNewlines(s + Newlines(k)) == s
  {
    if k == 0 {
      assert s + Newlines(0) == s;
    } else {
      var t := s + Newlines(k);
      assert t[|t| - 1] == '\n' && t[..|t| - 1] == s + Newlines(k - 1);
      TrimAll(s, k - 1);
    }
  }

  lemma {:induction false} AfterFirstColon(user: string, rest: string)
    requires ':' !in user
    ensures AfterColon(user + ":" + rest) == Some(rest)
  {
    var s := user + ":" + rest;
    if user == [] {
      assert s[1..] == rest;
    } else {
      assert s[0] == user[0] && s[1..] == user[1..] + ":" + rest;
      AfterFirstColon(user[1..], rest);
    }
  }

  /** The password in a cookie file is what stands between the first colon and the
      newlines at the end, colons included. */
  lemma PasswordIs(user: string, password: string, k: nat)
    requires ':' !in user && (password == [] || password[|password| - 1] != '\n')
    ensures Password(user + ":" + password + Newlines(k)) == Some(password)
  {
    var s := user + ":" + password;
    assert s[|s| - 1] == if password == [] then ':' else password[|password| - 1];
    TrimAll(s, k);
    AfterFirstColon(user, password);
  }

  lemma {:induction false} TrimKeepsColons(s: string)
    ensures ':' in TrimNewlines(s) <==> ':' in s
  {
    if s != [] && s[|s| - 1] == '\n' {
      TrimKeepsColons(s[..|s| - 1]);
      assert s == s[..|s| - 1] + ['\n'];
    }
  }

  lemma {:induction false} ColonFound(s: string)
    ensures AfterColon(s).Some? <==> ':' in s
  {
    if s != [] && s[0] != ':' {
      ColonFound(s[1..]);
      assert s == [s[0]] + s[1..];
    }
  }

  /** There is no password exactly when there is no colon. */
  lemma PasswordIffColon(contents: string)
    ensures Password(contents).Some? <==> ':' in contents
  {
    TrimKeepsColons(contents);
    ColonFound(TrimNewlines(contents));
  }

  ghost predicate Enabled(s: State, step: Step) {
    s.history != [] &&
    match step
    case Replace(f) => MayFollow(s.history, f)
    case Begin(c) => c !in s.calls
    case Stat(c, ok) => c in s.calls && s.calls[c].phase.Begun? && (ok ==> Now(s.history).Present?)
    case Consult(c) => c in s.calls && s.calls[c].phase.Statted?
    case Read(c) => c in s.calls && s.calls[c].phase.Missed? && Now(s.history).Present?
    case Restat(c, ok) => c in s.calls && s.calls[c].phase.HasRead? && (ok ==> Now(s.history).Present?)
    case Store(c) => c in s.calls && s.calls[c].phase.Restatted?
    case Fail(c) => c in s.calls && s.calls[c].phase.Missed?
  }

  function Set(s: State, c: nat, p: Phase): State
    requires c in s.calls
  {
    s.(calls := s.calls[c := s.calls[c].(phase := p)])
  }

  function Do(s: State, step: Step): State
    requires Enabled(s, step)
  {
    var last := |s.history| - 1;
    match step
    case Replace(f) => s.(history := s.history + [f])
    case Begin(c) => s.(calls := s.calls[c := Call(last, Begun)])
    case Stat(c, ok) => Set(s, c, Statted(if ok then Some(Now(s.history).mtime) else None, last))
    case Consult(c) =>
      var p := s.calls[c].phase;
      if p.mtime.Some? && s.cached.Some? && s.cached.value.mtime == p.mtime.value
      then Set(s, c, Hit(s.cached.value, p.at)) else Set(s, c, Missed)
    case Read(c) =>
      var password := Password(Now(s.history).contents);
      if password.None? then Set(s, c, Errored) else Set(s, c, HasRead(password.value, last))
    case Restat(c, ok) =>
      var p := s.calls[c].phase;
      if ok then Set(s, c, Restatted(Stored(Now(s.history).mtime, p.password, p.readAt, last)))
      else Set(s, c, Returned(p.password, p.readAt))
    case Store(c) =>
      var st := s.calls[c].phase.stored;
      Set(s, c, Returned(st.password, st.readAt)).(cached := Some(st), log := s.log + [st])
    case Fail(c) => Set(s, c, Errored)
  }

  ghost predicate Next(s: State, t: State) {
    exists step :: Enabled(s, step) && t == Do(s, step)
  }

  ghost predicate Init(s: State) {
    |s.history| == 1 && s.cached.None? && s.log == [] && s.calls == map[]
  }

  // ----- what every step keeps -----

  /** Version `k` of the file had this password. */
  ghost predicate Held(h: History, k: nat, password: string) {
    k < |h| && h[k].Present? && Password(h[k].contents) == Some(password)
  }

  /** The pair was made as its two versions say. */
  ghost predicate Proven(h: History, st: Stored) {
    st.readAt <= st.statAt < |h| && Held(h, st.readAt, st.password) &&
    h[st.statAt].Present? && h[st.statAt].mtime == st.mtime
  }

  ghost predicate CallOk(h: History, call: Call) {
    call.start < |h| &&
    match call.phase
    case Statted(mtime, at) => call.start <= at < |h| && (mtime.Some? ==> h[at].Present? && h[at].mtime == mtime.value)
    case HasRead(password, readAt) => call.start <= readAt && Held(h, readAt, password)
    case Restatted(st) => call.start <= st.readAt && Proven(h, st)
    case Hit(st, at) => call.start <= at && Proven(h, st) && st.statAt == at
    case Returned(password, readAt) => call.start <= readAt && Held(h, readAt, password)
    case _ => true
  }

  ghost predicate Inv(s: State) {
    s.history != [] && Increasing(s.history) &&
    (s.cached.Some? ==> s.cached.value in s.log) &&
    (forall st :: st in s.log ==> Proven(s.history, st)) &&
    forall c :: c in s.calls ==> CallOk(s.history, s.calls[c])
  }

  lemma SetKeepsInv(s: State, c: nat, p: Phase)
    requires Inv(s) && c in s.calls && CallOk(s.history, s.calls[c].(phase := p))
    ensures Inv(Set(s, c, p))
  {
  }

  lemma ReplaceKeepsInv(s: State, f: File)
    requires Inv(s) && MayFollow(s.history, f)
    ensures Inv(s.(history := s.history + [f]))
  {
    var h := s.history + [f];
    forall st | st in s.log ensures Proven(h, st) {
    }
    forall c | c in s.calls ensures CallOk(h, s.calls[c]) {
    }
  }

  lemma StoreKeepsInv(s: State, c: nat)
    requires Inv(s) && Enabled(s, Store(c))
    ensures Inv(Do(s, Store(c)))
  {
    var st := s.calls[c].phase.stored;
    assert Proven(s.history, st);
    SetKeepsInv(s, c, Returned(st.password, st.readAt));
  }

  lemma StepKeepsInv(s: State, step: Step)
    requires Inv(s) && Enabled(s, step)
    ensures Inv(Do(s, step))
  {
    var last := |s.history| - 1;
    match step
    case Replace(f) => ReplaceKeepsInv(s, f);
    case Begin(c) =>
    case Stat(c, ok) => SetKeepsInv(s, c, Statted(if ok then Some(Now(s.history).mtime) else None, last));
    case Consult(c) =>
      var p := s.calls[c].phase;
      if p.mtime.Some? && s.cached.Some? && s.cached.value.mtime == p.mtime.value {
        assert Proven(s.history, s.cached.value);
        SameTimeSameVersion(s.history, p.at, s.cached.value.statAt);
        SetKeepsInv(s, c, Hit(s.cached.value, p.at));
      } else {
        SetKeepsInv(s, c, Missed);
      }
    case Read(c) =>
      var password := Password(Now(s.history).contents);
      SetKeepsInv(s, c, if password.None? then Errored else HasRead(password.value, last));
    case Restat(c, ok) =>
      var p := s.calls[c].phase;
      SetKeepsInv(s, c, if ok then Restatted(Stored(Now(s.history).mtime, p.password, p.readAt, last))
                        else Returned(p.password, p.readAt));
    case Store(c) => StoreKeepsInv(s, c);
    case Fail(c) => SetKeepsInv(s, c, Errored);
  }

  lemma RunKeepsInv(run: seq<State>, n: nat)
    requires IsRun(Init, Next, run) && n < |run|
    ensures Inv(run[n])
  {
    forall s, t | Inv(s) && Next(s, t) ensures Inv(t) {
      var step :| Enabled(s, step) && t == Do(s, step);
      StepKeepsInv(s, step);
    }
    RunKeeps(Init, Next, Inv, run, n);
  }

  // ----- when the cache is right -----

  /** The version with this time had this password. */
  ghost predicate Binds(h: History, mtime: nat, password: string) {
    exists k: nat :: Held(h, k, password) && h[k].mtime == mtime
  }

  /** Every version comes with a password of its own, as bitcoind writes them. */
  ghost predicate FreshPasswords(h: History) {
    forall i, j :: 0 <= i < j < |h| && h[i].Present? && h[j].Present? ==>
      Password(h[i].contents) != Password(h[j].contents)
  }

  lemma ProvenBindsIff(h: History, st: Stored)
    requires Increasing(h) && Proven(h, st)
    ensures st.readAt == st.statAt ==> Binds(h, st.mtime, st.password)
    ensures FreshPasswords(h) && Binds(h, st.mtime, st.password) ==> st.readAt == st.statAt
  {
    if FreshPasswords(h) && Binds(h, st.mtime, st.password) {
      var k: nat :| Held(h, k, st.password) && h[k].mtime == st.mtime;
      SameTimeSameVersion(h, k, st.statAt);
    }
  }

  /** A pair ever cached binds its time to the password the file then held, if
      the file was not replaced between being read and its time being taken;
      and only if, since every replacement brings a new password. */
  lemma CachedPairsBindIff(run: seq<State>, n: nat, st: Stored)
    requires IsRun(Init, Next, run) && n < |run| && st in run[n].log
    ensures st.readAt == st.statAt ==> Binds(run[n].history, st.mtime, st.password)
    ensures FreshPasswords(run[n].history) ==>
              (Binds(run[n].history, st.mtime, st.password) <==> st.readAt == st.statAt)
  {
    RunKeepsInv(run, n);
    ProvenBindsIff(run[n].history, st);
  }

  /** A hit returns the password current at the first stat under the same condition. */
  lemma HitsAreCurrentIff(run: seq<State>, n: nat, c: nat)
    requires IsRun(Init, Next, run) && n < |run| && c in run[n].calls && run[n].calls[c].phase.Hit?
    ensures var h, hit := run[n].history, run[n].calls[c].phase;
            && run[n].calls[c].start <= hit.at
            && (hit.from.readAt == hit.from.statAt ==> Held(h, hit.at, hit.from.password))
            && (FreshPasswords(h) ==> (Held(h, hit.at, hit.from.password) <==> hit.from.readAt == hit.from.statAt))
  {
    RunKeepsInv(run, n);
  }

  /** What a miss returns was read during the call, whatever happened. */
  lemma MissesAreFresh(run: seq<State>, n: nat, c: nat)
    requires IsRun(Init, Next, run) && n < |run| && c in run[n].calls && run[n].calls[c].phase.Returned?
    ensures var call := run[n].calls[c];
            call.start <= call.phase.readAt && Held(run[n].history, call.phase.readAt, call.phase.password)
  {
    RunKeepsInv(run, n);
  }

  lemma Perform(run: seq<State>, step: Step) returns (longer: seq<State>)
    requires IsRun(Init, Next, run) && Enabled(Last(run), step)
    ensures IsRun(Init, Next, longer) && Last(longer) == Do(Last(run), step)
  {
    longer := run + [Do(Last(run), step)];
    Extend(Init, Next, run, Do(Last(run), step));
  }

  lemma FirstRead(first: string) returns (run: seq<State>)
    requires Password(first).Some?
    ensures IsRun(Init, Next, run)
    ensures Last(run) == State([Present(1, first)], None, [], map[0 := Call(0, HasRead(Password(first).value, 0))])
  {
    run := [State([Present(1, first)], None, [], map[])];
    run := Perform(run, Begin(0));
    run := Perform(run, Stat(0, true));
    run := Perform(run, Consult(0));
    run := Perform(run, Read(0));
  }

  /** The first call reads the old file and takes the time of the new one. */
  lemma RacedStore(first: string, second: string) returns (run: seq<State>)
    requires Password(first).Some?
    ensures IsRun(Init, Next, run)
    ensures var s := Last(run);
            && s.history == [Present(1, first), Present(2, second)] && 1 !in s.calls
            && s.cached == Some(Stored(2, Password(first).value, 0, 1))
  {
    run := FirstRead(first);
    run := Perform(run, Replace(Present(2, second)));
    assert Last(run).history == [Present(1, first), Present(2, second)];
    run := Perform(run, Restat(0, true));
    run := Perform(run, Store(0));
  }

  /** A file replaced after it was read and before its time was taken leaves the
      old password under the new time, and a call that begins later is given it. */
  lemma ReplacedMidRead(first: string, second: string) returns (run: seq<State>)
    requires Password(first).Some?
    ensures IsRun(Init, Next, run)
    ensures var s := Last(run);
            && s.history == [Present(1, first), Present(2, second)]
            && 1 in s.calls && s.calls[1].start == 1 && s.calls[1].phase.Hit?
            && s.calls[1].phase.from.password == Password(first).value
  {
    run := RacedStore(first, second);
    run := Perform(run, Begin(1));
    run := Perform(run, Stat(1, true));
    run := Perform(run, Consult(1));
  }

  /** Left alone, a call reads the password, the next one gets it from the cache,
      and one after a replacement gets the new one. */
  lemma PasswordIsFollowed(first: string, second: string) returns (run: seq<State>)
    requires Password(first).Some? && Password(second).Some?
    ensures IsRun(Init, Next, run)
    ensures var calls := Last(run).calls;
            && 0 in calls && calls[0].phase == Returned(Password(first).value, 0)
            && 1 in calls && calls[1].phase.Hit? && calls[1].phase.from.password == Password(first).value
            && 2 in calls && calls[2].phase == Returned(Password(second).value, 1)
  {
    run := FirstKept(first);
    run := Perform(run, Begin(1));
    run := Perform(run, Stat(1, true));
    run := Perform(run, Consult(1));
    run := ReadAgain(run, second);
  }

  lemma FirstKept(first: string) returns (run: seq<State>)
    requires Password(first).Some?
    ensures IsRun(Init, Next, run)
    ensures var s, st := Last(run), Stored(1, Password(first).value, 0, 0);
            s == State([Present(1, first)], Some(st), [st], map[0 := Call(0, Returned(st.password, 0))])
  {
    run := FirstRead(first);
    run := Perform(run, Restat(0, true));
    run := Perform(run, Store(0));
  }

  lemma ReadAgain(run: seq<State>, second: string) returns (longer: seq<State>)
    requires IsRun(Init, Next, run) && Password(second).Some? && 2 !in Last(run).calls
    requires var s := Last(run);
             |s.history| == 1 && s.history[0].Present? && s.history[0].mtime == 1 &&
             s.cached.Some? && s.cached.value.mtime == 1
    ensures IsRun(Init, Next, longer)
    ensures var calls := Last(longer).calls;
            && 2 in calls && calls[2].phase == Returned(Password(second).value, 1)
            && forall c :: c in Last(run).calls ==> c in calls && calls[c] == Last(run).calls[c]
  {
    longer := Perform(run, Replace(Present(2, second)));
    longer := Perform(longer, Begin(2));
    longer := Perform(longer, Stat(2, true));
    longer := Perform(longer, Consult(2));
    longer := Perform(longer, Read(2));
    longer := Perform(longer, Restat(2, true));
    longer := Perform(longer, Store(2));
  }

  /** A call whose two stats fail still reads and returns the password; it caches nothing. */
  lemma StatsMayFail(first: string) returns (run: seq<State>)
    requires Password(first).Some?
    ensures IsRun(Init, Next, run)
    ensures var s := Last(run);
            0 in s.calls && s.calls[0].phase == Returned(Password(first).value, 0) && s.cached.None? && s.log == []
  {
    run := [State([Present(1, first)], None, [], map[])];
    run := Perform(run, Begin(0));
    run := Perform(run, Stat(0, false));
    run := Perform(run, Consult(0));
    run := Perform(run, Read(0));
    run := Perform(run, Restat(0, false));
  }

  /** A call gives no password only if the file could not be read, or was read and
      has no colon. */
  lemma ErrorsHaveCauses(s: State, step: Step, c: nat)
    requires Enabled(s, step)
    requires c in Do(s, step).calls && Do(s, step).calls[c].phase.Errored?
    requires c !in s.calls || !s.calls[c].phase.Errored?
    ensures step == Fail(c) || (step == Read(c) && ':' !in Now(s.history).contents)
  {
    if step.Read? && step.c == c {
      PasswordIffColon(Now(s.history).contents);
    }
  }
}
