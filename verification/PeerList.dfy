/** The shared list of peers: read by every fetch, refreshed in the background when
    it is stale, and waited for only when there is nothing else to use. */
module PeerList {
  import opened Options
  import opened Runs

  /** What the node says about one of its peers. */
  datatype PeerInfo = PeerInfo(addr: string, services: set<string>, inbound: bool)

  /** The addresses usable for fetching, and when they were listed. */
  datatype Peers = Peers(fetched: Option<nat>, addrs: seq<string>)

  const NO_PEERS := Peers(None, [])

  /** A report the node gave, and when. */
  datatype Report = Report(at: nat, infos: seq<PeerInfo>)

  predicate Usable(p: PeerInfo) {
    !p.inbound && "NETWORK" in p.services && "WITNESS" in p.services
  }

  function UsableAddrs(infos: seq<PeerInfo>): (r: seq<string>)
    ensures forall a :: a in r <==> exists p :: p in infos && Usable(p) && p.addr == a
  {
    if infos == [] then [] else
      var rest := UsableAddrs(infos[1..]);
      assert infos == [infos[0]] + infos[1..];
      if Usable(infos[0]) then [infos[0].addr] + rest else rest
  }

  function Updated(r: Report): Peers {
    Peers(Some(r.at), UsableAddrs(r.infos))
  }

  predicate Stale(p: Peers, now: nat, maxAge: nat) {
    p.fetched.None? || now > p.fetched.value + maxAge
  }

  /** Why a caller was given a list. */
  datatype Reason = WasFresh(checkedAt: nat) | WasStale | Awaited(task: nat)

  datatype Caller = Reading | HasList(list: Peers) | Waiting(task: nat) | Given(list: Peers, why: Reason) | CallerFailed

  datatype Task = Asking | Answered(list: Peers) | Written(list: Peers) | TaskFailed

  /** `startedAt` is when a caller came, and when a task was spawned. */
  datatype State = State(now: nat, shared: Peers, reports: set<Report>,
                         callers: map<nat, (nat, Caller)>, tasks: map<nat, (nat, Task)>)

  datatype Step =
    | Tick(span: nat)
    | Come(c: nat)
    | ReadShared(c: nat)
    | CheckAge(c: nat, t: nat)
    | NodeAnswers(t: nat, infos: seq<PeerInfo>)
    | NodeFails(t: nat)
    | WriteShared(t: nat)
    | Collect(c: nat)

  predicate Enabled(s: State, step: Step) {
    match step
    case Tick(_) => true
    case Come(c) => c !in s.callers
    case ReadShared(c) => c in s.callers && s.callers[c].1.Reading?
    case CheckAge(c, t) => c in s.callers && s.callers[c].1.HasList? && t !in s.tasks
    case NodeAnswers(t, _) => t in s.tasks && s.tasks[t].1.Asking?
    case NodeFails(t) => t in s.tasks && s.tasks[t].1.Asking?
    case WriteShared(t) => t in s.tasks && s.tasks[t].1.Answered?
    case Collect(c) =>
      c in s.callers && s.callers[c].1.Waiting? && s.callers[c].1.task in s.tasks &&
      var task := s.tasks[s.callers[c].1.task].1; task.Written? || task.TaskFailed?
  }

  function SetCaller(s: State, c: nat, p: Caller): State
    requires c in s.callers
  {
    s.(callers := s.callers[c := (s.callers[c].0, p)])
  }

  function SetTask(s: State, t: nat, p: Task): State
    requires t in s.tasks
  {
    s.(tasks := s.tasks[t := (s.tasks[t].0, p)])
  }

  function Do(maxAge: nat, s: State, step: Step): State
    requires Enabled(s, step)
  {
    match step
    case Tick(span) => s.(now := s.now + span)
    case Come(c) => s.(callers := s.callers[c := (s.now, Reading)])
    case ReadShared(c) => SetCaller(s, c, HasList(s.shared))
    case CheckAge(c, t) =>
      var list := s.callers[c].1.list;
      if !Stale(list, s.now, maxAge) then SetCaller(s, c, Given(list, WasFresh(s.now)))
      else SetCaller(s, c, if list.addrs == [] then Waiting(t) else Given(list, WasStale))
             .(tasks := s.tasks[t := (s.now, Asking)])
    case NodeAnswers(t, infos) =>
      SetTask(s, t, Answered(Updated(Report(s.now, infos)))).(reports := s.reports + {Report(s.now, infos)})
    case NodeFails(t) => SetTask(s, t, TaskFailed)
    case WriteShared(t) => SetTask(s, t, Written(s.tasks[t].1.list)).(shared := s.tasks[t].1.list)
    case Collect(c) =>
      var t := s.callers[c].1.task;
      var task := s.tasks[t].1;
      SetCaller(s, c, if task.Written? then Given(task.list, Awaited(t)) else CallerFailed)
  }

  ghost predicate Next(maxAge: nat, s: State, t: State) {
    exists step :: Enabled(s, step) && t == Do(maxAge, s, step)
  }

  ghost predicate Init(s: State) {
    s.shared == NO_PEERS && s.reports == {} && s.callers == map[] && s.tasks == map[]
  }

  ghost function Steps(maxAge: nat): (State, State) -> bool {
    (s, t) => Next(maxAge, s, t)
  }

  // ----- what every step keeps -----

  /** The list was made from a report the node gave. */
  ghost predicate Reported(s: State, list: Peers) {
    exists r :: r in s.reports && r.at <= s.now && list == Updated(r)
  }

  ghost predicate TaskOk(s: State, startedAt: nat, task: Task) {
    startedAt <= s.now &&
    match task
    case Answered(list) => Reported(s, list) && startedAt <= list.fetched.value
    case Written(list) => Reported(s, list) && startedAt <= list.fetched.value
    case _ => true
  }

  ghost predicate CallerOk(maxAge: nat, s: State, startedAt: nat, caller: Caller) {
    startedAt <= s.now &&
    match caller
    case HasList(list) => list == NO_PEERS || Reported(s, list)
    case Waiting(t) => t in s.tasks && startedAt <= s.tasks[t].0
    case Given(list, why) =>
      Reported(s, list) &&
      (match why
       case WasFresh(at) => startedAt <= at <= s.now && at <= list.fetched.value + maxAge
       case WasStale => list.addrs != []
       case Awaited(t) => startedAt <= list.fetched.value && t in s.tasks && s.tasks[t].1 == Written(list))
    case _ => true
  }

  ghost predicate Inv(maxAge: nat, s: State) {
    (s.shared == NO_PEERS || Reported(s, s.shared)) &&
    (forall t :: t in s.tasks ==> TaskOk(s, s.tasks[t].0, s.tasks[t].1)) &&
    forall c :: c in s.callers ==> CallerOk(maxAge, s, s.callers[c].0, s.callers[c].1)
  }

  lemma ReportedStays(s: State, s': State, list: Peers)
    requires Reported(s, list) && s.reports <= s'.reports && s.now <= s'.now
    ensures Reported(s', list)
  {
  }

  /** Time passing and new reports take nothing away. */
  lemma GrowthKeepsInv(maxAge: nat, s: State, s': State)
    requires Inv(maxAge, s) && s'.callers == s.callers && s'.tasks == s.tasks && s'.shared == s.shared
    requires s.reports <= s'.reports && s.now <= s'.now
    ensures Inv(maxAge, s')
  {
    forall list | Reported(s, list) ensures Reported(s', list) {
      ReportedStays(s, s', list);
    }
  }

  lemma SetCallerKeepsInv(maxAge: nat, s: State, c: nat, p: Caller)
    requires Inv(maxAge, s) && c in s.callers && CallerOk(maxAge, s, s.callers[c].0, p)
    ensures Inv(maxAge, SetCaller(s, c, p))
  {
    var s' := SetCaller(s, c, p);
    forall list | Reported(s, list) ensures Reported(s', list) {
      ReportedStays(s, s', list);
    }
  }

  /** A task that has not written may move on; a written one stays. */
  lemma SetTaskKeepsInv(maxAge: nat, s: State, t: nat, p: Task)
    requires Inv(maxAge, s) && t in s.tasks && !s.tasks[t].1.Written? && TaskOk(s, s.tasks[t].0, p)
    ensures Inv(maxAge, SetTask(s, t, p))
  {
    var s' := SetTask(s, t, p);
    forall list | Reported(s, list) ensures Reported(s', list) {
      ReportedStays(s, s', list);
    }
  }

  lemma SpawnKeepsInv(maxAge: nat, s: State, t: nat)
    requires Inv(maxAge, s) && t !in s.tasks
    ensures Inv(maxAge, s.(tasks := s.tasks[t := (s.now, Asking)]))
  {
    var s' := s.(tasks := s.tasks[t := (s.now, Asking)]);
    forall list | Reported(s, list) ensures Reported(s', list) {
      ReportedStays(s, s', list);
    }
  }

  lemma ShareKeepsInv(maxAge: nat, s: State, list: Peers)
    requires Inv(maxAge, s) && Reported(s, list)
    ensures Inv(maxAge, s.(shared := list))
  {
    var s' := s.(shared := list);
    forall l | Reported(s, l) ensures Reported(s', l) {
      ReportedStays(s, s', l);
    }
  }

  lemma CheckAgeKeepsInv(maxAge: nat, s: State, c: nat, t: nat)
    requires Inv(maxAge, s) && Enabled(s, CheckAge(c, t))
    ensures Inv(maxAge, Do(maxAge, s, CheckAge(c, t)))
  {
    var list := s.callers[c].1.list;
    if !Stale(list, s.now, maxAge) {
      SetCallerKeepsInv(maxAge, s, c, Given(list, WasFresh(s.now)));
    } else {
      var spawned := s.(tasks := s.tasks[t := (s.now, Asking)]);
      SpawnKeepsInv(maxAge, s, t);
      SetCallerKeepsInv(maxAge, spawned, c, if list.addrs == [] then Waiting(t) else Given(list, WasStale));
    }
  }

  lemma NodeAnswersKeepsInv(maxAge: nat, s: State, t: nat, infos: seq<PeerInfo>)
    requires Inv(maxAge, s) && Enabled(s, NodeAnswers(t, infos))
    ensures Inv(maxAge, Do(maxAge, s, NodeAnswers(t, infos)))
  {
    var r := Report(s.now, infos);
    var grown := s.(reports := s.reports + {r});
    GrowthKeepsInv(maxAge, s, grown);
    assert r in grown.reports;
    SetTaskKeepsInv(maxAge, grown, t, Answered(Updated(r)));
  }

  lemma StepKeepsInv(maxAge: nat, s: State, step: Step)
    requires Inv(maxAge, s) && Enabled(s, step)
    ensures Inv(maxAge, Do(maxAge, s, step))
  {
    match step
    case Tick(span) => GrowthKeepsInv(maxAge, s, s.(now := s.now + span));
    case Come(c) => ComeKeepsInv(maxAge, s, c);
    case ReadShared(c) => SetCallerKeepsInv(maxAge, s, c, HasList(s.shared));
    case CheckAge(c, t) => CheckAgeKeepsInv(maxAge, s, c, t);
    case NodeAnswers(t, infos) => NodeAnswersKeepsInv(maxAge, s, t, infos);
    case NodeFails(t) => SetTaskKeepsInv(maxAge, s, t, TaskFailed);
    case WriteShared(t) =>
      SetTaskKeepsInv(maxAge, s, t, Written(s.tasks[t].1.list));
      ReportedStays(s, SetTask(s, t, Written(s.tasks[t].1.list)), s.tasks[t].1.list);
      ShareKeepsInv(maxAge, SetTask(s, t, Written(s.tasks[t].1.list)), s.tasks[t].1.list);
    case Collect(c) =>
      var t := s.callers[c].1.task;
      assert TaskOk(s, s.tasks[t].0, s.tasks[t].1);
      SetCallerKeepsInv(maxAge, s, c,
                        if s.tasks[t].1.Written? then Given(s.tasks[t].1.list, Awaited(t)) else CallerFailed);
  }

  lemma ComeKeepsInv(maxAge: nat, s: State, c: nat)
    requires Inv(maxAge, s) && c !in s.callers
    ensures Inv(maxAge, s.(callers := s.callers[c := (s.now, Reading)]))
  {
    var s' := s.(callers := s.callers[c := (s.now, Reading)]);
    forall list | Reported(s, list) ensures Reported(s', list) {
      ReportedStays(s, s', list);
    }
  }

  lemma RunKeepsInv(maxAge: nat, run: seq<State>, n: nat)
    requires IsRun(Init, Steps(maxAge), run) && n < |run|
    ensures Inv(maxAge, run[n])
  {
    forall s, t | Inv(maxAge, s) && Next(maxAge, s, t) ensures Inv(maxAge, t) {
      var step :| Enabled(s, step) && t == Do(maxAge, s, step);
      StepKeepsInv(maxAge, s, step);
    }
    RunKeeps(Init, Steps(maxAge), s => Inv(maxAge, s), run, n);
  }

  /** In every interleaving a caller is given a list young enough when checked, or
      an older one with something in it, or the refresh it waited for, which the
      node answered after the caller came. The list never fetched is never given. */
  lemma GivenLists(maxAge: nat, run: seq<State>, n: nat, c: nat)
    requires IsRun(Init, Steps(maxAge), run) && n < |run| && c in run[n].callers && run[n].callers[c].1.Given?
    ensures var came, list, why := run[n].callers[c].0, run[n].callers[c].1.list, run[n].callers[c].1.why;
            && list.fetched.Some?
            && match why
               case WasFresh(at) => came <= at <= list.fetched.value + maxAge
               case WasStale => list.addrs != []
               case Awaited(t) => came <= list.fetched.value && t in run[n].tasks && run[n].tasks[t].1 == Written(list)
  {
    RunKeepsInv(maxAge, run, n);
  }

  /** Every address given belonged to an outbound peer that advertised both
      services, in one report of the node. */
  lemma GivenAddresses(maxAge: nat, run: seq<State>, n: nat, c: nat, addr: string)
    requires IsRun(Init, Steps(maxAge), run) && n < |run| && c in run[n].callers && run[n].callers[c].1.Given?
    requires addr in run[n].callers[c].1.list.addrs
    ensures exists r, p :: r in run[n].reports && p in r.infos && p.addr == addr && Usable(p)
  {
    RunKeepsInv(maxAge, run, n);
    var list := run[n].callers[c].1.list;
    assert Reported(run[n], list);
    var r :| r in run[n].reports && r.at <= run[n].now && list == Updated(r);
    var p :| p in r.infos && Usable(p) && p.addr == addr;
  }

  // ----- what a refresh brings about -----

  /** The addresses are kept in the order of the report. */
  lemma {:induction false} UsableInOrder(first: seq<PeerInfo>, second: seq<PeerInfo>)
    ensures UsableAddrs(first + second) == UsableAddrs(first) + UsableAddrs(second)
  {
    if first == [] {
      assert first + second == second;
    } else {
      assert (first + second)[1..] == first[1..] + second;
      UsableInOrder(first[1..], second);
    }
  }

  lemma UsableOne(p: PeerInfo)
    ensures UsableAddrs([p]) ==
            if !p.inbound && {"NETWORK", "WITNESS"} <= p.services then [p.addr] else []
  {
  }

  /** A task is spawned exactly for a list that is too old or was never fetched. */
  lemma SpawnedIffStale(maxAge: nat, s: State, c: nat, t: nat)
    requires Enabled(s, CheckAge(c, t))
    ensures var fetched, s' := s.callers[c].1.list.fetched, Do(maxAge, s, CheckAge(c, t));
            s'.tasks == if fetched.Some? && s.now <= fetched.value + maxAge then s.tasks
                        else s.tasks[t := (s.now, Asking)]
  {
  }

  lemma Perform(maxAge: nat, run: seq<State>, step: Step) returns (longer: seq<State>)
    requires IsRun(Init, Steps(maxAge), run) && Enabled(Last(run), step)
    ensures IsRun(Init, Steps(maxAge), longer) && Last(longer) == Do(maxAge, Last(run), step)
  {
    longer := run + [Do(maxAge, Last(run), step)];
    Extend(Init, Steps(maxAge), run, Do(maxAge, Last(run), step));
  }

  /** The node answers the task a stale list made, and the shared list is the new one. */
  lemma Refresh(maxAge: nat, run: seq<State>, c: nat, t: nat, infos: seq<PeerInfo>) returns (longer: seq<State>)
    requires IsRun(Init, Steps(maxAge), run) && Enabled(Last(run), CheckAge(c, t))
    requires Stale(Last(run).callers[c].1.list, Last(run).now, maxAge)
    ensures IsRun(Init, Steps(maxAge), longer)
    ensures var s, s' := Last(run), Last(longer);
            var list, brought := s.callers[c].1.list, Peers(Some(s.now), UsableAddrs(infos));
            && s'.now == s.now && s'.shared == brought && s'.callers.Keys == s.callers.Keys
            && s'.tasks == s.tasks[t := (s.now, Written(brought))]
            && s'.callers[c].1 == if list.addrs == [] then Given(brought, Awaited(t)) else Given(list, WasStale)
  {
    var list := Last(run).callers[c].1.list;
    longer := Perform(maxAge, run, CheckAge(c, t));
    longer := Perform(maxAge, longer, NodeAnswers(t, infos));
    longer := Perform(maxAge, longer, WriteShared(t));
    if list.addrs == [] {
      longer := Perform(maxAge, longer, Collect(c));
    }
  }

  /** From any state of any run: a caller with a stale list gets that list, or waits
      for the refresh if there is nothing in it; and the next caller is given what
      the refresh brought. */
  lemma StaleIsRefreshed(maxAge: nat, run: seq<State>, c: nat, t: nat, infos: seq<PeerInfo>, next: nat, u: nat)
    returns (longer: seq<State>)
    requires IsRun(Init, Steps(maxAge), run) && Enabled(Last(run), CheckAge(c, t))
    requires Stale(Last(run).callers[c].1.list, Last(run).now, maxAge)
    requires next !in Last(run).callers && u !in Last(run).tasks && u != t
    ensures IsRun(Init, Steps(maxAge), longer)
    ensures var s, s' := Last(run), Last(longer);
            var list, brought := s.callers[c].1.list, Peers(Some(s.now), UsableAddrs(infos));
            && c in s'.callers && next in s'.callers
            && s'.callers[c].1 == (if list.addrs == [] then Given(brought, Awaited(t)) else Given(list, WasStale))
            && s'.callers[next].1 == Given(brought, WasFresh(s.now))
  {
    longer := Refresh(maxAge, run, c, t, infos);
    longer := Perform(maxAge, longer, Come(next));
    longer := Perform(maxAge, longer, ReadShared(next));
    longer := Perform(maxAge, longer, CheckAge(next, u));
  }

  /** A caller is left without a list only by the failure of the refresh it waits for,
      and a refresh fails only if the node does. */
  lemma FailuresHaveCauses(maxAge: nat, s: State, step: Step, c: nat, t: nat)
    requires Enabled(s, step)
    ensures var s' := Do(maxAge, s, step);
            && (c in s'.callers && s'.callers[c].1.CallerFailed? &&
                (c !in s.callers || !s.callers[c].1.CallerFailed?) ==>
                  step == Collect(c) && s.callers[c].1.task in s.tasks && s.tasks[s.callers[c].1.task].1.TaskFailed?)
            && (t in s'.tasks && s'.tasks[t].1.TaskFailed? && (t !in s.tasks || !s.tasks[t].1.TaskFailed?) ==>
                  step == NodeFails(t))
  {
  }
}
