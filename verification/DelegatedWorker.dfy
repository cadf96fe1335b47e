/** Starting, watching and restarting delegated task workers, as interleaved atomic steps of the daemon. */
module DelegatedWorker {

  const MAX_RESTARTS := 3

  /** `attempt` is at least one. */
  function Delay(attempt: nat): nat {
    var doubled := 100 * Power2(attempt - 1);
    if doubled < 1000 then doubled else 1000
  }

  function Power2(n: int): nat
    decreases n
  {
    if n <= 0 then 1 else 2 * Power2(n - 1)
  }

  datatype Event =
    | Spawned(id: string)
    | Exited(id: string)
    | Scheduled(id: string, delay: nat)
    | Exhausted(id: string)
    | Cleared(id: string)
    | TimerStarted(id: string)
    | ShutDown
    | StartedUp

  /** What the task store says about a delegation when its worker exits. */
  datatype Record = Missing | Activated | NotActivated

  /**
   * `starts`, `restartCounts` and `shutdown` are the module-level variables. `children` counts the live
   * workers of each delegation (the runtime registry reports running exactly while one lives), `pending`
   * the start promises whose spawn has not run, `inspecting` the exit handlers waiting for the inbox.
   */
  datatype Daemon = Daemon(
    starts: set<string>,
    restartCounts: map<string, nat>,
    shutdown: bool,
    children: multiset<string>,
    pending: multiset<string>,
    inspecting: multiset<string>,
    timers: multiset<string>,
    log: seq<Event>)

  datatype Action =
    | Request(id: string)                   // a delegated_enqueue asks for a worker
    | RunStart(id: string, spawns: bool)    // the start promise runs; a failed spawn throws
    | SettleStart(id: string)               // the finally block of the call that created the start
    | Exit(id: string, record: Record)
    | Inspect(id: string, inboxPending: bool)
    | Fire(id: string)
    | Stop
    | StartUp

  function CountOf(s: Daemon, id: string): nat {
    if id in s.restartCounts then s.restartCounts[id] else 0
  }

  /** A live worker or a start in flight is reused; otherwise a start is recorded. */
  function Ensure(s: Daemon, id: string): Daemon {
    if s.children[id] > 0 || id in s.starts then s
    else s.(starts := s.starts + {id}, pending := s.pending + multiset{id})
  }

  function Clear(s: Daemon, id: string): Daemon {
    s.(restartCounts := s.restartCounts - {id}, log := s.log + [Cleared(id)])
  }

  function Schedule(s: Daemon, id: string): Daemon {
    if s.shutdown then s else
      var attempt := CountOf(s, id) + 1;
      var counted := s.(restartCounts := s.restartCounts[id := attempt]);
      if attempt > MAX_RESTARTS then counted.(log := s.log + [Exhausted(id)])
      else counted.(timers := s.timers + multiset{id}, log := s.log + [Scheduled(id, Delay(attempt))])
  }

  /** An action that is not enabled changes nothing. */
  function Do(s: Daemon, a: Action): Daemon {
    match a
    case Request(id) => Ensure(s, id)
    case RunStart(id, spawns) =>
      if id !in s.pending then s
      else if !spawns then s.(pending := s.pending - multiset{id})
      else s.(pending := s.pending - multiset{id}, children := s.children + multiset{id}, log := s.log + [Spawned(id)])
    case SettleStart(id) =>
      if id in s.pending then s else s.(starts := s.starts - {id})
    case Exit(id, record) =>
      if id !in s.children then s else
        var gone := s.(children := s.children - multiset{id}, log := s.log + [Exited(id)]);
        if s.shutdown || record == Missing then gone
        else if record == Activated then Clear(gone, id)
        else gone.(inspecting := s.inspecting + multiset{id})
    case Inspect(id, inboxPending) =>
      if id !in s.inspecting then s else
        var seen := s.(inspecting := s.inspecting - multiset{id});
        if inboxPending then Schedule(seen, id) else Clear(seen, id)
    case Fire(id) =>
      if id !in s.timers then s else
        var fired := s.(timers := s.timers - multiset{id});
        if s.shutdown then fired else Ensure(fired.(log := s.log + [TimerStarted(id)]), id)
    case Stop => s.(shutdown := true, log := s.log + [ShutDown])
    case StartUp => s.(shutdown := false, restartCounts := map[], log := s.log + [StartedUp])
  }

  function Run(s: Daemon, actions: seq<Action>): Daemon
    decreases |actions|
  {
    if actions == [] then s else Do(Run(s, actions[..|actions| - 1]), actions[|actions| - 1])
  }

  const Fresh := Daemon({}, map[], false, multiset{}, multiset{}, multiset{}, multiset{}, [])

  // ---- One worker at a time ----

  /** At most one worker of `id` lives or is about to be spawned, and one about to be spawned is recorded. */
  predicate OneWorker(s: Daemon, id: string) {
    s.children[id] + s.pending[id] <= 1 && (s.pending[id] > 0 ==> id in s.starts)
  }

  lemma ExitKeepsOneWorker(s: Daemon, x: string, record: Record, id: string)
    requires OneWorker(s, id)
    ensures OneWorker(Do(s, Exit(x, record)), id)
  {
  }

  lemma InspectKeepsOneWorker(s: Daemon, x: string, inboxPending: bool, id: string)
    requires OneWorker(s, id)
    ensures OneWorker(Do(s, Inspect(x, inboxPending)), id)
  {
    hide Delay, CountOf;
  }

  lemma DoKeepsOneWorker(s: Daemon, a: Action, id: string)
    requires OneWorker(s, id)
    ensures OneWorker(Do(s, a), id)
  {
    hide Schedule, Clear, Delay, CountOf;
    match a {
      case Exit(x, record) => ExitKeepsOneWorker(s, x, record, id);
      case Inspect(x, inboxPending) => InspectKeepsOneWorker(s, x, inboxPending, id);
      case _ =>
    }
  }

  /** In every run, every delegation has at most one live or pending worker. */
  lemma {:induction false} EveryRunHasOneWorkerEach(actions: seq<Action>, id: string)
    ensures OneWorker(Run(Fresh, actions), id)
    decreases |actions|
  {
    if actions != [] {
      EveryRunHasOneWorkerEach(actions[..|actions| - 1], id);
      DoKeepsOneWorker(Run(Fresh, actions[..|actions| - 1]), actions[|actions| - 1], id);
    }
  }

  // ---- Three restarts between two clears ----

  predicate Clears(e: Event, id: string) {
    e == Cleared(id) || e == StartedUp
  }

  /** The delays scheduled for `id` since its restart count was last cleared. */
  function DelaysSinceClear(log: seq<Event>, id: string): seq<nat> {
    if log == [] then [] else
      var earlier, last := log[..|log| - 1], log[|log| - 1];
      if Clears(last, id) then []
      else if last.Scheduled? && last.id == id then DelaysSinceClear(earlier, id) + [last.delay]
      else DelaysSinceClear(earlier, id)
  }

  function FirstDelays(n: nat): seq<nat> {
    [100, 200, 400][..if n < MAX_RESTARTS then n else MAX_RESTARTS]
  }

  lemma DelaysNext(log: seq<Event>, e: Event, id: string)
    ensures DelaysSinceClear(log + [e], id) ==
      if Clears(e, id) then []
      else if e.Scheduled? && e.id == id then DelaysSinceClear(log, id) + [e.delay]
      else DelaysSinceClear(log, id)
  {
    assert (log + [e])[..|log|] == log;
  }

  ghost predicate DelaysMatch(s: Daemon, id: string) {
    DelaysSinceClear(s.log, id) == FirstDelays(CountOf(s, id))
  }

  /** The delays double: 100, 200, 400; a fourth attempt adds none. */
  lemma FirstDelaysNext(n: nat)
    ensures FirstDelays(n + 1) == if n < MAX_RESTARTS then FirstDelays(n) + [Delay(n + 1)] else FirstDelays(n)
  {
    assert Power2(0) == 1 && Power2(1) == 2 * Power2(0) && Power2(2) == 2 * Power2(1);
    assert Delay(1) == 100 && Delay(2) == 200 && Delay(3) == 400;
  }

  lemma ScheduleKeepsDelays(s: Daemon, scheduled: string, id: string)
    requires DelaysMatch(s, id)
    ensures DelaysMatch(Schedule(s, scheduled), id)
  {
    if !s.shutdown {
      var n := CountOf(s, scheduled);
      FirstDelaysNext(n);
      DelaysNext(s.log, if n < MAX_RESTARTS then Scheduled(scheduled, Delay(n + 1)) else Exhausted(scheduled), id);
      assert id != scheduled ==> CountOf(Schedule(s, scheduled), id) == CountOf(s, id);
    }
  }

  lemma OtherEventKeepsDelays(s: Daemon, t: Daemon, e: Event, id: string)
    requires DelaysMatch(s, id) && t.log == s.log + [e] && t.restartCounts == s.restartCounts
    requires !Clears(e, id) && !e.Scheduled?
    ensures DelaysMatch(t, id)
  {
    DelaysNext(s.log, e, id);
  }

  lemma ClearKeepsDelays(s: Daemon, cleared: string, id: string)
    requires DelaysMatch(s, id)
    ensures DelaysMatch(Clear(s, cleared), id)
  {
    DelaysNext(s.log, Cleared(cleared), id);
  }

  lemma ExitKeepsDelays(s: Daemon, x: string, record: Record, id: string)
    requires DelaysMatch(s, id) && x in s.children
    ensures DelaysMatch(Do(s, Exit(x, record)), id)
  {
    var gone := s.(children := s.children - multiset{x}, log := s.log + [Exited(x)]);
    OtherEventKeepsDelays(s, gone, Exited(x), id);
    if !s.shutdown && record == Activated {
      ClearKeepsDelays(gone, x, id);
    }
  }

  lemma InspectKeepsDelays(s: Daemon, x: string, inboxPending: bool, id: string)
    requires DelaysMatch(s, id) && x in s.inspecting
    ensures DelaysMatch(Do(s, Inspect(x, inboxPending)), id)
  {
    var seen := s.(inspecting := s.inspecting - multiset{x});
    assert DelaysMatch(seen, id);
    if inboxPending {
      assert Do(s, Inspect(x, inboxPending)) == Schedule(seen, x);
      ScheduleKeepsDelays(seen, x, id);
    } else {
      assert Do(s, Inspect(x, inboxPending)) == Clear(seen, x);
      ClearKeepsDelays(seen, x, id);
    }
  }

  lemma FireKeepsDelays(s: Daemon, x: string, id: string)
    requires DelaysMatch(s, id) && x in s.timers && !s.shutdown
    ensures DelaysMatch(Do(s, Fire(x)), id)
  {
    OtherEventKeepsDelays(s, Do(s, Fire(x)), TimerStarted(x), id);
  }

  lemma DoKeepsDelays(s: Daemon, a: Action, id: string)
    requires DelaysMatch(s, id)
    ensures DelaysMatch(Do(s, a), id)
  {
    match a {
      case Request(_) =>
      case RunStart(x, spawns) =>
        if x in s.pending && spawns {
          OtherEventKeepsDelays(s, Do(s, a), Spawned(x), id);
        }
      case SettleStart(_) =>
      case Exit(x, record) =>
        if x in s.children {
          ExitKeepsDelays(s, x, record, id);
        }
      case Inspect(x, inboxPending) =>
        if x in s.inspecting {
          InspectKeepsDelays(s, x, inboxPending, id);
        }
      case Fire(x) =>
        if x in s.timers && !s.shutdown {
          FireKeepsDelays(s, x, id);
        }
      case Stop => OtherEventKeepsDelays(s, Do(s, a), ShutDown, id);
      case StartUp => DelaysNext(s.log, StartedUp, id);
    }
  }

  /** In every run, the restarts since the last clear are the first of 100, 200 and 400 ms, one per counted exit. */
  lemma {:induction false} RestartsAreBounded(actions: seq<Action>, id: string)
    ensures var s := Run(Fresh, actions);
      DelaysSinceClear(s.log, id) == FirstDelays(CountOf(s, id)) && DelaysSinceClear(s.log, id) <= [100, 200, 400]
    decreases |actions|
  {
    if actions != [] {
      RestartsAreBounded(actions[..|actions| - 1], id);
      DoKeepsDelays(Run(Fresh, actions[..|actions| - 1]), actions[|actions| - 1], id);
    }
  }

  // ---- After shutdown ----

  ghost predicate NoStartUp(actions: seq<Action>) {
    forall i :: 0 <= i < |actions| ==> !actions[i].StartUp?
  }

  /** The log grew only by events that neither schedule a restart nor let a timer start a worker. */
  ghost predicate QuietSince(before: seq<Event>, log: seq<Event>) {
    before <= log && forall i :: |before| <= i < |log| ==> !log[i].Scheduled? && !log[i].TimerStarted?
  }

  lemma QuietNext(before: seq<Event>, log: seq<Event>, e: Event)
    requires QuietSince(before, log) && !e.Scheduled? && !e.TimerStarted?
    ensures QuietSince(before, log + [e])
  {
  }

  lemma ExitIsQuiet(s: Daemon, x: string, record: Record)
    requires s.shutdown
    ensures Do(s, Exit(x, record)).shutdown && QuietSince(s.log, Do(s, Exit(x, record)).log)
    ensures Do(s, Exit(x, record)).timers == s.timers
  {
    QuietNext(s.log, s.log, Exited(x));
  }

  lemma InspectIsQuiet(s: Daemon, x: string, inboxPending: bool)
    requires s.shutdown
    ensures Do(s, Inspect(x, inboxPending)).shutdown && QuietSince(s.log, Do(s, Inspect(x, inboxPending)).log)
    ensures Do(s, Inspect(x, inboxPending)).timers == s.timers
  {
    QuietNext(s.log, s.log, Cleared(x));
  }

  lemma DoIsQuiet(s: Daemon, a: Action)
    requires s.shutdown && !a.StartUp?
    ensures Do(s, a).shutdown && Do(s, a).timers <= s.timers && QuietSince(s.log, Do(s, a).log)
  {
    match a {
      case Exit(x, record) => ExitIsQuiet(s, x, record);
      case Inspect(x, inboxPending) => InspectIsQuiet(s, x, inboxPending);
      case RunStart(x, _) => QuietNext(s.log, s.log, Spawned(x));
      case Stop => QuietNext(s.log, s.log, ShutDown);
      case _ =>
    }
  }

  lemma {:induction false} ShutdownIsQuiet(s: Daemon, actions: seq<Action>)
    requires s.shutdown && NoStartUp(actions)
    ensures Run(s, actions).shutdown && QuietSince(s.log, Run(s, actions).log)
    ensures Run(s, actions).timers <= s.timers
    decreases |actions|
  {
    if actions != [] {
      ShutdownIsQuiet(s, actions[..|actions| - 1]);
      DoIsQuiet(Run(s, actions[..|actions| - 1]), actions[|actions| - 1]);
    }
  }

  /** Neither a restart of the daemon nor a request for a worker. */
  ghost predicate OnlyLeftovers(actions: seq<Action>) {
    forall i :: 0 <= i < |actions| ==> !actions[i].StartUp? && !actions[i].Request?
  }

  ghost predicate SpawnsSince(before: seq<Event>, log: seq<Event>) {
    exists i :: |before| <= i < |log| && log[i].Spawned?
  }

  /** Some continuation without a start-up or a request logs a spawn. */
  ghost predicate MayStillSpawn(s: Daemon) {
    exists actions :: OnlyLeftovers(actions) && SpawnsSince(s.log, Run(s, actions).log)
  }

  lemma ExitSpawnsNothing(s: Daemon, x: string, record: Record)
    requires s.shutdown
    ensures var t := Do(s, Exit(x, record));
      && t.shutdown && t.pending == s.pending && t.children <= s.children
      && s.log <= t.log && !SpawnsSince(s.log, t.log)
  {
  }

  lemma DoSpawnsNothing(s: Daemon, a: Action)
    requires s.shutdown && s.pending == multiset{} && !a.StartUp? && !a.Request?
    ensures Do(s, a).shutdown && Do(s, a).pending == multiset{} && Do(s, a).children <= s.children
    ensures s.log <= Do(s, a).log && !SpawnsSince(s.log, Do(s, a).log)
  {
    hide Delay, Ensure, CountOf;
    match a {
      case Exit(x, record) => ExitSpawnsNothing(s, x, record);
      case _ =>
    }
  }

  lemma NoSpawnsTwice(a: seq<Event>, b: seq<Event>, c: seq<Event>)
    requires a <= b <= c && !SpawnsSince(a, b) && !SpawnsSince(b, c)
    ensures !SpawnsSince(a, c)
  {
    forall i | |a| <= i < |c| ensures !c[i].Spawned? {
      assert i < |b| ==> c[i] == b[i];
    }
  }

  /** With no start in flight and no further request, no worker is spawned after shutdown either. */
  lemma {:induction false} QuietShutdownSpawnsNothing(s: Daemon, actions: seq<Action>)
    requires s.shutdown && OnlyLeftovers(actions) && s.pending == multiset{}
    ensures var r := Run(s, actions);
      && r.shutdown && r.pending == multiset{} && r.children <= s.children
      && s.log <= r.log && !SpawnsSince(s.log, r.log)
    decreases |actions|
  {
    hide Do, SpawnsSince;
    if actions == [] {
      NothingSince(s.log);
    } else {
      var before := Run(s, actions[..|actions| - 1]);
      QuietShutdownSpawnsNothing(s, actions[..|actions| - 1]);
      DoSpawnsNothing(before, actions[|actions| - 1]);
      NoSpawnsTwice(s.log, before.log, Run(s, actions).log);
    }
  }

  lemma NothingSince(log: seq<Event>)
    ensures !SpawnsSince(log, log)
  {
  }

  /** A daemon that is shutting down, and that is asked for nothing, may still spawn exactly what is in flight. */
  lemma ShutdownMaySpawnIff(s: Daemon)
    requires s.shutdown
    ensures MayStillSpawn(s) <==> s.pending != multiset{}
  {
    hide Run, SpawnsSince;
    if s.pending == multiset{} {
      forall actions | OnlyLeftovers(actions) ensures !SpawnsSince(s.log, Run(s, actions).log) {
        QuietShutdownSpawnsNothing(s, actions);
      }
    } else {
      var id :| id in s.pending;
      assert OnlyLeftovers([RunStart(id, true)]);
      StartInFlightSpawns(s, id);
    }
  }

  lemma StartInFlightSpawns(s: Daemon, id: string)
    requires id in s.pending
    ensures SpawnsSince(s.log, Run(s, [RunStart(id, true)]).log)
  {
    assert [RunStart(id, true)][..0] == [];
    assert Run(s, []) == s;
    assert Run(s, [RunStart(id, true)]).log[|s.log|] == Spawned(id);
  }

  /** So a start in flight when the daemon shuts down still spawns its worker. */
  lemma StartInFlightOutlivesShutdown(id: string)
    ensures Run(Fresh, [Request(id), Stop, RunStart(id, true)]).children[id] == 1
  {
    ThreeSteps(Fresh, Request(id), Stop, RunStart(id, true));
    var s1 := Do(Fresh, Request(id));
    assert id in s1.pending && Fresh.children[id] == 0;
    assert id in Do(s1, Stop).pending;
  }

  /** And so does a request served after the shutdown began: nothing asks for the flag before it starts a worker. */
  lemma RequestAfterShutdownSpawns(id: string)
    ensures Run(Fresh, [Stop, Request(id), RunStart(id, true)]).children[id] == 1
  {
    ThreeSteps(Fresh, Stop, Request(id), RunStart(id, true));
    var s1 := Do(Fresh, Stop);
    assert s1.children[id] == 0 && s1.starts == {};
    assert id in Do(s1, Request(id)).pending;
  }

  /** After shutdown a request starts a worker exactly when none lives and none is about to. */
  lemma RequestAfterShutdownStartsIff(s: Daemon, id: string)
    requires s.shutdown
    ensures Do(s, Request(id)).pending != s.pending <==> s.children[id] == 0 && id !in s.starts
  {
    if s.children[id] == 0 && id !in s.starts {
      assert (s.pending + multiset{id})[id] == s.pending[id] + 1;
    }
  }

  lemma ThreeSteps(s: Daemon, a: Action, b: Action, c: Action)
    ensures Run(s, [a, b, c]) == Do(Do(Do(s, a), b), c)
  {
    assert [a, b, c][..2] == [a, b] && [a, b][..1] == [a] && [a][..0] == [];
    assert Run(s, [a]) == Do(Run(s, []), a);
    assert Run(s, [a, b]) == Do(Run(s, [a]), b);
  }

  // ---- The daemon's own variables ----

  /** The module-level variables and the handlers that update them; the rest of the state is around them. */
  class Supervisor {
    var starts: set<string>
    var restartCounts: map<string, nat>
    var shutdown: bool
    var children: multiset<string>
    var pending: multiset<string>
    var inspecting: multiset<string>
    var timers: multiset<string>
    var log: seq<Event>

    ghost function State(): Daemon
      reads this
    {
      Daemon(starts, restartCounts, shutdown, children, pending, inspecting, timers, log)
    }

    constructor ()
      ensures State() == Fresh
    {
      starts, restartCounts, shutdown := {}, map[], false;
      children, pending, inspecting, timers, log := multiset{}, multiset{}, multiset{}, multiset{}, [];
    }

    /** The part of ensureDelegatedTaskWorkerProcess before it waits. */
    method EnsureWorker(id: string)
      modifies this
      ensures State() == Ensure(old(State()), id)
    {
      if children[id] > 0 {
        return;
      }
      if id in starts {
        return;
      }
      starts := starts + {id};
      pending := pending + multiset{id};
    }

    /** The start promise: spawn and watch, or throw. */
    method RunStartPromise(id: string, spawns: bool)
      requires id in pending
      modifies this
      ensures State() == Do(old(State()), RunStart(id, spawns))
    {
      pending := pending - multiset{id};
      if spawns {
        children := children + multiset{id};
        log := log + [Spawned(id)];
      }
    }

    /** The finally block of the call that created the start. */
    method ForgetStart(id: string)
      requires id !in pending
      modifies this
      ensures State() == Do(old(State()), SettleStart(id))
    {
      starts := starts - {id};
    }

    method BeginShutdown()
      modifies this
      ensures State() == Do(old(State()), Stop)
    {
      shutdown := true;
      log := log + [ShutDown];
    }

    method BeginDaemon()
      modifies this
      ensures State() == Do(old(State()), StartUp)
    {
      shutdown, restartCounts := false, map[];
      log := log + [StartedUp];
    }

    method ScheduleRestart(id: string)
      modifies this
      ensures State() == Schedule(old(State()), id)
    {
      if shutdown {
        return;
      }
      var attempt := (if id in restartCounts then restartCounts[id] else 0) + 1;
      restartCounts := restartCounts[id := attempt];
      if attempt > MAX_RESTARTS {
        log := log + [Exhausted(id)];
        return;
      }
      timers := timers + multiset{id};
      log := log + [Scheduled(id, Delay(attempt))];
    }

    method ClearRestarts(id: string)
      modifies this
      ensures State() == Clear(old(State()), id)
    {
      restartCounts := restartCounts - {id};
      log := log + [Cleared(id)];
    }

    /** The timer is spent, and noted if it goes on to start a worker. */
    method SpendTimer(id: string)
      modifies this
      ensures State() == old(State()).(timers := old(timers) - multiset{id},
        log := if old(shutdown) then old(log) else old(log) + [TimerStarted(id)])
    {
      timers := timers - multiset{id};
      if !shutdown {
        log := log + [TimerStarted(id)];
      }
    }

    /** The timer callback. */
    method FireTimer(id: string)
      requires id in timers
      modifies this
      ensures State() == Do(old(State()), Fire(id))
    {
      hide Ensure;
      SpendTimer(id);
      if !shutdown {
        EnsureWorker(id);
      }
    }

    /** The child is gone and the registry no longer reports it running. */
    method RecordExit(id: string)
      modifies this
      ensures State() == old(State()).(children := old(children) - multiset{id}, log := old(log) + [Exited(id)])
    {
      children := children - multiset{id};
      log := log + [Exited(id)];
    }

    /** The exit handler up to its inbox inspection. */
    method ChildExit(id: string, record: Record)
      requires id in children
      modifies this
      ensures State() == Do(old(State()), Exit(id, record))
    {
      RecordExit(id);
      if shutdown || record == Missing {
        return;
      }
      if record == Activated {
        ClearRestarts(id);
        return;
      }
      inspecting := inspecting + multiset{id};
    }

    method FinishInspection(id: string)
      modifies this
      ensures State() == old(State()).(inspecting := old(inspecting) - multiset{id})
    {
      inspecting := inspecting - multiset{id};
    }

    /** The exit handler after its inbox inspection. */
    method AfterInspection(id: string, inboxPending: bool)
      requires id in inspecting
      modifies this
      ensures State() == Do(old(State()), Inspect(id, inboxPending))
      ensures !inboxPending ==> timers == old(timers) && id !in restartCounts
      ensures inboxPending && !old(shutdown) && (id in old(restartCounts) ==> old(restartCounts)[id] < 3) ==>
        timers == old(timers) + multiset{id}
    {
      FinishInspection(id);
      if inboxPending {
        ScheduleRestart(id);
      } else {
        ClearRestarts(id);
      }
    }
  }
}
