/** When a delegated worker is restarted, and when it is not, spelled out over the daemon's state and its log. */
module WorkerRestarts {
  import opened DelegatedWorker

  // ---- Counting over the log ----

  /** How often an exit of `id` asked for a restart since its count was last cleared. */
  function Asked(log: seq<Event>, id: string): nat {
    if log == [] then 0 else
      var earlier, last := log[..|log| - 1], log[|log| - 1];
      if last == Cleared(id) || last == StartedUp then 0
      else if last == Exhausted(id) || (last.Scheduled? && last.id == id) then Asked(earlier, id) + 1
      else Asked(earlier, id)
  }

  lemma AskedNext(log: seq<Event>, e: Event, id: string)
    ensures Asked(log + [e], id) ==
      if e == Cleared(id) || e == StartedUp then 0
      else if e == Exhausted(id) || (e.Scheduled? && e.id == id) then Asked(log, id) + 1
      else Asked(log, id)
  {
    assert (log + [e])[..|log|] == log;
  }

  ghost predicate CountIsLogged(s: Daemon, id: string) {
    && (id in s.restartCounts ==> s.restartCounts[id] == Asked(s.log, id))
    && (id !in s.restartCounts ==> Asked(s.log, id) == 0)
  }

  lemma ScheduleKeepsCount(s: Daemon, x: string, id: string)
    requires CountIsLogged(s, id)
    ensures CountIsLogged(Schedule(s, x), id)
  {
    hide Delay;
    AskedNext(s.log, Exhausted(x), id);
    AskedNext(s.log, Scheduled(x, Delay(CountOf(s, x) + 1)), id);
  }

  lemma ClearKeepsCount(s: Daemon, x: string, id: string)
    requires CountIsLogged(s, id)
    ensures CountIsLogged(Clear(s, x), id)
  {
    AskedNext(s.log, Cleared(x), id);
  }

  lemma ExitKeepsCount(s: Daemon, x: string, record: Record, id: string)
    requires CountIsLogged(s, id)
    ensures CountIsLogged(Do(s, Exit(x, record)), id)
  {
    hide Asked, Clear;
    if x in s.children {
      var gone := s.(children := s.children - multiset{x}, log := s.log + [Exited(x)]);
      AskedNext(s.log, Exited(x), id);
      ClearKeepsCount(gone, x, id);
    }
  }

  lemma DoKeepsCount(s: Daemon, a: Action, id: string)
    requires CountIsLogged(s, id)
    ensures CountIsLogged(Do(s, a), id)
  {
    hide Asked, Schedule, Clear;
    match a {
      case Exit(x, record) => ExitKeepsCount(s, x, record, id);
      case Inspect(x, inboxPending) =>
        var seen := s.(inspecting := s.inspecting - multiset{x});
        assert CountIsLogged(seen, id);
        ScheduleKeepsCount(seen, x, id);
        ClearKeepsCount(seen, x, id);
      case RunStart(x, _) => AskedNext(s.log, Spawned(x), id);
      case Fire(x) => AskedNext(s.log, TimerStarted(x), id);
      case Stop => AskedNext(s.log, ShutDown, id);
      case StartUp => AskedNext(s.log, StartedUp, id);
      case _ =>
    }
  }

  /** In every run, the restart count of a delegation is what its log says. */
  lemma {:induction false} EveryRunLogsItsCounts(actions: seq<Action>, id: string)
    ensures CountIsLogged(Run(Fresh, actions), id)
    decreases |actions|
  {
    hide Do;
    if actions != [] {
      EveryRunLogsItsCounts(actions[..|actions| - 1], id);
      DoKeepsCount(Run(Fresh, actions[..|actions| - 1]), actions[|actions| - 1], id);
    }
  }

  lemma RunNext(s: Daemon, actions: seq<Action>, a: Action)
    ensures Run(s, actions + [a]) == Do(Run(s, actions), a)
  {
    assert (actions + [a])[..|actions|] == actions;
  }

  // ---- What an exit leads to ----

  /** 100, 200 and 400 ms for the first three. */
  function DelayAfter(asked: nat): nat
    requires asked < 3
  {
    if asked == 0 then 100 else if asked == 1 then 200 else 400
  }

  lemma DelaysDouble(asked: nat)
    requires asked < 3
    ensures Delay(asked + 1) == DelayAfter(asked)
  {
    assert Power2(0) == 1 && Power2(1) == 2 * Power2(0) && Power2(2) == 2 * Power2(1);
  }

  /** Workers, starts and flags are as they were, and one exit handler less waits for the inbox of `id`. */
  ghost predicate HandlerIsDone(s: Daemon, t: Daemon, id: string) {
    && t.starts == s.starts && t.pending == s.pending && t.children == s.children && t.shutdown == s.shutdown
    && t.inspecting == s.inspecting - multiset{id}
  }

  ghost predicate PendingLeads(s: Daemon, t: Daemon, id: string) {
    var asked := Asked(s.log, id);
    && HandlerIsDone(s, t, id)
    && (s.shutdown ==> t.timers == s.timers && t.log == s.log)
    && (!s.shutdown && asked < 3 ==>
          t.timers == s.timers + multiset{id} && t.log == s.log + [Scheduled(id, DelayAfter(asked))])
    && (!s.shutdown && asked >= 3 ==> t.timers == s.timers && t.log == s.log + [Exhausted(id)])
  }

  lemma PendingStep(s: Daemon, id: string)
    requires id in s.inspecting && CountIsLogged(s, id)
    ensures PendingLeads(s, Do(s, Inspect(id, true)), id)
  {
    hide Delay, Asked, DelayAfter;
    if Asked(s.log, id) < 3 {
      DelaysDouble(Asked(s.log, id));
    }
  }

  /**
   * In every run, an exit with a pending inbox leads to exactly one timer and one Scheduled event while fewer than
   * three restarts were asked for, and from then on to none; nothing at all comes of it after shutdown.
   */
  lemma PendingExitIsRestarted(actions: seq<Action>, id: string)
    requires id in Run(Fresh, actions).inspecting
    ensures PendingLeads(Run(Fresh, actions), Run(Fresh, actions + [Inspect(id, true)]), id)
  {
    hide Do, Run, PendingLeads;
    RunNext(Fresh, actions, Inspect(id, true));
    EveryRunLogsItsCounts(actions, id);
    PendingStep(Run(Fresh, actions), id);
  }

  ghost predicate EmptyLeads(s: Daemon, t: Daemon, id: string) {
    && HandlerIsDone(s, t, id)
    && t.timers == s.timers && t.log == s.log + [Cleared(id)]
    && id !in t.restartCounts && Asked(t.log, id) == 0
  }

  lemma EmptyStep(s: Daemon, id: string)
    requires id in s.inspecting
    ensures EmptyLeads(s, Do(s, Inspect(id, false)), id)
  {
    hide Asked;
    AskedNext(s.log, Cleared(id), id);
  }

  /** In every run, an exit with an empty inbox sets no timer and leaves nothing asked for. */
  lemma EmptyInboxIsNotRestarted(actions: seq<Action>, id: string)
    requires id in Run(Fresh, actions).inspecting
    ensures EmptyLeads(Run(Fresh, actions), Run(Fresh, actions + [Inspect(id, false)]), id)
  {
    hide Do, Run, EmptyLeads;
    RunNext(Fresh, actions, Inspect(id, false));
    EmptyStep(Run(Fresh, actions), id);
  }

  /** A worker less, and only what the log gains. */
  ghost predicate OnlyWorkerIsGone(s: Daemon, t: Daemon, id: string, gained: seq<Event>) {
    && t.children == s.children - multiset{id} && t.log == s.log + gained
    && t.starts == s.starts && t.pending == s.pending && t.timers == s.timers && t.shutdown == s.shutdown
  }

  ghost predicate ExitLeads(s: Daemon, t: Daemon, id: string, record: Record) {
    var settled := !s.shutdown && record == Activated;
    && OnlyWorkerIsGone(s, t, id, if settled then [Exited(id), Cleared(id)] else [Exited(id)])
    && (settled ==> id !in t.restartCounts && Asked(t.log, id) == 0)
    && t.inspecting == s.inspecting + (if !s.shutdown && record == NotActivated then multiset{id} else multiset{})
  }

  lemma ExitStep(s: Daemon, id: string, record: Record)
    requires id in s.children
    ensures ExitLeads(s, Do(s, Exit(id, record)), id, record)
  {
    hide Asked;
    if !s.shutdown && record == Activated {
      AskedNext(s.log + [Exited(id)], Cleared(id), id);
      assert s.log + [Exited(id)] + [Cleared(id)] == s.log + [Exited(id), Cleared(id)];
    }
  }

  /**
   * In every run, only an exit of a known delegation that was never activated, outside shutdown, waits for the inbox.
   * An activated one is not restarted and leaves nothing asked for.
   */
  lemma OnlyUnactivatedExitIsInspected(actions: seq<Action>, id: string, record: Record)
    requires id in Run(Fresh, actions).children
    ensures ExitLeads(Run(Fresh, actions), Run(Fresh, actions + [Exit(id, record)]), id, record)
  {
    hide Do, Run, ExitLeads;
    RunNext(Fresh, actions, Exit(id, record));
    ExitStep(Run(Fresh, actions), id, record);
  }

  // ---- What a timer leads to ----

  ghost predicate TimerLeads(s: Daemon, t: Daemon, id: string) {
    var starts := !s.shutdown && s.children[id] == 0 && id !in s.starts;
    && t.timers == s.timers - multiset{id} && t.children == s.children && t.inspecting == s.inspecting
    && t.pending == (if starts then s.pending + multiset{id} else s.pending)
    && t.starts == (if starts then s.starts + {id} else s.starts)
    && t.log == (if s.shutdown then s.log else s.log + [TimerStarted(id)])
  }

  lemma TimerStep(s: Daemon, id: string)
    requires id in s.timers
    ensures TimerLeads(s, Do(s, Fire(id)), id)
  {
  }

  /** In every run outside shutdown, a timer records a start, unless a worker lives or a start is recorded already. */
  lemma TimerStartsWorker(actions: seq<Action>, id: string)
    requires id in Run(Fresh, actions).timers
    ensures TimerLeads(Run(Fresh, actions), Run(Fresh, actions + [Fire(id)]), id)
  {
    hide Do, Run, TimerLeads;
    RunNext(Fresh, actions, Fire(id));
    TimerStep(Run(Fresh, actions), id);
  }

  /** In every run, a request does the same at once, and shutdown does not keep it from it. */
  lemma RequestStartsWorker(actions: seq<Action>, id: string)
    ensures var s, t := Run(Fresh, actions), Run(Fresh, actions + [Request(id)]);
      var starts := s.children[id] == 0 && id !in s.starts;
      && t.pending == (if starts then s.pending + multiset{id} else s.pending)
      && t.starts == (if starts then s.starts + {id} else s.starts)
      && t.children == s.children && t.timers == s.timers && t.inspecting == s.inspecting && t.log == s.log
  {
    RunNext(Fresh, actions, Request(id));
  }

  ghost predicate StartLeads(s: Daemon, t: Daemon, id: string, spawns: bool) {
    && t.children == (if spawns then s.children + multiset{id} else s.children)
    && t.log == (if spawns then s.log + [Spawned(id)] else s.log)
    && t.pending == s.pending - multiset{id} && t.starts == s.starts - {id} && t.timers == s.timers
  }

  lemma StartStep(s: Daemon, id: string, spawns: bool)
    requires s.pending[id] == 1
    ensures StartLeads(s, Do(Do(s, RunStart(id, spawns)), SettleStart(id)), id, spawns)
  {
  }

  /** In every run, a start that ran spawns its worker or not, and is forgotten once it is settled. */
  lemma StartSpawnsAndIsForgotten(actions: seq<Action>, id: string, spawns: bool)
    requires id in Run(Fresh, actions).pending
    ensures StartLeads(Run(Fresh, actions), Run(Fresh, actions + [RunStart(id, spawns), SettleStart(id)]), id, spawns)
  {
    hide Do, Run, StartLeads;
    EveryRunHasOneWorkerEach(actions, id);
    RunNext(Fresh, actions, RunStart(id, spawns));
    RunNext(Fresh, actions + [RunStart(id, spawns)], SettleStart(id));
    assert actions + [RunStart(id, spawns)] + [SettleStart(id)] == actions + [RunStart(id, spawns), SettleStart(id)];
    StartStep(Run(Fresh, actions), id, spawns);
  }

  /** Shutting down and starting up set the flag and nothing else but the log; a start forgets what was asked for. */
  lemma FlagFollowsStopAndStart(actions: seq<Action>, id: string)
    ensures var s, t := Run(Fresh, actions), Run(Fresh, actions + [Stop]);
      t == s.(shutdown := true, log := s.log + [ShutDown])
    ensures var s, t := Run(Fresh, actions), Run(Fresh, actions + [StartUp]);
      t == s.(shutdown := false, restartCounts := map[], log := s.log + [StartedUp]) && Asked(t.log, id) == 0
  {
    hide Run, Asked;
    RunNext(Fresh, actions, Stop);
    RunNext(Fresh, actions, StartUp);
    AskedNext(Run(Fresh, actions).log, StartedUp, id);
  }

  // ---- A worker that keeps failing ----

  /** The worker comes up, exits before it was activated, and its inbox is pending. */
  function FailOnce(id: string): seq<Action> {
    [RunStart(id, true), SettleStart(id), Exit(id, NotActivated), Inspect(id, true)]
  }

  /** A start of `id` is recorded and nothing else of it is under way. */
  ghost predicate IsStarting(s: Daemon, id: string, asked: nat) {
    && !s.shutdown && s.starts == {id} && s.pending == multiset{id} && s.children == multiset{}
    && s.inspecting == multiset{} && s.timers == multiset{} && CountOf(s, id) == asked
  }

  lemma FailingStep(s: Daemon, id: string, asked: nat)
    requires IsStarting(s, id, asked)
    ensures var t := Do(Do(Do(Do(s, RunStart(id, true)), SettleStart(id)), Exit(id, NotActivated)), Inspect(id, true));
      && !t.shutdown && t.starts == {} && t.pending == multiset{} && t.children == multiset{}
      && t.inspecting == multiset{} && CountOf(t, id) == asked + 1
      && t.timers == (if asked < 3 then multiset{id} else multiset{})
      && t.log == s.log + [Spawned(id), Exited(id)] +
        [if asked < 3 then Scheduled(id, DelayAfter(asked)) else Exhausted(id)]
  {
    hide Delay;
    if asked < 3 {
      DelaysDouble(asked);
    }
    var up := Do(s, RunStart(id, true));
    assert up.children == multiset{id} && up.pending == multiset{};
    var settled := Do(up, SettleStart(id));
    assert settled.starts == {};
    var gone := Do(settled, Exit(id, NotActivated));
    assert gone.inspecting == multiset{id} && gone.log == s.log + [Spawned(id), Exited(id)];
  }

  lemma RunFour(s: Daemon, a: Action, b: Action, c: Action, d: Action)
    ensures Run(s, [a, b, c, d]) == Do(Do(Do(Do(s, a), b), c), d)
  {
    hide Do;
    ThreeSteps(s, a, b, c);
    RunNext(s, [a, b, c], d);
    assert [a, b, c] + [d] == [a, b, c, d];
  }

  lemma {:induction false} RunAppend(s: Daemon, a: seq<Action>, b: seq<Action>)
    ensures Run(s, a + b) == Run(Run(s, a), b)
    decreases |b|
  {
    if b == [] {
      assert a + b == a;
    } else {
      RunAppend(s, a, b[..|b| - 1]);
      assert (a + b)[..|a + b| - 1] == a + b[..|b| - 1];
    }
  }

  /** A requested worker that failed `n` times, each time but the first after its timer fired. */
  function FailTimes(id: string, n: nat): seq<Action> {
    if n == 0 then [Request(id)]
    else if n == 1 then FailTimes(id, 0) + FailOnce(id)
    else FailTimes(id, n - 1) + ([Fire(id)] + FailOnce(id))
  }

  function FailLog(id: string, n: nat): seq<Event> {
    if n == 0 then []
    else
      var earlier := if n == 1 then [] else FailLog(id, n - 1) + [TimerStarted(id)];
      earlier + [Spawned(id), Exited(id)] + [if n <= 3 then Scheduled(id, DelayAfter(n - 1)) else Exhausted(id)]
  }

  /** Every failure up to the third is followed by a restart after 100, 200 and 400 ms; the fourth is given up. */
  lemma {:induction false} FailingWorkerIsRestartedThrice(id: string, n: nat)
    requires 1 <= n <= 4
    ensures var t := Run(Fresh, FailTimes(id, n));
      && !t.shutdown && t.starts == {} && t.pending == multiset{} && t.children == multiset{}
      && t.inspecting == multiset{} && CountOf(t, id) == n
      && t.timers == (if n <= 3 then multiset{id} else multiset{})
      && t.log == FailLog(id, n)
  {
    hide Do, CountOf;
    var first := if n == 1 then FailTimes(id, 0) else FailTimes(id, n - 1) + [Fire(id)];
    if n == 1 {
      RequestedIsStarting(id);
    } else {
      FailingWorkerIsRestartedThrice(id, n - 1);
      RunNext(Fresh, FailTimes(id, n - 1), Fire(id));
      FiredIsStarting(Run(Fresh, FailTimes(id, n - 1)), id, n - 1);
    }
    var s := Run(Fresh, first);
    RunAppend(Fresh, first, FailOnce(id));
    assert FailTimes(id, n) == first + FailOnce(id);
    RunFour(s, RunStart(id, true), SettleStart(id), Exit(id, NotActivated), Inspect(id, true));
    FailingStep(s, id, n - 1);
  }

  lemma RequestedIsStarting(id: string)
    ensures var s := Run(Fresh, [Request(id)]); IsStarting(s, id, 0) && s.log == []
  {
    RunNext(Fresh, [], Request(id));
    assert [] + [Request(id)] == [Request(id)];
  }

  lemma FiredIsStarting(s: Daemon, id: string, n: nat)
    requires !s.shutdown && s.starts == {} && s.pending == multiset{} && s.children == multiset{}
    requires s.inspecting == multiset{} && CountOf(s, id) == n && s.timers == multiset{id}
    ensures IsStarting(Do(s, Fire(id)), id, n) && Do(s, Fire(id)).log == s.log + [TimerStarted(id)]
  {
  }

  /** So the first failure of a requested worker is followed by a restart after 100 ms. */
  lemma FirstFailureIsRestarted(id: string)
    ensures var t := Run(Fresh, [Request(id), RunStart(id, true), SettleStart(id), Exit(id, NotActivated),
        Inspect(id, true)]);
      t.timers == multiset{id} && t.log == [Spawned(id), Exited(id), Scheduled(id, 100)]
  {
    hide Run;
    FailingWorkerIsRestartedThrice(id, 1);
    assert FailTimes(id, 1) ==
      [Request(id), RunStart(id, true), SettleStart(id), Exit(id, NotActivated), Inspect(id, true)];
  }
}
