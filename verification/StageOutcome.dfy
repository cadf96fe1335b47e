/** What a build stage comes to and what it sends and logs, told from the order of its events alone. */
module StageOutcome {
  import opened Wrappers
  import opened WhiteSpace
  import opened BuildStage

  // ---- The events that matter ----

  /** The child closes, or the spawn turns out to have produced no process. */
  predicate Ends(hasPid: bool, e: Event) {
    e.Close? || (e.ChildError? && !hasPid)
  }

  predicate Cancels(hasPid: bool, e: Event) {
    e == Interrupt || e == Terminate || e == TimeoutFires || (e == ChildError && hasPid)
  }

  function ReasonOf(e: Event): Reason {
    match e
    case Interrupt => BySigint
    case Terminate => BySigterm
    case TimeoutFires => ByTimeout
    case _ => ByProcessError
  }

  predicate NoneEnds(hasPid: bool, events: seq<Event>) {
    forall i :: 0 <= i < |events| ==> !Ends(hasPid, events[i])
  }

  predicate NoneCancels(hasPid: bool, events: seq<Event>) {
    forall i :: 0 <= i < |events| ==> !Cancels(hasPid, events[i])
  }

  predicate FirstCancelIs(hasPid: bool, events: seq<Event>, i: nat) {
    i < |events| && Cancels(hasPid, events[i]) && NoneCancels(hasPid, events[..i])
  }

  // ---- Before the end ----

  /** Nothing is settled, and the first cancelling event has cancelled it, if there was one. */
  ghost predicate IsUnderway(hasPid: bool, events: seq<Event>, s: Stage) {
    && s.hasPid == hasPid && s.settled.None? && !s.cleaned && !s.closeSeen && s.handlers
    && (NoneCancels(hasPid, events) ==> s.cancelled.None? && s.timeout && !s.errorSeen && s.sent == [])
    && (!NoneCancels(hasPid, events) ==> s.cancelled.Some?)
    && (forall i: nat :: FirstCancelIs(hasPid, events, i) ==> s.cancelled == Some(ReasonOf(events[i])))
    && (s.cancelled.None? ==> !s.escalation)
    && (s.cancelled.Some? ==> WasSignalled(s))
    && (!hasPid ==> !s.errorSeen)
  }

  /** The first signal is SIGINT for an interrupt and SIGTERM else; SIGKILL has followed or its timer is pending. */
  ghost predicate WasSignalled(s: Stage)
    requires s.cancelled.Some?
  {
    var first := if s.cancelled.value == BySigint then SIGINT else SIGTERM;
    if s.escalation then s.sent == [first] else s.sent == [first, SIGKILL]
  }

  lemma UnderwayNext(hasPid: bool, events: seq<Event>, s: Stage, e: Event)
    requires IsUnderway(hasPid, events, s) && !Ends(hasPid, e)
    ensures IsUnderway(hasPid, events + [e], Do(s, e))
  {
    hide LogOutput;
    var all, t := events + [e], Do(s, e);
    assert all[..|events|] == events;
    CancelsNext(hasPid, events, e);
    if e.Data? {
      OutputOnlyLogs(s, e.text, e.bytes);
    }
  }

  lemma CancelsNext(hasPid: bool, events: seq<Event>, e: Event)
    ensures NoneCancels(hasPid, events + [e]) <==> NoneCancels(hasPid, events) && !Cancels(hasPid, e)
    ensures forall i :: 0 <= i < |events| ==>
      (FirstCancelIs(hasPid, events + [e], i) <==> FirstCancelIs(hasPid, events, i))
    ensures FirstCancelIs(hasPid, events + [e], |events|) <==> NoneCancels(hasPid, events) && Cancels(hasPid, e)
  {
    var all := events + [e];
    assert forall i :: 0 <= i < |events| ==> all[i] == events[i] && all[..i] == events[..i];
    assert all[..|events|] == events && all[|events|] == e;
  }

  lemma {:induction false} UnderwayUntilTheEnd(hasPid: bool, events: seq<Event>)
    requires NoneEnds(hasPid, events)
    ensures IsUnderway(hasPid, events, Run(Started(hasPid), events))
  {
    hide Do, IsUnderway;
    if events == [] {
      StartIsUnderway(hasPid);
    } else {
      var before, e := events[..|events| - 1], events[|events| - 1];
      UnderwayUntilTheEnd(hasPid, before);
      UnderwayNext(hasPid, before, Run(Started(hasPid), before), e);
      assert before + [e] == events;
    }
  }

  lemma StartIsUnderway(hasPid: bool)
    ensures IsUnderway(hasPid, [], Started(hasPid))
  {
  }

  // ---- The outcome ----

  lemma RunNext(s: Stage, events: seq<Event>, e: Event)
    ensures Run(s, events + [e]) == Do(Run(s, events), e)
  {
    assert (events + [e])[..|events|] == events;
  }

  /** A stage is pending exactly as long as its child has not closed and a spawn without a process has not failed. */
  lemma PendingUntilTheEnd(hasPid: bool, events: seq<Event>)
    ensures Run(Started(hasPid), events).settled.None? <==> NoneEnds(hasPid, events)
  {
    hide Run;
    if NoneEnds(hasPid, events) {
      UnderwayUntilTheEnd(hasPid, events);
    } else {
      var i := FirstEnd(hasPid, events);
      var e := events[i];
      if e.ChildError? {
        FailedSpawn(hasPid, events, i);
      } else {
        FirstCloseDecides(hasPid, events, i);
        if !NoneCancels(hasPid, events[..i]) {
          var k := FirstCancel(hasPid, events[..i]);
        }
      }
    }
  }

  lemma FirstEnd(hasPid: bool, events: seq<Event>) returns (i: nat)
    requires !NoneEnds(hasPid, events)
    ensures i < |events| && Ends(hasPid, events[i]) && NoneEnds(hasPid, events[..i])
  {
    i := 0;
    while !Ends(hasPid, events[i])
      invariant i < |events| && NoneEnds(hasPid, events[..i])
      decreases |events| - i
    {
      i := i + 1;
      assert i == |events| ==> NoneEnds(hasPid, events);
    }
  }

  /** An error of a child without a process rejects the stage for good, whatever was cancelled. */
  lemma FailedSpawn(hasPid: bool, events: seq<Event>, i: nat)
    requires i < |events| && events[i].ChildError? && !hasPid && NoneEnds(hasPid, events[..i])
    ensures Run(Started(hasPid), events).settled == Some(SpawnFailed)
  {
    hide Run;
    var before := Run(Started(hasPid), events[..i]);
    UnderwayUntilTheEnd(hasPid, events[..i]);
    RunNext(Started(hasPid), events[..i], events[i]);
    assert Run(Started(hasPid), events[..i] + [events[i]]).settled == Some(SpawnFailed);
    OutcomeIsFinal(Started(hasPid), events[..i] + [events[i]], events[i + 1..]);
    assert events[..i] + [events[i]] + events[i + 1..] == events;
  }

  /**
   * In every order of events, the first close decides: cancelled with the reason of the first cancelling event before
   * it, if there is one; else resolved if the code is 0, and failed with that very code if not.
   */
  lemma FirstCloseDecides(hasPid: bool, events: seq<Event>, i: nat)
    requires i < |events| && events[i].Close? && NoneEnds(hasPid, events[..i])
    ensures var settled := Run(Started(hasPid), events).settled;
      && (forall k: nat :: FirstCancelIs(hasPid, events[..i], k) ==> settled == Some(Cancelled(ReasonOf(events[k]))))
      && (NoneCancels(hasPid, events[..i]) && events[i].code == Some(0) ==> settled == Some(Resolved))
      && (NoneCancels(hasPid, events[..i]) && events[i].code != Some(0) ==> settled == Some(Failed(events[i].code)))
  {
    hide Run, NoneCancels, FirstCancelIs, NoneEnds;
    var before := Run(Started(hasPid), events[..i]);
    UnderwayUntilTheEnd(hasPid, events[..i]);
    RunNext(Started(hasPid), events[..i], events[i]);
    var closed := Do(before, events[i]);
    assert closed.settled.Some?;
    CancelsAreInside(hasPid, events[..i]);
    OutcomeIsFinal(Started(hasPid), events[..i] + [events[i]], events[i + 1..]);
    assert events[..i] + [events[i]] + events[i + 1..] == events;
  }

  lemma CancelsAreInside(hasPid: bool, events: seq<Event>)
    ensures forall k: nat :: FirstCancelIs(hasPid, events, k) ==> k < |events|
  {
  }

  /** The child closes with code 0 before anything cancels the stage. */
  ghost predicate ClosesWell(hasPid: bool, events: seq<Event>, i: nat) {
    && i < |events| && events[i] == Close(Some(0))
    && NoneEnds(hasPid, events[..i]) && NoneCancels(hasPid, events[..i])
  }

  /** A stage resolves exactly when its first close has code 0 and nothing cancelled it before. */
  lemma ResolvesIff(hasPid: bool, events: seq<Event>)
    ensures Run(Started(hasPid), events).settled == Some(Resolved) <==> exists i :: ClosesWell(hasPid, events, i)
  {
    hide Run;
    PendingUntilTheEnd(hasPid, events);
    if i :| ClosesWell(hasPid, events, i) {
      FirstCloseDecides(hasPid, events, i);
    }
    if Run(Started(hasPid), events).settled == Some(Resolved) {
      var i := FirstEnd(hasPid, events);
      var e := events[i];
      if e.ChildError? {
        FailedSpawn(hasPid, events, i);
      } else {
        FirstCloseDecides(hasPid, events, i);
        if !NoneCancels(hasPid, events[..i]) {
          var k := FirstCancel(hasPid, events[..i]);
        }
        assert ClosesWell(hasPid, events, i);
      }
    }
  }

  lemma FirstCancel(hasPid: bool, events: seq<Event>) returns (i: nat)
    requires !NoneCancels(hasPid, events)
    ensures FirstCancelIs(hasPid, events, i)
  {
    i := 0;
    while !Cancels(hasPid, events[i])
      invariant i < |events| && NoneCancels(hasPid, events[..i])
      decreases |events| - i
    {
      i := i + 1;
      assert i == |events| ==> NoneCancels(hasPid, events);
    }
  }

  /** A compiler that exits with 1 fails its stage, whatever comes after. */
  lemma ExitOneFails(more: seq<Event>)
    ensures Run(Started(true), [Close(Some(1))] + more).settled == Some(Failed(Some(1)))
  {
    hide Run;
    FirstCloseDecides(true, [Close(Some(1))] + more, 0);
  }

  // ---- Signals ----

  /** Until the child closes, a cancelled stage has signalled it, and SIGKILL has followed or its timer is pending. */
  lemma CancelledChildIsSignalled(hasPid: bool, events: seq<Event>, i: nat)
    requires NoneEnds(hasPid, events) && FirstCancelIs(hasPid, events, i)
    ensures var s := Run(Started(hasPid), events);
      var first := if events[i] == Interrupt then SIGINT else SIGTERM;
      if s.escalation then s.sent == [first] else s.sent == [first, SIGKILL]
    ensures var s := Run(Started(hasPid), events + [EscalationFires]);
      s.sent == [if events[i] == Interrupt then SIGINT else SIGTERM, SIGKILL]
  {
    hide Run;
    UnderwayUntilTheEnd(hasPid, events);
    var all := events + [EscalationFires];
    RunNext(Started(hasPid), events, EscalationFires);
  }

  // ---- Output ----

  lemma TrimKeepsTrimmed(text: string)
    requires text != [] && !IsSpace(text[0]) && !IsSpace(text[|text| - 1])
    ensures Trim(text) == text
  {
  }

  /** Text of up to 8192 characters that starts and ends with one to be seen is logged as it is within 30 MiB. */
  lemma ShortOutputIsLogged(s: Stage, events: seq<Event>, text: string, bytes: nat)
    requires 0 < |text| <= 8192 && !IsSpace(text[0]) && !IsSpace(text[|text| - 1])
    requires Run(s, events).outputBytes + |text| <= 31457280
    ensures var before, after := Run(s, events), Run(s, events + [Data(text, bytes)]);
      after == before.(logged := before.logged + [text], outputBytes := before.outputBytes + bytes)
  {
    hide Run, IsSpace, Trim;
    RunNext(s, events, Data(text, bytes));
    TrimKeepsTrimmed(text);
    assert text[..|text|] == text;
  }

  /** Past 30 MiB nothing is logged, and blank text never is. */
  lemma ExcessIsNotLogged(s: Stage, events: seq<Event>, text: string, bytes: nat)
    ensures Run(s, events).outputBytes >= 31457280 ==> Run(s, events + [Data(text, bytes)]) == Run(s, events)
    ensures Blank(text) ==> Run(s, events + [Data(text, bytes)]).logged == Run(s, events).logged
  {
    hide Run, IsSpace;
    RunNext(s, events, Data(text, bytes));
    if Blank(text) {
      BlankTrimsAway(Bounded(text, 31457280));
      forall n: nat ensures Trim(Bounded(text, n)) == [] {
        BlankTrimsAway(Bounded(text, n));
      }
    }
  }

  lemma {:induction false} BlankTrimsAway(text: string)
    requires Blank(text)
    ensures Trim(text) == []
  {
    hide IsSpace;
    if text != [] {
      BlankTrimsAway(text[1..]);
    }
  }
}
