/**
 * Applies as processes: approvals, revocations, log and mirror changes and any number of applies
 * interleave, one atomic action at a time, under the approval's record lock and the audit lock.
 */
module MirrorProtocol {
  import opened Wrappers
  import opened MirrorReplay
  import opened MirrorFiles
  import opened MirrorReconcile

  /** What the audit lock protects: the log, the backed markers and the mirrors. */
  datatype World = World(log: seq<Entry>, markers: Markers, mirrors: Mirrors)

  /** What an approval is bound to; the payload hash is taken to be injective. */
  datatype Payload = Payload(mission: string, findings: seq<Finding>)

  /** `sound` stands for the kind, effect-binding, separation-of-duties and human-decision checks. */
  datatype Approval = Approval(approved: bool, revoked: bool, used: bool, sound: bool, payload: Payload)

  datatype Stage = ToArchive | ToRemove | ToRebuild

  datatype Pc =
    | Idle
    | Checked(id: string, mission: string, findings: seq<Finding>)
    | RecordLocked(id: string, mission: string, findings: seq<Finding>)
    | AuditLocked(id: string, mission: string, findings: seq<Finding>)
    | Effect(id: string, mission: string, findings: seq<Finding>, start: World, next: nat, stage: Stage)

  datatype Event =
    | Consumed(id: string, mission: string, findings: seq<Finding>, start: World)
    | Archived(id: string, slug: string, content: Mirror)
    | Removed(id: string, slug: string, content: Mirror)
    | Restored(id: string, slug: string, content: Mirror)

  datatype State = State(
    world: World,
    approvals: map<string, Approval>,
    recordLocks: map<string, nat>,
    auditLock: Option<nat>,
    procs: map<nat, Pc>,
    events: seq<Event>)

  datatype Action =
    | Change(world: World)                 // an append, a rename or any drift of a mirror
    | Request(rid: string, payload: Payload)
    | Decide(did: string, sound: bool)
    | Revoke(vid: string)
    | Check(p: nat, id: string, mission: string, findings: seq<Finding>)
    | LockRecord(p: nat)
    | LockAudit(p: nat)
    | Consume(p: nat)
    | Advance(p: nat)                      // one step of the effect: copy, clear, rebuild or move on
    | Crash(p: nat)                        // an exception: both locks are released

  ghost function FindingsIn(w: World): seq<Finding> {
    Collect(w.log, w.markers, w.mirrors)
  }

  function PcOf(s: State, p: nat): Pc {
    if p in s.procs then s.procs[p] else Idle
  }

  /** The record may back an apply: approved, not revoked, not used and sound. */
  predicate Usable(approvals: map<string, Approval>, id: string) {
    id in approvals && approvals[id].approved && !approvals[id].revoked && !approvals[id].used && approvals[id].sound
  }

  function Released(s: State, p: nat): State {
    s.(recordLocks := map id | id in s.recordLocks && s.recordLocks[id] != p :: s.recordLocks[id],
       auditLock := if s.auditLock == Some(p) then None else s.auditLock,
       procs := s.procs[p := Idle])
  }

  /** The next step of a running effect. The rebuild uses the entries grouped under the lock. */
  ghost function AdvanceEffect(s: State, p: nat, pc: Pc): State
    requires pc.Effect?
  {
    if pc.next >= |pc.findings| then Released(s, p) else
      var f := pc.findings[pc.next];
      var moveOn := s.procs[p := pc.(next := pc.next + 1, stage := ToArchive)];
      match pc.stage
      case ToArchive =>
        if f.slug !in s.world.mirrors then s.(procs := moveOn)
        else s.(procs := s.procs[p := pc.(stage := ToRemove)],
                events := s.events + [Archived(pc.id, f.slug, s.world.mirrors[f.slug])])
      case ToRemove =>
        if f.slug !in s.world.mirrors then s.(procs := moveOn)
        else s.(world := s.world.(mirrors := s.world.mirrors - {f.slug}),
                procs := if f.rebuild then s.procs[p := pc.(stage := ToRebuild)] else moveOn,
                events := s.events + [Removed(pc.id, f.slug, s.world.mirrors[f.slug])])
      case ToRebuild =>
        var entries := Expected(pc.start.log, pc.start.markers, f.slug);
        if !AllDated(entries) then Released(s, p)
        else s.(world := s.world.(mirrors := s.world.mirrors[f.slug := Rebuilt(entries)]),
                procs := moveOn,
                events := s.events + [Restored(pc.id, f.slug, Rebuilt(entries))])
  }

  /** An action that is not enabled changes nothing. */
  ghost function Do(s: State, a: Action): State {
    match a
    case Change(world) =>
      // every writer of the log and of a mirror takes the audit lock
      if s.auditLock == None then s.(world := world) else s
    case Request(id, payload) =>
      if id in s.approvals then s else s.(approvals := s.approvals[id := Approval(false, false, false, false, payload)])
    case Decide(id, sound) =>
      if id in s.approvals && !s.approvals[id].approved && id !in s.recordLocks
      then s.(approvals := s.approvals[id := s.approvals[id].(approved := true, sound := sound)]) else s
    case Revoke(id) =>
      if id in s.approvals && s.approvals[id].approved && !s.approvals[id].used && id !in s.recordLocks
      then s.(approvals := s.approvals[id := s.approvals[id].(revoked := true)]) else s
    case Check(p, id, mission, findings) =>
      // the scan takes no lock, so what it saw may be a mixture: any findings the approval is bound to
      if PcOf(s, p) == Idle && Usable(s.approvals, id) && s.approvals[id].payload == Payload(mission, findings)
      then s.(procs := s.procs[p := Checked(id, mission, findings)]) else s
    case LockRecord(p) =>
      (match PcOf(s, p)
       case Checked(id, mission, findings) =>
         if id in s.recordLocks then s
         else if !Usable(s.approvals, id) then s.(procs := s.procs[p := Idle])
         else s.(recordLocks := s.recordLocks[id := p], procs := s.procs[p := RecordLocked(id, mission, findings)])
       case _ => s)
    case LockAudit(p) =>
      (match PcOf(s, p)
       case RecordLocked(id, mission, findings) =>
         if s.auditLock.Some? then s
         else s.(auditLock := Some(p), procs := s.procs[p := AuditLocked(id, mission, findings)])
       case _ => s)
    case Consume(p) =>
      (match PcOf(s, p)
       case AuditLocked(id, mission, findings) =>
         if id !in s.approvals || s.approvals[id].payload != Payload(mission, FindingsIn(s.world)) then Released(s, p)
         else s.(approvals := s.approvals[id := s.approvals[id].(used := true)],
                 procs := s.procs[p := Effect(id, mission, findings, s.world, 0, ToArchive)],
                 events := s.events + [Consumed(id, mission, FindingsIn(s.world), s.world)])
       case _ => s)
    case Advance(p) =>
      if PcOf(s, p).Effect? then AdvanceEffect(s, p, PcOf(s, p)) else s
    case Crash(p) => Released(s, p)
  }

  ghost function Run(s: State, actions: seq<Action>): State
    decreases |actions|
  {
    if actions == [] then s else Do(Run(s, actions[..|actions| - 1]), actions[|actions| - 1])
  }

  predicate Initial(s: State) {
    s.approvals == map[] && s.recordLocks == map[] && s.auditLock == None && s.procs == map[] && s.events == []
  }

  // ---- The invariant ----

  predicate HoldsRecord(pc: Pc)
    ensures HoldsRecord(pc) ==> !pc.Idle?
  {
    pc.RecordLocked? || pc.AuditLocked? || pc.Effect?
  }

  ghost predicate LocksHeld(s: State) {
    forall p: nat {:trigger PcOf(s, p)} ::
      && (HoldsRecord(PcOf(s, p)) ==> PcOf(s, p).id in s.recordLocks && s.recordLocks[PcOf(s, p).id] == p)
      && (PcOf(s, p).AuditLocked? || PcOf(s, p).Effect? ==> s.auditLock == Some(p))
  }

  /** A process waiting to consume has a usable record bound to what it checked. */
  ghost predicate RecordsUsable(s: State) {
    forall p: nat {:trigger PcOf(s, p)} ::
      && (PcOf(s, p).Checked? ==> PcOf(s, p).id in s.approvals)
      && (PcOf(s, p).RecordLocked? || PcOf(s, p).AuditLocked? ==> Usable(s.approvals, PcOf(s, p).id))
      && (PcOf(s, p).Checked? || PcOf(s, p).RecordLocked? || PcOf(s, p).AuditLocked? ==>
            PcOf(s, p).id in s.approvals &&
            s.approvals[PcOf(s, p).id].payload == Payload(PcOf(s, p).mission, PcOf(s, p).findings))
  }

  /** The mirror of `slug` is as it was when the effect started. */
  predicate Untouched(s: State, start: World, slug: string) {
    && (slug in s.world.mirrors <==> slug in start.mirrors)
    && (slug in start.mirrors ==> s.world.mirrors[slug] == start.mirrors[slug])
  }

  ghost predicate EffectOk(s: State, pc: Pc)
    requires pc.Effect?
  {
    && Consumed(pc.id, pc.mission, pc.findings, pc.start) in s.events
    && DistinctSlugs(pc.findings) && pc.next <= |pc.findings|
    && (forall i :: pc.next < i < |pc.findings| ==> Untouched(s, pc.start, pc.findings[i].slug))
    && (pc.stage != ToArchive ==> pc.next < |pc.findings|)
    && (pc.next < |pc.findings| && pc.stage != ToRebuild ==> Untouched(s, pc.start, pc.findings[pc.next].slug))
    && (pc.stage == ToRemove ==> pc.findings[pc.next].slug in s.world.mirrors)
    && (pc.stage == ToRemove ==>
          Archived(pc.id, pc.findings[pc.next].slug, s.world.mirrors[pc.findings[pc.next].slug]) in s.events)
    && (pc.stage == ToRebuild ==>
          exists m: Mirror {:trigger Removed(pc.id, pc.findings[pc.next].slug, m)} ::
            Removed(pc.id, pc.findings[pc.next].slug, m) in s.events)
    && (forall slug :: !ReportedIn(pc.findings, |pc.findings|, slug) ==> Untouched(s, pc.start, slug))
  }

  ghost predicate EffectsOk(s: State) {
    forall p: nat {:trigger PcOf(s, p)} :: PcOf(s, p).Effect? ==> EffectOk(s, PcOf(s, p))
  }

  /** The record behind a consumption was approved, sound and never revoked, and bound to what was recomputed. */
  ghost predicate ConsumptionOk(s: State, e: Event)
    requires e.Consumed?
  {
    && e.id in s.approvals
    && s.approvals[e.id].used && s.approvals[e.id].approved && s.approvals[e.id].sound && !s.approvals[e.id].revoked
    && s.approvals[e.id].payload == Payload(e.mission, e.findings)
    && e.findings == FindingsIn(e.start)
  }

  ghost predicate ConsumptionsOk(s: State) {
    && (forall e {:trigger ConsumptionOk(s, e)} :: e in s.events && e.Consumed? ==> ConsumptionOk(s, e))
    && OncePerId(s.events)
  }

  ghost predicate OncePerId(events: seq<Event>) {
    forall i, j :: 0 <= i < j < |events| && events[i].Consumed? && events[j].Consumed? ==> events[i].id != events[j].id
  }

  /** Event `j` is the consumption event `i` acts under. */
  ghost predicate Authorizes(events: seq<Event>, j: nat, i: nat) {
    && j < i < |events| && events[j].Consumed? && !events[i].Consumed? && events[j].id == events[i].id
    && ReportedIn(events[j].findings, |events[j].findings|, events[i].slug)
  }

  /** What a removal or a restoration needs to have happened before it. */
  ghost predicate EventOk(events: seq<Event>, i: nat)
    requires i < |events|
  {
    match events[i]
    case Consumed(_, _, _, _) => true
    case Archived(id, slug, content) =>
      exists j: nat ::
        Authorizes(events, j, i) && slug in events[j].start.mirrors && events[j].start.mirrors[slug] == content
    case Removed(id, slug, content) =>
      && (exists j: nat ::
            Authorizes(events, j, i) && slug in events[j].start.mirrors && events[j].start.mirrors[slug] == content)
      && (exists k: nat :: k < i && events[k] == Archived(id, slug, content))
    case Restored(id, slug, content) =>
      && (exists j: nat ::
            Authorizes(events, j, i) &&
            content == Rebuilt(Expected(events[j].start.log, events[j].start.markers, slug)))
      && (exists k: nat, m: Mirror :: k < i && events[k] == Removed(id, slug, m))
  }

  ghost predicate EventsOk(events: seq<Event>) {
    forall i: nat {:trigger EventOk(events, i)} :: i < |events| ==> EventOk(events, i)
  }

  predicate UsedAreApproved(approvals: map<string, Approval>) {
    forall id :: id in approvals && approvals[id].used ==> approvals[id].approved
  }

  ghost predicate Inv(s: State) {
    && LocksHeld(s) && RecordsUsable(s) && UsedAreApproved(s.approvals)
    && EffectsOk(s) && ConsumptionsOk(s) && EventsOk(s.events)
  }

  // ---- Every action keeps it ----

  lemma AppendedEventOk(events: seq<Event>, e: Event)
    requires EventsOk(events) && EventOk(events + [e], |events|)
    ensures EventsOk(events + [e])
  {
    var after := events + [e];
    forall i: nat {:trigger EventOk(after, i)} | i < |events| ensures EventOk(after, i) {
      assert EventOk(events, i);
      forall j: nat | Authorizes(events, j, i) ensures Authorizes(after, j, i) {
      }
      assert forall j :: 0 <= j < |events| ==> after[j] == events[j];
    }
  }

  lemma ReleaseKeepsInv(s: State, p: nat)
    requires Inv(s)
    ensures Inv(Released(s, p))
  {
    var t := Released(s, p);
    forall q: nat ensures PcOf(t, q) == if q == p then Idle else PcOf(s, q) {
    }
    forall q: nat {:trigger PcOf(t, q)} | PcOf(t, q).Effect? ensures EffectOk(t, PcOf(t, q)) {
      assert EffectOk(s, PcOf(s, q));
    }
    assert forall e :: e in t.events && e.Consumed? ==> (ConsumptionOk(s, e) <==> ConsumptionOk(t, e));
  }

  lemma ChangeKeepsInv(s: State, world: World)
    requires Inv(s) && s.auditLock == None
    ensures Inv(s.(world := world))
  {
    var t := s.(world := world);
    assert forall q: nat :: PcOf(t, q) == PcOf(s, q);
    assert forall e :: e in t.events && e.Consumed? ==> (ConsumptionOk(s, e) <==> ConsumptionOk(t, e));
  }

  /** The store may add records, and may change a record that is neither locked nor used, but never its payload. */
  lemma StoreKeepsInv(s: State, approvals: map<string, Approval>)
    requires Inv(s)
    requires forall id :: id in s.approvals ==> id in approvals && approvals[id].payload == s.approvals[id].payload
    requires forall id :: id in s.approvals && (id in s.recordLocks || s.approvals[id].used) ==>
      approvals[id] == s.approvals[id]
    requires UsedAreApproved(approvals)
    ensures Inv(s.(approvals := approvals))
  {
    var t := s.(approvals := approvals);
    assert forall q: nat :: PcOf(t, q) == PcOf(s, q);
    forall q: nat {:trigger PcOf(t, q)} | PcOf(t, q).Effect? ensures EffectOk(t, PcOf(t, q)) {
      assert EffectOk(s, PcOf(s, q));
    }
    forall e {:trigger ConsumptionOk(t, e)} | e in t.events && e.Consumed? ensures ConsumptionOk(t, e) {
      assert ConsumptionOk(s, e);
    }
  }

  /** A process may move on without an effect, given that it holds what its new place needs. */
  lemma MoveKeepsInv(s: State, p: nat, pc: Pc, recordLocks: map<string, nat>, auditLock: Option<nat>)
    requires Inv(s) && !pc.Effect? && !PcOf(s, p).Effect?
    requires recordLocks == s.recordLocks
      || (pc.RecordLocked? && pc.id !in s.recordLocks && recordLocks == s.recordLocks[pc.id := p])
    requires auditLock == s.auditLock || (s.auditLock == None && auditLock == Some(p))
    requires HoldsRecord(pc) ==> pc.id in recordLocks && recordLocks[pc.id] == p && Usable(s.approvals, pc.id)
    requires pc.AuditLocked? ==> auditLock == Some(p)
    requires !pc.Idle? ==> pc.id in s.approvals && s.approvals[pc.id].payload == Payload(pc.mission, pc.findings)
    ensures Inv(s.(procs := s.procs[p := pc], recordLocks := recordLocks, auditLock := auditLock))
  {
    hide EffectOk, ConsumptionOk, EventsOk, OncePerId, LocksHeld;
    var t := s.(procs := s.procs[p := pc], recordLocks := recordLocks, auditLock := auditLock);
    forall q: nat {:trigger PcOf(t, q)} ensures PcOf(t, q) == if q == p then pc else PcOf(s, q) {
    }
    MoveKeepsLocks(s, p, pc, t);
    forall q: nat {:trigger PcOf(t, q)} | PcOf(t, q).Effect? ensures EffectOk(t, PcOf(t, q)) {
      assert EffectOk(s, PcOf(s, q));
      EffectOkByWorld(s, t, PcOf(s, q));
    }
    ConsumptionsOkByRecords(s, t);
  }

  lemma EffectOkByWorld(s: State, t: State, pc: Pc)
    requires pc.Effect? && t.world == s.world && t.events == s.events && t.approvals == s.approvals && EffectOk(s, pc)
    ensures EffectOk(t, pc)
  {
    hide ReportedIn;
  }

  lemma ConsumptionsOkByRecords(s: State, t: State)
    requires t.events == s.events && t.approvals == s.approvals && ConsumptionsOk(s)
    ensures ConsumptionsOk(t)
  {
    hide FindingsIn, OncePerId;
    forall e {:trigger ConsumptionOk(t, e)} | e in t.events && e.Consumed? ensures ConsumptionOk(t, e) {
      assert ConsumptionOk(s, e);
    }
  }

  lemma MoveKeepsLocks(s: State, p: nat, pc: Pc, t: State)
    requires LocksHeld(s) && t.procs == s.procs[p := pc]
    requires t.recordLocks == s.recordLocks
      || (pc.RecordLocked? && pc.id !in s.recordLocks && t.recordLocks == s.recordLocks[pc.id := p])
    requires t.auditLock == s.auditLock || (s.auditLock == None && t.auditLock == Some(p))
    requires HoldsRecord(pc) ==> pc.id in t.recordLocks && t.recordLocks[pc.id] == p
    requires pc.AuditLocked? || pc.Effect? ==> t.auditLock == Some(p)
    ensures LocksHeld(t)
  {
    forall q: nat {:trigger PcOf(t, q)}
      ensures HoldsRecord(PcOf(t, q)) ==> PcOf(t, q).id in t.recordLocks && t.recordLocks[PcOf(t, q).id] == q
      ensures PcOf(t, q).AuditLocked? || PcOf(t, q).Effect? ==> t.auditLock == Some(q)
    {
      assert PcOf(t, q) == if q == p then pc else PcOf(s, q);
    }
  }

  lemma FindingsAreDistinct(w: World)
    ensures DistinctSlugs(FindingsIn(w))
  {
    CollectHoldsReports(w.log, w.markers, w.mirrors);
  }

  lemma ConsumedOnce(s: State, e: Event)
    requires ConsumptionsOk(s) && e.Consumed? && e.id in s.approvals && !s.approvals[e.id].used
    ensures OncePerId(s.events + [e])
  {
    forall i | 0 <= i < |s.events| && s.events[i].Consumed? ensures s.events[i].id != e.id {
      assert s.events[i] in s.events;
      assert ConsumptionOk(s, s.events[i]);
    }
  }

  lemma ConsumeKeepsInv(s: State, p: nat)
    requires Inv(s)
    ensures Inv(Do(s, Consume(p)))
  {
    if PcOf(s, p).AuditLocked? {
      var AuditLocked(id, mission, findings) := PcOf(s, p);
      if s.approvals[id].payload != Payload(mission, FindingsIn(s.world)) {
        ReleaseKeepsInv(s, p);
      } else {
        FindingsAreDistinct(s.world);
        UseKeepsInv(s, p, id, mission, findings);
      }
    }
  }

  /** Only its lock holder waits to consume a record, so using it up leaves every other waiter's record usable. */
  lemma UseKeepsRecords(s: State, p: nat, pc: Pc, t: State)
    requires LocksHeld(s) && RecordsUsable(s) && pc.Effect? && HoldsRecord(PcOf(s, p)) && PcOf(s, p).id == pc.id
    requires pc.id in s.approvals && t.procs == s.procs[p := pc]
    requires t.approvals == s.approvals[pc.id := s.approvals[pc.id].(used := true)]
    ensures RecordsUsable(t)
  {
    forall q: nat {:trigger PcOf(t, q)} ensures PcOf(t, q) == if q == p then pc else PcOf(s, q) {
    }
  }

  /** Using a record for findings it is bound to, at the world they describe. */
  lemma UseKeepsInv(s: State, p: nat, id: string, mission: string, findings: seq<Finding>)
    requires Inv(s) && PcOf(s, p) == AuditLocked(id, mission, findings)
    requires findings == FindingsIn(s.world) && DistinctSlugs(findings)
    ensures Inv(s.(approvals := s.approvals[id := s.approvals[id].(used := true)],
                   procs := s.procs[p := Effect(id, mission, findings, s.world, 0, ToArchive)],
                   events := s.events + [Consumed(id, mission, findings, s.world)]))
  {
    var pc, e := Effect(id, mission, findings, s.world, 0, ToArchive), Consumed(id, mission, findings, s.world);
    var t := s.(approvals := s.approvals[id := s.approvals[id].(used := true)],
                procs := s.procs[p := pc], events := s.events + [e]);
    ConsumedEventOk(s.events, e);
    MoveKeepsLocks(s, p, pc, t);
    UseKeepsRecords(s, p, pc, t);
    UseKeepsConsumptions(s, e, t);
    FreshEffectOk(s, p, pc, t);
  }

  lemma ConsumedEventOk(events: seq<Event>, e: Event)
    requires EventsOk(events) && e.Consumed?
    ensures EventsOk(events + [e])
  {
    assert (events + [e])[|events|] == e;
    assert EventOk(events + [e], |events|);
    AppendedEventOk(events, e);
  }

  lemma FreshEffectOk(s: State, p: nat, pc: Pc, t: State)
    requires LocksHeld(s) && PcOf(s, p).AuditLocked? && t.procs == s.procs[p := pc]
    requires pc.Effect? && pc.start == t.world && pc.next == 0 && pc.stage == ToArchive && DistinctSlugs(pc.findings)
    requires Consumed(pc.id, pc.mission, pc.findings, pc.start) in t.events
    ensures EffectsOk(t)
  {
    forall q: nat {:trigger PcOf(t, q)} | PcOf(t, q).Effect? ensures EffectOk(t, PcOf(t, q)) {
      assert PcOf(t, q) == if q == p then pc else PcOf(s, q);
      assert q == p;
    }
  }

  lemma UseKeepsConsumptions(s: State, e: Event, t: State)
    requires ConsumptionsOk(s) && e.Consumed? && Usable(s.approvals, e.id)
    requires s.approvals[e.id].payload == Payload(e.mission, e.findings) && e.findings == FindingsIn(e.start)
    requires t.approvals == s.approvals[e.id := s.approvals[e.id].(used := true)] && t.events == s.events + [e]
    ensures ConsumptionsOk(t)
  {
    ConsumedOnce(s, e);
    forall x {:trigger ConsumptionOk(t, x)} | x in t.events && x.Consumed? ensures ConsumptionOk(t, x) {
      if x in s.events {
        assert ConsumptionOk(s, x);
      }
    }
  }

  /** Only the process with the audit lock is in its effect. */
  lemma EffectIsAlone(s: State, p: nat, q: nat)
    requires LocksHeld(s) && PcOf(s, p).Effect? && PcOf(s, q).Effect?
    ensures p == q
  {
  }

  /** One step of an effect keeps the invariant if its own part of it holds afterwards. */
  lemma EffectStepKeepsInv(s: State, p: nat, t: State, pc: Pc)
    requires Inv(s) && PcOf(s, p).Effect? && pc.Effect? && pc.id == PcOf(s, p).id
    requires t == s.(world := t.world, procs := s.procs[p := pc], events := t.events)
    requires t.events == s.events || exists e: Event :: !e.Consumed? && t.events == s.events + [e]
    requires EffectOk(t, pc) && EventsOk(t.events)
    ensures Inv(t)
  {
    assert forall q: nat :: PcOf(t, q) == if q == p then pc else PcOf(s, q);
    forall q: nat {:trigger PcOf(t, q)} | PcOf(t, q).Effect? ensures EffectOk(t, PcOf(t, q)) {
      EffectIsAlone(s, p, q);
    }
    forall x {:trigger ConsumptionOk(t, x)} | x in t.events && x.Consumed? ensures ConsumptionOk(t, x) {
      assert x in s.events;
      assert ConsumptionOk(s, x);
    }
  }

  lemma {:induction false} AuthorizedBy(events: seq<Event>, e: Event, c: Event) returns (j: nat)
    requires c in events && c.Consumed? && !e.Consumed? && c.id == e.id
    requires ReportedIn(c.findings, |c.findings|, e.slug)
    ensures j < |events| && events[j] == c && Authorizes(events + [e], j, |events|)
  {
    j :| 0 <= j < |events| && events[j] == c;
  }

  /** Having dealt with one reported mirror, whatever became of it, the effect stands before the next one. */
  lemma DoneWithFinding(s: State, pc: Pc, t: State)
    requires pc.Effect? && EffectOk(s, pc) && pc.next < |pc.findings|
    requires forall slug :: slug != pc.findings[pc.next].slug ==>
      (slug in t.world.mirrors <==> slug in s.world.mirrors)
      && (slug in s.world.mirrors ==> t.world.mirrors[slug] == s.world.mirrors[slug])
    requires forall e :: e in s.events ==> e in t.events
    ensures EffectOk(t, pc.(next := pc.next + 1, stage := ToArchive))
  {
    var after := pc.(next := pc.next + 1, stage := ToArchive);
    forall i | pc.next < i < |pc.findings| ensures Untouched(t, pc.start, pc.findings[i].slug) {
      assert Untouched(s, pc.start, pc.findings[i].slug);
    }
    forall slug | !ReportedIn(pc.findings, |pc.findings|, slug) ensures Untouched(t, pc.start, slug) {
      assert Untouched(s, pc.start, slug);
      assert slug != pc.findings[pc.next].slug;
    }
  }

  lemma ArchiveStepKeepsInv(s: State, p: nat)
    requires Inv(s) && PcOf(s, p).Effect? && PcOf(s, p).stage == ToArchive && PcOf(s, p).next < |PcOf(s, p).findings|
    requires PcOf(s, p).findings[PcOf(s, p).next].slug in s.world.mirrors
    ensures Inv(AdvanceEffect(s, p, PcOf(s, p)))
  {
    var pc, t := PcOf(s, p), AdvanceEffect(s, p, PcOf(s, p));
    assert EffectOk(s, pc);
    var slug := pc.findings[pc.next].slug;
    var e := Archived(pc.id, slug, s.world.mirrors[slug]);
    var j := AuthorizedBy(s.events, e, Consumed(pc.id, pc.mission, pc.findings, pc.start));
    assert t.events[j] == s.events[j];
    assert EventOk(t.events, |s.events|);
    AppendedEventOk(s.events, e);
    assert e in t.events;
    assert EffectOk(t, pc.(stage := ToRemove));
    EffectStepKeepsInv(s, p, t, pc.(stage := ToRemove));
  }

  lemma RemoveStepKeepsInv(s: State, p: nat)
    requires Inv(s) && PcOf(s, p).Effect? && PcOf(s, p).stage == ToRemove && PcOf(s, p).next < |PcOf(s, p).findings|
    ensures Inv(AdvanceEffect(s, p, PcOf(s, p)))
  {
    var pc, t := PcOf(s, p), AdvanceEffect(s, p, PcOf(s, p));
    assert EffectOk(s, pc);
    var f := pc.findings[pc.next];
    var content := s.world.mirrors[f.slug];
    var e := Removed(pc.id, f.slug, content);
    var j := AuthorizedBy(s.events, e, Consumed(pc.id, pc.mission, pc.findings, pc.start));
    var k :| 0 <= k < |s.events| && s.events[k] == Archived(pc.id, f.slug, content);
    assert t.events[j] == s.events[j] && t.events[k] == s.events[k];
    assert EventOk(t.events, |s.events|);
    AppendedEventOk(s.events, e);
    assert e in t.events;
    DoneWithFinding(s, pc, t);
    var after := if f.rebuild then pc.(stage := ToRebuild) else pc.(next := pc.next + 1, stage := ToArchive);
    assert EffectOk(t, after);
    EffectStepKeepsInv(s, p, t, after);
  }

  lemma RestoreKeepsInv(s: State, p: nat, content: Mirror)
    requires Inv(s) && PcOf(s, p).Effect? && PcOf(s, p).next < |PcOf(s, p).findings|
    requires EventsOk(s.events + [Restored(PcOf(s, p).id, PcOf(s, p).findings[PcOf(s, p).next].slug, content)])
    ensures var pc := PcOf(s, p);
      var slug := pc.findings[pc.next].slug;
      Inv(s.(world := s.world.(mirrors := s.world.mirrors[slug := content]),
             procs := s.procs[p := pc.(next := pc.next + 1, stage := ToArchive)],
             events := s.events + [Restored(pc.id, slug, content)]))
  {
    var pc := PcOf(s, p);
    var slug := pc.findings[pc.next].slug;
    var t := s.(world := s.world.(mirrors := s.world.mirrors[slug := content]),
                procs := s.procs[p := pc.(next := pc.next + 1, stage := ToArchive)],
                events := s.events + [Restored(pc.id, slug, content)]);
    DoneWithFinding(s, pc, t);
    EffectStepKeepsInv(s, p, t, pc.(next := pc.next + 1, stage := ToArchive));
  }

  lemma RebuildStepKeepsInv(s: State, p: nat)
    requires Inv(s) && PcOf(s, p).Effect? && PcOf(s, p).stage == ToRebuild && PcOf(s, p).next < |PcOf(s, p).findings|
    ensures Inv(AdvanceEffect(s, p, PcOf(s, p)))
  {
    var pc := PcOf(s, p);
    assert EffectOk(s, pc);
    var slug := pc.findings[pc.next].slug;
    var entries := Expected(pc.start.log, pc.start.markers, slug);
    if !AllDated(entries) {
      ReleaseKeepsInv(s, p);
    } else {
      var m: Mirror :| Removed(pc.id, slug, m) in s.events;
      assert ReportedIn(pc.findings, |pc.findings|, slug);
      RestoredEventOk(s.events, Consumed(pc.id, pc.mission, pc.findings, pc.start), slug, Rebuilt(entries), m);
      RestoreKeepsInv(s, p, Rebuilt(entries));
    }
  }

  lemma RestoredEventOk(events: seq<Event>, c: Event, slug: string, content: Mirror, m: Mirror)
    requires EventsOk(events) && c.Consumed? && c in events && Removed(c.id, slug, m) in events
    requires ReportedIn(c.findings, |c.findings|, slug)
    requires content == Rebuilt(Expected(c.start.log, c.start.markers, slug))
    ensures EventsOk(events + [Restored(c.id, slug, content)])
  {
    var e := Restored(c.id, slug, content);
    var j := AuthorizedBy(events, e, c);
    var k :| 0 <= k < |events| && events[k] == Removed(c.id, slug, m);
    var after := events + [e];
    assert after[j] == events[j] && after[k] == events[k];
    assert EventOk(after, |events|);
    AppendedEventOk(events, e);
  }

  lemma AdvanceKeepsInv(s: State, p: nat)
    requires Inv(s) && PcOf(s, p).Effect?
    ensures Inv(AdvanceEffect(s, p, PcOf(s, p)))
  {
    var pc := PcOf(s, p);
    assert EffectOk(s, pc);
    if pc.next >= |pc.findings| {
      ReleaseKeepsInv(s, p);
    } else {
      match pc.stage {
        case ToArchive =>
          if pc.findings[pc.next].slug in s.world.mirrors {
            ArchiveStepKeepsInv(s, p);
          } else {
            EffectStepKeepsInv(s, p, AdvanceEffect(s, p, pc), pc.(next := pc.next + 1, stage := ToArchive));
          }
        case ToRemove => RemoveStepKeepsInv(s, p);
        case ToRebuild => RebuildStepKeepsInv(s, p);
      }
    }
  }

  lemma EveryActionKeepsInv(s: State, a: Action)
    requires Inv(s)
    ensures Inv(Do(s, a))
  {
    hide EffectsOk, ConsumptionsOk, EventsOk;
    match a {
      case Change(world) =>
        if s.auditLock == None {
          ChangeKeepsInv(s, world);
        }
      case Request(_, _) => StoreKeepsInv(s, Do(s, a).approvals);
      case Decide(_, _) => StoreKeepsInv(s, Do(s, a).approvals);
      case Revoke(_) => StoreKeepsInv(s, Do(s, a).approvals);
      case Check(p, id, mission, findings) =>
        if Do(s, a) != s {
          MoveKeepsInv(s, p, Checked(id, mission, findings), s.recordLocks, s.auditLock);
        }
      case LockRecord(p) =>
        if PcOf(s, p).Checked? && Do(s, a) != s {
          MoveKeepsInv(s, p, Do(s, a).procs[p], Do(s, a).recordLocks, s.auditLock);
        }
      case LockAudit(p) =>
        if PcOf(s, p).RecordLocked? && Do(s, a) != s {
          MoveKeepsInv(s, p, Do(s, a).procs[p], s.recordLocks, Some(p));
        }
      case Consume(p) => ConsumeKeepsInv(s, p);
      case Advance(p) =>
        if PcOf(s, p).Effect? {
          AdvanceKeepsInv(s, p);
        }
      case Crash(p) => ReleaseKeepsInv(s, p);
    }
  }

  // ---- Every run ----

  lemma {:induction false} EveryRunKeepsInv(s: State, actions: seq<Action>)
    requires Initial(s)
    ensures Inv(Run(s, actions))
    decreases |actions|
  {
    if actions != [] {
      EveryRunKeepsInv(s, actions[..|actions| - 1]);
      EveryActionKeepsInv(Run(s, actions[..|actions| - 1]), actions[|actions| - 1]);
    }
  }

  /**
   * In every run, each removed mirror was archived as it was before that, under a consumption of an
   * approved, sound, unrevoked approval bound to exactly the findings recomputed under the audit lock,
   * which report that mirror.
   */
  lemma RemovalsAreApprovedAndArchived(s: State, actions: seq<Action>, i: nat)
    requires Initial(s) && i < |Run(s, actions).events| && Run(s, actions).events[i].Removed?
    ensures var r := Run(s, actions);
      var e := r.events[i];
      && (exists j: nat {:trigger Authorizes(r.events, j, i)} ::
            && Authorizes(r.events, j, i) && ConsumptionOk(r, r.events[j])
            && e.slug in r.events[j].start.mirrors && r.events[j].start.mirrors[e.slug] == e.content)
      && (exists k: nat :: k < i && r.events[k] == Archived(e.id, e.slug, e.content))
  {
    var r := Run(s, actions);
    EveryRunKeepsInv(s, actions);
    assert EventOk(r.events, i);
    var j: nat :| Authorizes(r.events, j, i) && r.events[i].slug in r.events[j].start.mirrors
      && r.events[j].start.mirrors[r.events[i].slug] == r.events[i].content;
    assert r.events[j] in r.events;
    assert ConsumptionOk(r, r.events[j]);
  }

  /** In every run, each restored mirror is rebuilt from what the log gave it under the lock, after its removal. */
  lemma RestorationsAreRebuilds(s: State, actions: seq<Action>, i: nat)
    requires Initial(s) && i < |Run(s, actions).events| && Run(s, actions).events[i].Restored?
    ensures var r := Run(s, actions);
      var e := r.events[i];
      && (exists j: nat {:trigger Authorizes(r.events, j, i)} ::
            && Authorizes(r.events, j, i) && ConsumptionOk(r, r.events[j])
            && e.content == Rebuilt(Expected(r.events[j].start.log, r.events[j].start.markers, e.slug)))
      && (exists k: nat, m: Mirror :: k < i && r.events[k] == Removed(e.id, e.slug, m))
  {
    var r := Run(s, actions);
    EveryRunKeepsInv(s, actions);
    assert EventOk(r.events, i);
    var j: nat :| Authorizes(r.events, j, i)
      && r.events[i].content == Rebuilt(Expected(r.events[j].start.log, r.events[j].start.markers, r.events[i].slug));
    assert r.events[j] in r.events;
    assert ConsumptionOk(r, r.events[j]);
  }

  /** In every run, no approval is consumed twice. */
  lemma NoApprovalBacksTwoApplies(s: State, actions: seq<Action>)
    requires Initial(s)
    ensures OncePerId(Run(s, actions).events)
  {
    EveryRunKeepsInv(s, actions);
  }
}
