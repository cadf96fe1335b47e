/** Finding mirrors that drifted from the master log, and applying the findings. */
module MirrorReconcile {
  import opened Wrappers
  import opened Order
  import opened MirrorReplay
  import opened MirrorFiles

  /** What makes two copies of an entry the same record: its id and its hash. */
  type Copy = (string, string)

  datatype Reason = StaleMirror | MirrorOutOfSync | MirrorUnreadable

  /** The two fingerprints hash these copy lists; the hash is taken to be injective. */
  datatype Finding = Finding(
    slug: string,
    mirrorPrint: seq<Copy>,
    masterPrint: seq<Copy>,
    reason: Reason,
    rebuild: bool,
    unreadable: nat,
    archiveOnlyCount: nat,
    archiveOnlyIds: seq<string>)

  const ARCHIVE_ONLY_ID_LIMIT := 20

  function CopyOf(e: Entry): Copy {
    (e.id, e.hash)
  }

  function Copies(es: seq<Entry>): (r: seq<Copy>)
    ensures |r| == |es| && forall i :: 0 <= i < |es| ==> r[i] == CopyOf(es[i])
  {
    seq(|es|, i requires 0 <= i < |es| => CopyOf(es[i]))
  }

  /** The listed copies the master does not hold, each once, in first-seen order. */
  function ArchiveOnly(copies: seq<Copy>, master: set<Copy>, seen: set<Copy>): seq<Copy> {
    if copies == [] then []
    else if copies[0] in master || copies[0] in seen then ArchiveOnly(copies[1..], master, seen)
    else [copies[0]] + ArchiveOnly(copies[1..], master, seen + {copies[0]})
  }

  /** The ids named in a finding: the first twenty archive-only ones. */
  function NamedIds(copies: seq<Copy>): seq<string> {
    var n := if |copies| < ARCHIVE_ONLY_ID_LIMIT then |copies| else ARCHIVE_ONLY_ID_LIMIT;
    seq(n, i requires 0 <= i < n => copies[i].0)
  }

  /** One mirror against the master entries it should hold. */
  function FindingFor(slug: string, m: Mirror, master: seq<Entry>, masterCopies: set<Copy>): Option<Finding> {
    var (entries, unreadable) := Load(m);
    if unreadable == 0 && Copies(entries) == Copies(master) then None else
      var rebuild := |master| > 0;
      var extra := if rebuild then ArchiveOnly(Copies(entries), masterCopies, {}) else [];
      var reason := if |master| == 0 then StaleMirror else if unreadable > 0 then MirrorUnreadable else MirrorOutOfSync;
      Some(Finding(slug, Copies(entries), Copies(master), reason, rebuild, unreadable, |extra|, NamedIds(extra)))
  }

  /** Archive-only copies are exactly the mirror's copies that no readable master entry matches. */
  lemma {:induction false} ArchiveOnlyMembers(copies: seq<Copy>, master: set<Copy>, seen: set<Copy>)
    ensures forall c :: c in ArchiveOnly(copies, master, seen) <==> c in copies && c !in master && c !in seen
    ensures forall i, j :: 0 <= i < j < |ArchiveOnly(copies, master, seen)| ==>
      ArchiveOnly(copies, master, seen)[i] != ArchiveOnly(copies, master, seen)[j]
  {
    if copies != [] {
      var grown := if copies[0] in master then seen else seen + {copies[0]};
      ArchiveOnlyMembers(copies[1..], master, seen);
      ArchiveOnlyMembers(copies[1..], master, grown);
      assert copies == [copies[0]] + copies[1..];
      assert ArchiveOnly(copies, master, seen) ==
        if copies[0] in master || copies[0] in seen then ArchiveOnly(copies[1..], master, seen)
        else [copies[0]] + ArchiveOnly(copies[1..], master, grown);
    }
  }

  // ---- Collecting ----

  type Mirrors = map<string, Mirror>

  function MasterCopies(es: seq<Entry>): set<Copy> {
    set i | 0 <= i < |es| :: CopyOf(es[i])
  }

  /** The finding of each mirror that differs from the entries the log gives it. */
  ghost function Reports(es: seq<Entry>, markers: Markers, mirrors: Mirrors): map<string, Finding> {
    map s | s in mirrors && FindingFor(s, mirrors[s], Expected(es, markers, s), MasterCopies(es)).Some? ::
      FindingFor(s, mirrors[s], Expected(es, markers, s), MasterCopies(es)).value
  }

  /** The reports of the first `n` listed mirrors, in that order. */
  function Listed(reports: map<string, Finding>, slugs: seq<string>, n: nat): seq<Finding>
    requires n <= |slugs|
  {
    if n == 0 then []
    else if slugs[n - 1] in reports then Listed(reports, slugs, n - 1) + [reports[slugs[n - 1]]]
    else Listed(reports, slugs, n - 1)
  }

  ghost function Collect(es: seq<Entry>, markers: Markers, mirrors: Mirrors): seq<Finding> {
    var slugs := Sorted(mirrors.Keys);
    Listed(Reports(es, markers, mirrors), slugs, |slugs|)
  }

  lemma SortedIn(s: set<string>)
    ensures forall i :: 0 <= i < |Sorted(s)| ==> Sorted(s)[i] in s
  {
    forall i | 0 <= i < |Sorted(s)| ensures Sorted(s)[i] in s {
      assert Sorted(s)[i] in Sorted(s);
    }
  }

  method CollectFindings(es: seq<Entry>, profiles: seq<Option<Profile>>, mirrors: Mirrors)
    returns (findings: seq<Finding>, byTenant: map<string, seq<Entry>>, markers: Markers)
    ensures AreBacked(profiles, markers)
    ensures findings == Collect(es, markers, mirrors)
    ensures Agrees(byTenant, es, markers)
  {
    byTenant, markers := MasterEntriesByTenant(es, profiles);
    findings := CompareMirrors(es, markers, mirrors, byTenant);
  }

  /** The loop over the mirror directories. */
  method CompareMirrors(es: seq<Entry>, ghost markers: Markers, mirrors: Mirrors, byTenant: map<string, seq<Entry>>)
    returns (findings: seq<Finding>)
    requires Agrees(byTenant, es, markers)
    ensures findings == Collect(es, markers, mirrors)
  {
    findings := [];
    var slugs := Sorted(mirrors.Keys);
    SortedIn(mirrors.Keys);
    for i := 0 to |slugs|
      invariant findings == Listed(Reports(es, markers, mirrors), slugs, i)
    {
      var s := slugs[i];
      var found := FindingFor(s, mirrors[s], MasterOf(byTenant, s), MasterCopies(es));
      ReportOf(es, markers, mirrors, byTenant, s);
      if found.Some? {
        findings := findings + [found.value];
      }
    }
  }

  lemma ReportOf(es: seq<Entry>, markers: Markers, mirrors: Mirrors, byTenant: map<string, seq<Entry>>, s: string)
    requires Agrees(byTenant, es, markers) && s in mirrors
    ensures var found := FindingFor(s, mirrors[s], MasterOf(byTenant, s), MasterCopies(es));
      && (s in Reports(es, markers, mirrors) <==> found.Some?)
      && (found.Some? ==> Reports(es, markers, mirrors)[s] == found.value)
  {
  }

  /** The grouped master entries are the expected ones. */
  ghost predicate Agrees(byTenant: map<string, seq<Entry>>, es: seq<Entry>, markers: Markers) {
    forall s :: MasterOf(byTenant, s) == Expected(es, markers, s)
  }

  function MasterOf(byTenant: map<string, seq<Entry>>, s: string): seq<Entry> {
    if s in byTenant then byTenant[s] else []
  }

  ghost predicate DistinctSlugs(findings: seq<Finding>) {
    forall i, j :: 0 <= i < j < |findings| ==> findings[i].slug != findings[j].slug
  }

  ghost predicate ReportedIn(findings: seq<Finding>, n: nat, s: string)
    requires n <= |findings|
  {
    exists i :: 0 <= i < n && findings[i].slug == s
  }

  /** `findings` holds each report once. */
  ghost predicate HoldsReports(findings: seq<Finding>, reports: map<string, Finding>) {
    && DistinctSlugs(findings)
    && (forall i :: 0 <= i < |findings| ==> findings[i].slug in reports && findings[i] == reports[findings[i].slug])
    && (forall s :: s in reports ==> ReportedIn(findings, |findings|, s))
  }

  lemma {:induction false} ListedReports(reports: map<string, Finding>, slugs: seq<string>, n: nat)
    requires n <= |slugs| && Ascending(slugs) && forall s :: s in reports ==> reports[s].slug == s
    ensures var found := Listed(reports, slugs, n);
      && (forall k :: 0 <= k < |found| ==> found[k].slug in slugs[..n] && found[k].slug in reports)
      && (forall k :: 0 <= k < |found| ==> found[k] == reports[found[k].slug])
      && (forall i :: 0 <= i < n && slugs[i] in reports ==> ReportedIn(found, |found|, slugs[i]))
      && DistinctSlugs(found)
  {
    if n > 0 {
      ListedReports(reports, slugs, n - 1);
      var before, s := Listed(reports, slugs, n - 1), slugs[n - 1];
      BeforeIrreflexive(s);
      assert slugs[..n] == slugs[..n - 1] + [s];
      if s in reports {
        var found := before + [reports[s]];
        assert found[|before|].slug == s;
        forall t | ReportedIn(before, |before|, t) ensures ReportedIn(found, |found|, t) {
          var k :| 0 <= k < |before| && before[k].slug == t;
          assert found[k].slug == t;
        }
      }
    }
  }

  /** Collecting reports each mirror that differs, once. */
  lemma CollectHoldsReports(es: seq<Entry>, markers: Markers, mirrors: Mirrors)
    ensures HoldsReports(Collect(es, markers, mirrors), Reports(es, markers, mirrors))
  {
    var slugs, reports := Sorted(mirrors.Keys), Reports(es, markers, mirrors);
    SortedIn(mirrors.Keys);
    ListedReports(reports, slugs, |slugs|);
    forall s | s in reports
      ensures ReportedIn(Collect(es, markers, mirrors), |Collect(es, markers, mirrors)|, s)
    {
      assert s in slugs;
      var i :| 0 <= i < |slugs| && slugs[i] == s;
    }
  }

  /** Nothing is collected exactly when no mirror differs from its master entries. */
  lemma NothingFoundIffInSync(es: seq<Entry>, markers: Markers, mirrors: Mirrors)
    ensures Collect(es, markers, mirrors) == [] <==> forall s :: s !in Reports(es, markers, mirrors)
  {
    CollectHoldsReports(es, markers, mirrors);
    if Collect(es, markers, mirrors) != [] {
      assert Collect(es, markers, mirrors)[0].slug in Reports(es, markers, mirrors);
    }
  }

  // ---- Applying ----

  /** Clear a mirror and, if the finding says so, rebuild it. A mirror that is gone is left alone. */
  function ApplyOne(mirrors: Mirrors, f: Finding, byTenant: map<string, seq<Entry>>): Mirrors {
    if f.slug !in mirrors then mirrors
    else if f.rebuild then mirrors[f.slug := Rebuilt(MasterOf(byTenant, f.slug))]
    else mirrors - {f.slug}
  }

  /** The mirrors after the first `n` findings are applied. */
  function Applied(mirrors: Mirrors, findings: seq<Finding>, n: nat, byTenant: map<string, seq<Entry>>): Mirrors
    requires n <= |findings|
  {
    if n == 0 then mirrors else ApplyOne(Applied(mirrors, findings, n - 1, byTenant), findings[n - 1], byTenant)
  }

  /** Each reported mirror is replaced once, and no other mirror changes. */
  lemma {:induction false} AppliedAt(mirrors: Mirrors, findings: seq<Finding>, n: nat,
                                     byTenant: map<string, seq<Entry>>, s: string)
    requires DistinctSlugs(findings) && n <= |findings|
    ensures var after := Applied(mirrors, findings, n, byTenant);
      && (!ReportedIn(findings, n, s) ==> (s in after <==> s in mirrors) && (s in mirrors ==> after[s] == mirrors[s]))
      && (forall i :: 0 <= i < n && findings[i].slug == s ==>
            (s in after <==> s in mirrors && findings[i].rebuild)
            && (s in after ==> after[s] == Rebuilt(MasterOf(byTenant, s))))
  {
    if n > 0 {
      AppliedAt(mirrors, findings, n - 1, byTenant, s);
      if findings[n - 1].slug == s {
        assert !ReportedIn(findings, n - 1, s);
      }
    }
  }

  /** Whatever an apply took away or replaced is in its archive as it was. */
  ghost predicate Recoverable(before: Mirrors, now: Mirrors, archive: Mirrors) {
    && (forall s :: s in archive ==> s in before && archive[s] == before[s])
    && (forall s :: s in before && s !in archive ==> s in now && now[s] == before[s])
    && (forall s :: s in now ==> s in before)
  }

  lemma ReplaceIsUpdate(mirrors: Mirrors, s: string, m: Mirror)
    ensures (mirrors - {s})[s := m] == mirrors[s := m]
  {
  }

  predicate Rebuildable(f: Finding, byTenant: map<string, seq<Entry>>) {
    f.rebuild ==> AllDated(MasterOf(byTenant, f.slug))
  }

  /** The mirrors on disk and the archive directory of one apply. */
  class MirrorStore {
    var mirrors: Mirrors
    var archive: Mirrors

    constructor (mirrors: Mirrors)
      ensures this.mirrors == mirrors && archive == map[]
    {
      this.mirrors, this.archive := mirrors, map[];
    }

    /** Copy one reported mirror into the archive, clear it, and rebuild it if the finding says so. */
    method ApplyFinding(f: Finding, byTenant: map<string, seq<Entry>>) returns (r: Result<(), string>)
      modifies this
      ensures f.slug !in old(mirrors) ==> r.Ok? && mirrors == old(mirrors) && archive == old(archive)
      ensures f.slug in old(mirrors) ==> archive == old(archive)[f.slug := old(mirrors)[f.slug]]
      ensures f.slug in old(mirrors) ==> (r.Ok? <==> Rebuildable(f, byTenant))
      ensures mirrors == if r.Ok? then ApplyOne(old(mirrors), f, byTenant) else old(mirrors) - {f.slug}
    {
      r := Ok(());
      if f.slug in mirrors {
        archive := archive[f.slug := mirrors[f.slug]];
        ghost var before := mirrors;
        mirrors := mirrors - {f.slug};
        if f.rebuild {
          var rebuilt := RebuildMirror(MasterOf(byTenant, f.slug));
          match rebuilt {
            case Err(e) => r := Err(e);
            case Ok(m) =>
              ReplaceIsUpdate(before, f.slug, m);
              mirrors := mirrors[f.slug := m];
          }
        }
      }
    }

    /**
     * The loop of the apply. It stops at the first mirror it cannot rebuild, which is gone by then; the mirrors
     * before it are done and those after it untouched.
     */
    method ApplyFindings(findings: seq<Finding>, byTenant: map<string, seq<Entry>>) returns (r: Result<(), string>)
      requires archive == map[] && DistinctSlugs(findings)
      modifies this
      ensures var stop := StopsAt(old(mirrors), findings, 0, byTenant);
        && (r.Ok? <==> stop == |findings|)
        && mirrors == if r.Ok? then Applied(old(mirrors), findings, stop, byTenant)
          else Applied(old(mirrors), findings, stop, byTenant) - {findings[stop].slug}
      ensures Recoverable(old(mirrors), mirrors, archive)
    {
      hide ApplyOne, Recoverable, Rebuildable;
      r := Ok(());
      NothingTaken(mirrors);
      for i := 0 to |findings|
        invariant r.Ok? && mirrors == Applied(old(mirrors), findings, i, byTenant)
        invariant StopsAt(old(mirrors), findings, 0, byTenant) == StopsAt(old(mirrors), findings, i, byTenant)
        invariant Recoverable(old(mirrors), mirrors, archive)
      {
        ghost var archiveBefore, mirrorsBefore := archive, mirrors;
        UntouchedSoFar(old(mirrors), findings, i, byTenant);
        r := ApplyFinding(findings[i], byTenant);
        ApplyOneElsewhere(mirrorsBefore, findings[i], byTenant);
        StillRecoverable(old(mirrors), mirrorsBefore, archiveBefore, findings[i].slug, mirrors, archive);
        if r.Err? {
          return;
        }
      }
    }

    /**
     * What an approved apply does under the audit lock: collect, then apply what was found. It runs to the end
     * exactly when the mirrors to rebuild have dated entries only; then collecting again finds nothing exactly when
     * their dates never go backwards.
     */
    method ApplyReconciliation(es: seq<Entry>, profiles: seq<Option<Profile>>)
      returns (r: Result<(), string>, markers: Markers)
      requires archive == map[]
      modifies this
      ensures AreBacked(profiles, markers)
      ensures r.Ok? <==> RebuiltAreDated(es, markers, old(mirrors))
      ensures AllDated(es) ==> r.Ok?
      ensures r.Ok? ==>
        && (RebuiltInOrder(es, markers, old(mirrors)) ==> Collect(es, markers, mirrors) == [])
        && (CopiesIdentify(es) ==>
          (Collect(es, markers, mirrors) == [] <==> RebuiltInOrder(es, markers, old(mirrors))))
      ensures r.Ok? && NonDecreasing(es) ==> Collect(es, markers, mirrors) == []
      ensures r.Err? ==> exists s ::
        s in Reports(es, markers, old(mirrors)) && s !in mirrors && s !in Reports(es, markers, mirrors)
      ensures Recoverable(old(mirrors), mirrors, archive)
    {
      hide Collect, NonDecreasing, CopiesIdentify, Recoverable, AllDated, Agrees, RebuiltInOrder,
        RebuiltAreDated, Reports;
      var findings, byTenant;
      findings, byTenant, markers := CollectFindings(es, profiles, mirrors);
      ghost var before := mirrors;
      CollectHoldsReports(es, markers, mirrors);
      r := ApplyFindings(findings, byTenant);
      AppliesIffRebuiltAreDated(es, markers, before, byTenant);
      if AllDated(es) {
        DatedLogApplies(es, markers, before, byTenant);
      }
      if r.Err? {
        StoppedMirrorDropsOut(es, markers, before, byTenant, StopsAt(before, findings, 0, byTenant));
      } else {
        ConvergesIffRebuiltInOrder(es, markers, before, byTenant);
        if NonDecreasing(es) {
          OrderedLogConverges(es, markers, before, byTenant);
        }
      }
    }
  }

  /** The first finding from `i` on whose mirror is there and cannot be rebuilt, or the number of findings. */
  function StopsAt(mirrors: Mirrors, findings: seq<Finding>, i: nat, byTenant: map<string, seq<Entry>>): (stop: nat)
    requires i <= |findings|
    ensures i <= stop <= |findings|
    ensures forall k :: i <= k < stop && findings[k].slug in mirrors ==> Rebuildable(findings[k], byTenant)
    ensures stop < |findings| ==> findings[stop].slug in mirrors && !Rebuildable(findings[stop], byTenant)
    decreases |findings| - i
  {
    if i == |findings| || (findings[i].slug in mirrors && !Rebuildable(findings[i], byTenant)) then i
    else StopsAt(mirrors, findings, i + 1, byTenant)
  }

  lemma NothingTaken(mirrors: Mirrors)
    ensures Recoverable(mirrors, mirrors, map[])
  {
  }

  lemma ApplyOneElsewhere(mirrors: Mirrors, f: Finding, byTenant: map<string, seq<Entry>>)
    ensures forall t :: t != f.slug ==>
      (t in ApplyOne(mirrors, f, byTenant) <==> t in mirrors) &&
      (t in mirrors ==> ApplyOne(mirrors, f, byTenant)[t] == mirrors[t])
    ensures f.slug !in mirrors ==> ApplyOne(mirrors, f, byTenant) == mirrors
  {
  }

  lemma UntouchedSoFar(mirrors: Mirrors, findings: seq<Finding>, i: nat, byTenant: map<string, seq<Entry>>)
    requires DistinctSlugs(findings) && i < |findings|
    ensures var before, s := Applied(mirrors, findings, i, byTenant), findings[i].slug;
      (s in before <==> s in mirrors) && (s in before ==> before[s] == mirrors[s])
  {
    AppliedAt(mirrors, findings, i, byTenant, findings[i].slug);
    assert !ReportedIn(findings, i, findings[i].slug);
  }

  lemma StillRecoverable(start: Mirrors, mid: Mirrors, archive0: Mirrors, s: string, now: Mirrors, archive: Mirrors)
    requires Recoverable(start, mid, archive0)
    requires s in mid ==> s in start && mid[s] == start[s] && archive == archive0[s := mid[s]]
    requires s !in mid ==> now == mid && archive == archive0
    requires forall t :: t != s ==> (t in now <==> t in mid) && (t in mid ==> now[t] == mid[t])
    ensures Recoverable(start, now, archive)
  {
  }

  // ---- Convergence ----

  ghost function AfterApply(es: seq<Entry>, markers: Markers, mirrors: Mirrors,
                            byTenant: map<string, seq<Entry>>): Mirrors {
    var found := Collect(es, markers, mirrors);
    Applied(mirrors, found, |found|, byTenant)
  }

  /** `s` was reported and rebuilt. */
  ghost predicate WasRebuilt(reports: map<string, Finding>, s: string) {
    s in reports && reports[s].rebuild
  }

  /** Where a mirror stands after all its reports are applied. */
  lemma AppliedReports(mirrors: Mirrors, found: seq<Finding>, reports: map<string, Finding>,
                       byTenant: map<string, seq<Entry>>, s: string)
    requires HoldsReports(found, reports) && reports.Keys <= mirrors.Keys
    ensures var after := Applied(mirrors, found, |found|, byTenant);
      && (s in after <==> s in mirrors && (s !in reports || WasRebuilt(reports, s)))
      && (s in after ==> after[s] == if s in reports then Rebuilt(MasterOf(byTenant, s)) else mirrors[s])
  {
    AppliedAt(mirrors, found, |found|, byTenant, s);
    if s in reports {
      var i :| 0 <= i < |found| && found[i].slug == s;
    } else {
      assert !ReportedIn(found, |found|, s);
    }
  }

  /** Records with one id and hash are one record: the hash covers the whole entry. */
  ghost predicate CopiesIdentify(es: seq<Entry>) {
    forall i, j :: 0 <= i < |es| && 0 <= j < |es| && CopyOf(es[i]) == CopyOf(es[j]) ==> es[i] == es[j]
  }

  /** Where the hash tells entries apart, comparing ids and hashes is as good as comparing entries. */
  lemma SameCopiesIffOrdered(es: seq<Entry>)
    ensures NonDecreasing(es) ==> Copies(ReadBack(es)) == Copies(es)
    ensures CopiesIdentify(es) ==> (Copies(ReadBack(es)) == Copies(es) <==> NonDecreasing(es))
  {
    hide NonDecreasing, OnDate, ReadBack;
    ReadsBackIffOrdered(es);
    ReadBackIsStableSort(es);
    var back := ReadBack(es);
    if CopiesIdentify(es) && Copies(back) == Copies(es) {
      SameCopiesSameEntries(es, back);
    }
  }

  lemma SameCopiesSameEntries(es: seq<Entry>, back: seq<Entry>)
    requires CopiesIdentify(es) && Copies(back) == Copies(es) && forall e :: e in back ==> e in es
    ensures back == es
  {
    assert |back| == |Copies(back)| == |es|;
    forall i | 0 <= i < |es| ensures back[i] == es[i] {
      assert back[i] in back;
      var j :| 0 <= j < |es| && es[j] == back[i];
      assert Copies(back)[i] == Copies(es)[i];
    }
  }

  lemma RebuiltIsInSyncIffOrdered(s: string, es: seq<Entry>, copies: set<Copy>)
    ensures NonDecreasing(es) ==> FindingFor(s, Rebuilt(es), es, copies) == None
    ensures CopiesIdentify(es) ==> (FindingFor(s, Rebuilt(es), es, copies) == None <==> NonDecreasing(es))
  {
    hide NonDecreasing, ReadBack, Rebuilt, Load, CopiesIdentify;
    LoadOfRebuilt(es);
    SameCopiesIffOrdered(es);
  }

  lemma {:induction false} AtIndex(es: seq<Entry>, list: seq<nat>, k: nat)
    requires (forall i :: 0 <= i < |list| ==> list[i] < |es|) && k < |list|
    ensures At(es, list)[k] == es[list[k]]
  {
    if k < |list| - 1 {
      AtIndex(es, list[..|list| - 1], k);
    }
  }

  /** An expected mirror is a part of the log, in log order. */
  lemma ExpectedIsPart(es: seq<Entry>, markers: Markers, s: string)
    ensures var list, part := Owned(es, markers, s, |es|), Expected(es, markers, s);
      && Increasing(list) && |part| == |list|
      && forall k :: 0 <= k < |list| ==> list[k] < |es| && part[k] == es[list[k]]
  {
    var list := Owned(es, markers, s, |es|);
    OwnedAreOwned(es, markers, s, |es|);
    assert forall k :: 0 <= k < |list| ==> Has(list, list[k]);
    forall k | 0 <= k < |list| ensures At(es, list)[k] == es[list[k]] {
      AtIndex(es, list, k);
    }
  }

  /** So it inherits the log's order, dates and distinct records. */
  lemma ExpectedInherits(es: seq<Entry>, markers: Markers, s: string)
    ensures NonDecreasing(es) ==> NonDecreasing(Expected(es, markers, s))
    ensures CopiesIdentify(es) ==> CopiesIdentify(Expected(es, markers, s))
    ensures AllDated(es) ==> AllDated(Expected(es, markers, s))
  {
    ExpectedIsPart(es, markers, s);
  }

  /**
   * A mirror is reported again after the apply only when it was rebuilt from entries whose dates go backwards, and
   * always then if the hash tells entries apart.
   */
  lemma ReportedAgainIffOutOfOrder(es: seq<Entry>, markers: Markers, mirrors: Mirrors,
                                   byTenant: map<string, seq<Entry>>, s: string)
    requires Agrees(byTenant, es, markers)
    ensures var again := s in Reports(es, markers, AfterApply(es, markers, mirrors, byTenant));
      var wasOutOfOrder := WasRebuilt(Reports(es, markers, mirrors), s) && !NonDecreasing(Expected(es, markers, s));
      (again ==> wasOutOfOrder) && (CopiesIdentify(es) ==> (again <==> wasOutOfOrder))
  {
    hide NonDecreasing, CopiesIdentify, Expected, Rebuilt;
    var reports, after := Reports(es, markers, mirrors), AfterApply(es, markers, mirrors, byTenant);
    CollectHoldsReports(es, markers, mirrors);
    AppliedReports(mirrors, Collect(es, markers, mirrors), reports, byTenant, s);
    ExpectedInherits(es, markers, s);
    RebuiltIsInSyncIffOrdered(s, Expected(es, markers, s), MasterCopies(es));
  }

  /** The dates of every rebuilt mirror's entries never go backwards. */
  ghost predicate RebuiltInOrder(es: seq<Entry>, markers: Markers, mirrors: Mirrors) {
    forall s :: WasRebuilt(Reports(es, markers, mirrors), s) ==> NonDecreasing(Expected(es, markers, s))
  }

  /** After an apply that ran to the end, collecting again finds nothing exactly when mirrors are rebuilt in order. */
  lemma ConvergesIffRebuiltInOrder(es: seq<Entry>, markers: Markers, mirrors: Mirrors,
                                   byTenant: map<string, seq<Entry>>)
    requires Agrees(byTenant, es, markers)
    ensures var found := Collect(es, markers, AfterApply(es, markers, mirrors, byTenant));
      && (RebuiltInOrder(es, markers, mirrors) ==> found == [])
      && (CopiesIdentify(es) ==> (found == [] <==> RebuiltInOrder(es, markers, mirrors)))
  {
    hide NonDecreasing, CopiesIdentify, Expected, Reports, AfterApply, Agrees;
    var after := AfterApply(es, markers, mirrors, byTenant);
    NothingFoundIffInSync(es, markers, after);
    forall s
      ensures s in Reports(es, markers, after) ==>
        WasRebuilt(Reports(es, markers, mirrors), s) && !NonDecreasing(Expected(es, markers, s))
      ensures CopiesIdentify(es) ==> (s in Reports(es, markers, after) <==>
        WasRebuilt(Reports(es, markers, mirrors), s) && !NonDecreasing(Expected(es, markers, s)))
    {
      ReportedAgainIffOutOfOrder(es, markers, mirrors, byTenant, s);
    }
  }

  /** So an apply converges whenever the dates of the master log never go backwards. */
  lemma OrderedLogConverges(es: seq<Entry>, markers: Markers, mirrors: Mirrors, byTenant: map<string, seq<Entry>>)
    requires NonDecreasing(es) && Agrees(byTenant, es, markers)
    ensures Collect(es, markers, AfterApply(es, markers, mirrors, byTenant)) == []
  {
    hide NonDecreasing, CopiesIdentify, Expected, AfterApply, Agrees;
    ConvergesIffRebuiltInOrder(es, markers, mirrors, byTenant);
    forall s ensures NonDecreasing(Expected(es, markers, s)) {
      ExpectedInherits(es, markers, s);
    }
  }

  /** Every mirror to rebuild has dated entries only. */
  ghost predicate RebuiltAreDated(es: seq<Entry>, markers: Markers, mirrors: Mirrors) {
    forall s :: WasRebuilt(Reports(es, markers, mirrors), s) ==> AllDated(Expected(es, markers, s))
  }

  /** An apply of what was collected runs to the end exactly when every mirror to rebuild has dated entries only. */
  lemma AppliesIffRebuiltAreDated(es: seq<Entry>, markers: Markers, mirrors: Mirrors, byTenant: map<string, seq<Entry>>)
    requires Agrees(byTenant, es, markers)
    ensures var found := Collect(es, markers, mirrors);
      StopsAt(mirrors, found, 0, byTenant) == |found| <==> RebuiltAreDated(es, markers, mirrors)
  {
    hide Collect, Expected, AllDated, FindingFor;
    var found := Collect(es, markers, mirrors);
    CollectHoldsReports(es, markers, mirrors);
    if StopsAt(mirrors, found, 0, byTenant) == |found| {
      forall s | WasRebuilt(Reports(es, markers, mirrors), s) ensures AllDated(Expected(es, markers, s)) {
        var i :| 0 <= i < |found| && found[i].slug == s;
        assert Rebuildable(found[i], byTenant);
      }
    }
  }

  /** So on a dated log it always does. */
  lemma DatedLogApplies(es: seq<Entry>, markers: Markers, mirrors: Mirrors, byTenant: map<string, seq<Entry>>)
    requires AllDated(es) && Agrees(byTenant, es, markers)
    ensures var found := Collect(es, markers, mirrors); StopsAt(mirrors, found, 0, byTenant) == |found|
  {
    hide Collect, Expected, AllDated, Agrees;
    AppliesIffRebuiltAreDated(es, markers, mirrors, byTenant);
    forall s ensures AllDated(Expected(es, markers, s)) {
      ExpectedInherits(es, markers, s);
    }
  }

  /** What an apply that stopped left: everything done before the mirror it could not rebuild, and that one gone. */
  ghost function AfterStop(es: seq<Entry>, markers: Markers, mirrors: Mirrors,
                           byTenant: map<string, seq<Entry>>): Mirrors {
    var found := Collect(es, markers, mirrors);
    var stop := StopsAt(mirrors, found, 0, byTenant);
    if stop == |found| then AfterApply(es, markers, mirrors, byTenant)
    else Applied(mirrors, found, stop, byTenant) - {found[stop].slug}
  }

  /**
   * After an apply that stopped, the mirror it stopped at is not reported any more: it is gone, and what is gone is
   * not looked at. The mirrors that were to come are reported as before.
   */
  lemma StoppedMirrorDropsOut(es: seq<Entry>, markers: Markers, mirrors: Mirrors,
                              byTenant: map<string, seq<Entry>>, k: nat)
    requires var found := Collect(es, markers, mirrors); StopsAt(mirrors, found, 0, byTenant) <= k < |found|
    ensures var found, after := Collect(es, markers, mirrors), AfterStop(es, markers, mirrors, byTenant);
      var s := found[k].slug;
      if k == StopsAt(mirrors, found, 0, byTenant) then s in mirrors && s !in after && s !in Reports(es, markers, after)
      else s in Reports(es, markers, after) && Reports(es, markers, after)[s] == found[k]
  {
    hide Expected, FindingFor, ApplyOne, Collect;
    var found := Collect(es, markers, mirrors);
    var stop, s := StopsAt(mirrors, found, 0, byTenant), found[k].slug;
    CollectHoldsReports(es, markers, mirrors);
    if k > stop {
      assert !ReportedIn(found, stop, s);
      AppliedAt(mirrors, found, stop, byTenant, s);
      assert found[stop].slug != s;
    }
  }

  // A log whose one entry has no date.

  const UNDATED := Entry("e1", "h1", "acme", None, "yesterday")

  const EMPTY_MIRROR: Mirrors := map["acme" := map[]]

  /** A log of one entry gives its tenant's mirror just that entry. */
  lemma OneEntryIsExpected(e: Entry, markers: Markers)
    requires e.tenant != ""
    ensures Expected([e], markers, e.tenant) == [e]
  {
    hide Trusted;
    var es := [e];
    assert Carry(es, markers, Some(e.tenant), 1, 1) == Some(e.tenant);
    assert Owner(es, markers, 0, 1) == Some(e.tenant);
    assert Owned(es, markers, e.tenant, 0) == [];
    assert Owned(es, markers, e.tenant, 1) == [0];
    ExpectedIsPart(es, markers, e.tenant);
  }

  lemma UndatedHasNoDate()
    ensures !AllDated([UNDATED])
  {
    hide Digit;
    assert |UNDATED.timestamp| == 9;
    assert [UNDATED][0] == UNDATED;
  }

  lemma UndatedIsExpected()
    ensures Expected([UNDATED], map[], "acme") == [UNDATED] && !AllDated([UNDATED])
  {
    hide Expected, AllDated;
    assert UNDATED.tenant == "acme" && |"acme"| == 4;
    OneEntryIsExpected(UNDATED, map[]);
    UndatedHasNoDate();
  }

  lemma EmptyMirrorIsReported()
    ensures WasRebuilt(Reports([UNDATED], map[], EMPTY_MIRROR), "acme")
  {
    hide Expected, MasterCopies, NamedIds, ArchiveOnly;
    UndatedIsExpected();
    assert FileDates(map[]) == {};
    assert Load(map[]) == ([], 0);
    assert |Copies([UNDATED])| == 1 && |Copies([])| == 0;
  }

  /** The mirror of such a log is reported and to be rebuilt; the apply takes it away and stops. */
  lemma UndatedMirrorIsLost(byTenant: map<string, seq<Entry>>)
    requires Agrees(byTenant, [UNDATED], map[])
    ensures WasRebuilt(Reports([UNDATED], map[], EMPTY_MIRROR), "acme")
    ensures "acme" in EMPTY_MIRROR && "acme" !in AfterStop([UNDATED], map[], EMPTY_MIRROR, byTenant)
  {
    hide Expected, AllDated, Collect, FindingFor, Agrees;
    var found := Collect([UNDATED], map[], EMPTY_MIRROR);
    var stop := StopsAt(EMPTY_MIRROR, found, 0, byTenant);
    EmptyMirrorIsReported();
    UndatedIsExpected();
    AppliesIffRebuiltAreDated([UNDATED], map[], EMPTY_MIRROR, byTenant);
    assert stop < |found|;
    CollectHoldsReports([UNDATED], map[], EMPTY_MIRROR);
    StoppedMirrorDropsOut([UNDATED], map[], EMPTY_MIRROR, byTenant, stop);
    assert found[stop].slug == "acme";
  }

  /** A mirror rebuilt from two records the later of which is dated earlier is reported again at once. */
  lemma BackwardsPairIsReportedAgain(slug: string, late: Entry, early: Entry, copies: set<Copy>)
    requires Before(DateOf(early), DateOf(late)) && CopyOf(late) != CopyOf(early)
    ensures FindingFor(slug, Rebuilt([late, early]), [late, early], copies).Some?
  {
    var es := [late, early];
    assert DateOf(es[1]) == DateOf(early) && DateOf(es[0]) == DateOf(late);
    assert !NonDecreasing(es);
    assert CopiesIdentify(es);
    RebuiltIsInSyncIffOrdered(slug, es, copies);
  }

  /** Such dates exist. */
  lemma DatesCanGoBackwards()
    ensures ValidDate("2026-01-01") && ValidDate("2026-02-02") && Before("2026-01-01", "2026-02-02")
  {
    hide ValidDate, Before;
    TwoDates();
    LaterDate();
  }

  lemma TwoDates()
    ensures ValidDate("2026-01-01") && ValidDate("2026-02-02")
  {
  }

  lemma LaterDate()
    ensures Before("2026-01-01", "2026-02-02")
  {
    BeforeAfterCommonPrefix("2026-0", "1-01", "2-02");
    assert "2026-01-01" == "2026-0" + "1-01" && "2026-02-02" == "2026-0" + "2-02";
  }

  lemma {:induction false} BeforeAfterCommonPrefix(p: string, a: string, b: string)
    requires Before(a, b)
    ensures Before(p + a, p + b)
  {
    if p == [] {
      assert p + a == a && p + b == b;
    } else {
      BeforeAfterCommonPrefix(p[1..], a, b);
      assert (p + a)[1..] == p[1..] + a && (p + b)[1..] == p[1..] + b;
    }
  }
}
