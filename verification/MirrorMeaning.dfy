/** What a finding says, spelled out over the entries a mirror is read to and those the log gives it. */
module MirrorMeaning {
  import opened Wrappers
  import opened Order
  import opened MirrorReplay
  import opened MirrorFiles
  import opened MirrorReconcile

  /** The readable entries of a mirror. */
  function EntriesOf(m: Mirror): seq<Entry> {
    Load(m).0
  }

  function UnreadableIn(m: Mirror): nat {
    Load(m).1
  }

  // ---- How a mirror is read ----

  /** The files of the dates before `d`. */
  function FilesBefore(m: Mirror, d: string): Mirror {
    map f | f in m && f.AuditFile? && Before(f.date, d) :: m[f]
  }

  function FilesAfter(m: Mirror, d: string): Mirror {
    map f | f in m && f.AuditFile? && Before(d, f.date) :: m[f]
  }

  /** A mirror reads as the files before any one of its own, that file, and the files after it. */
  lemma ReadsInDateOrder(m: Mirror, d: string)
    requires AuditFile(d) in m
    ensures EntriesOf(m) == EntriesOf(FilesBefore(m, d)) + m[AuditFile(d)].entries + EntriesOf(FilesAfter(m, d))
    ensures UnreadableIn(m) ==
      UnreadableIn(FilesBefore(m, d)) + m[AuditFile(d)].unreadable + UnreadableIn(FilesAfter(m, d))
  {
    hide Before, Bodies, FilesBefore, FilesAfter, FileDates;
    var early, late := FilesBefore(m, d), FilesAfter(m, d);
    var a, b := Sorted(FileDates(early)), Sorted(FileDates(late));
    DatesSplit(m, d);
    PartsAreOf(m, d);
    BodiesOfPart(m, early, a);
    BodiesOfPart(m, late, b);
    BodiesOfOne(m, d);
    BodiesAppend(m, [d], b);
    BodiesAppend(m, a, [d] + b);
    var middle, rest := m[AuditFile(d)].entries, Bodies(late, b).0;
    assert Bodies(early, a).0 + (middle + rest) == Bodies(early, a).0 + middle + rest;
  }

  lemma PartsAreOf(m: Mirror, d: string)
    ensures forall f :: f in FilesBefore(m, d) ==> f in m && FilesBefore(m, d)[f] == m[f]
    ensures forall f :: f in FilesAfter(m, d) ==> f in m && FilesAfter(m, d)[f] == m[f]
    ensures forall x :: x in FileDates(FilesBefore(m, d)) ==> AuditFile(x) in FilesBefore(m, d)
    ensures forall x :: x in FileDates(FilesAfter(m, d)) ==> AuditFile(x) in FilesAfter(m, d)
  {
    hide Before;
  }

  /** Without audit files there is nothing to read. */
  lemma OtherFilesAreNotRead(m: Mirror)
    requires forall d :: AuditFile(d) !in m
    ensures EntriesOf(m) == [] && UnreadableIn(m) == 0
  {
    assert FileDates(m) == {};
  }

  lemma DatesSplit(m: Mirror, d: string)
    requires AuditFile(d) in m
    ensures Sorted(FileDates(m)) ==
      Sorted(FileDates(FilesBefore(m, d))) + ([d] + Sorted(FileDates(FilesAfter(m, d))))
  {
    hide Before;
    var a, b := Sorted(FileDates(FilesBefore(m, d))), Sorted(FileDates(FilesAfter(m, d)));
    var dates := a + ([d] + b);
    forall x ensures x in a <==> AuditFile(x) in m && Before(x, d) {
      assert AuditFile(x) in FilesBefore(m, d) <==> AuditFile(x) in m && Before(x, d);
    }
    forall x ensures x in b <==> AuditFile(x) in m && Before(d, x) {
      assert AuditFile(x) in FilesAfter(m, d) <==> AuditFile(x) in m && Before(d, x);
    }
    forall x ensures x in dates <==> x in Sorted(FileDates(m)) {
      BeforeTotal(x, d);
    }
    forall i, j | 0 <= i < j < |dates| ensures Before(dates[i], dates[j]) {
      if i < |a| < j {
        assert a[i] in a && b[j - |a| - 1] in b;
        BeforeTransitive(a[i], d, b[j - |a| - 1]);
      } else if j == |a| {
        assert a[i] in a;
      } else if i == |a| {
        assert b[j - |a| - 1] in b;
      }
    }
    AscendingIsUnique(dates, Sorted(FileDates(m)));
  }

  lemma {:induction false} BodiesAppend(m: Mirror, a: seq<string>, b: seq<string>)
    requires (forall d :: d in a ==> AuditFile(d) in m) && forall d :: d in b ==> AuditFile(d) in m
    ensures forall d :: d in a + b ==> AuditFile(d) in m
    ensures Bodies(m, a + b) == (Bodies(m, a).0 + Bodies(m, b).0, Bodies(m, a).1 + Bodies(m, b).1)
  {
    if a == [] {
      assert a + b == b;
      assert Bodies(m, b).0 == [] + Bodies(m, b).0;
    } else {
      assert (a + b)[1..] == a[1..] + b;
      BodiesAppend(m, a[1..], b);
      var first, rest, last := m[AuditFile(a[0])].entries, Bodies(m, a[1..]), Bodies(m, b);
      assert first + (rest.0 + last.0) == first + rest.0 + last.0;
    }
  }

  lemma BodiesOfOne(m: Mirror, d: string)
    requires AuditFile(d) in m
    ensures Bodies(m, [d]) == (m[AuditFile(d)].entries, m[AuditFile(d)].unreadable)
  {
    assert Bodies(m, [d][1..]) == ([], 0);
    assert m[AuditFile(d)].entries + [] == m[AuditFile(d)].entries;
  }

  lemma {:induction false} BodiesOfPart(m: Mirror, part: Mirror, dates: seq<string>)
    requires forall f :: f in part ==> f in m && part[f] == m[f]
    requires forall d :: d in dates ==> AuditFile(d) in part
    ensures Bodies(part, dates) == Bodies(m, dates)
  {
    if dates != [] {
      BodiesOfPart(m, part, dates[1..]);
    }
  }

  // ---- Which entries are dated ----

  predicate AllDigits(s: string) {
    forall i :: 0 <= i < |s| ==> s[i] in "0123456789"
  }

  /** Ten characters are a date exactly when they are four digits, two and two, with dashes between. */
  lemma ValidDateIff(y: string, a: char, m: string, b: char, d: string)
    requires |y| == 4 && |m| == 2 && |d| == 2
    ensures ValidDate(y + [a] + m + [b] + d) <==> AllDigits(y) && AllDigits(m) && AllDigits(d) && a == b == '-'
  {
    hide Digit;
    var date := y + [a] + m + [b] + d;
    forall c ensures Digit(c) <==> c in "0123456789" {
      DigitIff(c);
    }
    assert date[4] == a && date[7] == b;
    assert forall i :: 0 <= i < 4 ==> date[i] == y[i];
    assert forall i :: 0 <= i < 2 ==> m[i] == date[5 + i] && d[i] == date[8 + i];
    assert date[5] == m[0] && date[6] == m[1] && date[8] == d[0] && date[9] == d[1];
  }

  lemma DigitIff(c: char)
    ensures Digit(c) <==> c in "0123456789"
  {
    assert Digit(c) ==> c in "0123456789";
  }

  /** Nothing shorter or longer is one, and an entry's date is the first ten characters of its time. */
  lemma DatesAreShort(d: string, e: Entry)
    ensures |d| != 10 ==> !ValidDate(d)
    ensures DateOf(e) <= e.timestamp && (|e.timestamp| >= 10 ==> |DateOf(e)| == 10)
    ensures |e.timestamp| < 10 ==> !ValidDate(DateOf(e))
  {
  }

  // ---- Which mirrors are reported ----

  predicate SameRecord(a: Entry, b: Entry) {
    a.id == b.id && a.hash == b.hash
  }

  ghost predicate DiffersAt(a: seq<Entry>, b: seq<Entry>, k: nat) {
    k < |a| && k < |b| && !SameRecord(a[k], b[k])
  }

  /** A line is unreadable, there are more or fewer entries than expected, or some entry is another record. */
  ghost predicate Drifted(m: Mirror, expected: seq<Entry>) {
    || UnreadableIn(m) > 0
    || |EntriesOf(m)| != |expected|
    || exists k :: DiffersAt(EntriesOf(m), expected, k)
  }

  lemma SameCopiesIff(a: seq<Entry>, b: seq<Entry>)
    ensures Copies(a) == Copies(b) <==> |a| == |b| && forall k :: !DiffersAt(a, b, k)
  {
    if Copies(a) == Copies(b) {
      forall k: nat ensures !DiffersAt(a, b, k) {
        if k < |a| && k < |b| {
          assert Copies(a)[k] == Copies(b)[k];
        }
      }
    }
    if |a| == |b| && forall k :: !DiffersAt(a, b, k) {
      forall k | 0 <= k < |a| ensures Copies(a)[k] == Copies(b)[k] {
        assert !DiffersAt(a, b, k);
      }
    }
  }

  /** Collecting reports a mirror exactly when it is there and drifted from the entries the log gives it. */
  lemma ReportedIff(es: seq<Entry>, markers: Markers, mirrors: Mirrors, s: string)
    ensures var found := Collect(es, markers, mirrors);
      ReportedIn(found, |found|, s) <==> s in mirrors && Drifted(mirrors[s], Expected(es, markers, s))
  {
    hide Load, Expected, DiffersAt, Collect;
    var found := Collect(es, markers, mirrors);
    CollectHoldsReports(es, markers, mirrors);
    if s in mirrors {
      SameCopiesIff(EntriesOf(mirrors[s]), Expected(es, markers, s));
    }
  }

  // ---- What a finding says ----

  ghost predicate InLog(es: seq<Entry>, c: Copy) {
    exists k :: 0 <= k < |es| && es[k].id == c.0 && es[k].hash == c.1
  }

  /** The first `n` entries hold the record. */
  ghost predicate Holds(entries: seq<Entry>, n: nat, c: Copy) {
    exists k :: 0 <= k < n && k < |entries| && entries[k].id == c.0 && entries[k].hash == c.1
  }

  /** `extra` names the records of `entries` that the log does not hold, each once, as they come first. */
  ghost predicate AreArchiveOnly(extra: seq<Copy>, entries: seq<Entry>, es: seq<Entry>) {
    && (forall c :: c in extra <==> Holds(entries, |entries|, c) && !InLog(es, c))
    && (forall i, j :: 0 <= i < j < |extra| ==> ComesFirst(entries, extra[i], extra[j]))
  }

  ghost predicate ComesFirst(entries: seq<Entry>, a: Copy, b: Copy) {
    exists n: nat :: Holds(entries, n, a) && !Holds(entries, n, b)
  }

  /** Both fingerprints list ids and hashes of what they stand for, in order. */
  ghost predicate IsPrintOf(copies: seq<Copy>, entries: seq<Entry>) {
    |copies| == |entries| && forall k :: 0 <= k < |entries| ==> copies[k] == (entries[k].id, entries[k].hash)
  }

  ghost predicate Says(f: Finding, m: Mirror, expected: seq<Entry>, es: seq<Entry>) {
    && IsPrintOf(f.mirrorPrint, EntriesOf(m)) && IsPrintOf(f.masterPrint, expected)
    && f.unreadable == UnreadableIn(m)
    && (f.rebuild <==> |expected| > 0)
    && (f.reason == StaleMirror <==> |expected| == 0)
    && (f.reason == MirrorUnreadable <==> |expected| > 0 && UnreadableIn(m) > 0)
    && (f.reason == MirrorOutOfSync <==> |expected| > 0 && UnreadableIn(m) == 0)
    && (|expected| == 0 ==> f.archiveOnlyCount == 0 && f.archiveOnlyIds == [])
    && (|expected| > 0 ==> exists extra :: AreArchiveOnly(extra, EntriesOf(m), es) && NamesSome(f, extra))
  }

  /** The count is of all of them; the ids are those of the first twenty. */
  ghost predicate NamesSome(f: Finding, extra: seq<Copy>) {
    && f.archiveOnlyCount == |extra|
    && (if |extra| <= 20 then |f.archiveOnlyIds| == |extra| else |f.archiveOnlyIds| == 20)
    && forall k :: 0 <= k < |f.archiveOnlyIds| ==> k < |extra| && f.archiveOnlyIds[k] == extra[k].0
  }

  /** Findings come in the order of their slugs. */
  lemma FindingsComeBySlug(es: seq<Entry>, markers: Markers, mirrors: Mirrors)
    ensures var found := Collect(es, markers, mirrors);
      forall i, j :: 0 <= i < j < |found| ==> Before(found[i].slug, found[j].slug)
  {
    hide Before, Expected, MasterCopies, Load, ArchiveOnly, NamedIds;
    var slugs, reports := Sorted(mirrors.Keys), Reports(es, markers, mirrors);
    ListedComeBySlug(reports, slugs, |slugs|);
    assert Collect(es, markers, mirrors) == Listed(reports, slugs, |slugs|);
  }

  lemma {:induction false} ListedComeBySlug(reports: map<string, Finding>, slugs: seq<string>, n: nat)
    requires n <= |slugs| && Ascending(slugs) && forall s :: s in reports ==> reports[s].slug == s
    ensures var found := Listed(reports, slugs, n);
      forall i, j :: 0 <= i < j < |found| ==> Before(found[i].slug, found[j].slug)
  {
    hide Before;
    if n > 0 {
      ListedComeBySlug(reports, slugs, n - 1);
      ListedReports(reports, slugs, n - 1);
      var before, s := Listed(reports, slugs, n - 1), slugs[n - 1];
      forall i | 0 <= i < |before| ensures Before(before[i].slug, s) {
        var k :| 0 <= k < n - 1 && slugs[..n - 1][k] == before[i].slug;
        assert slugs[k] == before[i].slug;
      }
    }
  }

  /** Each finding says what its mirror and the log hold. */
  lemma FindingsSay(es: seq<Entry>, markers: Markers, mirrors: Mirrors, i: nat)
    requires i < |Collect(es, markers, mirrors)|
    ensures var f := Collect(es, markers, mirrors)[i];
      f.slug in mirrors && Says(f, mirrors[f.slug], Expected(es, markers, f.slug), es)
  {
    hide Load, Expected, Says, FindingFor, Collect;
    var f := Collect(es, markers, mirrors)[i];
    CollectHoldsReports(es, markers, mirrors);
    FindingSays(f.slug, mirrors[f.slug], Expected(es, markers, f.slug), es, f);
  }

  lemma FindingSays(slug: string, m: Mirror, expected: seq<Entry>, es: seq<Entry>, f: Finding)
    requires FindingFor(slug, m, expected, MasterCopies(es)) == Some(f)
    ensures Says(f, m, expected, es)
  {
    hide Load, AreArchiveOnly, ArchiveOnly, MasterCopies;
    if |expected| > 0 {
      var extra := ArchiveOnly(Copies(EntriesOf(m)), MasterCopies(es), {});
      ArchiveOnlyAre(EntriesOf(m), es);
      assert NamesSome(f, extra);
    }
  }

  lemma ArchiveOnlyAre(entries: seq<Entry>, es: seq<Entry>)
    ensures AreArchiveOnly(ArchiveOnly(Copies(entries), MasterCopies(es), {}), entries, es)
  {
    hide ArchiveOnly, ComesFirst;
    var copies, master := Copies(entries), MasterCopies(es);
    var extra := ArchiveOnly(copies, master, {});
    ArchiveOnlyMembers(copies, master, {});
    forall c ensures c in extra <==> Holds(entries, |entries|, c) && !InLog(es, c) {
      HoldsIff(entries, |entries|, c);
      assert copies[..|entries|] == copies;
      assert c in master <==> InLog(es, c);
    }
    forall i, j | 0 <= i < j < |extra| ensures ComesFirst(entries, extra[i], extra[j]) {
      var n := FirstSeen(copies, master, {}, i, j);
      HoldsIff(entries, n, extra[i]);
      HoldsIff(entries, n, extra[j]);
      assert Holds(entries, n, extra[i]) && !Holds(entries, n, extra[j]);
      EarlierIsFirst(entries, n, extra[i], extra[j]);
    }
  }

  lemma EarlierIsFirst(entries: seq<Entry>, n: nat, a: Copy, b: Copy)
    requires Holds(entries, n, a) && !Holds(entries, n, b)
    ensures ComesFirst(entries, a, b)
  {
  }

  lemma HoldsIff(entries: seq<Entry>, n: nat, c: Copy)
    requires n <= |entries|
    ensures Holds(entries, n, c) <==> c in Copies(entries)[..n]
  {
    if c in Copies(entries)[..n] {
      var k :| 0 <= k < n && Copies(entries)[..n][k] == c;
      assert Copies(entries)[k] == CopyOf(entries[k]);
    }
    if Holds(entries, n, c) {
      var k :| 0 <= k < n && entries[k].id == c.0 && entries[k].hash == c.1;
      assert Copies(entries)[..n][k] == c;
    }
  }

  /** Of two archive-only copies, some first part of the list holds the earlier one alone. */
  lemma {:induction false} FirstSeen(copies: seq<Copy>, master: set<Copy>, seen: set<Copy>, i: nat, j: nat)
    returns (n: nat)
    requires i < j < |ArchiveOnly(copies, master, seen)|
    ensures n <= |copies|
    ensures ArchiveOnly(copies, master, seen)[i] in copies[..n]
    ensures ArchiveOnly(copies, master, seen)[j] !in copies[..n]
  {
    var extra := ArchiveOnly(copies, master, seen);
    ArchiveOnlyMembers(copies, master, seen);
    assert extra[i] != extra[j];
    assert extra[j] in extra;
    if copies[0] in master || copies[0] in seen {
      n := FirstSeen(copies[1..], master, seen, i, j);
      n := n + 1;
      assert copies[..n] == [copies[0]] + copies[1..][..n - 1];
    } else if i == 0 {
      n := 1;
      assert extra[0] == copies[0];
      assert copies[..1] == [copies[0]];
    } else {
      var rest := ArchiveOnly(copies[1..], master, seen + {copies[0]});
      assert extra == [copies[0]] + rest;
      assert extra[i] == rest[i - 1] && extra[j] == rest[j - 1] && extra[j] != extra[0];
      n := FirstSeen(copies[1..], master, seen + {copies[0]}, i - 1, j - 1);
      n := n + 1;
      assert copies[..n] == [copies[0]] + copies[1..][..n - 1];
    }
  }

  // ---- A mirror that starts like its master ----

  /** A mirror of one file holding just these entries. */
  function OneFile(date: string, entries: seq<Entry>): Mirror {
    map[AuditFile(date) := FileBody(entries, 0)]
  }

  lemma OneFileReads(date: string, entries: seq<Entry>)
    ensures EntriesOf(OneFile(date, entries)) == entries && UnreadableIn(OneFile(date, entries)) == 0
  {
    hide Load;
    var m := OneFile(date, entries);
    assert AuditFile(date) in m;
    BeforeIrreflexive(date);
    ReadsInDateOrder(m, date);
    OtherFilesAreNotRead(FilesBefore(m, date));
    OtherFilesAreNotRead(FilesAfter(m, date));
  }

  /** A record too many is reported, and so is a record in a mirror the log gives nothing. */
  lemma RecordTooManyIsReported(date: string, e: Entry, x: Entry, slug: string)
    requires e.tenant == slug != ""
    ensures var found := Collect([e], map[], map[slug := OneFile(date, [e, x])]);
      |found| == 1 && found[0].slug == slug && found[0].rebuild && found[0].reason == MirrorOutOfSync
    ensures var found := Collect([], map[], map[slug := OneFile(date, [x])]);
      |found| == 1 && found[0].slug == slug && !found[0].rebuild && found[0].reason == StaleMirror
    ensures Collect([e], map[], map[slug := OneFile(date, [e])]) == []
  {
    hide Expected, Collect, OneFile;
    OneEntryIsExpected(e, map[]);
    assert Expected([], map[], slug) == [] by {
      NoEntryIsExpected(slug);
    }
    OneFileReads(date, [e, x]);
    OneFileReads(date, [x]);
    OneFileReads(date, [e]);
    OnlyFinding([e], slug, OneFile(date, [e, x]));
    OnlyFinding([], slug, OneFile(date, [x]));
    OnlyFinding([e], slug, OneFile(date, [e]));
    assert !DiffersAt([e], [e], 0);
  }

  lemma NoEntryIsExpected(slug: string)
    ensures Expected([], map[], slug) == []
  {
    ExpectedIsPart([], map[], slug);
    var list := Owned([], map[], slug, 0);
    assert list == [];
  }

  lemma OneSlugOneFinding(found: seq<Finding>, slug: string)
    requires DistinctSlugs(found) && forall i :: 0 <= i < |found| ==> found[i].slug == slug
    ensures |found| <= 1
  {
    FirstTwoDiffer(found);
  }

  lemma FirstTwoDiffer(found: seq<Finding>)
    requires DistinctSlugs(found)
    ensures |found| > 1 ==> found[0].slug != found[1].slug
  {
  }

  /** With one mirror, what is collected is at most its one finding. */
  lemma OnlyFinding(es: seq<Entry>, slug: string, m: Mirror)
    ensures var found := Collect(es, map[], map[slug := m]);
      && (if Drifted(m, Expected(es, map[], slug)) then |found| == 1 else found == [])
      && (|found| == 1 ==> found[0].slug == slug && Says(found[0], m, Expected(es, map[], slug), es))
  {
    hide Expected, Collect, Drifted, Says;
    var mirrors := map[slug := m];
    var found := Collect(es, map[], mirrors);
    CollectHoldsReports(es, map[], mirrors);
    ReportedIff(es, map[], mirrors, slug);
    forall i | 0 <= i < |found| ensures found[i].slug == slug {
      FindingsSay(es, map[], mirrors, i);
    }
    OneSlugOneFinding(found, slug);
    if found != [] {
      FindingsSay(es, map[], mirrors, 0);
      assert mirrors[found[0].slug] == m;
    }
  }
}
