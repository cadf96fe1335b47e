/** What a prune promises: what it keeps, how much, and that pruning again deletes nothing. */
module BackupRetention {
  import opened Wrappers
  import opened WeekKey
  import opened BackupPrune

  function Deleted(files: seq<File>, daily: nat, weekly: nat): seq<string> {
    NamesOf(Entries(files), |Entries(files)|, daily, weekly, false)
  }

  function Kept(files: seq<File>, daily: nat, weekly: nat): seq<string> {
    NamesOf(Entries(files), |Entries(files)|, daily, weekly, true)
  }

  function AfterPrune(files: seq<File>, daily: nat, weekly: nat): seq<File> {
    Without(files, Deleted(files, daily, weekly))
  }

  lemma {:induction false} WithoutMember(files: seq<File>, gone: seq<string>, f: File)
    ensures f in Without(files, gone) <==> f in files && f.name !in gone
  {
    if files != [] {
      WithoutMember(files[1..], gone, f);
      assert files == [files[0]] + files[1..];
    }
  }

  lemma {:induction false} NamesDivide(s: seq<File>, n: nat, daily: nat, weekly: nat)
    requires n <= |s|
    ensures |NamesOf(s, n, daily, weekly, true)| + |NamesOf(s, n, daily, weekly, false)| == n
  {
    hide IsKept;
    if n > 0 {
      NamesDivide(s, n - 1, daily, weekly);
    }
  }

  lemma DeletedMember(s: seq<File>, i: nat, daily: nat, weekly: nat, kept: bool)
    requires DistinctNames(s) && i < |s|
    ensures s[i].name in NamesOf(s, |s|, daily, weekly, kept) <==> IsKept(s, i, daily, weekly) == kept
  {
    hide IsKept;
    NamesMember(s, |s|, daily, weekly, kept, s[i].name);
  }

  /** A prune keeps or deletes each archive, never both, and leaves every other file alone. */
  lemma PruneDividesArchives(files: seq<File>, daily: nat, weekly: nat, f: File)
    requires DistinctNames(files) && f in files
    ensures |Kept(files, daily, weekly)| + |Deleted(files, daily, weekly)| == |Entries(files)|
    ensures IsArchive(f) ==>
      (f.name in Kept(files, daily, weekly) <==> f in AfterPrune(files, daily, weekly)) &&
      (f.name in Deleted(files, daily, weekly) <==> f !in AfterPrune(files, daily, weekly))
    ensures !IsArchive(f) ==> f in AfterPrune(files, daily, weekly)
  {
    hide IsKept, IsArchive, SortByTime;
    var s := Entries(files);
    EntriesAreTheArchives(files);
    NamesDivide(s, |s|, daily, weekly);
    WithoutMember(files, Deleted(files, daily, weekly), f);
    if IsArchive(f) {
      var i :| 0 <= i < |s| && s[i] == f;
      DeletedMember(s, i, daily, weekly, true);
      DeletedMember(s, i, daily, weekly, false);
    } else {
      NamesMember(s, |s|, daily, weekly, false, f.name);
      assert f.name !in Deleted(files, daily, weekly) by {
        if f.name in Deleted(files, daily, weekly) {
          var i :| 0 <= i < |s| && s[i].name == f.name && IsKept(s, i, daily, weekly) == false;
          SameNameSameFile(files, f, s[i]);
        }
      }
    }
  }

  lemma SameNameSameFile(files: seq<File>, f: File, g: File)
    requires DistinctNames(files) && f in files && g in files && f.name == g.name
    ensures f == g
  {
  }

  /** What stays, by the loop's own count. */
  lemma StaysIffKept(files: seq<File>, daily: nat, weekly: nat, i: nat)
    requires DistinctNames(files) && i < |Entries(files)|
    ensures Entries(files)[i] in AfterPrune(files, daily, weekly) <==> IsKept(Entries(files), i, daily, weekly)
  {
    hide IsKept, IsArchive, SortByTime;
    var s := Entries(files);
    EntriesAreTheArchives(files);
    assert s[i] in s;
    WithoutMember(files, Deleted(files, daily, weekly), s[i]);
    DeletedMember(s, i, daily, weekly, false);
  }

  predicate HasDate(f: File) {
    KeyOf(f.mtime).Some?
  }

  predicate InOrder(a: Option<Key>, b: Option<Key>) {
    a.Some? && b.Some? && NotAfter(a.value, b.value)
  }

  /** Of two archives the earlier listed one is not of an earlier week. */
  lemma ListingFollowsWeeks(s: seq<File>, i: nat, j: nat)
    requires NewestFirst(s) && j <= i < |s| && HasDate(s[i]) && HasDate(s[j])
    ensures InOrder(KeyAt(s, i), KeyAt(s, j))
  {
    hide KeyOfTime, Truncated, NotAfter;
    TruncationFollowsTime(s[i].mtime, s[j].mtime);
    KeysFollowTime(Truncated(s[i].mtime), Truncated(s[j].mtime));
  }

  predicate LaterThan(a: Option<Key>, b: Option<Key>) {
    InOrder(b, a) && a != b
  }

  /** The weeks later than `k` that some archive is of. */
  ghost function LaterWeeks(s: seq<File>, k: Option<Key>): set<Option<Key>> {
    set j | 0 <= j < |s| && LaterThan(KeyAt(s, j), k) :: KeyAt(s, j)
  }

  /** No archive listed before it is of its week: it is the newest of that week. */
  ghost predicate IsNewestOfItsWeek(s: seq<File>, i: nat)
    requires i < |s|
  {
    forall j :: 0 <= j < i ==> KeyAt(s, j) != KeyAt(s, i)
  }

  lemma OrderIsAntisymmetric(a: Option<Key>, b: Option<Key>)
    requires InOrder(a, b) && InOrder(b, a)
    ensures a == b
  {
  }

  /** The weeks met before the newest archive of a week are exactly the later weeks there are. */
  lemma WeeksMetAreTheLaterOnes(s: seq<File>, i: nat)
    requires NewestFirst(s) && i < |s| && (forall j :: 0 <= j < |s| ==> HasDate(s[j])) && IsNewestOfItsWeek(s, i)
    ensures Weeks(s, i) == LaterWeeks(s, KeyAt(s, i))
  {
    hide InOrder, KeyAt, HasDate;
    var own := KeyAt(s, i);
    forall k ensures k in Weeks(s, i) <==> k in LaterWeeks(s, own) {
      WeeksMember(s, i, k);
      if k in Weeks(s, i) {
        var j :| 0 <= j < i && KeyAt(s, j) == k;
        ListingFollowsWeeks(s, i, j);
      }
      if k in LaterWeeks(s, own) {
        var j :| 0 <= j < |s| && LaterThan(KeyAt(s, j), own) && KeyAt(s, j) == k;
        if i <= j {
          ListingFollowsWeeks(s, j, i);
          OrderIsAntisymmetric(k, own);
        }
      }
    }
  }

  /**
   * An archive stays exactly when it is one of the newest `daily`, or the newest of its week and archives are of
   * fewer than `weekly` later weeks. This takes archives with a time that a date can hold.
   */
  lemma PromisedArchivesStay(files: seq<File>, daily: nat, weekly: nat, i: nat)
    requires DistinctNames(files) && i < |Entries(files)|
    requires forall f :: f in files && IsArchive(f) ==> HasDate(f)
    ensures var s := Entries(files);
      s[i] in AfterPrune(files, daily, weekly) <==>
        i < daily || (IsNewestOfItsWeek(s, i) && |LaterWeeks(s, KeyAt(s, i))| < weekly)
  {
    hide KeyAt, IsArchive, SortByTime, AfterPrune, HasDate, LaterWeeks;
    var s := Entries(files);
    EntriesAreTheArchives(files);
    forall j | 0 <= j < |s| ensures HasDate(s[j]) {
      assert s[j] in s;
    }
    StaysIffKept(files, daily, weekly, i);
    WeeksMember(s, i, KeyAt(s, i));
    if IsNewestOfItsWeek(s, i) {
      WeeksMetAreTheLaterOnes(s, i);
    }
  }

  function Min(a: int, b: int): int {
    if a < b then a else b
  }

  lemma {:induction false} KeptAreFew(s: seq<File>, n: nat, daily: nat, weekly: nat)
    requires n <= |s|
    ensures |NamesOf(s, n, daily, weekly, true)| <= Min(daily, n) + Min(weekly, |Weeks(s, n)|)
  {
    hide KeyAt;
    if n > 0 {
      KeptAreFew(s, n - 1, daily, weekly);
      WeeksGrow(s, n - 1, n);
    }
  }

  /** At most `daily + weekly` archives remain, and no fewer than the newest `daily` there are. */
  lemma KeptAreBounded(files: seq<File>, daily: nat, weekly: nat)
    requires DistinctNames(files)
    ensures Min(daily, |Entries(files)|) <= |Kept(files, daily, weekly)| <= daily + weekly
  {
    var s := Entries(files);
    KeptAreFew(s, |s|, daily, weekly);
    DailyAreKept(s, |s|, daily, weekly);
  }

  lemma {:induction false} DailyAreKept(s: seq<File>, n: nat, daily: nat, weekly: nat)
    requires n <= |s|
    ensures Min(daily, n) <= |NamesOf(s, n, daily, weekly, true)|
  {
    hide LeadsItsWeek;
    if n > 0 {
      DailyAreKept(s, n - 1, daily, weekly);
    }
  }

  // ---- Pruning again ----

  /** A later listing, newest first, of archives that a prune of the first listing kept. */
  ghost predicate ListsKept(s: seq<File>, t: seq<File>, daily: nat, weekly: nat) {
    && NewestFirst(s) && NewestFirst(t) && DistinctNames(s) && DistinctNames(t)
    && forall p :: 0 <= p < |t| ==> WasKept(s, t[p], daily, weekly)
  }

  ghost predicate WasKept(s: seq<File>, f: File, daily: nat, weekly: nat) {
    exists i :: 0 <= i < |s| && s[i] == f && IsKept(s, i, daily, weekly)
  }

  /** An entry that comes later in the first listing but not in time ties with this one, so it leads no week. */
  lemma TieLeadsNoWeek(s: seq<File>, i: nat, j: nat, weekly: nat)
    requires NewestFirst(s) && i < j < |s| && s[j].mtime >= s[i].mtime
    ensures !LeadsItsWeek(s, j, weekly)
  {
    hide KeyOf;
    WeeksMember(s, j, KeyAt(s, i));
    assert KeyAt(s, j) == KeyAt(s, i);
  }

  lemma OnlyDailyBeforeDaily(s: seq<File>, t: seq<File>, q: nat, p: nat, i: nat, daily: nat, weekly: nat)
    requires ListsKept(s, t, daily, weekly) && q <= p < |t| && i < |s| && i < daily && t[p] == s[i]
    ensures exists j :: 0 <= j < |s| && j < daily && s[j] == t[q]
  {
    hide LeadsItsWeek;
    assert WasKept(s, t[q], daily, weekly);
    var j :| 0 <= j < |s| && s[j] == t[q] && IsKept(s, j, daily, weekly);
    if i < j {
      TieLeadsNoWeek(s, i, j, weekly);
    }
  }

  function NameSet(s: seq<File>, n: nat): set<string>
    requires n <= |s|
  {
    if n == 0 then {} else NameSet(s, n - 1) + {s[n - 1].name}
  }

  lemma {:induction false} NameSetMember(s: seq<File>, n: nat, name: string)
    requires n <= |s|
    ensures name in NameSet(s, n) <==> exists i :: 0 <= i < n && s[i].name == name
  {
    if n > 0 {
      NameSetMember(s, n - 1, name);
    }
  }

  lemma {:induction false} NameSetSize(s: seq<File>, n: nat)
    requires n <= |s| && DistinctNames(s)
    ensures |NameSet(s, n)| == n
  {
    if n > 0 {
      NameSetSize(s, n - 1);
      NameSetMember(s, n - 1, s[n - 1].name);
    }
  }

  lemma DailyStaysDaily(s: seq<File>, t: seq<File>, p: nat, i: nat, daily: nat, weekly: nat)
    requires ListsKept(s, t, daily, weekly) && p < |t| && i < |s| && i < daily && t[p] == s[i]
    ensures p < daily
  {
    hide LeadsItsWeek, IsKept;
    var n, m := Min(daily, |s|), p + 1;
    forall name | name in NameSet(t, m) ensures name in NameSet(s, n) {
      NameSetMember(t, m, name);
      var q :| 0 <= q < m && t[q].name == name;
      OnlyDailyBeforeDaily(s, t, q, p, i, daily, weekly);
      var j :| 0 <= j < |s| && j < daily && s[j] == t[q];
      NameSetMember(s, n, name);
    }
    SubsetIsNoLarger(NameSet(t, m), NameSet(s, n));
    NameSetSize(t, m);
    NameSetSize(s, n);
  }

  lemma LeaderHasNoWeekBefore(s: seq<File>, t: seq<File>, q: nat, p: nat, i: nat, daily: nat, weekly: nat)
    requires ListsKept(s, t, daily, weekly) && q < p < |t| && i < |s| && daily <= i && t[p] == s[i]
    requires KeyAt(s, i) !in Weeks(s, i)
    ensures KeyAt(t, q) != KeyAt(t, p) && KeyAt(t, q) in Weeks(s, i)
  {
    hide KeyOf, LeadsItsWeek;
    assert WasKept(s, t[q], daily, weekly);
    var j :| 0 <= j < |s| && s[j] == t[q] && IsKept(s, j, daily, weekly);
    if i < j {
      TieLeadsNoWeek(s, i, j, weekly);
    }
    assert t[q].name != t[p].name;
    WeeksMember(s, i, KeyAt(s, j));
  }

  lemma LeaderStaysLeader(s: seq<File>, t: seq<File>, p: nat, i: nat, daily: nat, weekly: nat)
    requires ListsKept(s, t, daily, weekly) && p < |t| && i < |s| && daily <= i && t[p] == s[i]
    requires LeadsItsWeek(s, i, weekly)
    ensures LeadsItsWeek(t, p, weekly)
  {
    hide KeyAt;
    forall k | k in Weeks(t, p) ensures k in Weeks(s, i) && k != KeyAt(t, p) {
      WeeksMember(t, p, k);
      var q :| 0 <= q < p && KeyAt(t, q) == k;
      LeaderHasNoWeekBefore(s, t, q, p, i, daily, weekly);
    }
    SubsetIsNoLarger(Weeks(t, p), Weeks(s, i));
  }

  lemma KeptStaysKept(s: seq<File>, t: seq<File>, p: nat, daily: nat, weekly: nat)
    requires ListsKept(s, t, daily, weekly) && p < |t|
    ensures IsKept(t, p, daily, weekly)
  {
    hide LeadsItsWeek;
    assert WasKept(s, t[p], daily, weekly);
    var i :| 0 <= i < |s| && s[i] == t[p] && IsKept(s, i, daily, weekly);
    if i < daily {
      DailyStaysDaily(s, t, p, i, daily, weekly);
    } else {
      LeaderStaysLeader(s, t, p, i, daily, weekly);
    }
  }

  /**
   * A second prune deletes nothing, in whatever order the directory lists ties the second time, with the same or
   * more generous retention, and even if some of the kept archives are gone by then.
   */
  lemma SecondPruneDeletesNothing(files: seq<File>, again: seq<File>,
      daily: nat, weekly: nat, moreDaily: nat, moreWeekly: nat)
    requires DistinctNames(files) && DistinctNames(again)
    requires forall f :: f in again && IsArchive(f) ==> f in AfterPrune(files, daily, weekly)
    requires daily <= moreDaily && weekly <= moreWeekly
    ensures Deleted(again, moreDaily, moreWeekly) == []
  {
    hide IsArchive, IsKept, SortByTime;
    var s, t := Entries(files), Entries(again);
    EntriesAreTheArchives(files);
    EntriesAreTheArchives(again);
    forall p | 0 <= p < |t| ensures WasKept(s, t[p], daily, weekly) {
      assert t[p] in t;
      WithoutMember(files, Deleted(files, daily, weekly), t[p]);
      var i :| 0 <= i < |s| && s[i] == t[p];
      DeletedMember(s, i, daily, weekly, false);
    }
    forall p | 0 <= p < |t| ensures IsKept(t, p, moreDaily, moreWeekly) {
      KeptStaysKept(s, t, p, daily, weekly);
      MoreRetentionKeepsMore(t, p, daily, weekly, moreDaily, moreWeekly);
    }
    NoneDeleted(t, |t|, moreDaily, moreWeekly);
  }

  lemma MoreRetentionKeepsMore(s: seq<File>, i: nat, daily: nat, weekly: nat, moreDaily: nat, moreWeekly: nat)
    requires i < |s| && daily <= moreDaily && weekly <= moreWeekly && IsKept(s, i, daily, weekly)
    ensures IsKept(s, i, moreDaily, moreWeekly)
  {
  }

  lemma {:induction false} NoneDeleted(s: seq<File>, n: nat, daily: nat, weekly: nat)
    requires n <= |s| && forall i :: 0 <= i < |s| ==> IsKept(s, i, daily, weekly)
    ensures NamesOf(s, n, daily, weekly, false) == []
  {
    hide IsKept;
    if n > 0 {
      NoneDeleted(s, n - 1, daily, weekly);
    }
  }
}
