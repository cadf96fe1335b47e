/** Which backups retention keeps and which it deletes. */
module BackupPrune {
  import opened Wrappers
  import opened WeekKey

  datatype File = File(name: string, mtime: real)

  // ---- The listing ----

  predicate EndsWith(s: string, end: string) {
    |end| <= |s| && s[|s| - |end|..] == end
  }

  predicate IsArchive(f: File) {
    EndsWith(f.name, ".tar.gz") || EndsWith(f.name, ".tar.gz.enc")
  }

  /** Compressed archives, encrypted or not; an archive written in part is none. */
  lemma ArchiveNames(stem: string, mtime: real)
    ensures IsArchive(File(stem + ".tar.gz", mtime)) && IsArchive(File(stem + ".tar.gz.enc", mtime))
    ensures !IsArchive(File(stem + ".tar.gz.part", mtime)) && !IsArchive(File(stem + ".tar", mtime))
  {
    assert forall end: string :: (stem + end)[|stem|..] == end;
    assert (stem + ".tar.gz.part")[|stem| + 11] == 't' && ".tar.gz"[6] == 'z' && ".tar.gz.enc"[10] == 'c';
    assert (stem + ".tar")[|stem| + 3] == 'r';
  }

  function Archives(files: seq<File>): seq<File> {
    if files == [] then [] else if IsArchive(files[0]) then [files[0]] + Archives(files[1..]) else Archives(files[1..])
  }

  function InsertByTime(f: File, sorted: seq<File>): seq<File> {
    if sorted == [] || sorted[0].mtime <= f.mtime then [f] + sorted
    else [sorted[0]] + InsertByTime(f, sorted[1..])
  }

  /** `.sort((a, b) => b.mtimeMs - a.mtimeMs)`, which keeps ties in listing order. */
  function SortByTime(files: seq<File>): seq<File> {
    if files == [] then [] else InsertByTime(files[0], SortByTime(files[1..]))
  }

  function Entries(files: seq<File>): seq<File> {
    SortByTime(Archives(files))
  }

  ghost predicate NewestFirst(s: seq<File>) {
    forall i, j :: 0 <= i < j < |s| ==> s[i].mtime >= s[j].mtime
  }

  /** A directory lists each name once. */
  ghost predicate DistinctNames(s: seq<File>) {
    forall i, j :: 0 <= i < j < |s| ==> s[i].name != s[j].name
  }

  lemma {:induction false} InsertByTimeMember(f: File, sorted: seq<File>, g: File)
    ensures g in InsertByTime(f, sorted) <==> g == f || g in sorted
  {
    if sorted != [] && sorted[0].mtime > f.mtime {
      InsertByTimeMember(f, sorted[1..], g);
      assert sorted == [sorted[0]] + sorted[1..];
    }
  }

  lemma {:induction false} InsertByTimeSorts(f: File, sorted: seq<File>)
    requires NewestFirst(sorted) && DistinctNames(sorted) && forall i :: 0 <= i < |sorted| ==> sorted[i].name != f.name
    ensures NewestFirst(InsertByTime(f, sorted)) && DistinctNames(InsertByTime(f, sorted))
  {
    if sorted != [] && sorted[0].mtime > f.mtime {
      var rest := InsertByTime(f, sorted[1..]);
      InsertByTimeSorts(f, sorted[1..]);
      forall j | 0 <= j < |rest| ensures rest[j].mtime <= sorted[0].mtime && rest[j].name != sorted[0].name {
        InsertByTimeMember(f, sorted[1..], rest[j]);
      }
    }
  }

  lemma {:induction false} SortByTimeMember(files: seq<File>, f: File)
    ensures f in SortByTime(files) <==> f in files
  {
    if files != [] {
      SortByTimeMember(files[1..], f);
      InsertByTimeMember(files[0], SortByTime(files[1..]), f);
      assert files == [files[0]] + files[1..];
    }
  }

  lemma {:induction false} SortByTimeSorts(files: seq<File>)
    requires DistinctNames(files)
    ensures NewestFirst(SortByTime(files)) && DistinctNames(SortByTime(files))
  {
    if files != [] {
      var rest := SortByTime(files[1..]);
      SortByTimeSorts(files[1..]);
      forall i | 0 <= i < |rest| ensures rest[i].name != files[0].name {
        SortByTimeMember(files[1..], rest[i]);
        var k :| 0 <= k < |files[1..]| && files[1..][k] == rest[i];
        assert files[k + 1] == rest[i];
      }
      InsertByTimeSorts(files[0], rest);
    }
  }

  lemma {:induction false} ArchivesMembers(files: seq<File>, f: File)
    ensures f in Archives(files) <==> f in files && IsArchive(f)
  {
    if files != [] {
      ArchivesMembers(files[1..], f);
      assert files == [files[0]] + files[1..];
    }
  }

  lemma {:induction false} ArchivesAreDistinct(files: seq<File>)
    requires DistinctNames(files)
    ensures DistinctNames(Archives(files))
  {
    if files != [] {
      var rest := Archives(files[1..]);
      ArchivesAreDistinct(files[1..]);
      forall j | 0 <= j < |rest| ensures rest[j].name != files[0].name {
        ArchivesMembers(files[1..], rest[j]);
        var k :| 0 <= k < |files[1..]| && files[1..][k] == rest[j];
        assert files[k + 1] == rest[j];
      }
    }
  }

  /** What the listing hands on: the archives, each once, newest first. */
  lemma EntriesAreTheArchives(files: seq<File>)
    requires DistinctNames(files)
    ensures NewestFirst(Entries(files)) && DistinctNames(Entries(files))
    ensures forall f :: f in Entries(files) <==> f in files && IsArchive(f)
  {
    ArchivesAreDistinct(files);
    SortByTimeSorts(Archives(files));
    forall f ensures f in Entries(files) <==> f in files && IsArchive(f) {
      ArchivesMembers(files, f);
      SortByTimeMember(Archives(files), f);
    }
  }

  // ---- What is kept ----

  function KeyAt(s: seq<File>, i: nat): Option<Key>
    requires i < |s|
  {
    KeyOf(s[i].mtime)
  }

  /** The weeks of the first `n` entries. */
  function Weeks(s: seq<File>, n: nat): set<Option<Key>>
    requires n <= |s|
  {
    if n == 0 then {} else Weeks(s, n - 1) + {KeyAt(s, n - 1)}
  }

  /** The newest archive of one of the latest `weekly` weeks. */
  predicate LeadsItsWeek(s: seq<File>, i: nat, weekly: nat)
    requires i < |s|
  {
    KeyAt(s, i) !in Weeks(s, i) && |Weeks(s, i)| < weekly
  }

  predicate IsKept(s: seq<File>, i: nat, daily: nat, weekly: nat)
    requires i < |s|
  {
    i < daily || LeadsItsWeek(s, i, weekly)
  }

  lemma {:induction false} WeeksMember(s: seq<File>, n: nat, k: Option<Key>)
    requires n <= |s|
    ensures k in Weeks(s, n) <==> exists i :: 0 <= i < n && KeyAt(s, i) == k
  {
    hide KeyAt;
    if n > 0 {
      WeeksMember(s, n - 1, k);
    }
  }

  lemma {:induction false} WeeksGrow(s: seq<File>, m: nat, n: nat)
    requires m <= n <= |s|
    ensures Weeks(s, m) <= Weeks(s, n) && |Weeks(s, m)| <= |Weeks(s, n)|
  {
    hide KeyAt;
    if m < n {
      WeeksGrow(s, m, n - 1);
    }
    SubsetIsNoLarger(Weeks(s, m), Weeks(s, n));
  }

  lemma {:induction false} SubsetIsNoLarger<T>(a: set<T>, b: set<T>)
    requires a <= b
    ensures |a| <= |b|
  {
    if a != {} {
      var x :| x in a;
      SubsetIsNoLarger(a - {x}, b - {x});
    }
  }

  /** The names of the entries kept among the first `n`, or of those not kept. */
  function NamesOf(s: seq<File>, n: nat, daily: nat, weekly: nat, kept: bool): seq<string>
    requires n <= |s|
  {
    if n == 0 then []
    else if IsKept(s, n - 1, daily, weekly) == kept then NamesOf(s, n - 1, daily, weekly, kept) + [s[n - 1].name]
    else NamesOf(s, n - 1, daily, weekly, kept)
  }

  lemma {:induction false} NamesMember(s: seq<File>, n: nat, daily: nat, weekly: nat, kept: bool, name: string)
    requires n <= |s|
    ensures name in NamesOf(s, n, daily, weekly, kept) <==>
      exists i :: 0 <= i < n && s[i].name == name && IsKept(s, i, daily, weekly) == kept
  {
    hide IsKept;
    if n > 0 {
      NamesMember(s, n - 1, daily, weekly, kept, name);
    }
  }

  // ---- Pruning ----

  /** Both retention values are whole numbers from 0 to 365. */
  predicate IsRetention(n: int) {
    0 <= n <= 365
  }

  datatype Pruned = Pruned(kept: seq<string>, deleted: seq<string>)

  datatype PruneError = BadRetention

  const DEFAULT_DAILY := 7
  const DEFAULT_WEEKLY := 4

  function OrElse(n: Option<int>, default: int): int {
    if n.Some? then n.value else default
  }

  function Without(files: seq<File>, gone: seq<string>): seq<File> {
    if files == [] then []
    else if files[0].name in gone then Without(files[1..], gone)
    else [files[0]] + Without(files[1..], gone)
  }

  class BackupDir {
    var files: seq<File>

    constructor (files: seq<File>)
      ensures this.files == files
    {
      this.files := files;
    }

    method PruneBackups(retainDaily: Option<int>, retainWeekly: Option<int>)
      returns (r: Result<Pruned, PruneError>)
      requires DistinctNames(files)
      modifies this
      ensures var daily, weekly, s :=
          OrElse(retainDaily, DEFAULT_DAILY), OrElse(retainWeekly, DEFAULT_WEEKLY), Entries(old(files));
        if !IsRetention(daily) || !IsRetention(weekly) then r == Err(BadRetention) && files == old(files)
        else
          && r == Ok(Pruned(NamesOf(s, |s|, daily, weekly, true), NamesOf(s, |s|, daily, weekly, false)))
          && files == Without(old(files), r.value.deleted)
      ensures r.Err? <==>
        || (retainDaily.Some? && (retainDaily.value < 0 || retainDaily.value > 365))
        || (retainWeekly.Some? && (retainWeekly.value < 0 || retainWeekly.value > 365))
      ensures retainDaily == None && retainWeekly == None ==>
        r.Ok? && r.value.kept == NamesOf(Entries(old(files)), |Entries(old(files))|, 7, 4, true)
    {
      var daily, weekly := OrElse(retainDaily, DEFAULT_DAILY), OrElse(retainWeekly, DEFAULT_WEEKLY);
      if !IsRetention(daily) || !IsRetention(weekly) {
        return Err(BadRetention);
      }
      var entries := Entries(files);
      EntriesAreTheArchives(files);
      var keep := KeepDaily(entries, daily);
      keep := KeepWeekly(entries, daily, weekly, keep);
      var kept, deleted := Divide(entries, daily, weekly, keep);
      files := Without(files, deleted);
      r := Ok(Pruned(kept, deleted));
    }
  }

  ghost predicate KeepsExactly(s: seq<File>, keep: set<string>, daily: nat, n: nat, weekly: nat)
    requires n <= |s|
  {
    forall i :: 0 <= i < |s| ==> (s[i].name in keep <==> i < daily || (i < n && LeadsItsWeek(s, i, weekly)))
  }

  method KeepDaily(entries: seq<File>, daily: nat) returns (keep: set<string>)
    requires DistinctNames(entries)
    ensures KeepsExactly(entries, keep, daily, 0, 0)
  {
    hide KeyOf;
    keep := {};
    var n := if daily < |entries| then daily else |entries|;
    for i := 0 to n
      invariant forall j :: 0 <= j < |entries| ==> (entries[j].name in keep <==> j < i)
    {
      keep := keep + {entries[i].name};
    }
  }

  method KeepWeekly(entries: seq<File>, daily: nat, weekly: nat, dailyKept: set<string>) returns (keep: set<string>)
    requires DistinctNames(entries) && KeepsExactly(entries, dailyKept, daily, 0, 0)
    ensures KeepsExactly(entries, keep, daily, |entries|, weekly)
  {
    hide KeyAt;
    keep := dailyKept;
    var weeklySeen: set<Option<Key>> := {};
    for i := 0 to |entries|
      invariant weeklySeen == Weeks(entries, i)
      invariant KeepsExactly(entries, keep, daily, i, weekly)
    {
      if |weeklySeen| >= weekly {
        forall j | i <= j < |entries| ensures !LeadsItsWeek(entries, j, weekly) {
          WeeksGrow(entries, i, j);
        }
        return;
      }
      var key := KeyAt(entries, i);
      if key !in weeklySeen {
        keep := keep + {entries[i].name};
      }
      weeklySeen := weeklySeen + {key};
    }
  }

  method Divide(entries: seq<File>, daily: nat, weekly: nat, keep: set<string>)
    returns (kept: seq<string>, deleted: seq<string>)
    requires KeepsExactly(entries, keep, daily, |entries|, weekly)
    ensures kept == NamesOf(entries, |entries|, daily, weekly, true)
    ensures deleted == NamesOf(entries, |entries|, daily, weekly, false)
  {
    hide KeyAt;
    kept, deleted := [], [];
    for i := 0 to |entries|
      invariant kept == NamesOf(entries, i, daily, weekly, true)
      invariant deleted == NamesOf(entries, i, daily, weekly, false)
    {
      if entries[i].name in keep {
        kept := kept + [entries[i].name];
      } else {
        deleted := deleted + [entries[i].name];
      }
    }
  }
}
