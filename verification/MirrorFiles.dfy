/** A mirror on disk: one audit file per date, written by a rebuild and read back in file-name order. */
module MirrorFiles {
  import opened Wrappers
  import opened Order
  import opened MirrorReplay

  datatype FileBody = FileBody(entries: seq<Entry>, unreadable: nat)

  /** `AuditFile(d)` is the file audit-d.jsonl; a mirror ignores any other name when it is read. */
  datatype FileName = AuditFile(date: string) | OtherFile(name: string)

  type Mirror = map<FileName, FileBody>

  function DateOf(e: Entry): string {
    if |e.timestamp| < 10 then e.timestamp else e.timestamp[..10]
  }

  predicate Digit(c: char) {
    '0' <= c <= '9'
  }

  /** Four digits, two digits and two digits, separated by dashes. */
  predicate ValidDate(d: string) {
    && |d| == 10
    && d[4] == '-' && d[7] == '-'
    && forall i :: 0 <= i < 10 && i != 4 && i != 7 ==> Digit(d[i])
  }

  predicate AllDated(es: seq<Entry>) {
    forall i :: 0 <= i < |es| ==> ValidDate(DateOf(es[i]))
  }

  function DatesOf(es: seq<Entry>): set<string> {
    set i | 0 <= i < |es| :: DateOf(es[i])
  }

  /** The entries of one date, in their order. */
  function OnDate(es: seq<Entry>, d: string): seq<Entry> {
    if es == [] then []
    else if DateOf(es[0]) == d then [es[0]] + OnDate(es[1..], d)
    else OnDate(es[1..], d)
  }

  /** Dates never go backwards. */
  ghost predicate NonDecreasing(es: seq<Entry>) {
    forall i, j :: 0 <= i < j < |es| ==> !Before(DateOf(es[j]), DateOf(es[i]))
  }

  // ---- Reading a mirror ----

  function FileDates(m: Mirror): set<string> {
    set f | f in m && f.AuditFile? :: f.date
  }

  function Bodies(m: Mirror, dates: seq<string>): (r: (seq<Entry>, nat))
    requires forall d :: d in dates ==> AuditFile(d) in m
  {
    if dates == [] then ([], 0) else
      var rest := Bodies(m, dates[1..]);
      (m[AuditFile(dates[0])].entries + rest.0, m[AuditFile(dates[0])].unreadable + rest.1)
  }

  /** The readable entries in file-name order, and how many lines could not be read. */
  function Load(m: Mirror): (seq<Entry>, nat) {
    Bodies(m, Sorted(FileDates(m)))
  }

  // ---- Rebuilding a mirror ----

  function Groups(es: seq<Entry>): map<string, seq<Entry>> {
    map d | d in DatesOf(es) :: OnDate(es, d)
  }

  function Rebuilt(es: seq<Entry>): Mirror {
    WriteFiles(Groups(es))
  }

  lemma {:induction false} OnDateAppend(a: seq<Entry>, b: seq<Entry>, d: string)
    ensures OnDate(a + b, d) == OnDate(a, d) + OnDate(b, d)
  {
    hide DateOf;
    if a == [] {
      assert a + b == b;
    } else {
      OnDateAppend(a[1..], b, d);
      assert (a + b)[1..] == a[1..] + b;
    }
  }

  /** The loop that groups by date; it refuses the first entry without a valid date. */
  method GroupByDate(es: seq<Entry>) returns (r: Result<map<string, seq<Entry>>, Entry>)
    ensures match r
      case Ok(byDate) => byDate == Groups(es) && forall k :: 0 <= k < |es| ==> ValidDate(DateOf(es[k]))
      case Err(e) => e in es && !ValidDate(DateOf(e))
  {
    var byDate: map<string, seq<Entry>> := map[];
    for i := 0 to |es|
      invariant forall k :: 0 <= k < i ==> ValidDate(DateOf(es[k]))
      invariant byDate == Groups(es[..i])
    {
      var d := DateOf(es[i]);
      if !ValidDate(d) {
        return Err(es[i]);
      }
      GroupsNext(es, i);
      byDate := byDate[d := (if d in byDate then byDate[d] else []) + [es[i]]];
    }
    assert es[..|es|] == es;
    r := Ok(byDate);
  }

  /** Group by date, then write one file per date. */
  method RebuildMirror(es: seq<Entry>) returns (r: Result<Mirror, string>)
    ensures r.Ok? <==> AllDated(es)
    ensures r.Ok? ==> r.value == Rebuilt(es)
    ensures r.Err? ==> exists i :: 0 <= i < |es| && es[i].id == r.error && !ValidDate(DateOf(es[i]))
  {
    var grouped := GroupByDate(es);
    match grouped {
      case Err(e) => r := Err(e.id);
      case Ok(byDate) => r := Ok(WriteFiles(byDate));
    }
  }

  function WriteFiles(byDate: map<string, seq<Entry>>): Mirror {
    map d | d in byDate :: AuditFile(d) := FileBody(byDate[d], 0)
  }

  lemma OnDateNext(es: seq<Entry>, e: Entry, d: string)
    ensures OnDate(es + [e], d) == if d == DateOf(e) then OnDate(es, d) + [e] else OnDate(es, d)
  {
    OnDateAppend(es, [e], d);
    assert OnDate([e], d) == if d == DateOf(e) then [e] else [];
    assert OnDate(es, d) + [] == OnDate(es, d);
  }

  lemma GroupsNext(es: seq<Entry>, i: nat)
    requires i < |es|
    ensures var d, byDate := DateOf(es[i]), Groups(es[..i]);
      Groups(es[..i + 1]) == byDate[d := (if d in byDate then byDate[d] else []) + [es[i]]]
  {
    hide DateOf, OnDate, DatesOf;
    var day, done := DateOf(es[i]), es[..i];
    var g := Groups(done + [es[i]]);
    var h := Groups(done)[day := (if day in Groups(done) then Groups(done)[day] else []) + [es[i]]];
    assert es[..i + 1] == done + [es[i]];
    DatesOfAppend(done, es[i]);
    assert g.Keys == h.Keys;
    OnDateEmpty(done, day);
    forall d | d in g ensures g[d] == h[d] {
      OnDateNext(done, es[i], d);
    }
  }

  lemma DatesOfAppend(es: seq<Entry>, e: Entry)
    ensures DatesOf(es + [e]) == DatesOf(es) + {DateOf(e)}
  {
    forall d | d in DatesOf(es) ensures d in DatesOf(es + [e]) {
      var k :| 0 <= k < |es| && DateOf(es[k]) == d;
      assert (es + [e])[k] == es[k];
    }
    assert (es + [e])[|es|] == e;
  }

  lemma DatesOfHead(es: seq<Entry>)
    requires es != []
    ensures DatesOf(es) == {DateOf(es[0])} + DatesOf(es[1..])
  {
    forall d | d in DatesOf(es[1..]) ensures d in DatesOf(es) {
      var k :| 0 <= k < |es[1..]| && DateOf(es[1..][k]) == d;
      assert es[k + 1] == es[1..][k];
    }
    forall d | d in DatesOf(es) ensures d == DateOf(es[0]) || d in DatesOf(es[1..]) {
      var k :| 0 <= k < |es| && DateOf(es[k]) == d;
      assert k > 0 ==> es[1..][k - 1] == es[k];
    }
  }

  lemma {:induction false} OnDateEmpty(es: seq<Entry>, d: string)
    ensures OnDate(es, d) == [] <==> d !in DatesOf(es)
  {
    if es != [] {
      OnDateEmpty(es[1..], d);
      DatesOfHead(es);
    }
  }

  // ---- Writing and reading back is a stable sort by date ----

  /** The entries of each listed date in turn. */
  function Flatten(es: seq<Entry>, dates: seq<string>): seq<Entry> {
    if dates == [] then [] else OnDate(es, dates[0]) + Flatten(es, dates[1..])
  }

  /** What reading a rebuilt mirror yields. */
  function ReadBack(es: seq<Entry>): seq<Entry> {
    Flatten(es, Sorted(DatesOf(es)))
  }

  lemma {:induction false} BodiesOfRebuilt(es: seq<Entry>, dates: seq<string>)
    requires forall d :: d in dates ==> d in DatesOf(es)
    ensures forall d :: d in dates ==> AuditFile(d) in Rebuilt(es)
    ensures Bodies(Rebuilt(es), dates) == (Flatten(es, dates), 0)
  {
    assert forall d :: d in DatesOf(es) ==>
      AuditFile(d) in Rebuilt(es) && Rebuilt(es)[AuditFile(d)] == FileBody(OnDate(es, d), 0);
    if dates != [] {
      assert dates[0] in dates;
      BodiesOfRebuilt(es, dates[1..]);
    }
  }

  lemma LoadOfRebuilt(es: seq<Entry>)
    ensures Load(Rebuilt(es)) == (ReadBack(es), 0)
  {
    forall d ensures d in FileDates(Rebuilt(es)) <==> d in DatesOf(es) {
      assert AuditFile(d) in Rebuilt(es) <==> d in DatesOf(es);
    }
    assert FileDates(Rebuilt(es)) == DatesOf(es);
    BodiesOfRebuilt(es, Sorted(DatesOf(es)));
  }

  lemma {:induction false} OnDateMembers(es: seq<Entry>, d: string)
    ensures forall e :: e in OnDate(es, d) <==> e in es && DateOf(e) == d
  {
    if es != [] {
      OnDateMembers(es[1..], d);
      assert es == [es[0]] + es[1..];
    }
  }

  lemma {:induction false} OnDateTwice(es: seq<Entry>, x: string, d: string)
    ensures OnDate(OnDate(es, x), d) == if x == d then OnDate(es, d) else []
  {
    if es != [] {
      OnDateTwice(es[1..], x, d);
      if DateOf(es[0]) == x {
        assert OnDate(es, x)[1..] == OnDate(es[1..], x);
      }
    }
  }

  lemma {:induction false} OnDateOfFlatten(es: seq<Entry>, dates: seq<string>, d: string)
    requires Ascending(dates)
    ensures OnDate(Flatten(es, dates), d) == if d in dates then OnDate(es, d) else []
  {
    if dates != [] {
      OnDateOfFlatten(es, dates[1..], d);
      OnDateAppend(OnDate(es, dates[0]), Flatten(es, dates[1..]), d);
      OnDateTwice(es, dates[0], d);
      TailMember(dates, d);
    }
  }

  lemma {:induction false} FlattenMembers(es: seq<Entry>, dates: seq<string>)
    ensures forall e :: e in Flatten(es, dates) <==> e in es && DateOf(e) in dates
  {
    if dates != [] {
      FlattenMembers(es, dates[1..]);
      OnDateMembers(es, dates[0]);
      assert dates == [dates[0]] + dates[1..];
    }
  }

  lemma {:induction false} FlattenNonDecreasing(es: seq<Entry>, dates: seq<string>)
    requires Ascending(dates)
    ensures NonDecreasing(Flatten(es, dates))
  {
    if dates != [] {
      var first, rest := OnDate(es, dates[0]), Flatten(es, dates[1..]);
      FlattenNonDecreasing(es, dates[1..]);
      OnDateMembers(es, dates[0]);
      FlattenMembers(es, dates[1..]);
      var all := first + rest;
      forall i, j | 0 <= i < j < |all| ensures !Before(DateOf(all[j]), DateOf(all[i])) {
        if i < |first| {
          assert all[i] in first;
          BeforeIrreflexive(dates[0]);
          if j < |first| {
            assert all[j] in first;
          } else {
            assert all[j] in rest && DateOf(all[j]) in dates[1..];
            BeforeAsymmetric(dates[0], DateOf(all[j]));
          }
        } else {
          assert all[i] == rest[i - |first|] && all[j] == rest[j - |first|];
        }
      }
    }
  }

  /** Reading back is a stable sort by date: ordered, and each date keeps its entries in their order. */
  lemma ReadBackIsStableSort(es: seq<Entry>)
    ensures NonDecreasing(ReadBack(es))
    ensures forall d :: OnDate(ReadBack(es), d) == OnDate(es, d)
    ensures forall e :: e in ReadBack(es) <==> e in es
  {
    var dates := Sorted(DatesOf(es));
    FlattenNonDecreasing(es, dates);
    FlattenMembers(es, dates);
    forall d ensures OnDate(ReadBack(es), d) == OnDate(es, d) {
      OnDateOfFlatten(es, dates, d);
      OnDateEmpty(es, d);
    }
  }

  lemma {:induction false} FlattenSkipsHead(es: seq<Entry>, dates: seq<string>)
    requires es != [] && DateOf(es[0]) !in dates
    ensures Flatten(es, dates) == Flatten(es[1..], dates)
  {
    if dates != [] {
      assert dates[0] in dates;
      FlattenSkipsHead(es, dates[1..]);
    }
  }

  lemma HeadIsEarliest(es: seq<Entry>)
    requires es != [] && NonDecreasing(es)
    ensures forall x :: x in DatesOf(es) ==> !Before(x, DateOf(es[0]))
  {
    BeforeIrreflexive(DateOf(es[0]));
  }

  /** In a list whose dates never go backwards, the first entry's date leads and the rest follows. */
  lemma SortedHead(es: seq<Entry>)
    requires es != [] && NonDecreasing(es)
    ensures var d, dates := DateOf(es[0]), Sorted(DatesOf(es));
      && dates != [] && dates[0] == d
      && Sorted(DatesOf(es[1..])) == if d in DatesOf(es[1..]) then dates else dates[1..]
  {
    var d, dates := DateOf(es[0]), Sorted(DatesOf(es));
    DatesOfHead(es);
    HeadIsEarliest(es);
    assert d in dates;
    assert dates[0] in dates;
    if d in DatesOf(es[1..]) {
      assert DatesOf(es) == DatesOf(es[1..]);
    } else {
      forall x ensures x in dates[1..] <==> x in Sorted(DatesOf(es[1..])) {
        TailMember(dates, x);
      }
      AscendingIsUnique(dates[1..], Sorted(DatesOf(es[1..])));
    }
  }

  lemma FlattenCons(es: seq<Entry>, d: string, later: seq<string>)
    ensures Flatten(es, [d] + later) == OnDate(es, d) + Flatten(es, later)
  {
    hide DateOf;
    assert ([d] + later)[1..] == later;
  }

  lemma OnDateOfHead(e: Entry, rest: seq<Entry>)
    ensures OnDate([e] + rest, DateOf(e)) == [e] + OnDate(rest, DateOf(e))
  {
    hide DateOf;
    assert ([e] + rest)[1..] == rest;
  }

  /** Flatten over a list whose head has the first date. */
  lemma FlattenHead(e: Entry, rest: seq<Entry>, later: seq<string>)
    requires DateOf(e) !in later
    ensures Flatten([e] + rest, [DateOf(e)] + later) == [e] + (OnDate(rest, DateOf(e)) + Flatten(rest, later))
  {
    hide DateOf, Flatten, OnDate;
    var es, same, tail := [e] + rest, OnDate(rest, DateOf(e)), Flatten(rest, later);
    assert es[1..] == rest;
    FlattenCons(es, DateOf(e), later);
    FlattenSkipsHead(es, later);
    OnDateOfHead(e, rest);
    assert ([e] + same) + tail == [e] + (same + tail);
  }

  lemma ReadBackStep(es: seq<Entry>)
    requires es != [] && NonDecreasing(es)
    ensures ReadBack(es) == [es[0]] + ReadBack(es[1..])
  {
    var e, rest := es[0], es[1..];
    var dates := Sorted(DatesOf(es));
    SortedHead(es);
    var later := dates[1..];
    TailMember(dates, DateOf(e));
    assert es == [e] + rest && dates == [DateOf(e)] + later;
    FlattenHead(e, rest, later);
    if DateOf(e) in DatesOf(rest) {
      FlattenCons(rest, DateOf(e), later);
    } else {
      OnDateEmpty(rest, DateOf(e));
      assert [] + Flatten(rest, later) == Flatten(rest, later);
    }
  }

  lemma {:induction false} OrderedReadsBack(es: seq<Entry>)
    requires NonDecreasing(es)
    ensures ReadBack(es) == es
  {
    if es != [] {
      ReadBackStep(es);
      OrderedReadsBack(es[1..]);
      assert es == [es[0]] + es[1..];
    }
  }

  /** A rebuilt mirror reads back as the list it was built from exactly when that list's dates never go backwards. */
  lemma ReadsBackIffOrdered(es: seq<Entry>)
    ensures ReadBack(es) == es <==> NonDecreasing(es)
  {
    ReadBackIsStableSort(es);
    if NonDecreasing(es) {
      OrderedReadsBack(es);
    }
  }
}
