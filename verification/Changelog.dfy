/** Merging changelog fragments into the `[Unreleased]` section, and what the result keeps and where it puts them. */
module Changelog {
  import opened Wrappers
  import opened Order
  import opened WhiteSpace
  import opened ChangelogLines

  datatype Fragment = Fragment(fileName: string, category: Category, body: string)

  // ---- Finding lines ----

  datatype Target = Unreleased | NextSection | Exact(category: Category) | RankedAfter(category: Category)

  predicate Fits(target: Target, line: Line) {
    match target
    case Unreleased => IsUnreleased(line)
    case NextSection => IsH2(line)
    case Exact(c) => IsExactHeading(line, c)
    case RankedAfter(c) => CategoryRank(line) > c
  }

  /** `findIndex` over the lines from `lo` up to `hi`, with `hi` for no match. */
  function Find(target: Target, lines: seq<Line>, lo: nat, hi: nat): (r: nat)
    requires lo <= hi <= |lines|
    ensures lo <= r <= hi && (r < hi ==> Fits(target, lines[r]))
    ensures forall i :: lo <= i < r ==> !Fits(target, lines[i])
    decreases hi - lo
  {
    hide Fits;
    if lo == hi || Fits(target, lines[lo]) then lo else Find(target, lines, lo + 1, hi)
  }

  function Start(lines: seq<Line>): nat {
    Find(Unreleased, lines, 0, |lines|)
  }

  predicate HasSection(lines: seq<Line>) {
    Start(lines) < |lines|
  }

  function End(lines: seq<Line>): (e: nat)
    requires HasSection(lines)
    ensures Start(lines) < e <= |lines|
  {
    Find(NextSection, lines, Start(lines) + 1, |lines|)
  }

  // ---- One category ----

  function SkipBlank(lines: seq<Line>, i: nat, end: nat): (r: nat)
    requires i <= end <= |lines|
    ensures i <= r <= end && (r < end ==> !Blank(lines[r]))
    ensures forall j :: i <= j < r ==> Blank(lines[j])
    decreases end - i
  {
    if i < end && Blank(lines[i]) then SkipBlank(lines, i + 1, end) else i
  }

  function BackBlank(lines: seq<Line>, low: nat, i: nat): (r: nat)
    requires low <= i <= |lines|
    ensures low <= r <= i
    ensures forall j :: r <= j < i ==> Blank(lines[j])
  {
    if i > low && Blank(lines[i - 1]) then BackBlank(lines, low, i - 1) else i
  }

  /** The lines from `from` to `until` give way to `before`, the bodies and `after`. */
  datatype Cut = Cut(from: nat, until: nat, before: seq<Line>, after: seq<Line>)

  function HeadingIn(lines: seq<Line>, c: Category): (h: nat)
    requires HasSection(lines)
  {
    Find(Exact(c), lines, Start(lines) + 1, End(lines))
  }

  predicate HasHeading(lines: seq<Line>, c: Category)
    requires HasSection(lines)
  {
    HeadingIn(lines, c) < End(lines)
  }

  function UnderHeading(lines: seq<Line>, c: Category): Cut
    requires HasSection(lines) && HasHeading(lines, c)
  {
    var h, end := HeadingIn(lines, c), End(lines);
    var at := SkipBlank(lines, h + 1, end);
    Cut(h + 1, at, [""], if at < end && "- " <= lines[at] then [] else [""])
  }

  /** Where a missing heading goes. */
  function NewPlace(lines: seq<Line>, c: Category): (at: nat)
    requires HasSection(lines)
    ensures Start(lines) < at <= End(lines)
  {
    var start, end := Start(lines), End(lines);
    var later := Find(RankedAfter(c), lines, start + 1, end);
    if later < end then later else BackBlank(lines, start + 1, end)
  }

  function NewHeading(lines: seq<Line>, c: Category): Cut
    requires HasSection(lines)
  {
    var at := NewPlace(lines, c);
    Cut(at, if at < |lines| && Blank(lines[at]) then at + 1 else at,
      (if Blank(lines[at - 1]) then [] else [""]) + [CategoryHeading(c), ""], [""])
  }

  function CutFor(lines: seq<Line>, c: Category): Cut
    requires HasSection(lines)
  {
    if HasHeading(lines, c) then UnderHeading(lines, c) else NewHeading(lines, c)
  }

  function Inserted(lines: seq<Line>, c: Category, body: seq<Line>): seq<Line>
    requires HasSection(lines)
  {
    CutFor(lines, c).before + body + CutFor(lines, c).after
  }

  function Splice(lines: seq<Line>, from: nat, until: nat, ins: seq<Line>): seq<Line>
    requires from <= until <= |lines|
  {
    lines[..from] + ins + lines[until..]
  }

  /** A cut lies inside the section and removes blank lines only. */
  ghost predicate CutIsInside(lines: seq<Line>, from: nat, until: nat)
    requires HasSection(lines)
  {
    && Start(lines) < from <= until <= End(lines)
    && forall i :: from <= i < until ==> Blank(lines[i])
  }

  lemma CutForIsInside(lines: seq<Line>, c: Category)
    requires HasSection(lines)
    ensures CutIsInside(lines, CutFor(lines, c).from, CutFor(lines, c).until)
  {
    if !HasHeading(lines, c) {
      var at, end := NewPlace(lines, c), End(lines);
      if at == end && at < |lines| {
        H2IsHeading(lines[at]);
      }
    }
  }

  function Insert(lines: seq<Line>, c: Category, body: seq<Line>): (r: seq<Line>)
    requires HasSection(lines)
    ensures HasSection(r) && Start(r) == Start(lines)
  {
    var cut := CutFor(lines, c);
    CutForIsInside(lines, c);
    var r := Splice(lines, cut.from, cut.until, Inserted(lines, c, body));
    SpliceKeepsStart(lines, cut.from, cut.until, Inserted(lines, c, body));
    r
  }

  lemma SpliceKeepsStart(lines: seq<Line>, from: nat, until: nat, ins: seq<Line>)
    requires HasSection(lines) && CutIsInside(lines, from, until)
    ensures var r := Splice(lines, from, until, ins); HasSection(r) && Start(r) == Start(lines)
  {
    var r, s := Splice(lines, from, until, ins), Start(lines);
    assert forall i :: 0 <= i <= s ==> r[i] == lines[i];
    assert Fits(Unreleased, r[s]);
  }

  // ---- All categories ----

  function NameOf(f: Fragment): string {
    f.fileName
  }

  function Entries(fragments: seq<Fragment>, c: Category): seq<Fragment> {
    if fragments == [] then []
    else if fragments[0].category == c then [fragments[0]] + Entries(fragments[1..], c)
    else Entries(fragments[1..], c)
  }

  function Bodies(entries: seq<Fragment>): (r: seq<Line>)
    ensures entries != [] ==> r != []
  {
    if entries == [] then [] else Split(entries[0].body) + Bodies(entries[1..])
  }

  type ByCategory = b: seq<seq<Line>> | |b| == CATEGORY_COUNT witness [[], [], [], [], [], []]

  /** The lines each category has to merge, in the order of the given fragments. */
  function BodiesByCategory(ordered: seq<Fragment>): (r: ByCategory)
    ensures forall c: Category :: r[c] == Bodies(Entries(ordered, c))
  {
    seq(CATEGORY_COUNT, c requires 0 <= c < CATEGORY_COUNT => Bodies(Entries(ordered, c)))
  }

  function Merge(lines: seq<Line>, c: Category, body: seq<Line>): (r: seq<Line>)
    requires HasSection(lines)
    ensures HasSection(r) && Start(r) == Start(lines)
  {
    if body == [] then lines else Insert(lines, c, body)
  }

  /** The lines once the first `n` categories are in. */
  function After(lines: seq<Line>, bodies: ByCategory, n: nat): (r: seq<Line>)
    requires HasSection(lines) && n <= CATEGORY_COUNT
    ensures HasSection(r) && Start(r) == Start(lines)
  {
    if n == 0 then lines else Merge(After(lines, bodies, n - 1), n - 1, bodies[n - 1])
  }

  datatype ChangelogError = NoUnreleasedSection

  lemma {:induction false} EveryFragmentHasACategory(fragments: seq<Fragment>)
    ensures fragments != [] ==> exists c: Category :: Entries(fragments, c) != []
  {
    if fragments != [] {
      assert Entries(fragments, fragments[0].category) != [];
    }
  }

  method SkipBlankLines(lines: seq<Line>, first: nat, end: nat) returns (insertAt: nat)
    requires first <= end <= |lines|
    ensures insertAt == SkipBlank(lines, first, end)
  {
    insertAt := first;
    while insertAt < end && Blank(lines[insertAt])
      invariant first <= insertAt <= end
      invariant SkipBlank(lines, first, end) == SkipBlank(lines, insertAt, end)
    {
      insertAt := insertAt + 1;
    }
  }

  method InsertUnderHeading(lines: seq<Line>, c: Category, bodyLines: seq<Line>) returns (r: seq<Line>)
    requires HasSection(lines) && HasHeading(lines, c)
    ensures var cut := UnderHeading(lines, c);
      cut.from <= cut.until <= |lines| && r == Splice(lines, cut.from, cut.until, cut.before + bodyLines + cut.after)
  {
    hide Fits, SkipBlank, Blank;
    var headingIndex, end := HeadingIn(lines, c), End(lines);
    var insertAt := SkipBlankLines(lines, headingIndex + 1, end);
    var gap := if insertAt < end && "- " <= lines[insertAt] then [] else [""];
    r := Splice(lines, headingIndex + 1, insertAt, [""] + bodyLines + gap);
  }

  method PlaceOfNewHeading(lines: seq<Line>, c: Category) returns (insertAt: nat)
    requires HasSection(lines)
    ensures insertAt == NewPlace(lines, c)
  {
    hide Fits;
    var start, end := Start(lines), End(lines);
    insertAt := Find(RankedAfter(c), lines, start + 1, end);
    if insertAt == end {
      while insertAt > start + 1 && Blank(lines[insertAt - 1])
        invariant start < insertAt <= end
        invariant BackBlank(lines, start + 1, end) == BackBlank(lines, start + 1, insertAt)
      {
        insertAt := insertAt - 1;
      }
    }
  }

  method InsertNewHeading(lines: seq<Line>, c: Category, bodyLines: seq<Line>) returns (r: seq<Line>)
    requires HasSection(lines)
    ensures var cut := NewHeading(lines, c);
      cut.from <= cut.until <= |lines| && r == Splice(lines, cut.from, cut.until, cut.before + bodyLines + cut.after)
  {
    hide Fits, NewPlace, Blank, CategoryHeading;
    var insertAt := PlaceOfNewHeading(lines, c);
    var gap := if Blank(lines[insertAt - 1]) then [] else [""];
    var rest := if insertAt < |lines| && Blank(lines[insertAt]) then insertAt + 1 else insertAt;
    r := Splice(lines, insertAt, rest, gap + [CategoryHeading(c), ""] + bodyLines + [""]);
  }

  method InsertCategory(lines: seq<Line>, c: Category, bodyLines: seq<Line>) returns (r: seq<Line>)
    requires HasSection(lines)
    ensures r == Insert(lines, c, bodyLines)
  {
    if HasHeading(lines, c) {
      r := InsertUnderHeading(lines, c, bodyLines);
    } else {
      r := InsertNewHeading(lines, c, bodyLines);
    }
  }

  /** The merge fails when there are fragments but no section, and otherwise the categories go in by rank. */
  function Assembled(changelog: string, fragments: seq<Fragment>): Result<string, ChangelogError> {
    var lines := Split(changelog);
    if fragments == [] then Ok(changelog)
    else if !HasSection(lines) then Err(NoUnreleasedSection)
    else Ok(Join(After(lines, BodiesByCategory(SortBy(NameOf, fragments)), CATEGORY_COUNT)))
  }

  method AssembleChangelog(changelog: string, fragments: seq<Fragment>) returns (r: Result<string, ChangelogError>)
    ensures r == Assembled(changelog, fragments)
  {
    hide Fits, Insert, Split, Join, SortBy;
    var ordered := SortBy(NameOf, fragments);
    SortIsEmptyIff(fragments);
    EveryFragmentHasACategory(ordered);
    var original := Split(changelog);
    JoinOfSplit(changelog);
    var lines := original;
    var n := 0;
    while n < CATEGORY_COUNT
      invariant n <= CATEGORY_COUNT
      invariant HasSection(original) ==> lines == After(original, BodiesByCategory(ordered), n)
      invariant !HasSection(original) ==> forall c: Category :: c < n ==> Entries(ordered, c) == []
      invariant !HasSection(original) || fragments == [] ==> lines == original
    {
      var entries := Entries(ordered, n);
      if entries != [] {
        if !HasSection(lines) {
          return Err(NoUnreleasedSection);
        }
        lines := InsertCategory(lines, n, Bodies(entries));
      }
      n := n + 1;
    }
    r := Ok(Join(lines));
  }

  lemma SortIsEmptyIff(fragments: seq<Fragment>)
    ensures SortBy(NameOf, fragments) == [] <==> fragments == []
  {
    if fragments != [] {
      SortByMember(NameOf, fragments, fragments[0]);
    }
  }
}
