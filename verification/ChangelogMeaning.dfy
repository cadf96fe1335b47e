/** Which lines the merge recognises, spelled out, and what it makes of whole texts. */
module ChangelogMeaning {
  import opened WhiteSpace
  import opened Order
  import opened ChangelogLines
  import opened Changelog
  import opened ChangelogKept
  import opened ChangelogFragments

  // ---- Which lines are which ----

  /** A released section's heading has white space right after two hashes, and no third. */
  lemma SectionHeadings(rest: string)
    ensures IsH2("## " + rest) && IsH2("##\t" + rest)
    ensures !IsH2("##") && !IsH2("###" + rest) && !IsH2("# " + rest) && !IsH2("##[" + rest)
  {
  }

  lemma SpaceIsTrimmed(text: string)
    ensures TrimStart(" " + text) == TrimStart(text)
    ensures text != [] && !IsSpace(text[0]) ==> TrimStart(text) == text
  {
    assert (" " + text)[1..] == text;
  }

  lemma AfterHashes(text: string)
    ensures IsUnreleased("##" + text) <==> "[Unreleased]" <= TrimStart(text)
  {
    assert ("##" + text)[2..] == text;
  }

  /** The unreleased section's heading may leave out the space, but not change a letter. */
  lemma UnreleasedHeadings(rest: string)
    ensures IsUnreleased("##" + (" " + ("[Unreleased]" + rest))) && IsUnreleased("##" + ("[Unreleased]" + rest))
    ensures !IsUnreleased("##" + (" " + ("[unreleased]" + rest))) && !IsUnreleased("##" + (" " + ("Unreleased" + rest)))
  {
    hide IsUnreleased;
    var good, small, bare := "[Unreleased]" + rest, "[unreleased]" + rest, "Unreleased" + rest;
    AfterHashes(good);
    AfterHashes(" " + good);
    AfterHashes(" " + small);
    AfterHashes(" " + bare);
    SpaceIsTrimmed(good);
    SpaceIsTrimmed(small);
    SpaceIsTrimmed(bare);
    assert good[0] == '[' && small[0] == '[' && bare[0] == 'U';
    assert small[1] == 'u' && "[Unreleased]"[1] == 'U' && "[Unreleased]"[0] == '[';
  }

  predicate UnreleasedAt(line: Line, n: nat) {
    && 2 <= n <= |line| - 12 && line[0] == '#' && line[1] == '#'
    && Blank(line[2..n]) && line[n..n + 12] == "[Unreleased]"
  }

  /** It is two hashes, any white space and the name in brackets, whatever follows. */
  lemma UnreleasedIff(line: Line)
    ensures IsUnreleased(line) <==> exists n: nat :: UnreleasedAt(line, n)
  {
    hide UnreleasedAt, IsUnreleased;
    if IsUnreleased(line) {
      NameIsAt(line);
    }
    if n: nat :| UnreleasedAt(line, n) {
      NameIsFound(line, n);
    }
  }

  lemma NameIsAt(line: Line)
    requires IsUnreleased(line)
    ensures exists n: nat :: UnreleasedAt(line, n)
  {
    hide IsSpace, Blank, TrimStart;
    var text := line[2..];
    TrimStartIsSuffix(text);
    TrimStartDropsBlank(text);
    var k := |text| - |TrimStart(text)|;
    NamePrefix(TrimStart(text));
    assert text[k..] == TrimStart(text) && text[k..k + 12] == "[Unreleased]";
    var n: nat := k + 2;
    assert line[2..n] == text[..k] && line[n..n + 12] == text[k..k + 12];
    assert UnreleasedAt(line, n);
  }

  lemma NamePrefix(text: string)
    ensures "[Unreleased]" <= text <==> |text| >= 12 && text[..12] == "[Unreleased]"
  {
    assert |"[Unreleased]"| == 12;
  }

  lemma NameIsFound(line: Line, n: nat)
    requires UnreleasedAt(line, n)
    ensures IsUnreleased(line)
  {
    hide IsSpace, Blank, TrimStart;
    var text, k := line[2..], n - 2;
    assert text == line[2..n] + line[n..];
    assert line[n..][..12] == line[n..n + 12];
    NamePrefix(line[n..]);
    assert line[n..n + 12][0] == '[' == line[n..][0];
    BracketIsNoSpace();
    TrimLead(line[2..n], line[n..]);
  }

  lemma BracketIsNoSpace()
    ensures !IsSpace('[')
  {
  }

  /** A category's heading is three hashes, a space, its name, and nothing but white space behind it. */
  lemma ExactHeadingIff(line: Line, c: Category)
    ensures IsExactHeading(line, c) <==>
      var n := 4 + |CategoryName(c)|; n <= |line| && line[..n] == "### " + CategoryName(c) && Blank(line[n..])
  {
    hide IsSpace;
    var heading := "### " + CategoryName(c);
    var n := |heading|;
    TrimEndIsPrefix(line);
    if n <= |line| && line[..n] == heading && Blank(line[n..]) {
      CategoryHeadingEnds(c);
      TrimEndOf(heading, line[n..]);
      assert line == heading + line[n..];
    }
  }

  lemma CategoryHeadingEnds(c: Category)
    ensures var heading := "### " + CategoryName(c); !IsSpace(heading[|heading| - 1])
  {
    NameIsTrimmed(c);
    var heading := "### " + CategoryName(c);
    assert heading[|heading| - 1] == CategoryName(c)[|CategoryName(c)| - 1];
  }

  /** A heading has a category's rank whatever white space stands around the name. */
  lemma RankIsOfItsName(lead: string, c: Category, tail: string)
    requires lead != [] && Blank(lead) && Blank(tail)
    ensures CategoryRank("###" + lead + CategoryName(c) + tail) == c
  {
    hide IsSpace, CategoryName;
    var line := "###" + lead + CategoryName(c) + tail;
    assert line[3] == lead[0];
    assert line[3..] == lead + (CategoryName(c) + tail);
    NameIsTrimmed(c);
    TrimLead(lead, CategoryName(c) + tail);
    TrimEndOf(CategoryName(c), tail);
    CategoryFound(c, 0);
  }

  lemma {:induction false} TrimLead(lead: string, text: string)
    requires Blank(lead) && text != [] && !IsSpace(text[0])
    ensures TrimStart(lead + text) == text
  {
    hide IsSpace;
    if lead == [] {
      assert lead + text == text;
    } else {
      TrimLead(lead[1..], text);
      assert (lead + text)[1..] == lead[1..] + text;
      assert (lead + text)[0] == lead[0];
    }
  }

  /** Names of one category each, in the order of their ranks. */
  lemma CategoriesInOrder()
    ensures CategoryName(0) == "Added" && CategoryName(1) == "Changed" && CategoryName(2) == "Deprecated"
    ensures CategoryName(3) == "Removed" && CategoryName(4) == "Fixed" && CategoryName(5) == "Security"
  {
  }

  // ---- Where the bodies of one category go ----

  /** The unreleased section starts at its first heading and ends before the next section, or with the file. */
  ghost predicate IsSection(lines: seq<Line>, s: nat, e: nat) {
    && s < e <= |lines| && IsUnreleased(lines[s]) && (e < |lines| ==> IsH2(lines[e]))
    && (forall i :: 0 <= i < s ==> !IsUnreleased(lines[i]))
    && (forall i :: s < i < e ==> !IsH2(lines[i]))
  }

  lemma SectionIs(lines: seq<Line>, s: nat, e: nat)
    requires IsSection(lines, s, e)
    ensures HasSection(lines) && Start(lines) == s && End(lines) == e
  {
    hide IsUnreleased, IsH2;
    FindIs(Unreleased, lines, 0, |lines|, s);
    FindIs(NextSection, lines, s + 1, |lines|, e);
  }

  /**
   * Under the first heading of the category in the section, the bodies take the place of the blank lines there: an
   * empty line above them, and one below unless a list item follows.
   */
  lemma GoesUnderHeading(lines: seq<Line>, c: Category, body: seq<Line>, s: nat, e: nat, h: nat, k: nat)
    requires IsSection(lines, s, e) && body != []
    requires s < h < k <= e && IsExactHeading(lines[h], c)
    requires forall i :: s < i < h ==> !IsExactHeading(lines[i], c)
    requires (forall i :: h < i < k ==> Blank(lines[i])) && (k < e ==> !Blank(lines[k]))
    ensures HasSection(lines)
    ensures Merge(lines, c, body) ==
      lines[..h + 1] + [""] + body + (if k < e && "- " <= lines[k] then [] else [""]) + lines[k..]
  {
    hide IsUnreleased, IsH2, IsExactHeading, Blank, Merge, CutFor, Find;
    SectionIs(lines, s, e);
    CutUnderHeading(lines, c, h, k);
    MergeIsSplice(lines, c, body);
  }

  lemma CutUnderHeading(lines: seq<Line>, c: Category, h: nat, k: nat)
    requires HasSection(lines) && Start(lines) < h < k <= End(lines) && IsExactHeading(lines[h], c)
    requires forall i :: Start(lines) < i < h ==> !IsExactHeading(lines[i], c)
    requires (forall i :: h < i < k ==> Blank(lines[i])) && (k < End(lines) ==> !Blank(lines[k]))
    ensures CutFor(lines, c) == Cut(h + 1, k, [""], if k < End(lines) && "- " <= lines[k] then [] else [""])
  {
    hide IsExactHeading, Blank;
    FindIs(Exact(c), lines, Start(lines) + 1, End(lines), h);
    SkipBlankIs(lines, h + 1, End(lines), k);
  }

  lemma MergeIsSplice(lines: seq<Line>, c: Category, body: seq<Line>)
    requires HasSection(lines) && body != []
    ensures var cut := CutFor(lines, c);
      && cut.from <= cut.until <= |lines|
      && Merge(lines, c, body) == lines[..cut.from] + cut.before + body + cut.after + lines[cut.until..]
  {
    hide CutFor, HasSection;
    CutForIsInside(lines, c);
    var cut := CutFor(lines, c);
    Regroup(lines[..cut.from], cut.before, body, cut.after, lines[cut.until..]);
  }

  lemma SkipBlankIs(lines: seq<Line>, i: nat, end: nat, at: nat)
    requires i <= at <= end <= |lines| && (forall j :: i <= j < at ==> Blank(lines[j]))
    requires at < end ==> !Blank(lines[at])
    ensures SkipBlank(lines, i, end) == at
  {
    hide Blank;
    var r := SkipBlank(lines, i, end);
    assert !(r < at) && !(at < r);
  }

  lemma Regroup(a: seq<Line>, b: seq<Line>, m: seq<Line>, d: seq<Line>, e: seq<Line>)
    ensures a + (b + m + d) + e == a + b + m + d + e
  {
  }

  /** The first later-ranked heading, or what only blank lines follow in the section. */
  ghost predicate IsNewPlace(lines: seq<Line>, c: Category, s: nat, e: nat, at: nat) {
    && s < at <= e <= |lines| && (forall i :: s < i < at ==> CategoryRank(lines[i]) <= c)
    && ((at < e && CategoryRank(lines[at]) > c)
        || ((forall i :: at <= i < e ==> CategoryRank(lines[i]) <= c && Blank(lines[i]))
            && (at == s + 1 || !Blank(lines[at - 1]))))
  }

  /** A category without a heading gets one there, set off by empty lines. */
  lemma GoesUnderNewHeading(lines: seq<Line>, c: Category, body: seq<Line>, s: nat, e: nat, at: nat)
    requires IsSection(lines, s, e) && IsNewPlace(lines, c, s, e, at) && body != []
    requires forall i :: s < i < e ==> !IsExactHeading(lines[i], c)
    ensures HasSection(lines)
    ensures Merge(lines, c, body) ==
      lines[..at] + (if Blank(lines[at - 1]) then [] else [""]) + ["### " + CategoryName(c), ""] + body + [""] +
        lines[if at < |lines| && Blank(lines[at]) then at + 1 else at..]
  {
    hide IsUnreleased, IsH2, IsExactHeading, Blank, CategoryRank, CategoryName, Merge, NewPlace;
    SectionIs(lines, s, e);
    FindIs(Exact(c), lines, s + 1, e, e);
    NewPlaceIs(lines, c, s, e, at);
    MergeIsSplice(lines, c, body);
    var gap := if Blank(lines[at - 1]) then [] else [""];
    assert lines[..at] + (gap + ["### " + CategoryName(c), ""]) == lines[..at] + gap + ["### " + CategoryName(c), ""];
  }

  lemma NewPlaceIs(lines: seq<Line>, c: Category, s: nat, e: nat, at: nat)
    requires HasSection(lines) && Start(lines) == s && End(lines) == e && IsNewPlace(lines, c, s, e, at)
    ensures NewPlace(lines, c) == at
  {
    hide Blank, CategoryRank;
    if at < e && CategoryRank(lines[at]) > c {
      FindIs(RankedAfter(c), lines, s + 1, e, at);
    } else {
      FindIs(RankedAfter(c), lines, s + 1, e, e);
      BackBlankIs(lines, s + 1, e, at);
    }
  }

  lemma {:induction false} BackBlankIs(lines: seq<Line>, low: nat, i: nat, at: nat)
    requires low <= at <= i <= |lines| && (forall j :: at <= j < i ==> Blank(lines[j]))
    requires at == low || !Blank(lines[at - 1])
    ensures BackBlank(lines, low, i) == at
  {
    hide Blank;
    if i > at {
      BackBlankIs(lines, low, i - 1, at);
    }
  }

  // ---- What was released is kept to the letter ----

  lemma {:induction false} SplitOfAppend(a: string, b: string)
    ensures Split(a + "\n" + b) == Split(a) + Split(b)
  {
    if a == [] {
      assert a + "\n" + b == "\n" + b;
      assert ("\n" + b)[1..] == b;
    } else {
      SplitOfAppend(a[1..], b);
      assert (a + "\n" + b)[1..] == a[1..] + "\n" + b;
      AppendSplits(a, a + "\n" + b, b);
    }
  }

  lemma AppendSplits(a: string, whole: string, b: string)
    requires a != [] && whole != [] && whole[0] == a[0] && Split(whole[1..]) == Split(a[1..]) + Split(b)
    ensures Split(whole) == Split(a) + Split(b)
  {
    hide Split;
    SplitOfHead(a);
    SplitOfHead(whole);
    AttachedFirst(a[0], Split(a[1..]), Split(b));
  }

  /** Lines with one more character in front. */
  function Attached(c: char, lines: seq<Line>): seq<Line>
    requires lines != []
  {
    if c == '\n' then [""] + lines else [[c] + lines[0]] + lines[1..]
  }

  lemma AttachedFirst(c: char, lines: seq<Line>, more: seq<Line>)
    requires lines != []
    ensures Attached(c, lines + more) == Attached(c, lines) + more
  {
    assert (lines + more)[0] == lines[0] && (lines + more)[1..] == lines[1..] + more;
  }

  lemma SplitOfHead(text: string)
    requires text != []
    ensures Split(text) == Attached(text[0], Split(text[1..]))
  {
  }

  lemma {:induction false} JoinOfAppend(x: seq<Line>, y: seq<Line>)
    requires x != [] && y != []
    ensures Join(x + y) == Join(x) + "\n" + Join(y)
  {
    if |x| == 1 {
      assert (x + y)[1..] == y;
    } else {
      JoinOfAppend(x[1..], y);
      assert (x + y)[1..] == x[1..] + y;
      assert x[0] + "\n" + (Join(x[1..]) + "\n" + Join(y)) == x[0] + "\n" + Join(x[1..]) + "\n" + Join(y);
    }
  }

  ghost predicate HasUnreleasedLine(text: string) {
    exists i :: 0 <= i < |Split(text)| && "## [Unreleased]" <= Split(text)[i]
  }

  /**
   * Whatever stands behind the unreleased section, from any line that starts with two hashes and a space on, is the
   * end of the merged text to the letter.
   */
  lemma ReleasedTextIsKept(head: string, rest: string, fragments: seq<Fragment>)
    requires HasUnreleasedLine(head) && fragments != [] && WereAccepted(fragments)
    ensures var r := Assembled(head + "\n" + ("## " + rest), fragments);
      r.Ok? && exists merged :: r.value == merged + "\n" + ("## " + rest)
  {
    hide Fits, After, SortBy, Split, Join, GoodBodies;
    var tail := "## " + rest;
    var lines, bodies := Split(head + "\n" + tail), BodiesByCategory(SortBy(NameOf, fragments));
    var k := |Split(head)|;
    SplitOfAppend(head, tail);
    SectionEndsBy(lines, Split(head), Split(tail), rest);
    SplitStarts(rest);
    AcceptedAreGood(fragments);
    FrameIsKept(lines, bodies, CATEGORY_COUNT);
    var r := After(lines, bodies, CATEGORY_COUNT);
    var cut := |r| - |Split(tail)|;
    TailIsKept(lines, r, k);
    JoinOfAppend(r[..cut], Split(tail));
    assert r == r[..cut] + Split(tail);
    JoinOfSplit(tail);
    assert Join(r) == Join(r[..cut]) + "\n" + tail;
  }

  lemma SplitStarts(rest: string)
    ensures "## " <= Split("## " + rest)[0]
  {
    var text := "## " + rest;
    assert text[1..] == "# " + rest && ("# " + rest)[1..] == " " + rest && (" " + rest)[1..] == rest;
    assert Split(" " + rest)[0] == " " + Split(rest)[0];
    assert Split("# " + rest)[0] == "#" + (" " + Split(rest)[0]);
    assert Split(text)[0] == "#" + ("#" + (" " + Split(rest)[0]));
  }

  /** The section starts in the first part and ends by the second. */
  lemma SectionEndsBy(lines: seq<Line>, first: seq<Line>, second: seq<Line>, rest: string)
    requires lines == first + second && second == Split("## " + rest)
    requires exists i :: 0 <= i < |first| && "## [Unreleased]" <= first[i]
    ensures HasSection(lines) && End(lines) <= |first|
  {
    hide IsH2, IsUnreleased, Split;
    var i :| 0 <= i < |first| && "## [Unreleased]" <= first[i];
    var more := first[i][|"## [Unreleased]"|..];
    assert first[i] == "## [Unreleased]" + more == "##" + (" " + ("[Unreleased]" + more));
    UnreleasedHeadings(more);
    assert Fits(Unreleased, lines[i]);
    SplitStarts(rest);
    assert second[0] == "## " + second[0][3..];
    SectionHeadings(second[0][3..]);
    assert Fits(NextSection, lines[|first|]);
  }

  lemma TailIsKept(lines: seq<Line>, r: seq<Line>, k: nat)
    requires HasSection(lines) && HasSection(r) && SameFrame(lines, r) && End(lines) <= k < |lines|
    ensures |r| - (|lines| - k) > 0 && r[|r| - (|lines| - k)..] == lines[k..]
  {
    hide Fits;
    var d := k - End(lines);
    assert |r| - End(r) == |lines| - End(lines) by {
      assert |r[End(r)..]| == |lines[End(lines)..]|;
    }
    assert r[End(r)..][d..] == lines[End(lines)..][d..];
    assert lines[End(lines)..][d..] == lines[k..];
    assert r[End(r)..][d..] == r[End(r) + d..];
  }
}
