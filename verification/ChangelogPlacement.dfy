/** Where merged fragments land: under their own heading, above its older entries, in file-name order. */
module ChangelogPlacement {
  import opened WhiteSpace
  import opened ChangelogLines
  import opened Changelog
  import opened ChangelogKept

  /** The section's first heading of the category starts this run of lines. */
  ghost predicate Holds(lines: seq<Line>, c: Category, run: seq<Line>)
    requires HasSection(lines)
  {
    var h := HeadingIn(lines, c);
    && HasHeading(lines, c)
    && run != [] && h + |run| <= End(lines)
    && lines[h..h + |run|] == run
  }

  /** Nothing in the run starts another heading, and it ends in a line that is not blank. */
  ghost predicate IsRun(run: seq<Line>) {
    run != [] && NoHeadings(run[1..]) && !Blank(run[|run| - 1])
  }

  lemma InsideRun(lines: seq<Line>, c: Category, run: seq<Line>, i: nat)
    requires HasSection(lines) && Holds(lines, c, run) && IsRun(run)
    requires HeadingIn(lines, c) < i < HeadingIn(lines, c) + |run|
    ensures !IsHeading(lines[i])
  {
    hide Fits, Blank, IsHeading;
    var k := i - HeadingIn(lines, c);
    assert lines[i] == run[k] == run[1..][k - 1];
  }

  lemma RunEnd(lines: seq<Line>, c: Category, run: seq<Line>)
    requires HasSection(lines) && Holds(lines, c, run) && IsRun(run)
    ensures !Blank(lines[HeadingIn(lines, c) + |run| - 1])
  {
    hide Fits, Blank, IsHeading;
    var h := HeadingIn(lines, c);
    assert lines[h..h + |run|][|run| - 1] == lines[h + |run| - 1];
  }

  /** The cut for another category falls before the run or after it. */
  lemma CutMissesRun(lines: seq<Line>, c: Category, run: seq<Line>, other: Category)
    requires HasSection(lines) && Holds(lines, c, run) && IsRun(run) && c != other
    ensures CutFor(lines, other).until <= HeadingIn(lines, c) ||
      HeadingIn(lines, c) + |run| <= CutFor(lines, other).from
  {
    if HasHeading(lines, other) {
      HeadingCutMissesRun(lines, c, run, other);
    } else {
      NewCutMissesRun(lines, c, run, other);
    }
  }

  lemma HeadingCutMissesRun(lines: seq<Line>, c: Category, run: seq<Line>, other: Category)
    requires HasSection(lines) && Holds(lines, c, run) && IsRun(run) && c != other && HasHeading(lines, other)
    ensures UnderHeading(lines, other).until <= HeadingIn(lines, c) ||
      HeadingIn(lines, c) + |run| <= UnderHeading(lines, other).from
  {
    hide CategoryRank, IsUnreleased, IsH2, IsHeading, IsExactHeading, Blank;
    var h, g := HeadingIn(lines, c), HeadingIn(lines, other);
    ExactHeadingRank(lines[h], c);
    ExactHeadingRank(lines[g], other);
    ExactHeadingIsH3(lines[g], other);
    H3IsHeading(lines[g]);
    if h < g < h + |run| {
      InsideRun(lines, c, run, g);
    }
    ExactHeadingIsH3(lines[h], c);
    H3IsHeading(lines[h]);
  }

  lemma NewCutMissesRun(lines: seq<Line>, c: Category, run: seq<Line>, other: Category)
    requires HasSection(lines) && Holds(lines, c, run) && IsRun(run) && !HasHeading(lines, other)
    ensures NewHeading(lines, other).until <= HeadingIn(lines, c) ||
      HeadingIn(lines, c) + |run| <= NewHeading(lines, other).from
  {
    hide IsUnreleased, IsH2, IsHeading, IsExactHeading, Blank;
    var h, later := HeadingIn(lines, c), Find(RankedAfter(other), lines, Start(lines) + 1, End(lines));
    if later < End(lines) {
      H3IsHeading(lines[later]);
      if h < later < h + |run| {
        InsideRun(lines, c, run, later);
      }
    } else {
      RunEnd(lines, c, run);
    }
  }

  /** A run stays in one piece under its heading whatever goes in for another category. */
  lemma MergeKeepsRun(lines: seq<Line>, c: Category, run: seq<Line>, other: Category, body: seq<Line>)
    requires HasSection(lines) && Holds(lines, c, run) && IsRun(run) && c != other && NoHeadings(body)
    ensures Holds(Merge(lines, other, body), c, run)
  {
    if body != [] {
      var cut, ins := CutFor(lines, other), Inserted(lines, other, body);
      CutForIsInside(lines, other);
      InsertedIsFitting(lines, other, body);
      CutMissesRun(lines, c, run, other);
      SpliceKeepsRun(lines, cut.from, cut.until, ins, other, c, run);
    }
  }

  lemma SpliceKeepsSlice(lines: seq<Line>, from: nat, until: nat, ins: seq<Line>, i: nat, j: nat)
    requires i < j <= |lines| && from <= until <= |lines| && (until <= i || j <= from)
    ensures var r := Splice(lines, from, until, ins);
      var shift := if i < from then 0 else |r| - |lines|;
      0 <= i + shift && j + shift <= |r| && r[i + shift..j + shift] == lines[i..j]
  {
    var r := Splice(lines, from, until, ins);
    if j <= from {
      assert r[i..j] == lines[i..j];
    } else {
      var tail := |lines[..from] + ins|;
      assert i + |r| - |lines| == tail + (i - until);
      assert r[tail + (i - until)..tail + (j - until)] == lines[until..][i - until..j - until];
    }
  }

  lemma SpliceKeepsRun(lines: seq<Line>, from: nat, until: nat, ins: seq<Line>, other: Category, c: Category,
                       run: seq<Line>)
    requires HasSection(lines) && CutIsInside(lines, from, until) && Fitting(ins, other) && c != other
    requires Holds(lines, c, run)
    requires until <= HeadingIn(lines, c) || HeadingIn(lines, c) + |run| <= from
    ensures var r := Splice(lines, from, until, ins); HasSection(r) && Holds(r, c, run)
  {
    hide Fits, Fitting, SameFrame, Blank, IsHeading;
    var r, h := Splice(lines, from, until, ins), HeadingIn(lines, c);
    SpliceKeepsHeading(lines, from, until, ins, other, c);
    SpliceKeepsFrame(lines, from, until, ins, other);
    SpliceKeepsSlice(lines, from, until, ins, h, h + |run|);
  }

  // ---- The category's own step ----

  function HeadingLine(lines: seq<Line>, c: Category): Line
    requires HasSection(lines)
  {
    if HasHeading(lines, c) then lines[HeadingIn(lines, c)] else CategoryHeading(c)
  }

  /** A line between the bodies and older entries that are not list items. */
  function Gap(older: Line): seq<Line> {
    if "- " <= older then [] else [""]
  }

  /** A run that starts with the first heading of its category, between what comes before it and after it. */
  lemma RunStartsAt(r: seq<Line>, above: seq<Line>, run: seq<Line>, below: seq<Line>, c: Category)
    requires HasSection(r) && r == above + run + below && run != [] && IsExactHeading(run[0], c)
    requires Start(r) < |above| && |above| + |run| <= End(r)
    requires forall i :: Start(r) < i < |above| ==> !IsExactHeading(above[i], c)
    ensures Holds(r, c, run) && HeadingIn(r, c) == |above|
  {
    hide IsExactHeading, IsUnreleased, IsH2;
    assert forall i :: 0 <= i < |above| ==> r[i] == above[i];
    assert r[|above|] == run[0];
    FindIs(Exact(c), r, Start(r) + 1, End(r), |above|);
  }

  lemma SpliceUnderLine(lines: seq<Line>, h: nat, until: nat, body: seq<Line>, after: seq<Line>)
    requires h < until <= |lines|
    ensures Splice(lines, h + 1, until, [""] + body + after) ==
      lines[..h] + ([lines[h], ""] + body) + (after + lines[until..])
  {
    var rest := lines[until..];
    assert lines[..h + 1] == lines[..h] + [lines[h]];
    assert lines[..h + 1] + ([""] + body + after) + rest == lines[..h] + ([lines[h], ""] + body) + (after + rest);
  }

  lemma UnderHeadingSplits(lines: seq<Line>, c: Category, body: seq<Line>)
    requires HasSection(lines) && HasHeading(lines, c) && body != []
    ensures var h, cut := HeadingIn(lines, c), UnderHeading(lines, c);
      && Start(lines) < h < cut.until <= End(lines)
      && Merge(lines, c, body) == lines[..h] + ([lines[h], ""] + body) + (cut.after + lines[cut.until..])
  {
    hide Fits, Blank, SkipBlank;
    var h, cut := HeadingIn(lines, c), UnderHeading(lines, c);
    SpliceUnderLine(lines, h, cut.until, body, cut.after);
  }

  lemma MergeUnderHeading(lines: seq<Line>, c: Category, body: seq<Line>)
    requires HasSection(lines) && HasHeading(lines, c) && NoHeadings(body) && body != []
    ensures Holds(Merge(lines, c, body), c, [HeadingLine(lines, c), ""] + body)
    ensures HeadingIn(Merge(lines, c, body), c) == HeadingIn(lines, c)
  {
    hide IsExactHeading, IsUnreleased, IsH2, IsHeading, Blank, Merge, UnderHeading, NoHeadings;
    var r, cut, h := Merge(lines, c, body), UnderHeading(lines, c), HeadingIn(lines, c);
    UnderHeadingSplits(lines, c, body);
    MergedEnd(lines, c, body);
    RunStartsAt(r, lines[..h], [lines[h], ""] + body, cut.after + lines[cut.until..], c);
  }

  lemma MergedEnd(lines: seq<Line>, c: Category, body: seq<Line>)
    requires HasSection(lines) && NoHeadings(body) && body != []
    ensures End(Merge(lines, c, body)) == End(lines) + |Merge(lines, c, body)| - |lines|
  {
    hide Fits, NoHeadings;
    InsertKeepsFrame(lines, c, body);
  }

  lemma NewHeadingSplits(lines: seq<Line>, c: Category, body: seq<Line>)
    requires HasSection(lines) && !HasHeading(lines, c) && body != []
    ensures var cut := NewHeading(lines, c);
      && Start(lines) < cut.from <= cut.until <= End(lines)
      && Merge(lines, c, body) == lines[..cut.from] + NewGap(lines, c)
        + ([CategoryHeading(c), ""] + body) + ([""] + lines[cut.until..])
  {
    hide Fits, Blank, CategoryHeading;
    CutForIsInside(lines, c);
    var cut, gap := NewHeading(lines, c), NewGap(lines, c);
    var above, rest := lines[..cut.from], lines[cut.until..];
    assert above + (gap + [CategoryHeading(c), ""] + body + [""]) + rest ==
      above + gap + ([CategoryHeading(c), ""] + body) + ([""] + rest);
  }

  function NewGap(lines: seq<Line>, c: Category): (g: seq<Line>)
    requires HasSection(lines)
    ensures forall i :: 0 <= i < |g| ==> g[i] == ""
  {
    if Blank(lines[NewPlace(lines, c) - 1]) then [] else [""]
  }

  lemma MergeUnderNewHeading(lines: seq<Line>, c: Category, body: seq<Line>)
    requires HasSection(lines) && !HasHeading(lines, c) && NoHeadings(body) && body != []
    ensures Holds(Merge(lines, c, body), c, [HeadingLine(lines, c), ""] + body)
  {
    hide IsExactHeading, IsUnreleased, IsH2, IsHeading, Blank, Merge, NewHeading, NewGap, NoHeadings, CategoryHeading;
    var r, cut := Merge(lines, c, body), NewHeading(lines, c);
    NewHeadingSplits(lines, c, body);
    var above := lines[..cut.from] + NewGap(lines, c);
    MergedEnd(lines, c, body);
    CategoryHeadingIsExact(c);
    EmptyIsNoHeading(c);
    RunStartsAt(r, above, [CategoryHeading(c), ""] + body, [""] + lines[cut.until..], c);
  }

  lemma EmptyIsNoHeading(c: Category)
    ensures !IsExactHeading("", c)
  {
  }

  /** The blank lines under a heading end where its older entries start. */
  lemma OlderStartAt(lines: seq<Line>, c: Category, gap: seq<Line>, older: seq<Line>)
    requires HasSection(lines) && HasHeading(lines, c)
    requires Holds(lines, c, [HeadingLine(lines, c)] + gap + older)
    requires older != [] && !Blank(older[0]) && forall i :: 0 <= i < |gap| ==> Blank(gap[i])
    ensures var cut, end := UnderHeading(lines, c), HeadingIn(lines, c) + 1 + |gap| + |older|;
      && end <= End(lines) && cut.until == end - |older| && cut.after == Gap(older[0])
      && lines[cut.until..] == older + lines[end..]
  {
    hide Fits, Blank;
    var h, run := HeadingIn(lines, c), [HeadingLine(lines, c)] + gap + older;
    var at := h + 1 + |gap|;
    var found := lines[h..h + |run|];
    forall i | h + 1 <= i < at ensures Blank(lines[i]) {
      assert lines[i] == found[i - h] == run[i - h] == gap[i - h - 1];
    }
    assert lines[at] == found[1 + |gap|] == run[1 + |gap|] == older[0];
    SkipBlankIs(lines, h + 1, End(lines), at);
    forall k | 0 <= k < |older| ensures lines[at + k] == older[k] {
      assert lines[at + k] == found[1 + |gap| + k] == run[1 + |gap| + k];
    }
    assert lines[at..] == older + lines[at + |older|..];
  }

  lemma SkipBlankIs(lines: seq<Line>, i: nat, end: nat, r: nat)
    requires i <= r < end <= |lines| && !Blank(lines[r]) && forall j :: i <= j < r ==> Blank(lines[j])
    ensures SkipBlank(lines, i, end) == r
  {
    hide Blank;
  }

  lemma MergeKeepsOlderBelow(lines: seq<Line>, c: Category, body: seq<Line>, gap: seq<Line>, older: seq<Line>)
    requires HasSection(lines) && HasHeading(lines, c) && NoHeadings(body) && body != []
    requires Holds(lines, c, [HeadingLine(lines, c)] + gap + older)
    requires older != [] && !Blank(older[0]) && forall i :: 0 <= i < |gap| ==> Blank(gap[i])
    ensures Holds(Merge(lines, c, body), c, [HeadingLine(lines, c), ""] + body + Gap(older[0]) + older)
  {
    hide IsExactHeading, IsUnreleased, IsH2, IsHeading, Blank, Merge, UnderHeading, NoHeadings, Holds, Gap;
    var r, cut, h := Merge(lines, c, body), UnderHeading(lines, c), HeadingIn(lines, c);
    var end := h + 1 + |gap| + |older|;
    UnderHeadingSplits(lines, c, body);
    OlderStartAt(lines, c, gap, older);
    MergedEnd(lines, c, body);
    var above, block := lines[..h], [lines[h], ""] + body;
    assert above + block + (Gap(older[0]) + (older + lines[end..])) ==
      above + (block + Gap(older[0]) + older) + lines[end..];
    RunStartsAt(r, above, block + Gap(older[0]) + older, lines[end..], c);
  }

  // ---- The whole run ----

  /** What stands under a heading stays there while the other categories go in. */
  lemma {:induction false} RunStays(lines: seq<Line>, bodies: ByCategory, lo: nat, hi: nat, c: Category, run: seq<Line>)
    requires HasSection(lines) && GoodBodies(bodies) && lo <= hi <= CATEGORY_COUNT && (c < lo || hi <= c)
    requires Holds(After(lines, bodies, lo), c, run) && IsRun(run)
    ensures Holds(After(lines, bodies, hi), c, run)
    decreases hi
  {
    hide Fits, Merge, HasHeading, NoHeadings, GoodBody, Holds, IsRun;
    if lo < hi {
      RunStays(lines, bodies, lo, hi - 1, c, run);
      MergeKeepsRun(After(lines, bodies, hi - 1), c, run, hi - 1, bodies[hi - 1]);
    }
  }

  lemma HeadingIsRun(lines: seq<Line>, c: Category)
    requires HasSection(lines) && HasHeading(lines, c)
    ensures Holds(lines, c, [HeadingLine(lines, c)]) && IsRun([HeadingLine(lines, c)])
  {
    ExactHeadingIsH3(HeadingLine(lines, c), c);
    H3IsHeading(HeadingLine(lines, c));
  }

  lemma HeadingLineStays(lines: seq<Line>, bodies: ByCategory, c: Category)
    requires HasSection(lines) && GoodBodies(bodies)
    ensures HeadingLine(After(lines, bodies, c), c) == HeadingLine(lines, c)
    ensures HasHeading(After(lines, bodies, c), c) <==> HasHeading(lines, c)
  {
    hide Fits, HasHeading, IsRun, NoHeadings, GoodBody, Merge;
    HeadingsComeOnlyFromTheirCategory(lines, bodies, c, c);
    if HasHeading(lines, c) {
      HeadingIsRun(lines, c);
      RunStays(lines, bodies, 0, c, c, [HeadingLine(lines, c)]);
    }
  }

  /** A block of heading and bodies, or a heading line and older entries after it, is a run. */
  lemma BlockIsRun(heading: Line, body: seq<Line>, more: seq<Line>)
    requires GoodBody(body) && NoHeadings(more) && (more != [] ==> !Blank(more[|more| - 1]))
    ensures IsRun([heading, ""] + body + more)
  {
    hide Blank;
    var run := [heading, ""] + body + more;
    assert !IsHeading("");
    assert run[1..] == [""] + body + more;
    assert run[|run| - 1] == if more == [] then body[|body| - 1] else more[|more| - 1];
  }

  lemma StepPlacesBodies(lines: seq<Line>, bodies: ByCategory, c: Category)
    requires HasSection(lines) && GoodBodies(bodies) && bodies[c] != []
    ensures var n := c + 1;
      Holds(After(lines, bodies, n), c, [HeadingLine(lines, c), ""] + bodies[c])
  {
    hide Fits, HasHeading, Holds, NoHeadings, HeadingLine, Merge;
    var before := After(lines, bodies, c);
    HeadingLineStays(lines, bodies, c);
    if HasHeading(before, c) {
      MergeUnderHeading(before, c, bodies[c]);
    } else {
      MergeUnderNewHeading(before, c, bodies[c]);
    }
  }

  /**
   * Every category's bodies end up right under the section's first heading of that category, which is the old
   * one if there was one, with nothing but an empty line between.
   */
  lemma BodiesArePlaced(lines: seq<Line>, bodies: ByCategory, c: Category)
    requires HasSection(lines) && GoodBodies(bodies) && bodies[c] != []
    ensures Holds(After(lines, bodies, CATEGORY_COUNT), c, [HeadingLine(lines, c), ""] + bodies[c])
  {
    hide Fits, HasHeading, Holds, IsRun, HeadingLine, Merge, IsHeading;
    var block, n := [HeadingLine(lines, c), ""] + bodies[c], c + 1;
    StepPlacesBodies(lines, bodies, c);
    BlockIsRun(HeadingLine(lines, c), bodies[c], []);
    assert block + [] == block;
    RunStays(lines, bodies, n, CATEGORY_COUNT, c, block);
  }

  /** Entries that stood under a heading, after any blank lines and up to the next heading. */
  ghost predicate AreOlder(lines: seq<Line>, c: Category, gap: seq<Line>, older: seq<Line>)
    requires HasSection(lines)
  {
    && older != [] && !Blank(older[0]) && !Blank(older[|older| - 1])
    && NoHeadings(gap + older) && (forall i :: 0 <= i < |gap| ==> Blank(gap[i]))
    && Holds(lines, c, [HeadingLine(lines, c)] + gap + older)
  }

  lemma OlderIsRun(heading: Line, gap: seq<Line>, older: seq<Line>)
    requires older != [] && !Blank(older[|older| - 1]) && NoHeadings(gap + older)
    ensures IsRun([heading] + gap + older) && NoHeadings(older)
  {
    hide Blank, IsHeading;
    var run := [heading] + gap + older;
    assert run[1..] == gap + older;
    assert run[|run| - 1] == older[|older| - 1];
    forall i | 0 <= i < |older| ensures !IsHeading(older[i]) {
      assert older[i] == (gap + older)[|gap| + i];
    }
  }

  lemma StepKeepsOlderBelow(lines: seq<Line>, bodies: ByCategory, c: Category, gap: seq<Line>, older: seq<Line>)
    requires HasSection(lines) && GoodBodies(bodies) && bodies[c] != []
    requires HasHeading(lines, c) && AreOlder(lines, c, gap, older)
    ensures var n, block := c + 1, [HeadingLine(lines, c), ""] + bodies[c];
      Holds(After(lines, bodies, n), c, block + Gap(older[0]) + older)
  {
    hide Fits, HasHeading, Holds, NoHeadings, HeadingLine, Merge, IsRun, Gap;
    var before := After(lines, bodies, c);
    HeadingLineStays(lines, bodies, c);
    OlderIsRun(HeadingLine(lines, c), gap, older);
    RunStays(lines, bodies, 0, c, c, [HeadingLine(lines, c)] + gap + older);
    MergeKeepsOlderBelow(before, c, bodies[c], gap, older);
  }

  /**
   * The entries a category already had stay in one piece: right below its new bodies when it gets any (after an
   * empty line if they are no list), and where they were under their heading when it gets none.
   */
  lemma OlderEntriesStayBelow(lines: seq<Line>, bodies: ByCategory, c: Category, gap: seq<Line>, older: seq<Line>)
    requires HasSection(lines) && GoodBodies(bodies) && HasHeading(lines, c) && AreOlder(lines, c, gap, older)
    ensures var above := if bodies[c] == [] then gap else [""] + bodies[c] + Gap(older[0]);
      Holds(After(lines, bodies, CATEGORY_COUNT), c, [HeadingLine(lines, c)] + above + older)
  {
    hide Fits, HasHeading, Holds, IsHeading, HeadingLine, Merge, IsRun, Gap, Blank;
    var n, heading := c + 1, HeadingLine(lines, c);
    OlderIsRun(heading, gap, older);
    if bodies[c] == [] {
      UntouchedRunStays(lines, bodies, c, [heading] + gap + older);
    } else {
      var block := [heading, ""] + bodies[c];
      StepKeepsOlderBelow(lines, bodies, c, gap, older);
      GapIsBlank(older[0]);
      var more := Gap(older[0]) + older;
      BlockIsRun(heading, bodies[c], more);
      assert block + more == block + Gap(older[0]) + older;
      RunStays(lines, bodies, n, CATEGORY_COUNT, c, block + more);
      assert block + more == [heading] + ([""] + bodies[c] + Gap(older[0])) + older;
    }
  }

  lemma GapIsBlank(older: Line)
    ensures NoHeadings(Gap(older))
  {
    assert !IsHeading("");
  }

  lemma UntouchedRunStays(lines: seq<Line>, bodies: ByCategory, c: Category, run: seq<Line>)
    requires HasSection(lines) && GoodBodies(bodies) && bodies[c] == []
    requires Holds(lines, c, run) && IsRun(run)
    ensures Holds(After(lines, bodies, CATEGORY_COUNT), c, run)
  {
    hide Fits, HasHeading, Holds, IsRun, NoHeadings, GoodBody;
    var n := c + 1;
    RunStays(lines, bodies, 0, c, c, run);
    assert After(lines, bodies, n) == After(lines, bodies, c);
    RunStays(lines, bodies, n, CATEGORY_COUNT, c, run);
  }
}
