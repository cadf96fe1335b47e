/** What merging fragments keeps: everything outside the section, and every non-blank line inside it, in order. */
module ChangelogKept {
  import opened WhiteSpace
  import opened ChangelogLines
  import opened Changelog

  /** What the fragment parser guarantees of a body. */
  ghost predicate GoodBody(body: seq<Line>) {
    && body != [] && "- " <= body[0] && !Blank(body[|body| - 1])
    && NoHeadings(body)
  }

  ghost predicate NoHeadings(lines: seq<Line>) {
    forall i :: 0 <= i < |lines| ==> !IsHeading(lines[i])
  }

  ghost predicate GoodFragments(fragments: seq<Fragment>) {
    forall i :: 0 <= i < |fragments| ==> GoodBody(Split(fragments[i].body))
  }

  ghost predicate GoodBodies(bodies: ByCategory) {
    forall c: Category :: (bodies[c] == [] || GoodBody(bodies[c])) && NoHeadings(bodies[c])
  }

  lemma GoodFragmentsHaveGoodBodies(fragments: seq<Fragment>)
    requires GoodFragments(fragments)
    ensures GoodBodies(BodiesByCategory(fragments))
  {
    forall c: Category ensures var bodies := Bodies(Entries(fragments, c)); bodies == [] || GoodBody(bodies) {
      BodiesAreGood(fragments, c);
    }
  }

  lemma {:induction false} BodiesAreGood(fragments: seq<Fragment>, c: Category)
    requires GoodFragments(fragments)
    ensures var bodies := Bodies(Entries(fragments, c)); bodies == [] || GoodBody(bodies)
  {
    if fragments != [] {
      var f, rest := fragments[0], Entries(fragments[1..], c);
      BodiesAreGood(fragments[1..], c);
      if f.category == c {
        assert ([f] + rest)[1..] == rest;
        GoodBodiesJoin(Split(f.body), Bodies(rest));
      }
    }
  }

  lemma GoodBodiesJoin(a: seq<Line>, b: seq<Line>)
    requires GoodBody(a) && (b == [] || GoodBody(b))
    ensures GoodBody(a + b)
  {
    var both := a + b;
    assert both[|both| - 1] == if b == [] then a[|a| - 1] else b[|b| - 1];
  }

  // ---- What a cut puts in ----

  /** Inserted lines: blank ones, bodies and at most the category's own heading. */
  ghost predicate Fitting(ins: seq<Line>, c: Category) {
    forall i :: 0 <= i < |ins| ==> ins[i] == CategoryHeading(c) || !IsHeading(ins[i])
  }

  lemma InsertedIsFitting(lines: seq<Line>, c: Category, body: seq<Line>)
    requires HasSection(lines) && NoHeadings(body)
    ensures Fitting(Inserted(lines, c, body), c)
  {
    hide Fits;
    assert !IsHeading("");
  }

  lemma FittingHasNoSection(line: Line, c: Category)
    requires line == CategoryHeading(c) || !IsHeading(line)
    ensures !IsH2(line)
    ensures CategoryRank(line) in {-1, c as int}
    ensures forall d: Category :: IsExactHeading(line, d) ==> d == c
  {
    if line == CategoryHeading(c) {
      CategoryHeadingIsExact(c);
      H3IsHeading(line);
      forall d: Category | IsExactHeading(line, d) ensures d == c {
        ExactHeadingRank(line, d);
      }
    } else {
      if IsH2(line) {
        H2IsHeading(line);
      }
      if IsH3(line) {
        H3IsHeading(line);
      }
      forall d: Category ensures !IsExactHeading(line, d) {
        if IsExactHeading(line, d) {
          ExactHeadingIsH3(line, d);
        }
      }
    }
  }

  // ---- The frame ----

  /** Lines up to the section heading and from the section end on are kept verbatim. */
  ghost predicate SameFrame(lines: seq<Line>, r: seq<Line>)
    requires HasSection(lines) && HasSection(r)
  {
    && Start(r) == Start(lines)
    && r[..Start(r) + 1] == lines[..Start(lines) + 1]
    && r[End(r)..] == lines[End(lines)..]
  }

  /** Where a line of a splice comes from. */
  lemma SpliceLine(lines: seq<Line>, from: nat, until: nat, ins: seq<Line>, i: nat)
    requires from <= until <= |lines| && i < |Splice(lines, from, until, ins)|
    ensures var r := Splice(lines, from, until, ins);
      if i < from then r[i] == lines[i]
      else if i < from + |ins| then r[i] == ins[i - from]
      else r[i] == lines[i - |ins| - from + until]
  {
  }

  function Moved(lines: seq<Line>, from: nat, until: nat, ins: seq<Line>, h: nat): int
    requires from <= until <= |lines|
  {
    if h < from then h else h + |ins| - (until - from)
  }

  /** A first match that is not cut away is still the first one if nothing put in matches. */
  lemma FirstMatchMoves(target: Target, lines: seq<Line>, from: nat, until: nat, ins: seq<Line>, lo: nat, h: nat)
    requires lo <= from <= until <= |lines| && lo <= h <= |lines| && (h < from || until <= h)
    requires forall i :: lo <= i < h ==> !Fits(target, lines[i])
    requires forall i :: 0 <= i < |ins| ==> !Fits(target, ins[i])
    ensures var r, moved := Splice(lines, from, until, ins), Moved(lines, from, until, ins, h);
      && lo <= moved <= |r|
      && (forall i :: lo <= i < moved ==> !Fits(target, r[i]))
      && (h < |lines| ==> moved < |r| && r[moved] == lines[h])
  {
    hide Fits;
    var r, moved := Splice(lines, from, until, ins), Moved(lines, from, until, ins, h);
    forall i | lo <= i < moved ensures !Fits(target, r[i]) {
      SpliceLine(lines, from, until, ins, i);
    }
    if h < |lines| {
      SpliceLine(lines, from, until, ins, moved);
    }
  }

  lemma FittingMatchesNothingElse(ins: seq<Line>, c: Category)
    requires Fitting(ins, c)
    ensures forall i :: 0 <= i < |ins| ==> !Fits(NextSection, ins[i])
    ensures forall i, d: Category :: 0 <= i < |ins| && d != c ==> !Fits(Exact(d), ins[i])
  {
    hide IsH2, IsExactHeading, CategoryRank, IsHeading, CategoryHeading;
    forall i | 0 <= i < |ins|
      ensures !Fits(NextSection, ins[i]) && forall d: Category :: d != c ==> !Fits(Exact(d), ins[i])
    {
      FittingHasNoSection(ins[i], c);
    }
  }

  lemma SpliceKeepsTail(lines: seq<Line>, from: nat, until: nat, ins: seq<Line>, e: nat)
    requires from <= until <= e <= |lines|
    ensures var r := Splice(lines, from, until, ins); r[Moved(lines, from, until, ins, e)..] == lines[e..]
  {
    var head := lines[..from] + ins;
    assert Splice(lines, from, until, ins)[|head| + (e - until)..] == lines[until..][e - until..];
  }

  lemma SpliceKeepsFrame(lines: seq<Line>, from: nat, until: nat, ins: seq<Line>, c: Category)
    requires HasSection(lines) && CutIsInside(lines, from, until) && Fitting(ins, c)
    ensures var r := Splice(lines, from, until, ins);
      HasSection(r) && SameFrame(lines, r) && End(r) == End(lines) + |r| - |lines|
  {
    hide Fits, Fitting, Blank;
    SpliceKeepsStart(lines, from, until, ins);
    FittingMatchesNothingElse(ins, c);
    var r, e := Splice(lines, from, until, ins), End(lines);
    FirstMatchMoves(NextSection, lines, from, until, ins, Start(lines) + 1, e);
    FindIs(NextSection, r, Start(r) + 1, |r|, Moved(lines, from, until, ins, e));
    SpliceKeepsTail(lines, from, until, ins, e);
    assert r[..Start(r) + 1] == lines[..Start(lines) + 1];
  }

  /** The first match is the only line that can be one. */
  lemma FindIs(target: Target, lines: seq<Line>, lo: nat, hi: nat, r: nat)
    requires lo <= r <= hi <= |lines| && (r < hi ==> Fits(target, lines[r]))
    requires forall i :: lo <= i < r ==> !Fits(target, lines[i])
    ensures Find(target, lines, lo, hi) == r
  {
  }

  lemma {:induction false} FrameIsKept(lines: seq<Line>, bodies: ByCategory, n: nat)
    requires HasSection(lines) && n <= CATEGORY_COUNT && GoodBodies(bodies)
    ensures SameFrame(lines, After(lines, bodies, n))
  {
    hide Fits, Merge, HasHeading, NoHeadings, GoodBody;
    if n > 0 {
      FrameIsKept(lines, bodies, n - 1);
      MergeKeepsFrame(lines, After(lines, bodies, n - 1), n - 1, bodies[n - 1]);
    }
  }

  lemma MergeKeepsFrame(lines: seq<Line>, before: seq<Line>, c: Category, body: seq<Line>)
    requires HasSection(lines) && HasSection(before) && SameFrame(lines, before) && NoHeadings(body)
    ensures SameFrame(lines, Merge(before, c, body))
  {
    if body != [] {
      InsertKeepsFrame(before, c, body);
      FrameIsTransitive(lines, before, Insert(before, c, body));
    }
  }

  lemma FrameIsTransitive(a: seq<Line>, b: seq<Line>, c: seq<Line>)
    requires HasSection(a) && HasSection(b) && HasSection(c) && SameFrame(a, b) && SameFrame(b, c)
    ensures SameFrame(a, c)
  {
  }

  lemma InsertKeepsFrame(lines: seq<Line>, c: Category, body: seq<Line>)
    requires HasSection(lines) && NoHeadings(body)
    ensures SameFrame(lines, Insert(lines, c, body))
    ensures End(Insert(lines, c, body)) == End(lines) + |Insert(lines, c, body)| - |lines|
  {
    var cut := CutFor(lines, c);
    CutForIsInside(lines, c);
    InsertedIsFitting(lines, c, body);
    SpliceKeepsFrame(lines, cut.from, cut.until, Inserted(lines, c, body), c);
  }

  // ---- Conservation ----

  function NonBlank(lines: seq<Line>): seq<Line> {
    if lines == [] then [] else
      var rest := NonBlank(lines[1..]);
      if Blank(lines[0]) then rest else [lines[0]] + rest
  }

  /** `x` is what is left of `y` after striking out some of its lines. */
  ghost predicate Within(x: seq<Line>, y: seq<Line>) {
    x == [] || (y != [] && ((x[0] == y[0] && Within(x[1..], y[1..])) || Within(x, y[1..])))
  }

  lemma {:induction false} NonBlankConcat(a: seq<Line>, b: seq<Line>)
    ensures NonBlank(a + b) == NonBlank(a) + NonBlank(b)
  {
    if a == [] {
      assert a + b == b;
    } else {
      NonBlankConcat(a[1..], b);
      assert (a + b)[1..] == a[1..] + b;
    }
  }

  lemma {:induction false} BlankLinesVanish(lines: seq<Line>)
    requires forall i :: 0 <= i < |lines| ==> Blank(lines[i])
    ensures NonBlank(lines) == []
  {
    if lines != [] {
      BlankLinesVanish(lines[1..]);
    }
  }

  lemma {:induction false} WithinItself(x: seq<Line>)
    ensures Within(x, x)
  {
    if x != [] {
      WithinItself(x[1..]);
    }
  }

  lemma {:induction false} WithinGrows(x: seq<Line>, more: seq<Line>)
    ensures Within(x, more + x)
  {
    if more == [] {
      assert more + x == x;
      WithinItself(x);
    } else {
      WithinGrows(x, more[1..]);
      assert (more + x)[1..] == more[1..] + x;
    }
  }

  lemma {:induction false} WithinInserted(a: seq<Line>, ins: seq<Line>, b: seq<Line>)
    ensures Within(a + b, a + ins + b)
  {
    if a == [] {
      assert a + b == b && a + ins + b == ins + b;
      WithinGrows(b, ins);
    } else {
      WithinInserted(a[1..], ins, b);
      assert (a + b)[1..] == a[1..] + b && (a + ins + b)[1..] == a[1..] + ins + b;
    }
  }

  lemma {:induction false} WithinIsTransitive(x: seq<Line>, y: seq<Line>, z: seq<Line>)
    requires Within(x, y) && Within(y, z)
    ensures Within(x, z)
    decreases |z|
  {
    if x != [] {
      if y[0] == z[0] && Within(y[1..], z[1..]) {
        if x[0] == y[0] && Within(x[1..], y[1..]) {
          WithinIsTransitive(x[1..], y[1..], z[1..]);
        } else {
          WithinIsTransitive(x, y[1..], z[1..]);
        }
      } else {
        WithinIsTransitive(x, y, z[1..]);
      }
    }
  }

  /** The heading a category brings along. */
  function Brought(lines: seq<Line>, c: Category): seq<Line>
    requires HasSection(lines)
  {
    if HasHeading(lines, c) then [] else [CategoryHeading(c)]
  }

  lemma HeadingNonBlank(c: Category, gap: seq<Line>)
    requires gap == [] || gap == [""]
    ensures NonBlank(gap + [CategoryHeading(c), ""]) == [CategoryHeading(c)]
  {
    CategoryHeadingIsExact(c);
    H3IsHeading(CategoryHeading(c));
    NonBlankConcat(gap, [CategoryHeading(c), ""]);
    BlankLinesVanish(gap);
    BlankLinesVanish([""]);
    assert [CategoryHeading(c), ""][1..] == [""];
  }

  lemma CutNonBlank(lines: seq<Line>, c: Category)
    requires HasSection(lines)
    ensures NonBlank(CutFor(lines, c).before) == Brought(lines, c) && NonBlank(CutFor(lines, c).after) == []
  {
    BlankLinesVanish([""]);
    if !HasHeading(lines, c) {
      HeadingNonBlank(c, if Blank(lines[NewPlace(lines, c) - 1]) then [] else [""]);
    }
  }

  lemma InsertedNonBlank(lines: seq<Line>, c: Category, body: seq<Line>)
    requires HasSection(lines)
    ensures NonBlank(Inserted(lines, c, body)) == Brought(lines, c) + NonBlank(body)
  {
    CutNonBlank(lines, c);
    ConcatNonBlank(CutFor(lines, c).before, body, CutFor(lines, c).after);
  }

  lemma ConcatNonBlank(a: seq<Line>, b: seq<Line>, c: seq<Line>)
    ensures NonBlank(a + b + c) == NonBlank(a) + NonBlank(b) + NonBlank(c)
  {
    NonBlankConcat(a + b, c);
    NonBlankConcat(a, b);
  }

  lemma SpliceNonBlank(lines: seq<Line>, from: nat, until: nat, ins: seq<Line>)
    requires HasSection(lines) && CutIsInside(lines, from, until)
    ensures NonBlank(lines) == NonBlank(lines[..from]) + NonBlank(lines[until..])
    ensures NonBlank(Splice(lines, from, until, ins)) ==
      NonBlank(lines[..from]) + NonBlank(ins) + NonBlank(lines[until..])
  {
    hide Fits;
    assert lines == lines[..from] + lines[from..until] + lines[until..];
    ConcatNonBlank(lines[..from], lines[from..until], lines[until..]);
    BlankLinesVanish(lines[from..until]);
    ConcatNonBlank(lines[..from], ins, lines[until..]);
  }

  lemma InsertConserves(lines: seq<Line>, c: Category, body: seq<Line>)
    requires HasSection(lines)
    ensures Conserved(NonBlank(lines), NonBlank(Insert(lines, c, body)),
      multiset(Brought(lines, c)) + multiset(NonBlank(body)))
  {
    var cut := CutFor(lines, c);
    CutForIsInside(lines, c);
    var ins := Inserted(lines, c, body);
    SpliceNonBlank(lines, cut.from, cut.until, ins);
    InsertedNonBlank(lines, c, body);
    WithinInserted(NonBlank(lines[..cut.from]), NonBlank(ins), NonBlank(lines[cut.until..]));
  }

  // ---- Headings of other categories ----

  /** A heading is not blank, so no cut takes it away. */
  lemma CutMissesHeading(lines: seq<Line>, from: nat, until: nat, d: Category)
    requires HasSection(lines) && CutIsInside(lines, from, until)
    ensures HeadingIn(lines, d) < from || until <= HeadingIn(lines, d)
  {
    hide CategoryRank, IsUnreleased, IsH2, IsHeading, IsExactHeading, Blank;
    var h := HeadingIn(lines, d);
    if h < End(lines) {
      ExactHeadingIsH3(lines[h], d);
      H3IsHeading(lines[h]);
    }
  }

  lemma SpliceKeepsHeading(lines: seq<Line>, from: nat, until: nat, ins: seq<Line>, c: Category, d: Category)
    requires HasSection(lines) && CutIsInside(lines, from, until) && Fitting(ins, c) && c != d
    ensures var r := Splice(lines, from, until, ins);
      && HasSection(r)
      && (HasHeading(r, d) <==> HasHeading(lines, d))
      && (HasHeading(lines, d) ==>
        HeadingIn(r, d) == HeadingIn(lines, d) + if HeadingIn(lines, d) < from then 0 else |r| - |lines|)
  {
    hide Fits, Fitting, Blank, SameFrame;
    SpliceKeepsFrame(lines, from, until, ins, c);
    FittingMatchesNothingElse(ins, c);
    CutMissesHeading(lines, from, until, d);
    var r, h := Splice(lines, from, until, ins), HeadingIn(lines, d);
    var moved := Moved(lines, from, until, ins, h);
    FirstMatchMoves(Exact(d), lines, from, until, ins, Start(lines) + 1, h);
    SpliceKeepsStart(lines, from, until, ins);
    FindIs(Exact(d), r, Start(r) + 1, End(r), moved);
  }

  lemma MergeKeepsHeading(lines: seq<Line>, c: Category, body: seq<Line>, d: Category)
    requires HasSection(lines) && NoHeadings(body) && c != d
    ensures HasHeading(Merge(lines, c, body), d) <==> HasHeading(lines, d)
  {
    if body != [] {
      CutForIsInside(lines, c);
      InsertedIsFitting(lines, c, body);
      SpliceKeepsHeading(lines, CutFor(lines, c).from, CutFor(lines, c).until, Inserted(lines, c, body), c, d);
    }
  }

  lemma {:induction false} HeadingsComeOnlyFromTheirCategory(lines: seq<Line>, bodies: ByCategory, n: nat, d: Category)
    requires HasSection(lines) && GoodBodies(bodies) && n <= d
    ensures HasHeading(After(lines, bodies, n), d) <==> HasHeading(lines, d)
  {
    hide Fits, Merge, HasHeading, NoHeadings, GoodBody;
    if n > 0 {
      HeadingsComeOnlyFromTheirCategory(lines, bodies, n - 1, d);
      MergeKeepsHeading(After(lines, bodies, n - 1), n - 1, bodies[n - 1], d);
    }
  }

  // ---- The whole run ----

  function Addition(lines: seq<Line>, c: Category, body: seq<Line>): multiset<Line>
    requires HasSection(lines)
  {
    if body == [] then multiset{} else multiset(Brought(lines, c)) + multiset(NonBlank(body))
  }

  /** All non-blank lines the first `n` categories bring: bodies, and the headings the section lacked. */
  function Additions(lines: seq<Line>, bodies: ByCategory, n: nat): multiset<Line>
    requires HasSection(lines) && n <= CATEGORY_COUNT
  {
    if n == 0 then multiset{} else Additions(lines, bodies, n - 1) + Addition(lines, n - 1, bodies[n - 1])
  }

  /** `y` holds the lines of `x` in order, and beyond them exactly `added`. */
  ghost predicate Conserved(x: seq<Line>, y: seq<Line>, added: multiset<Line>) {
    Within(x, y) && multiset(y) == multiset(x) + added
  }

  lemma ConservedStep(x: seq<Line>, y: seq<Line>, z: seq<Line>, added: multiset<Line>, more: multiset<Line>)
    requires Conserved(x, y, added) && Conserved(y, z, more)
    ensures Conserved(x, z, added + more)
  {
    WithinIsTransitive(x, y, z);
  }

  lemma ConservedItself(x: seq<Line>)
    ensures Conserved(x, x, multiset{})
  {
    WithinItself(x);
  }

  lemma MergeConserves(lines: seq<Line>, before: seq<Line>, c: Category, body: seq<Line>, added: multiset<Line>)
    requires HasSection(lines) && HasSection(before) && (HasHeading(lines, c) <==> HasHeading(before, c))
    requires Conserved(NonBlank(lines), NonBlank(before), added)
    ensures Conserved(NonBlank(lines), NonBlank(Merge(before, c, body)), added + Addition(lines, c, body))
  {
    if body == [] {
      ConservedItself(NonBlank(before));
    } else {
      InsertConserves(before, c, body);
    }
    ConservedStep(NonBlank(lines), NonBlank(before), NonBlank(Merge(before, c, body)), added,
      Addition(lines, c, body));
  }

  /**
   * No non-blank line is lost, duplicated or moved past another: the old ones are left when new ones are struck
   * out, and the new ones are exactly the bodies and the missing headings.
   */
  lemma {:induction false} LinesAreConserved(lines: seq<Line>, bodies: ByCategory, n: nat)
    requires HasSection(lines) && n <= CATEGORY_COUNT && GoodBodies(bodies)
    ensures Conserved(NonBlank(lines), NonBlank(After(lines, bodies, n)), Additions(lines, bodies, n))
  {
    hide Fits, Merge, Conserved, GoodBody, NoHeadings, HasHeading, Addition;
    if n == 0 {
      ConservedItself(NonBlank(lines));
    } else {
      LinesAreConserved(lines, bodies, n - 1);
      HeadingsComeOnlyFromTheirCategory(lines, bodies, n - 1, n - 1);
      MergeConserves(lines, After(lines, bodies, n - 1), n - 1, bodies[n - 1], Additions(lines, bodies, n - 1));
    }
  }
}
