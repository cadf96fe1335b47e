/** The order of headings and fragments in a merged changelog, and its independence of the listing order. */
module ChangelogOrder {
  import opened Order
  import opened WhiteSpace
  import opened ChangelogLines
  import opened Changelog
  import opened ChangelogKept

  // ---- Headings stay in rank order ----

  ghost predicate RanksUpTo(lines: seq<Line>, i: nat, j: nat, c: Category) {
    forall k :: i <= k < j <= |lines| ==> CategoryRank(lines[k]) <= c
  }

  ghost predicate NoRanksUpTo(lines: seq<Line>, i: nat, j: nat, c: Category) {
    forall k :: i <= k < j <= |lines| ==> CategoryRank(lines[k]) == -1 || CategoryRank(lines[k]) >= c
  }

  /** The category headings of the section come in rank order. */
  ghost predicate InRankOrder(lines: seq<Line>)
    requires HasSection(lines)
  {
    forall i, j :: Start(lines) < i < j < End(lines) && CategoryRank(lines[j]) >= 0 ==>
      CategoryRank(lines[i]) <= CategoryRank(lines[j])
  }

  ghost predicate NoHeading(ins: seq<Line>) {
    forall i :: 0 <= i < |ins| ==> CategoryRank(ins[i]) == -1
  }

  lemma SpliceKeepsRankOrder(lines: seq<Line>, from: nat, until: nat, ins: seq<Line>, c: Category)
    requires HasSection(lines) && CutIsInside(lines, from, until) && Fitting(ins, c) && InRankOrder(lines)
    requires OneRankAtMost(ins, c)
    requires NoHeading(ins) ||
      (RanksUpTo(lines, Start(lines) + 1, from, c) && NoRanksUpTo(lines, until, End(lines), c))
    ensures var r := Splice(lines, from, until, ins); HasSection(r) && InRankOrder(r)
  {
    hide Fits, CategoryRank, IsHeading, Blank, CategoryHeading, Fitting;
    SpliceKeepsFrame(lines, from, until, ins, c);
    var r := Splice(lines, from, until, ins);
    forall i, j | Start(r) < i < j < End(r) && CategoryRank(r[j]) >= 0
      ensures CategoryRank(r[i]) <= CategoryRank(r[j])
    {
      SpliceLine(lines, from, until, ins, i);
      SpliceLine(lines, from, until, ins, j);
    }
  }

  ghost predicate OneRankAtMost(ins: seq<Line>, c: Category) {
    forall i :: 0 <= i < |ins| ==> CategoryRank(ins[i]) in {-1, c as int}
  }

  lemma BodyHasNoRank(body: seq<Line>)
    requires NoHeadings(body)
    ensures NoHeading(body)
  {
    forall i | 0 <= i < |body| ensures CategoryRank(body[i]) == -1 {
      if CategoryRank(body[i]) >= 0 {
        H3IsHeading(body[i]);
      }
    }
  }

  lemma BlankHasNoRank(line: Line)
    requires Blank(line)
    ensures CategoryRank(line) == -1
  {
    if CategoryRank(line) >= 0 {
      H3IsHeading(line);
    }
  }

  lemma InsertedRanks(lines: seq<Line>, c: Category, body: seq<Line>)
    requires HasSection(lines) && NoHeadings(body)
    ensures OneRankAtMost(Inserted(lines, c, body), c)
    ensures HasHeading(lines, c) ==> NoHeading(Inserted(lines, c, body))
  {
    hide Fits, CategoryRank, Blank, IsHeading, NewPlace, CategoryHeading;
    BodyHasNoRank(body);
    CategoryHeadingIsExact(c);
    BlankHasNoRank("") by {
      assert Blank("") by { EmptyIsBlank(); }
    }
    if HasHeading(lines, c) {
      assert Inserted(lines, c, body) == [""] + body + UnderHeading(lines, c).after;
    }
  }

  lemma EmptyIsBlank()
    ensures Blank("")
  {
  }

  /** A new heading goes after every heading of its rank or an earlier one, and before every later one. */
  lemma NewHeadingFitsRanks(lines: seq<Line>, c: Category)
    requires HasSection(lines) && !HasHeading(lines, c) && InRankOrder(lines)
    ensures RanksUpTo(lines, Start(lines) + 1, NewHeading(lines, c).from, c)
    ensures NoRanksUpTo(lines, NewHeading(lines, c).until, End(lines), c)
  {
    hide CategoryRank, Blank, IsUnreleased, IsH2, IsExactHeading;
    var end, later := End(lines), Find(RankedAfter(c), lines, Start(lines) + 1, End(lines));
    forall k | Start(lines) < k < NewHeading(lines, c).from ensures CategoryRank(lines[k]) <= c {
      assert !Fits(RankedAfter(c), lines[k]);
    }
    forall k | NewHeading(lines, c).until <= k < end
      ensures CategoryRank(lines[k]) == -1 || CategoryRank(lines[k]) >= c
    {
      if later == end {
        BlankHasNoRank(lines[k]);
      }
    }
  }

  lemma MergeKeepsRankOrder(lines: seq<Line>, c: Category, body: seq<Line>)
    requires HasSection(lines) && InRankOrder(lines) && NoHeadings(body)
    ensures InRankOrder(Merge(lines, c, body))
  {
    hide Fits, CategoryRank, Blank, IsHeading, NoHeadings;
    if body != [] {
      CutForIsInside(lines, c);
      InsertedIsFitting(lines, c, body);
      InsertedRanks(lines, c, body);
      if !HasHeading(lines, c) {
        NewHeadingFitsRanks(lines, c);
      }
      SpliceKeepsRankOrder(lines, CutFor(lines, c).from, CutFor(lines, c).until, Inserted(lines, c, body), c);
    }
  }

  /** A section whose category headings are in rank order still has them in rank order after the merge. */
  lemma {:induction false} RankOrderIsKept(lines: seq<Line>, bodies: ByCategory, n: nat)
    requires HasSection(lines) && GoodBodies(bodies) && n <= CATEGORY_COUNT && InRankOrder(lines)
    ensures InRankOrder(After(lines, bodies, n))
  {
    hide Fits, Merge, InRankOrder, NoHeadings, GoodBody;
    if n > 0 {
      RankOrderIsKept(lines, bodies, n - 1);
      MergeKeepsRankOrder(After(lines, bodies, n - 1), n - 1, bodies[n - 1]);
    }
  }

  // ---- File-name order ----

  lemma {:induction false} EntriesMember(fragments: seq<Fragment>, c: Category, f: Fragment)
    ensures f in Entries(fragments, c) <==> f in fragments && f.category == c
  {
    if fragments != [] {
      EntriesMember(fragments[1..], c, f);
      assert fragments == [fragments[0]] + fragments[1..];
    }
  }

  lemma {:induction false} EntriesKeepOrder(fragments: seq<Fragment>, c: Category)
    requires OrderedBy(NameOf, fragments)
    ensures OrderedBy(NameOf, Entries(fragments, c))
  {
    if fragments != [] {
      var rest := Entries(fragments[1..], c);
      EntriesKeepOrder(fragments[1..], c);
      if fragments[0].category == c {
        forall j | 0 <= j < |rest| ensures Before(NameOf(fragments[0]), NameOf(rest[j])) {
          EntriesMember(fragments[1..], c, rest[j]);
          var k :| 0 <= k < |fragments[1..]| && fragments[1..][k] == rest[j];
          assert fragments[k + 1] == rest[j];
        }
      }
    }
  }

  /** A category's bodies come from its fragments, all of them, in the order of their file names. */
  lemma EntriesAreInNameOrder(fragments: seq<Fragment>, c: Category, f: Fragment)
    requires DistinctKeys(NameOf, fragments)
    ensures OrderedBy(NameOf, Entries(SortBy(NameOf, fragments), c))
    ensures f in Entries(SortBy(NameOf, fragments), c) <==> f in fragments && f.category == c
  {
    SortByIsOrdered(NameOf, fragments);
    SortByMember(NameOf, fragments, f);
    EntriesKeepOrder(SortBy(NameOf, fragments), c);
    EntriesMember(SortBy(NameOf, fragments), c, f);
  }

  /** The merged text does not depend on the order the directory listed the fragments in. */
  lemma ListingOrderDoesNotMatter(changelog: string, a: seq<Fragment>, b: seq<Fragment>)
    requires DistinctKeys(NameOf, a) && DistinctKeys(NameOf, b) && forall f :: f in a <==> f in b
    ensures Assembled(changelog, a) == Assembled(changelog, b)
  {
    hide Fits;
    SortForgetsOrder(NameOf, a, b);
    SortIsEmptyIff(a);
    SortIsEmptyIff(b);
  }

  // ---- The lines of the text ----

  ghost predicate AreLines(lines: seq<Line>) {
    forall i :: 0 <= i < |lines| ==> OneLine(lines[i])
  }

  lemma {:induction false} BodiesAreLines(entries: seq<Fragment>)
    ensures AreLines(Bodies(entries))
  {
    if entries != [] {
      SplitGivesLines(entries[0].body);
      BodiesAreLines(entries[1..]);
    }
  }

  lemma CategoryHeadingIsLine(c: Category)
    ensures OneLine(CategoryHeading(c)) && OneLine("")
  {
  }

  lemma InsertedIsLines(lines: seq<Line>, c: Category, body: seq<Line>)
    requires HasSection(lines) && AreLines(body)
    ensures AreLines(Inserted(lines, c, body))
  {
    hide Fits, Blank, OneLine, CategoryHeading, NewPlace;
    CategoryHeadingIsLine(c);
  }

  lemma MergeKeepsLines(lines: seq<Line>, c: Category, body: seq<Line>)
    requires HasSection(lines) && AreLines(lines) && AreLines(body)
    ensures AreLines(Merge(lines, c, body))
  {
    hide Fits, Blank, OneLine, CutFor, Inserted;
    CutForIsInside(lines, c);
    InsertedIsLines(lines, c, body);
  }

  lemma {:induction false} AfterIsLines(lines: seq<Line>, ordered: seq<Fragment>, n: nat)
    requires HasSection(lines) && n <= CATEGORY_COUNT && AreLines(lines)
    ensures AreLines(After(lines, BodiesByCategory(ordered), n))
  {
    hide Fits, Merge, AreLines;
    if n > 0 {
      AfterIsLines(lines, ordered, n - 1);
      BodiesAreLines(Entries(ordered, n - 1));
      MergeKeepsLines(After(lines, BodiesByCategory(ordered), n - 1), n - 1, Bodies(Entries(ordered, n - 1)));
    }
  }

  /** The merged text splits into exactly the merged lines, so what holds of the lines holds of the file. */
  lemma TextIsItsLines(changelog: string, fragments: seq<Fragment>)
    requires fragments != [] && HasSection(Split(changelog))
    ensures Assembled(changelog, fragments).Ok?
    ensures Split(Assembled(changelog, fragments).value) ==
      After(Split(changelog), BodiesByCategory(SortBy(NameOf, fragments)), CATEGORY_COUNT)
  {
    hide Fits, OneLine;
    SplitGivesLines(changelog);
    AfterIsLines(Split(changelog), SortBy(NameOf, fragments), CATEGORY_COUNT);
    SplitOfJoin(After(Split(changelog), BodiesByCategory(SortBy(NameOf, fragments)), CATEGORY_COUNT));
  }
}
