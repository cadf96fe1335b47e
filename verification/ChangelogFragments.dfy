/** Reading a changelog fragment, what an accepted one guarantees, and what that means for the merged file. */
module ChangelogFragments {
  import opened Wrappers
  import opened Order
  import opened WhiteSpace
  import opened ChangelogLines
  import opened Changelog
  import opened ChangelogMatter
  import opened ChangelogKept
  import opened ChangelogPlacement
  import opened ChangelogOrder

  datatype FragmentError =
    | BadName | NoFrontMatter | UnreadableLine(line: Line) | UnknownField(key: string) | BadCategory
    | EmptyBody | NotAListItem | BodyHasHeadings

  // ---- The name and the category ----

  predicate IsSlugChar(c: char) {
    'a' <= c <= 'z' || '0' <= c <= '9'
  }

  predicate IsFragmentName(name: string) {
    var n := |name| - 3;
    && 1 <= n <= 80 && name[n..] == ".md" && IsSlugChar(name[0])
    && forall i :: 0 <= i < n ==> IsSlugChar(name[i]) || name[i] == '-'
  }

  function CategoryOf(value: Option<string>): int {
    if value.None? then -1 else IndexOfCategory(value.value, 0)
  }

  // ---- The body ----

  /** Where the last line break among the first `n` characters ends, or 0. */
  function AfterLastBreak(s: string, n: nat): (r: nat)
    requires n <= |s|
    ensures r <= n
  {
    if n == 0 then 0 else if s[n - 1] == '\n' then n else AfterLastBreak(s, n - 1)
  }

  /** `.replace(/^\s*\n/, '')`. */
  function DropBlankLines(s: string): string {
    TrimStartIsSuffix(s);
    s[AfterLastBreak(s, |s| - |TrimStart(s)|)..]
  }

  function BodyOf(rest: string): string {
    DropBlankLines(TrimEnd(rest))
  }

  predicate StartsLine(body: string, i: nat)
    requires i < |body|
  {
    i == 0 || body[i - 1] in "\n\r\U{2028}\U{2029}"
  }

  /** `/^#{1,6}\s/m`. */
  predicate HasHeadings(body: string) {
    exists i :: 0 <= i < |body| && StartsLine(body, i) && IsHeading(body[i..])
  }

  // ---- Parsing ----

  predicate FieldsAreFine(fields: seq<FieldLine>) {
    forall i :: 0 <= i < |fields| ==> !fields[i].Unreadable? && (fields[i].Field? ==> fields[i].key == "category")
  }

  predicate BodyIsFine(body: string) {
    "- " <= body && !HasHeadings(body)
  }

  predicate Accepts(fileName: string, content: string) {
    && IsFragmentName(fileName) && FrontMatter(content).Some?
    && var m := FrontMatter(content).value;
      var fields := ReadLines(m.lines);
      FieldsAreFine(fields) && CategoryOf(CategoryField(fields, |fields|)) >= 0 && BodyIsFine(BodyOf(m.rest))
  }

  function UnreadableErrors(lines: seq<Line>): seq<FragmentError> {
    seq(|lines|, i requires 0 <= i < |lines| => UnreadableLine(lines[i]))
  }

  function UnknownErrors(keys: seq<string>, n: nat): seq<FragmentError>
    requires n <= |keys|
  {
    if n == 0 then [] else
      UnknownErrors(keys, n - 1) + if keys[n - 1] == "category" then [] else [UnknownField(keys[n - 1])]
  }

  function BodyErrors(body: string): seq<FragmentError> {
    (if Blank(body) then [EmptyBody] else if "- " <= body then [] else [NotAListItem])
    + (if HasHeadings(body) then [BodyHasHeadings] else [])
  }

  function NameErrors(fileName: string): seq<FragmentError> {
    if IsFragmentName(fileName) then [] else [BadName]
  }

  function CategoryErrors(value: Option<string>): seq<FragmentError> {
    if CategoryOf(value) < 0 then [BadCategory] else []
  }

  /** Everything wrong with a fragment, in the order it is reported. */
  function ErrorsOf(fileName: string, content: string): seq<FragmentError> {
    match FrontMatter(content)
    case None => NameErrors(fileName) + [NoFrontMatter]
    case Some(m) =>
      var fields := ReadLines(m.lines);
      var keys := KeysIn(fields, |fields|);
      NameErrors(fileName) + UnreadableErrors(UnreadableIn(fields, |fields|)) + UnknownErrors(keys, |keys|)
      + CategoryErrors(CategoryField(fields, |fields|)) + BodyErrors(BodyOf(m.rest))
  }

  /** The loop that fills the map of fields; `keys` is the order the map lists them in. */
  method ReadFields(fields: seq<FieldLine>)
    returns (values: map<string, string>, keys: seq<string>, errors: seq<FragmentError>)
    ensures keys == KeysIn(fields, |fields|) && forall k :: k in keys <==> k in values
    ensures errors == UnreadableErrors(UnreadableIn(fields, |fields|))
    ensures (if "category" in values then Some(values["category"]) else None) == CategoryField(fields, |fields|)
  {
    values, keys, errors := map[], [], [];
    for i := 0 to |fields|
      invariant keys == KeysIn(fields, i) && forall k :: k in keys <==> k in values
      invariant errors == UnreadableErrors(UnreadableIn(fields, i))
      invariant (if "category" in values then Some(values["category"]) else None) == CategoryField(fields, i)
    {
      match fields[i] {
        case Ignored =>
        case Unreadable(line) => errors := errors + [UnreadableLine(line)];
        case Field(key, value) =>
          if key !in values {
            keys := keys + [key];
          }
          values := values[key := value];
      }
    }
  }

  method UnknownFields(keys: seq<string>) returns (errors: seq<FragmentError>)
    ensures errors == UnknownErrors(keys, |keys|)
  {
    errors := [];
    for i := 0 to |keys|
      invariant errors == UnknownErrors(keys, i)
    {
      if keys[i] != "category" {
        errors := errors + [UnknownField(keys[i])];
      }
    }
  }

  /** A fragment is read, or everything wrong with it is reported. */
  method ParseChangelogFragment(fileName: string, content: string)
    returns (r: Result<Fragment, seq<FragmentError>>)
    ensures r.Ok? <==> ErrorsOf(fileName, content) == []
    ensures r.Err? ==> r.error == ErrorsOf(fileName, content)
    ensures r.Ok? ==> FrontMatter(content).Some?
    ensures r.Ok? ==> var m := FrontMatter(content).value;
      var fields := ReadLines(m.lines);
      r.value.category == CategoryOf(CategoryField(fields, |fields|))
      && r.value.fileName == fileName && r.value.body == BodyOf(m.rest)
  {
    hide IsFragmentName, Blank, HasHeadings, UnreadableErrors, DropBlankLines;
    var matter := FrontMatter(content);
    if matter.None? {
      return Err(NameErrors(fileName) + [NoFrontMatter]);
    }
    var values, keys, unreadable := ReadFields(ReadLines(matter.value.lines));
    var unknown := UnknownFields(keys);
    var category := if "category" in values then Some(values["category"]) else None;
    var body := BodyOf(matter.value.rest);
    var errors := NameErrors(fileName) + unreadable + unknown + CategoryErrors(category) + BodyErrors(body);
    if errors != [] {
      return Err(errors);
    }
    r := Ok(Fragment(fileName, CategoryOf(category), body));
  }

  lemma {:induction false} NoUnreadableIff(fields: seq<FieldLine>, n: nat)
    requires n <= |fields|
    ensures UnreadableIn(fields, n) == [] <==> forall i :: 0 <= i < n ==> !fields[i].Unreadable?
  {
    if n > 0 {
      NoUnreadableIff(fields, n - 1);
    }
  }

  lemma {:induction false} NoUnknownIff(keys: seq<string>, n: nat)
    requires n <= |keys|
    ensures UnknownErrors(keys, n) == [] <==> forall i :: 0 <= i < n ==> keys[i] == "category"
  {
    if n > 0 {
      NoUnknownIff(keys, n - 1);
    }
  }

  lemma {:induction false} KeysMember(fields: seq<FieldLine>, n: nat, k: string)
    requires n <= |fields|
    ensures k in KeysIn(fields, n) <==> exists i :: 0 <= i < n && fields[i].Field? && fields[i].key == k
  {
    if n > 0 {
      KeysMember(fields, n - 1, k);
    }
  }

  lemma FieldsAreFineIff(fields: seq<FieldLine>)
    ensures var keys := KeysIn(fields, |fields|);
      FieldsAreFine(fields) <==> UnreadableIn(fields, |fields|) == [] && UnknownErrors(keys, |keys|) == []
  {
    var keys := KeysIn(fields, |fields|);
    NoUnreadableIff(fields, |fields|);
    NoUnknownIff(keys, |keys|);
    forall k ensures k in keys <==> exists i :: 0 <= i < |fields| && fields[i].Field? && fields[i].key == k {
      KeysMember(fields, |fields|, k);
    }
    if forall i :: 0 <= i < |keys| ==> keys[i] == "category" {
      forall i | 0 <= i < |fields| && fields[i].Field? ensures fields[i].key == "category" {
        assert fields[i].key in keys;
      }
    } else {
      var i :| 0 <= i < |keys| && keys[i] != "category";
      assert keys[i] in keys;
    }
  }

  lemma BodyIsFineIff(body: string)
    ensures BodyErrors(body) == [] <==> BodyIsFine(body)
  {
    hide HasHeadings;
    if "- " <= body {
      assert !IsSpace(body[0]);
    }
  }

  /** Nothing is wrong exactly with what is accepted. */
  lemma NoErrorsIffAccepted(fileName: string, content: string)
    ensures ErrorsOf(fileName, content) == [] <==> Accepts(fileName, content)
  {
    hide FieldsAreFine, BodyIsFine, BodyErrors, UnknownErrors, UnreadableIn, IsFragmentName, KeysIn, BodyOf;
    match FrontMatter(content) {
      case None =>
      case Some(m) =>
        FieldsAreFineIff(ReadLines(m.lines));
        BodyIsFineIff(BodyOf(m.rest));
    }
  }

  /** A fragment written with a name, a category and a good body reads back as just that. */
  lemma WrittenFragmentIsAccepted(fileName: string, category: Category, body: string)
    requires IsFragmentName(fileName) && BodyOf(body) == body && BodyIsFine(body)
    ensures Accepts(fileName, Rendered(category, body))
    ensures var m := FrontMatter(Rendered(category, body)).value;
      var fields := ReadLines(m.lines);
      CategoryOf(CategoryField(fields, |fields|)) == category && BodyOf(m.rest) == body
  {
    hide BodyIsFine, BodyOf, IsFragmentName, FrontMatter, Rendered, ReadLine, CategoryName;
    RenderedReadsBack(category, body);
    CategoryLineReads(category);
    CategoryFound(category, 0);
    var fields := ReadLines([PREFIX + CategoryName(category)]);
    assert fields[0] == Field("category", CategoryName(category));
  }

  // ---- What acceptance guarantees ----

  /** Where a line starts in the text. */
  function LineStart(text: string, k: nat): (i: nat)
    requires k < |Split(text)|
    ensures i <= |text| && Split(text)[k] <= text[i..]
    ensures if k == 0 then i == 0 else i > 0 && text[i - 1] == '\n'
  {
    if k == 0 then PrefixOfFirst(text); 0
    else if text[0] == '\n' then 1 + LineStart(text[1..], k - 1)
    else 1 + LineStart(text[1..], k)
  }

  lemma {:induction false} PrefixOfFirst(text: string)
    ensures Split(text)[0] <= text
  {
    if text != [] {
      PrefixOfFirst(text[1..]);
      assert text == [text[0]] + text[1..];
    }
  }

  lemma {:induction false} HashesOfPrefix(line: Line, text: string)
    requires line <= text && Hashes(line) < |line|
    ensures Hashes(text) == Hashes(line)
  {
    if line[0] == '#' {
      assert line[1..] <= text[1..];
      HashesOfPrefix(line[1..], text[1..]);
    }
  }

  lemma HeadingLineShows(body: string, k: nat)
    requires k < |Split(body)| && IsHeading(Split(body)[k])
    ensures HasHeadings(body)
  {
    var i := LineStart(body, k);
    HashesOfPrefix(Split(body)[k], body[i..]);
    assert StartsLine(body, i) && IsHeading(body[i..]);
  }

  /** The check on the whole body covers every line of it. */
  lemma HeadinglessBodyHasNoHeadings(body: string)
    requires !HasHeadings(body)
    ensures NoHeadings(Split(body))
  {
    forall k | 0 <= k < |Split(body)| ensures !IsHeading(Split(body)[k]) {
      if IsHeading(Split(body)[k]) {
        HeadingLineShows(body, k);
      }
    }
  }

  lemma {:induction false} LastLineEnds(text: string)
    requires text != [] && text[|text| - 1] != '\n'
    ensures var last := Split(text)[|Split(text)| - 1]; last != [] && last[|last| - 1] == text[|text| - 1]
  {
    if |text| > 1 {
      LastLineEnds(text[1..]);
    } else {
      assert Split(text[1..]) == [""];
    }
  }

  lemma BodyEnds(rest: string)
    requires BodyOf(rest) != []
    ensures !IsSpace(BodyOf(rest)[|BodyOf(rest)| - 1]) && BodyOf(rest)[|BodyOf(rest)| - 1] != '\n'
  {
    TrimEndEnds(rest);
  }

  lemma FirstLineStarts(body: string)
    requires "- " <= body
    ensures "- " <= Split(body)[0]
  {
    assert body[0] == "- "[0] && body[1] == "- "[1];
    assert body[1..][0] == ' ';
    assert Split(body)[0] == [body[0]] + Split(body[1..])[0];
    assert Split(body[1..])[0] == [body[1]] + Split(body[1..][1..])[0];
  }

  /** Whatever the parser accepts has a body the merge can place. */
  lemma AcceptedBodyIsGood(rest: string)
    requires BodyIsFine(BodyOf(rest))
    ensures GoodBody(Split(BodyOf(rest)))
  {
    hide HasHeadings, DropBlankLines, IsHeading, IsSpace;
    var body := BodyOf(rest);
    var lines := Split(body);
    HeadinglessBodyHasNoHeadings(body);
    BodyEnds(rest);
    LastLineEnds(body);
    FirstLineStarts(body);
    var last := lines[|lines| - 1];
    assert !IsSpace(last[|last| - 1]);
    assert !Blank(last);
  }

  // ---- The merged file ----

  ghost predicate WasAccepted(f: Fragment) {
    BodyIsFine(f.body) && exists rest :: f.body == BodyOf(rest)
  }

  ghost predicate WereAccepted(fragments: seq<Fragment>) {
    forall i :: 0 <= i < |fragments| ==> WasAccepted(fragments[i])
  }

  lemma AcceptedAreGood(fragments: seq<Fragment>)
    requires WereAccepted(fragments)
    ensures GoodBodies(BodiesByCategory(SortBy(NameOf, fragments)))
  {
    hide BodyIsFine, BodyOf, GoodBody;
    var sorted := SortBy(NameOf, fragments);
    forall i | 0 <= i < |sorted| ensures GoodBody(Split(sorted[i].body)) {
      SortByMember(NameOf, fragments, sorted[i]);
      assert WasAccepted(sorted[i]);
      var rest :| sorted[i].body == BodyOf(rest);
      AcceptedBodyIsGood(rest);
    }
    GoodFragmentsHaveGoodBodies(sorted);
  }

  /**
   * Merging accepted fragments into a file with an `[Unreleased]` section: the text around the section is kept
   * verbatim, no non-blank line is lost or moved past another, and each category's bodies stand right under its
   * heading in file-name order.
   */
  lemma MergedFile(changelog: string, fragments: seq<Fragment>, c: Category)
    requires HasSection(Split(changelog)) && fragments != [] && WereAccepted(fragments)
    ensures Assembled(changelog, fragments).Ok?
    ensures var lines, r := Split(changelog), Split(Assembled(changelog, fragments).value);
      var bodies := BodiesByCategory(SortBy(NameOf, fragments));
      && HasSection(r) && SameFrame(lines, r)
      && Conserved(NonBlank(lines), NonBlank(r), Additions(lines, bodies, CATEGORY_COUNT))
      && (bodies[c] != [] ==> Holds(r, c, [HeadingLine(lines, c), ""] + bodies[c]))
      && (InRankOrder(lines) ==> InRankOrder(r))
  {
    hide Fits, SameFrame, Conserved, Holds, InRankOrder, HeadingLine, Merge, After, GoodBodies, Additions, Join;
    var lines, bodies := Split(changelog), BodiesByCategory(SortBy(NameOf, fragments));
    AcceptedAreGood(fragments);
    TextIsItsLines(changelog, fragments);
    FrameIsKept(lines, bodies, CATEGORY_COUNT);
    LinesAreConserved(lines, bodies, CATEGORY_COUNT);
    if bodies[c] != [] {
      BodiesArePlaced(lines, bodies, c);
    }
    if InRankOrder(lines) {
      RankOrderIsKept(lines, bodies, CATEGORY_COUNT);
    }
  }
}
