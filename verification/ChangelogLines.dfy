/** The lines of a changelog: splitting and joining text, and telling headings apart. */
module ChangelogLines {
  import opened WhiteSpace

  type Line = string

  // ---- Splitting at newlines and joining back ----

  /** `text.split('\n')`: never empty. */
  function Split(text: string): (r: seq<Line>)
    ensures r != []
  {
    if text == [] then [""]
    else
      var rest := Split(text[1..]);
      if text[0] == '\n' then [""] + rest else [[text[0]] + rest[0]] + rest[1..]
  }

  /** `lines.join('\n')`. */
  function Join(lines: seq<Line>): string {
    if lines == [] then "" else if |lines| == 1 then lines[0] else lines[0] + "\n" + Join(lines[1..])
  }

  lemma {:induction false} JoinOfSplit(text: string)
    ensures Join(Split(text)) == text
  {
    if text != [] {
      JoinOfSplit(text[1..]);
      var rest := Split(text[1..]);
      assert text == [text[0]] + text[1..];
      if text[0] == '\n' {
        assert ([""] + rest)[1..] == rest;
        assert Join([""] + rest) == "" + "\n" + Join(rest);
      } else {
        var lines := [[text[0]] + rest[0]] + rest[1..];
        assert lines[1..] == rest[1..];
        if |rest| > 1 {
          assert [text[0]] + (rest[0] + "\n" + Join(rest[1..])) == ([text[0]] + rest[0]) + "\n" + Join(rest[1..]);
        }
      }
    }
  }

  predicate OneLine(line: Line) {
    '\n' !in line
  }

  lemma {:induction false} SplitOfLine(line: Line, text: string)
    requires OneLine(line)
    ensures Split(line) == [line]
    ensures Split(line + "\n" + text) == [line] + Split(text)
  {
    if line == [] {
      assert line + "\n" + text == "\n" + text;
      assert ("\n" + text)[1..] == text;
    } else {
      SplitOfLine(line[1..], text);
      assert line == [line[0]] + line[1..];
      assert (line + "\n" + text)[1..] == line[1..] + "\n" + text;
    }
  }

  lemma {:induction false} SplitOfJoin(lines: seq<Line>)
    requires lines != [] && forall i :: 0 <= i < |lines| ==> OneLine(lines[i])
    ensures Split(Join(lines)) == lines
  {
    if |lines| == 1 {
      SplitOfLine(lines[0], "");
    } else {
      SplitOfJoin(lines[1..]);
      SplitOfLine(lines[0], Join(lines[1..]));
      assert lines == [lines[0]] + lines[1..];
    }
  }

  lemma {:induction false} SplitGivesLines(text: string)
    ensures forall i :: 0 <= i < |Split(text)| ==> OneLine(Split(text)[i])
  {
    if text != [] {
      SplitGivesLines(text[1..]);
    }
  }

  // ---- Headings ----

  /** `^##\s`. */
  predicate IsH2(line: Line) {
    |line| >= 3 && line[0] == '#' && line[1] == '#' && IsSpace(line[2])
  }

  /** `^##\s*\[Unreleased\]`. */
  predicate IsUnreleased(line: Line) {
    |line| >= 2 && line[0] == '#' && line[1] == '#' && "[Unreleased]" <= TrimStart(line[2..])
  }

  const CATEGORY_COUNT: nat := 6

  /** A category by its rank. */
  type Category = c: nat | c < CATEGORY_COUNT

  function CategoryName(c: Category): string {
    if c == 0 then "Added" else if c == 1 then "Changed" else if c == 2 then "Deprecated"
    else if c == 3 then "Removed" else if c == 4 then "Fixed" else "Security"
  }

  predicate IsH3(line: Line) {
    |line| >= 4 && line[0] == '#' && line[1] == '#' && line[2] == '#' && IsSpace(line[3])
  }

  /** `line.trimEnd() === '### ' + category`. */
  predicate IsExactHeading(line: Line, category: Category)
  {
    TrimEnd(line) == "### " + CategoryName(category)
  }

  /** The rank of a category heading, however it is spaced, or -1. */
  function CategoryRank(line: Line): (r: int)
    ensures -1 <= r < CATEGORY_COUNT
    ensures r >= 0 ==> IsH3(line)
  {
    if !IsH3(line) then -1 else IndexOfCategory(TrimEnd(TrimStart(line[3..])), 0)
  }

  function IndexOfCategory(name: string, i: nat): (r: int)
    requires i <= CATEGORY_COUNT
    ensures r == -1 || (i <= r < CATEGORY_COUNT && CategoryName(r) == name)
    decreases CATEGORY_COUNT - i
  {
    if i == CATEGORY_COUNT then -1 else if CategoryName(i) == name then i else IndexOfCategory(name, i + 1)
  }

  function Hashes(line: Line): (n: nat)
    ensures n <= |line| && (n < |line| ==> line[n] != '#') && forall i :: 0 <= i < n ==> line[i] == '#'
  {
    if line != [] && line[0] == '#' then 1 + Hashes(line[1..]) else 0
  }

  /** `^#{1,6}\s` on one line. */
  predicate IsHeading(line: Line) {
    var n := Hashes(line);
    1 <= n <= 6 && n < |line| && IsSpace(line[n])
  }

  function CategoryHeading(category: Category): Line
  {
    "### " + CategoryName(category)
  }

  lemma H2IsHeading(line: Line)
    requires IsH2(line)
    ensures IsHeading(line) && !Blank(line)
  {
    assert Hashes(line) == 2;
    assert !IsSpace(line[0]);
  }

  lemma H3IsHeading(line: Line)
    requires IsH3(line)
    ensures IsHeading(line) && !Blank(line) && !IsH2(line)
  {
    assert Hashes(line) == 3;
    assert !IsSpace(line[0]) && !IsSpace(line[2]);
  }

  lemma ExactHeadingIsH3(line: Line, category: Category)
    requires IsExactHeading(line, category)
    ensures IsH3(line)
  {
    TrimEndIsPrefix(line);
    assert "### "[0] == '#' && "### "[1] == '#' && "### "[2] == '#' && "### "[3] == ' ';
  }

  /** The heading a category gets is recognised as its own and as nothing else. */
  lemma CategoryHeadingIsExact(category: Category)
    ensures IsExactHeading(CategoryHeading(category), category)
    ensures CategoryRank(CategoryHeading(category)) == category
  {
    var line := CategoryHeading(category);
    var name := CategoryName(category);
    assert !IsSpace(name[|name| - 1]) && !IsSpace(name[0]);
    assert line[|line| - 1] == name[|name| - 1];
    assert TrimEnd(line) == line;
    assert line[3..] == " " + name;
    assert TrimStart(" " + name) == TrimStart(name) by {
      assert (" " + name)[1..] == name;
    }
    assert TrimStart(name) == name && TrimEnd(name) == name;
    CategoryFound(category, 0);
  }

  lemma {:induction false} CategoryFound(category: Category, i: nat)
    requires i <= category < CATEGORY_COUNT
    ensures IndexOfCategory(CategoryName(category), i) == category
    decreases category - i
  {
    if i < category {
      NamesDiffer(i, category);
      CategoryFound(category, i + 1);
    }
  }

  lemma NamesDiffer(i: nat, j: nat)
    requires i < j < CATEGORY_COUNT
    ensures CategoryName(i) != CategoryName(j)
  {
    assert CategoryName(i)[0] != CategoryName(j)[0] || |CategoryName(i)| != |CategoryName(j)|;
  }

  lemma NameIsTrimmed(category: Category)
    ensures var name := CategoryName(category);
      name != [] && !IsSpace(name[0]) && !IsSpace(name[|name| - 1])
  {
  }

  /** An exact heading has its category's rank. */
  lemma ExactHeadingRank(line: Line, category: Category)
    requires IsExactHeading(line, category)
    ensures CategoryRank(line) == category
  {
    ExactHeadingIsH3(line, category);
    TrimEndIsPrefix(line);
    var n, name := |TrimEnd(line)|, CategoryName(category);
    NameIsTrimmed(category);
    SplitHeading(line, name, n);
    TrimBoth(line[3], name, line[n..]);
    CategoryFound(category, 0);
  }

  lemma SplitHeading(line: Line, name: string, n: nat)
    requires n <= |line| && line[..n] == "### " + name
    ensures line[3..] == [line[3]] + (name + line[n..])
  {
    assert line == line[..n] + line[n..];
    assert |"### "| == 4;
    assert line[4..n] == name by {
      assert line[..n][4..] == name;
    }
  }
}
