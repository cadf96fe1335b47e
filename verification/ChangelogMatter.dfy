/** The front matter of a changelog fragment: where it ends, and what its lines say. */
module ChangelogMatter {
  import opened Wrappers
  import opened WhiteSpace
  import opened ChangelogLines

  /** What the front-matter pattern captures: the lines between the fences, and the rest. */
  datatype Matter = Matter(lines: seq<Line>, rest: string)

  /** A line of front matter as its pattern reads it. */
  datatype FieldLine = Ignored | Unreadable(line: Line) | Field(key: string, value: string)

  // ---- The fences ----

  /** `\r?\n`. */
  function AfterBreak(s: string): Option<string> {
    if "\n" <= s then Some(s[1..]) else if "\r\n" <= s then Some(s[2..]) else None
  }

  /** `\r?\n---`. */
  predicate StartsFence(s: string) {
    "\n---" <= s || "\r\n---" <= s
  }

  /** The first place from `p` on where the closing fence starts, or none: the capture before it is lazy. */
  function FenceFrom(s: string, p: nat): (r: Option<nat>)
    requires p <= |s|
    ensures r.Some? ==> p <= r.value <= |s| && StartsFence(s[r.value..])
    ensures forall i :: p <= i < (if r.Some? then r.value else |s|) ==> !StartsFence(s[i..])
    decreases |s| - p
  {
    if p == |s| then None else if StartsFence(s[p..]) then Some(p) else FenceFrom(s, p + 1)
  }

  /** `\r?\n---\r?\n?`, the rest. */
  function AfterFence(s: string): string
    requires StartsFence(s)
  {
    var rest := if "\n---" <= s then s[4..] else s[5..];
    var unreturned := if "\r" <= rest then rest[1..] else rest;
    if "\n" <= unreturned then unreturned[1..] else unreturned
  }

  /** `.split(/\r?\n/)`: every line but the last loses one return at its end. */
  function SplitLoosely(s: string): seq<Line> {
    Unreturned(Split(s))
  }

  function Unreturned(lines: seq<Line>): seq<Line> {
    if |lines| <= 1 then lines
    else
      var line := lines[0];
      [if line != [] && line[|line| - 1] == '\r' then line[..|line| - 1] else line] + Unreturned(lines[1..])
  }

  /** `^---\r?\n([\s\S]*?)\r?\n---\r?\n?([\s\S]*)$`. */
  function FrontMatter(content: string): Option<Matter> {
    if !("---" <= content) then None
    else match AfterBreak(content[3..])
      case None => None
      case Some(s) =>
        match FenceFrom(s, 0)
        case None => None
        case Some(p) => Some(Matter(SplitLoosely(s[..p]), AfterFence(s[p..])))
  }

  // ---- The fields ----

  predicate IsKeyChar(c: char) {
    'a' <= c <= 'z' || c == '_'
  }

  function KeyLength(line: Line): (n: nat)
    ensures n <= |line| && (n < |line| ==> !IsKeyChar(line[n])) && forall i :: 0 <= i < n ==> IsKeyChar(line[i])
  {
    if line != [] && IsKeyChar(line[0]) then 1 + KeyLength(line[1..]) else 0
  }

  predicate IsQuote(c: char) {
    c == '"' || c == '\''
  }

  /** `.replace(/^["']|["']$/g, '')`. */
  function Unquote(v: string): string {
    var a := if v != [] && IsQuote(v[0]) then 1 else 0;
    var b := if |v| > a && IsQuote(v[|v| - 1]) then |v| - 1 else |v|;
    v[a..b]
  }

  /** What `.` does not match. */
  predicate HoldsTerminator(s: string) {
    exists i :: 0 <= i < |s| && s[i] in "\n\r\U{2028}\U{2029}"
  }

  /** `^([a-z_]+):\s*(.*?)\s*$`, on a line that is neither blank nor a comment. */
  function ReadLine(line: Line): FieldLine {
    var n := KeyLength(line);
    if Blank(line) || "#" <= TrimStart(line) then Ignored
    else if n == 0 || n == |line| || line[n] != ':' then Unreadable(line)
    else
      var value := TrimEnd(TrimStart(line[n + 1..]));
      if HoldsTerminator(value) then Unreadable(line) else Field(line[..n], Unquote(value))
  }

  function ReadLines(lines: seq<Line>): (r: seq<FieldLine>)
    ensures |r| == |lines| && forall i :: 0 <= i < |r| ==> r[i] == ReadLine(lines[i])
  {
    seq(|lines|, i requires 0 <= i < |lines| => ReadLine(lines[i]))
  }

  /** The value of the last `category` field. */
  function CategoryField(fields: seq<FieldLine>, n: nat): Option<string>
    requires n <= |fields|
  {
    if n == 0 then None
    else if fields[n - 1].Field? && fields[n - 1].key == "category" then Some(fields[n - 1].value)
    else CategoryField(fields, n - 1)
  }

  /** The keys in the order they first appear, which is the order a Map lists them in. */
  function KeysIn(fields: seq<FieldLine>, n: nat): seq<string>
    requires n <= |fields|
  {
    if n == 0 then [] else
      var before, f := KeysIn(fields, n - 1), fields[n - 1];
      if f.Field? && f.key !in before then before + [f.key] else before
  }

  function UnreadableIn(fields: seq<FieldLine>, n: nat): seq<Line>
    requires n <= |fields|
  {
    if n == 0 then [] else
      UnreadableIn(fields, n - 1) + if fields[n - 1].Unreadable? then [fields[n - 1].line] else []
  }

  // ---- A front matter that was written as it should be ----

  function Rendered(category: Category, body: string): string {
    "---\n" + (PREFIX + CategoryName(category) + ("\n---\n" + body))
  }

  predicate IsLetter(c: char) {
    'A' <= c <= 'Z' || 'a' <= c <= 'z'
  }

  lemma NameIsLetters(category: Category)
    ensures |CategoryName(category)| >= 5
    ensures forall i :: 0 <= i < |CategoryName(category)| ==> IsLetter(CategoryName(category)[i])
  {
  }

  lemma LetterIsPlain(c: char)
    requires IsLetter(c)
    ensures !IsSpace(c) && !IsQuote(c) && c !in "\n\r\U{2028}\U{2029}" && c != '\n' && c != '\r'
  {
  }

  lemma NameIsPlain(category: Category)
    ensures var name := CategoryName(category);
      && |name| >= 5 && OneLine(name) && '\r' !in name && !HoldsTerminator(name)
      && !IsSpace(name[0]) && !IsSpace(name[|name| - 1]) && !IsQuote(name[0]) && !IsQuote(name[|name| - 1])
  {
    hide CategoryName, IsSpace, IsQuote, IsLetter;
    var name := CategoryName(category);
    NameIsLetters(category);
    forall i | 0 <= i < |name|
      ensures !IsSpace(name[i]) && !IsQuote(name[i]) && name[i] !in "\n\r\U{2028}\U{2029}"
      ensures name[i] != '\n' && name[i] != '\r'
    {
      LetterIsPlain(name[i]);
    }
  }

  lemma {:induction false} FenceAfterLine(line: Line, rest: string, p: nat)
    requires OneLine(line) && '\r' !in line && p <= |line|
    ensures FenceFrom(line + ("\n---" + rest), p) == Some(|line|)
    decreases |line| - p
  {
    var s := line + ("\n---" + rest);
    if p < |line| {
      assert s[p..][0] == line[p] && line[p] in line;
      assert "\n---"[0] == '\n' && "\r\n---"[0] == '\r';
      FenceAfterLine(line, rest, p + 1);
    } else {
      assert s[p..] == "\n---" + rest;
    }
  }

  lemma CategoryLineReads(category: Category)
    ensures ReadLine(PREFIX + CategoryName(category)) == Field("category", CategoryName(category))
  {
    hide IsSpace, CategoryName, HoldsTerminator;
    var name := CategoryName(category);
    var line := PREFIX + name;
    NameIsPlain(category);
    CategoryPrefix(name);
    assert line[9..] == " " + name;
    TrimsToName(name);
  }

  const PREFIX := "category: "

  lemma PrefixIsAKey()
    ensures |PREFIX| == 10 && PREFIX[..8] == "category" && PREFIX[8] == ':' && PREFIX[9] == ' '
    ensures forall i :: 0 <= i < 8 ==> IsKeyChar(PREFIX[i])
    ensures !IsKeyChar(':') && !IsSpace(PREFIX[0]) && PREFIX[0] != '#'
  {
  }

  lemma CategoryPrefix(name: string)
    ensures var line := PREFIX + name;
      && KeyLength(line) == 8 && line[8] == ':' && line[..8] == "category" && line[9..] == " " + name
      && !Blank(line) && !("#" <= TrimStart(line))
  {
    hide PREFIX, IsKeyChar, IsSpace;
    var line := PREFIX + name;
    PrefixIsAKey();
    assert forall i :: 0 <= i < 10 ==> line[i] == PREFIX[i];
    assert line[..8] == PREFIX[..8];
    assert line[9..] == [line[9]] + name;
    KeyStops(line, 8, 0);
    assert TrimStart(line) == line;
  }

  lemma {:induction false} KeyStops(line: Line, n: nat, k: nat)
    requires k <= n < |line| && !IsKeyChar(line[n]) && forall i :: k <= i < n ==> IsKeyChar(line[i])
    ensures KeyLength(line[k..]) == n - k && line[0..] == line
    decreases n - k
  {
    if k < n {
      KeyStops(line, n, k + 1);
      assert line[k..][1..] == line[k + 1..];
    }
  }

  lemma TrimsToName(name: string)
    requires name != [] && !IsSpace(name[0]) && !IsSpace(name[|name| - 1])
    ensures TrimEnd(TrimStart(" " + name)) == name
  {
    assert IsSpace(' ');
    assert " " + name == [' '] + (name + []);
    TrimBoth(' ', name, []);
  }

  lemma FenceIsPassed(body: string)
    ensures StartsFence("\n---" + ("\n" + body)) && AfterFence("\n---" + ("\n" + body)) == body
  {
    var s := "\n---" + ("\n" + body);
    assert s[..4] == "\n---" && s[4..] == "\n" + body;
    assert ("\n" + body)[0] == '\n' && "\r"[0] == '\r';
    assert ("\n" + body)[1..] == body;
  }

  lemma OpeningIsPassed(s: string)
    ensures "---" <= "---\n" + s && AfterBreak(("---\n" + s)[3..]) == Some(s)
  {
    assert ("---\n" + s)[..3] == "---" && ("---\n" + s)[3..] == "\n" + s;
    assert ("\n" + s)[1..] == s;
  }

  /** Front matter written with a category is read back, with the body behind it. */
  lemma RenderedReadsBack(category: Category, body: string)
    ensures FrontMatter(Rendered(category, body)) ==
      Some(Matter([PREFIX + CategoryName(category)], body))
  {
    hide CategoryName, HoldsTerminator, IsSpace, AfterBreak, StartsFence, AfterFence, FenceFrom, Split;
    var line, tail := PREFIX + CategoryName(category), "\n---" + ("\n" + body);
    var s := line + tail;
    NameIsPlain(category);
    CategoryLineIsPlain(CategoryName(category));
    assert "\n---\n" + body == tail;
    OpeningIsPassed(s);
    FenceAfterLine(line, "\n" + body, 0);
    FenceIsPassed(body);
    assert s[..|line|] == line && s[|line|..] == tail;
    SplitOfLine(line, "");
  }

  lemma CategoryLineIsPlain(name: string)
    requires OneLine(name) && '\r' !in name
    ensures OneLine(PREFIX + name) && '\r' !in PREFIX + name
  {
    assert OneLine(PREFIX) && '\r' !in PREFIX;
  }
}
