/** How a fragment's name, front matter and lines are read, spelled out over their text. */
module FragmentMeaning {
  import opened Wrappers
  import opened WhiteSpace
  import opened ChangelogLines
  import opened ChangelogMatter
  import opened ChangelogFragments

  // ---- Names and headings ----

  predicate IsLowerOrDigit(c: char) {
    c in "abcdefghijklmnopqrstuvwxyz" || c in "0123456789"
  }

  lemma LowerOrDigitIff(c: char)
    ensures IsSlugChar(c) <==> IsLowerOrDigit(c)
  {
    assert IsSlugChar(c) ==> c in "abcdefghijklmnopqrstuvwxyz" || c in "0123456789";
  }

  /** A fragment's name is a stem of 1 to 80 lower-case letters, digits and dashes, no dash first, and `.md`. */
  lemma FragmentNameIff(stem: string)
    ensures IsFragmentName(stem + ".md") <==>
      && 1 <= |stem| <= 80 && IsLowerOrDigit(stem[0])
      && forall i :: 0 <= i < |stem| ==> IsLowerOrDigit(stem[i]) || stem[i] == '-'
  {
    hide IsSlugChar, IsLowerOrDigit;
    var name := stem + ".md";
    assert name[|stem|..] == ".md";
    forall c ensures IsSlugChar(c) <==> IsLowerOrDigit(c) {
      LowerOrDigitIff(c);
    }
    assert forall i :: 0 <= i < |stem| ==> name[i] == stem[i];
  }

  lemma OtherNamesAreRefused(name: string)
    requires |name| < 3 || name[|name| - 3..] != ".md"
    ensures !IsFragmentName(name)
  {
  }

  predicate HashesThenSpace(line: Line, n: nat) {
    1 <= n <= 6 && n < |line| && IsSpace(line[n]) && forall i :: 0 <= i < n ==> line[i] == '#'
  }

  /** A line is a heading exactly when it starts with one to six hashes and white space. */
  lemma HeadingIff(line: Line)
    ensures IsHeading(line) <==> exists n: nat :: HashesThenSpace(line, n)
  {
    hide IsSpace;
    HashIsNoSpace();
    if IsHeading(line) {
      assert HashesThenSpace(line, Hashes(line));
    }
    if n: nat :| HashesThenSpace(line, n) {
      assert !(Hashes(line) < n) && !(n < Hashes(line));
    }
  }

  lemma HashIsNoSpace()
    ensures !IsSpace('#')
  {
  }

  ghost predicate HeadingStartsAt(body: string, i: nat, n: nat) {
    && i < |body| && (i == 0 || body[i - 1] == '\n' || body[i - 1] == '\r' || body[i - 1] in "\U{2028}\U{2029}")
    && HashesThenSpace(body[i..], n)
  }

  /** A body has a heading exactly when one starts where a line starts. */
  lemma HasHeadingsIff(body: string)
    ensures HasHeadings(body) <==> exists i: nat, n: nat :: HeadingStartsAt(body, i, n)
  {
    hide IsHeading, HashesThenSpace;
    forall line ensures IsHeading(line) <==> exists n: nat :: HashesThenSpace(line, n) {
      HeadingIff(line);
    }
    if HasHeadings(body) {
      var i :| 0 <= i < |body| && StartsLine(body, i) && IsHeading(body[i..]);
      var n: nat :| HashesThenSpace(body[i..], n);
      assert HeadingStartsAt(body, i, n);
    }
    if i: nat, n: nat :| HeadingStartsAt(body, i, n) {
      assert StartsLine(body, i) && IsHeading(body[i..]);
    }
  }

  /** The body is what is left without the blank lines before it and the white space behind it; an indent stays. */
  lemma BodyIs(lead: string, indent: string, text: string, tail: string)
    requires Blank(lead) && (lead != [] ==> lead[|lead| - 1] == '\n')
    requires Blank(indent) && '\n' !in indent && Blank(tail)
    requires text != [] && !IsSpace(text[0]) && !IsSpace(text[|text| - 1])
    ensures BodyOf(lead + indent + text + tail) == indent + text
  {
    hide IsSpace, AfterLastBreak;
    var s := lead + indent + text;
    assert s[|s| - 1] == text[|text| - 1];
    TrimEndOf(s, tail);
    var n := |lead| + |indent|;
    assert s[..n] == lead + indent && s[n] == text[0];
    LeadIsTrimmed(s, n);
    LastBreakIs(s, |lead|, n);
    assert s[|lead|..] == indent + text;
  }

  lemma {:induction false} LastBreakIs(s: string, k: nat, n: nat)
    requires k <= n <= |s| && (k > 0 ==> s[k - 1] == '\n') && forall i :: k <= i < n ==> s[i] != '\n'
    ensures AfterLastBreak(s, n) == k
  {
    if n > k {
      LastBreakIs(s, k, n - 1);
    }
  }

  // ---- One line of front matter ----

  ghost predicate IsComment(line: Line) {
    exists n: nat :: n < |line| && Blank(line[..n]) && line[n] == '#'
  }

  /** A line says nothing exactly when it is blank or its first visible character is a hash. */
  lemma IgnoredIff(line: Line)
    ensures ReadLine(line).Ignored? <==> Blank(line) || IsComment(line)
  {
    hide IsSpace, IsKeyChar, KeyLength, HoldsTerminator, Unquote;
    HashIsNoSpace();
    if "#" <= TrimStart(line) {
      TrimStartIsSuffix(line);
      TrimStartDropsBlank(line);
      var n: nat := |line| - |TrimStart(line)|;
      assert line[n] == TrimStart(line)[0];
    }
    if n: nat :| n < |line| && Blank(line[..n]) && line[n] == '#' {
      LeadIsTrimmed(line, n);
      assert line[n..][0] == '#';
    }
  }

  lemma {:induction false} LeadIsTrimmed(s: string, n: nat)
    requires n < |s| && Blank(s[..n]) && !IsSpace(s[n])
    ensures TrimStart(s) == s[n..]
  {
    hide IsSpace;
    if n > 0 {
      var lead := s[..n];
      assert lead[0] == s[0] && s[1..][..n - 1] == lead[1..];
      LeadIsTrimmed(s[1..], n - 1);
    }
  }

  predicate IsKey(c: char) {
    c in "abcdefghijklmnopqrstuvwxyz" || c == '_'
  }

  lemma KeyIff(c: char)
    ensures IsKeyChar(c) <==> IsKey(c)
  {
    assert IsKeyChar(c) ==> c in "abcdefghijklmnopqrstuvwxyz" || c == '_';
  }

  /** A key of lower-case letters and underscores stands before the colon at `n`. */
  predicate KeyEndsAt(line: Line, n: nat) {
    0 < n < |line| && line[n] == ':' && forall i :: 0 <= i < n ==> IsKey(line[i])
  }

  lemma KeyLengthIff(line: Line)
    ensures var n := KeyLength(line);
      KeyEndsAt(line, n) <==> n > 0 && n < |line| && line[n] == ':'
    ensures forall n: nat :: KeyEndsAt(line, n) ==> n == KeyLength(line)
  {
    hide IsKeyChar, IsKey;
    forall c ensures IsKeyChar(c) <==> IsKey(c) {
      KeyIff(c);
    }
    ColonIsNoKey();
    forall n: nat | KeyEndsAt(line, n) ensures n == KeyLength(line) {
      assert !(KeyLength(line) < n) && !(n < KeyLength(line));
    }
  }

  lemma ColonIsNoKey()
    ensures !IsKey(':')
  {
  }

  /**
   * A line that is not ignored is a field exactly when a key stands before a colon and the value behind it, without
   * the white space around it, holds no line terminator. The value loses a quote at either end.
   */
  lemma FieldIff(line: Line)
    requires !ReadLine(line).Ignored?
    ensures ReadLine(line).Field? <==>
      exists n: nat :: KeyEndsAt(line, n) && !HoldsTerminator(TrimEnd(TrimStart(line[n + 1..])))
    ensures forall n: nat :: KeyEndsAt(line, n) && ReadLine(line).Field? ==>
      ReadLine(line).key == line[..n] && ReadLine(line).value == Unquote(TrimEnd(TrimStart(line[n + 1..])))
    ensures !ReadLine(line).Field? ==> ReadLine(line) == Unreadable(line)
  {
    hide IsSpace, IsKeyChar, IsKey, HoldsTerminator, Unquote;
    KeyLengthIff(line);
  }

  /** Either quote is taken off either end, matching or not, and nothing else is. */
  lemma QuotesComeOff(q: char, v: string, p: char)
    requires q in "\"'" && p in "\"'" && v != [] && v[0] !in "\"'" && v[|v| - 1] !in "\"'"
    ensures Unquote(v) == v && Unquote([q] + v) == v && Unquote(v + [p]) == v && Unquote([q] + v + [p]) == v
    ensures Unquote([q]) == "" && Unquote([q, p]) == ""
  {
    assert ([q] + v)[1..] == v && (v + [p])[..|v|] == v;
    assert ([q] + v + [p])[1..|v| + 1] == v;
  }

  // ---- The lines together ----

  ghost predicate IsCategoryAt(fields: seq<FieldLine>, k: nat) {
    k < |fields| && fields[k].Field? && fields[k].key == "category"
  }

  ghost predicate IsLastCategoryAt(fields: seq<FieldLine>, n: nat, k: nat) {
    k < n && IsCategoryAt(fields, k) && forall j: nat :: k < j < n ==> !IsCategoryAt(fields, j)
  }

  /** The category is the value of the last field of that key, if there is one. */
  lemma {:induction false} CategoryFieldIs(fields: seq<FieldLine>, n: nat)
    requires n <= |fields|
    ensures CategoryField(fields, n).None? <==> forall k: nat :: k < n ==> !IsCategoryAt(fields, k)
    ensures forall k: nat :: IsLastCategoryAt(fields, n, k) ==> CategoryField(fields, n) == Some(fields[k].value)
  {
    if n > 0 {
      CategoryFieldIs(fields, n - 1);
      var last: nat := n - 1;
      if !IsCategoryAt(fields, last) {
        assert forall k: nat :: IsLastCategoryAt(fields, n, k) ==> IsLastCategoryAt(fields, last, k);
      }
    }
  }

  /** The keys are those of the fields, each once. */
  lemma {:induction false} KeysAre(fields: seq<FieldLine>, n: nat)
    requires n <= |fields|
    ensures forall key :: key in KeysIn(fields, n) <==>
      exists k :: 0 <= k < n && fields[k].Field? && fields[k].key == key
    ensures forall i, j :: 0 <= i < j < |KeysIn(fields, n)| ==> KeysIn(fields, n)[i] != KeysIn(fields, n)[j]
  {
    if n > 0 {
      KeysAre(fields, n - 1);
      var before := KeysIn(fields, n - 1);
      assert forall i :: 0 <= i < |before| ==> before[i] in before;
    }
  }

  // ---- The fences ----

  /** Front matter without the opening fence on a line of its own is none. */
  lemma NoOpeningNoMatter(content: string)
    requires !("---\n" <= content) && !("---\r\n" <= content)
    ensures FrontMatter(content).None?
  {
    hide FenceFrom, SplitLoosely, AfterFence;
    if "---" <= content {
      OpeningIsWhole(content);
    }
  }

  lemma OpeningIsWhole(content: string)
    requires "---" <= content
    ensures "\n" <= content[3..] ==> "---\n" <= content
    ensures "\r\n" <= content[3..] ==> "---\r\n" <= content
  {
    var rest := content[3..];
    assert content == "---" + rest;
    assert "\n" <= rest ==> rest == "\n" + rest[1..];
    assert "\r\n" <= rest ==> rest == "\r\n" + rest[2..];
  }

  /** A line may end with a return before its break, which is not part of it. */
  lemma SplitLooselyNext(line: Line, more: string)
    requires OneLine(line) && (line != [] ==> line[|line| - 1] != '\r')
    ensures SplitLoosely(line + "\r\n" + more) == [line] + SplitLoosely(more)
    ensures SplitLoosely(line + "\n" + more) == [line] + SplitLoosely(more)
  {
    var returned := line + "\r";
    assert line + "\r\n" + more == returned + "\n" + more;
    assert OneLine(returned) && returned[..|returned| - 1] == line;
    SplitOfLine(returned, more);
    SplitOfLine(line, more);
    UnreturnedNext(returned, Split(more));
    UnreturnedNext(line, Split(more));
  }

  lemma UnreturnedNext(line: Line, rest: seq<Line>)
    requires rest != []
    ensures Unreturned([line] + rest) ==
      [if line != [] && line[|line| - 1] == '\r' then line[..|line| - 1] else line] + Unreturned(rest)
  {
    assert ([line] + rest)[1..] == rest;
  }

  /** A fragment written with returns before its breaks reads like one without. */
  lemma ReturnsDoNotMatter(line: Line, body: string)
    requires OneLine(line) && '\r' !in line
    ensures FrontMatter("---\r\n" + (line + ("\r\n---" + ("\r\n" + body)))) == Some(Matter([line], body))
    ensures FrontMatter("---\n" + (line + ("\n---" + ("\n" + body)))) == Some(Matter([line], body))
  {
    hide StartsFence, FenceFrom, AfterFence, Split;
    ReturnedOpening(line + ("\r\n---" + ("\r\n" + body)));
    OpeningIsPassed(line + ("\n---" + ("\n" + body)));
    ReturnedFenceAfterLine(line, "\r\n" + body, 0);
    FenceAfterLine(line, "\n" + body, 0);
    ReturnedFenceIsPassed(body);
    FenceIsPassed(body);
    SplitOfLine(line, "");
    var s, t := line + ("\r\n---" + ("\r\n" + body)), line + ("\n---" + ("\n" + body));
    assert s[..|line|] == line && s[|line|..] == "\r\n---" + ("\r\n" + body);
    assert t[..|line|] == line && t[|line|..] == "\n---" + ("\n" + body);
  }

  lemma ReturnedOpening(s: string)
    ensures "---" <= "---\r\n" + s && AfterBreak(("---\r\n" + s)[3..]) == Some(s)
  {
    var rest := "\r\n" + s;
    assert ("---\r\n" + s)[..3] == "---" && ("---\r\n" + s)[3..] == rest;
    assert rest[..2] == "\r\n" && rest[2..] == s && rest[0] == '\r' && "\n"[0] == '\n';
  }

  lemma {:induction false} ReturnedFenceAfterLine(line: Line, rest: string, p: nat)
    requires OneLine(line) && '\r' !in line && p <= |line|
    ensures FenceFrom(line + ("\r\n---" + rest), p) == Some(|line|)
    decreases |line| - p
  {
    var s := line + ("\r\n---" + rest);
    if p < |line| {
      assert s[p..][0] == line[p] && line[p] in line;
      assert "\n---"[0] == '\n' && "\r\n---"[0] == '\r';
      ReturnedFenceAfterLine(line, rest, p + 1);
    } else {
      assert s[p..] == "\r\n---" + rest;
    }
  }

  lemma ReturnedFenceIsPassed(body: string)
    ensures var s := "\r\n---" + ("\r\n" + body); StartsFence(s) && AfterFence(s) == body
  {
    var s := "\r\n---" + ("\r\n" + body);
    assert s[..5] == "\r\n---" && s[0] == '\r' && "\n---"[0] == '\n';
    assert s[5..] == "\r\n" + body;
    assert ("\r\n" + body)[..1] == "\r" && ("\r\n" + body)[1..] == "\n" + body;
    assert ("\n" + body)[..1] == "\n" && ("\n" + body)[1..] == body;
  }
}
