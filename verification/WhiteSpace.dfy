/** White space as JavaScript sees it, and trimming it away. */
module WhiteSpace {

  /** What `\s` and `trim` treat as white space. */
  predicate IsSpace(c: char) {
    c in " \t\n\r" || c in "\U{000B}\U{000C}\U{00A0}\U{FEFF}\U{1680}\U{2028}\U{2029}\U{202F}\U{205F}\U{3000}"
    || '\U{2000}' <= c <= '\U{200A}'
  }

  predicate Blank(s: string) {
    forall i :: 0 <= i < |s| ==> IsSpace(s[i])
  }

  function TrimStart(s: string): string {
    if s != [] && IsSpace(s[0]) then TrimStart(s[1..]) else s
  }

  function TrimEnd(s: string): string {
    if s != [] && IsSpace(s[|s| - 1]) then TrimEnd(s[..|s| - 1]) else s
  }

  function Trim(s: string): string {
    TrimEnd(TrimStart(s))
  }

  // ---- What trimming leaves ----

  lemma {:induction false} TrimEndIsPrefix(s: string)
    ensures TrimEnd(s) <= s && Blank(s[|TrimEnd(s)|..])
  {
    if s != [] && IsSpace(s[|s| - 1]) {
      TrimEndIsPrefix(s[..|s| - 1]);
      assert s == s[..|s| - 1] + [s[|s| - 1]];
    }
  }

  lemma {:induction false} TrimStartIsSuffix(s: string)
    ensures |TrimStart(s)| <= |s| && TrimStart(s) == s[|s| - |TrimStart(s)|..]
  {
    if s != [] && IsSpace(s[0]) {
      TrimStartIsSuffix(s[1..]);
    }
  }

  lemma {:induction false} TrimStartDropsBlank(s: string)
    ensures |TrimStart(s)| <= |s| && Blank(s[..|s| - |TrimStart(s)|])
  {
    hide IsSpace;
    if s != [] && IsSpace(s[0]) {
      TrimStartDropsBlank(s[1..]);
      var n := |s| - |TrimStart(s)|;
      assert s[..n] == [s[0]] + s[1..][..n - 1];
    }
  }

  lemma {:induction false} TrimEndEnds(s: string)
    ensures TrimEnd(s) != [] ==> !IsSpace(TrimEnd(s)[|TrimEnd(s)| - 1])
  {
    if s != [] && IsSpace(s[|s| - 1]) {
      TrimEndEnds(s[..|s| - 1]);
    }
  }

  lemma {:induction false} TrimEndOf(name: string, tail: string)
    requires name != [] && !IsSpace(name[|name| - 1]) && Blank(tail)
    ensures TrimEnd(name + tail) == name
  {
    if tail == [] {
      assert name + tail == name;
    } else {
      TrimEndOf(name, tail[..|tail| - 1]);
      assert (name + tail)[..|name + tail| - 1] == name + tail[..|tail| - 1];
    }
  }

  lemma TrimBoth(lead: char, name: string, tail: string)
    requires IsSpace(lead) && Blank(tail) && name != [] && !IsSpace(name[0]) && !IsSpace(name[|name| - 1])
    ensures TrimEnd(TrimStart([lead] + (name + tail))) == name
  {
    assert ([lead] + (name + tail))[1..] == name + tail;
    assert (name + tail)[0] == name[0];
    TrimEndOf(name, tail);
  }
}
