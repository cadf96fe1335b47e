/** The code-point order of strings, which the scripts sort by so that results do not depend on listing order. */
module Order {

  predicate Before(a: string, b: string) {
    b != [] && (a == [] || a[0] < b[0] || (a[0] == b[0] && Before(a[1..], b[1..])))
  }

  lemma {:induction false} BeforeIrreflexive(a: string)
    ensures !Before(a, a)
  {
    if a != [] {
      BeforeIrreflexive(a[1..]);
    }
  }

  lemma {:induction false} BeforeTransitive(a: string, b: string, c: string)
    requires Before(a, b) && Before(b, c)
    ensures Before(a, c)
  {
    if a != [] && a[0] == b[0] == c[0] {
      BeforeTransitive(a[1..], b[1..], c[1..]);
    }
  }

  lemma {:induction false} BeforeTotal(a: string, b: string)
    ensures Before(a, b) || a == b || Before(b, a)
  {
    if a != [] && b != [] && a[0] == b[0] {
      BeforeTotal(a[1..], b[1..]);
      assert a == [a[0]] + a[1..] && b == [b[0]] + b[1..];
    }
  }

  lemma BeforeAsymmetric(a: string, b: string)
    requires Before(a, b)
    ensures a != b && !Before(b, a)
  {
    BeforeIrreflexive(a);
    if Before(b, a) {
      BeforeTransitive(a, b, a);
    }
  }

  ghost predicate Ascending(s: seq<string>) {
    forall i, j :: 0 <= i < j < |s| ==> Before(s[i], s[j])
  }

  predicate IsLeast(m: string, s: set<string>) {
    m in s && forall x :: x in s && x != m ==> Before(m, x)
  }

  lemma {:induction false} LeastExists(s: set<string>)
    requires s != {}
    ensures exists m :: IsLeast(m, s)
  {
    var m :| m in s;
    if s == {m} {
      assert IsLeast(m, s);
    } else {
      LeastExists(s - {m});
      var rest :| IsLeast(rest, s - {m});
      BeforeTotal(m, rest);
      if Before(rest, m) {
        assert IsLeast(rest, s);
      } else {
        forall x | x in s && x != m ensures Before(m, x) {
          if x != rest {
            BeforeTransitive(m, rest, x);
          }
        }
        assert IsLeast(m, s);
      }
    }
  }

  function Least(s: set<string>): (m: string)
    requires s != {}
    ensures IsLeast(m, s)
  {
    LeastExists(s);
    assert forall m, n :: IsLeast(m, s) && IsLeast(n, s) ==> m == n by {
      forall m, n | IsLeast(m, s) && IsLeast(n, s) ensures m == n {
        if m != n {
          BeforeAsymmetric(m, n);
        }
      }
    }
    var m :| m in s && IsLeast(m, s);
    m
  }

  /** The members of a set in order. */
  function Sorted(s: set<string>): (r: seq<string>)
    ensures Ascending(r)
    ensures forall x :: x in r <==> x in s
  {
    if s == {} then [] else
      var m := Least(s);
      var rest := Sorted(s - {m});
      assert forall x :: x in [m] + rest <==> x == m || x in rest;
      [m] + rest
  }

  /** There is only one way to put given members in order. */
  lemma {:induction false} AscendingIsUnique(a: seq<string>, b: seq<string>)
    requires Ascending(a) && Ascending(b) && forall x :: x in a <==> x in b
    ensures a == b
  {
    if a != [] {
      HasMember(a);
    }
    if b != [] {
      HasMember(b);
    }
    if a != [] && b != [] {
      HeadsAgree(a, b);
      BeforeIrreflexive(a[0]);
      forall x ensures x in a[1..] <==> x in b[1..] {
        TailMember(a, x);
        TailMember(b, x);
      }
      AscendingIsUnique(a[1..], b[1..]);
      assert a == [a[0]] + a[1..] && b == [b[0]] + b[1..];
    }
  }

  lemma HasMember(a: seq<string>)
    requires a != []
    ensures exists x :: x in a
  {
    assert a[0] in a;
  }

  lemma TailMember(a: seq<string>, x: string)
    requires Ascending(a) && a != []
    ensures x in a[1..] <==> x in a && x != a[0]
  {
    BeforeIrreflexive(a[0]);
    if x in a && x != a[0] {
      var i :| 0 <= i < |a| && a[i] == x;
      assert a[1..][i - 1] == x;
    }
  }

  lemma HeadsAgree(a: seq<string>, b: seq<string>)
    requires Ascending(a) && Ascending(b) && a != [] && b != [] && forall x :: x in a <==> x in b
    ensures a[0] == b[0]
  {
    assert a[0] in b && b[0] in a;
    var i :| 0 <= i < |b| && b[i] == a[0];
    var j :| 0 <= j < |a| && a[j] == b[0];
    if i > 0 && j > 0 {
      BeforeAsymmetric(a[0], b[0]);
    }
  }

  // ---- A stable sort by name ----

  function InsertBy<T>(key: T -> string, e: T, sorted: seq<T>): seq<T> {
    if sorted == [] || !Before(key(sorted[0]), key(e)) then [e] + sorted
    else [sorted[0]] + InsertBy(key, e, sorted[1..])
  }

  /** `[...items].sort((a, b) => key(a) < key(b) ? -1 : ...)`. */
  function SortBy<T>(key: T -> string, items: seq<T>): seq<T> {
    if items == [] then [] else InsertBy(key, items[0], SortBy(key, items[1..]))
  }

  function Keys<T>(key: T -> string, items: seq<T>): (r: seq<string>)
    ensures |r| == |items| && forall i :: 0 <= i < |r| ==> r[i] == key(items[i])
  {
    seq(|items|, i requires 0 <= i < |items| => key(items[i]))
  }

  ghost predicate DistinctKeys<T>(key: T -> string, items: seq<T>) {
    forall i, j :: 0 <= i < j < |items| ==> key(items[i]) != key(items[j])
  }

  lemma {:induction false} InsertByMember<T>(key: T -> string, e: T, sorted: seq<T>, x: T)
    ensures x in InsertBy(key, e, sorted) <==> x == e || x in sorted
    ensures multiset(InsertBy(key, e, sorted)) == multiset(sorted) + multiset{e}
  {
    if sorted != [] && Before(key(sorted[0]), key(e)) {
      InsertByMember(key, e, sorted[1..], x);
      assert sorted == [sorted[0]] + sorted[1..];
    }
  }

  ghost predicate OrderedBy<T>(key: T -> string, s: seq<T>) {
    forall i, j :: 0 <= i < j < |s| ==> Before(key(s[i]), key(s[j]))
  }

  lemma {:induction false} InsertByKeepsOrder<T>(key: T -> string, e: T, sorted: seq<T>)
    requires OrderedBy(key, sorted) && forall i :: 0 <= i < |sorted| ==> key(sorted[i]) != key(e)
    ensures OrderedBy(key, InsertBy(key, e, sorted))
  {
    if sorted != [] {
      var first, rest := sorted[0], sorted[1..];
      if !Before(key(first), key(e)) {
        BeforeTotal(key(e), key(first));
        forall j | 0 <= j < |sorted| ensures Before(key(e), key(sorted[j])) {
          if j > 0 {
            BeforeTransitive(key(e), key(first), key(sorted[j]));
          }
        }
      } else {
        InsertByKeepsOrder(key, e, rest);
        var inserted := InsertBy(key, e, rest);
        forall j | 0 <= j < |inserted| ensures Before(key(first), key(inserted[j])) {
          InsertByMember(key, e, rest, inserted[j]);
        }
      }
    }
  }

  lemma {:induction false} SortByMember<T>(key: T -> string, items: seq<T>, x: T)
    ensures x in SortBy(key, items) <==> x in items
    ensures multiset(SortBy(key, items)) == multiset(items)
  {
    if items != [] {
      SortByMember(key, items[1..], x);
      InsertByMember(key, items[0], SortBy(key, items[1..]), x);
      assert items == [items[0]] + items[1..];
    }
  }

  /** Items with distinct keys come out in key order. */
  lemma {:induction false} SortByIsOrdered<T>(key: T -> string, items: seq<T>)
    requires DistinctKeys(key, items)
    ensures OrderedBy(key, SortBy(key, items))
  {
    if items != [] {
      var rest := SortBy(key, items[1..]);
      SortByIsOrdered(key, items[1..]);
      forall i | 0 <= i < |rest| ensures key(rest[i]) != key(items[0]) {
        SortByMember(key, items[1..], rest[i]);
        var j :| 0 <= j < |items[1..]| && items[1..][j] == rest[i];
        assert items[j + 1] == rest[i];
      }
      InsertByKeepsOrder(key, items[0], rest);
    }
  }

  lemma KeyIsKept<T>(key: T -> string, a: seq<T>, b: seq<T>, k: string)
    requires forall x :: x in a ==> x in b
    ensures k in Keys(key, a) ==> k in Keys(key, b)
  {
    if k in Keys(key, a) {
      var i :| 0 <= i < |a| && Keys(key, a)[i] == k;
      assert a[i] in b;
      var j :| 0 <= j < |b| && b[j] == a[i];
      assert Keys(key, b)[j] == k;
    }
  }

  lemma OrderedIsUnique<T>(key: T -> string, a: seq<T>, b: seq<T>)
    requires OrderedBy(key, a) && OrderedBy(key, b) && forall x :: x in a <==> x in b
    ensures a == b
  {
    forall k ensures k in Keys(key, a) <==> k in Keys(key, b) {
      KeyIsKept(key, a, b, k);
      KeyIsKept(key, b, a, k);
    }
    AscendingIsUnique(Keys(key, a), Keys(key, b));
    forall i | 0 <= i < |a| ensures a[i] == b[i] {
      assert a[i] in b;
      var j :| 0 <= j < |b| && b[j] == a[i];
      assert Keys(key, a)[i] == Keys(key, b)[i] && Keys(key, b)[j] == Keys(key, a)[i];
      BeforeIrreflexive(key(a[i]));
    }
  }

  /** Sorting forgets the order the items were listed in. */
  lemma SortForgetsOrder<T>(key: T -> string, a: seq<T>, b: seq<T>)
    requires DistinctKeys(key, a) && DistinctKeys(key, b)
    ensures SortBy(key, a) == SortBy(key, b) <==> forall x :: x in a <==> x in b
  {
    SortByIsOrdered(key, a);
    SortByIsOrdered(key, b);
    forall x ensures x in SortBy(key, a) <==> x in a {
      SortByMember(key, a, x);
    }
    forall x ensures x in SortBy(key, b) <==> x in b {
      SortByMember(key, b, x);
    }
    if forall x :: x in a <==> x in b {
      OrderedIsUnique(key, SortBy(key, a), SortBy(key, b));
    }
  }
}
