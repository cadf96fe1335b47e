/** Which master audit entries each tenant mirror should hold, given the trusted renames in the chain. */
module MirrorReplay {
  import opened Wrappers

  /**
   * A master entry. `tenant` is empty when the entry names none; `movedFrom` is the previous slug of
   * a completed mirror-moved entry.
   */
  datatype Entry = Entry(id: string, hash: string, tenant: string, movedFrom: Option<string>, timestamp: string)

  datatype Profile = Profile(previousSlugs: seq<string>, slug: string, moveIds: seq<string>)

  type Rename = (string, string)

  type Markers = map<string, set<Rename>>

  // ---- The markers the tenant registry backs ----

  function SlugChain(p: Profile): seq<string> {
    p.previousSlugs + [p.slug]
  }

  /** The renames a profile's history holds: its consecutive, different slugs. */
  ghost predicate InHistory(p: Profile, rename: Rename) {
    rename.0 != rename.1 && exists k: nat :: StepAt(SlugChain(p), k, rename)
  }

  ghost predicate StepAt(chain: seq<string>, k: nat, rename: Rename) {
    0 < k < |chain| && (chain[k - 1], chain[k]) == rename
  }

  ghost predicate Names(profile: Option<Profile>, id: string) {
    profile.Some? && id in profile.value.moveIds
  }

  ghost predicate NamedBelow(profiles: seq<Option<Profile>>, n: nat, id: string)
    requires n <= |profiles|
  {
    exists k :: 0 <= k < n && Names(profiles[k], id)
  }

  ghost predicate LastNaming(profiles: seq<Option<Profile>>, n: nat, id: string, k: nat)
    requires n <= |profiles|
  {
    k < n && Names(profiles[k], id) && forall j :: k < j < n ==> !Names(profiles[j], id)
  }

  ghost predicate IsHistory(p: Profile, pairs: set<Rename>) {
    forall rename :: rename in pairs <==> InHistory(p, rename)
  }

  ghost predicate BackedBy(profiles: seq<Option<Profile>>, n: nat, id: string, pairs: set<Rename>)
    requires n <= |profiles|
  {
    exists k: nat :: LastNaming(profiles, n, id, k) && IsHistory(profiles[k].value, pairs)
  }

  /** An id is backed by the last readable profile that recorded it, and by that profile's history alone. */
  ghost predicate BackedBelow(profiles: seq<Option<Profile>>, n: nat, markers: Markers)
    requires n <= |profiles|
  {
    && (forall id :: id in markers <==> NamedBelow(profiles, n, id))
    && (forall id :: id in markers ==> BackedBy(profiles, n, id, markers[id]))
  }

  ghost predicate AreBacked(profiles: seq<Option<Profile>>, markers: Markers) {
    BackedBelow(profiles, |profiles|, markers)
  }

  ghost predicate StepBelow(chain: seq<string>, n: nat, rename: Rename) {
    exists k: nat :: k < n && StepAt(chain, k, rename)
  }

  method HistoryOf(p: Profile) returns (pairs: set<Rename>)
    ensures forall rename :: rename in pairs <==> InHistory(p, rename)
  {
    var chain := SlugChain(p);
    pairs := {};
    for k := 1 to |chain|
      invariant forall rename :: rename in pairs <==>
        rename.0 != rename.1 && StepBelow(chain, k, rename)
    {
      assert forall rename :: StepBelow(chain, k + 1, rename) <==>
          StepBelow(chain, k, rename) || rename == (chain[k - 1], chain[k]) by {
        assert StepAt(chain, k, (chain[k - 1], chain[k]));
      }
      if chain[k - 1] != chain[k] {
        pairs := pairs + {(chain[k - 1], chain[k])};
      }
    }
  }

  /** Unreadable profiles (None) back nothing. */
  method RegistryMoveMarkers(profiles: seq<Option<Profile>>) returns (markers: Markers)
    ensures AreBacked(profiles, markers)
  {
    markers := map[];
    for i := 0 to |profiles|
      invariant BackedBelow(profiles, i, markers)
    {
      hide BackedBelow, IsHistory, AllSet;
      if profiles[i].Some? {
        var pairs := HistoryOf(profiles[i].value);
        var after := SetAll(markers, profiles[i].value.moveIds, pairs);
        BackedNext(profiles, i, markers, pairs, after);
        markers := after;
      } else {
        BackedSkip(profiles, i, markers);
      }
    }
  }

  /** The loop that points every id of one profile at its history. */
  method SetAll(before: Markers, ids: seq<string>, pairs: set<Rename>) returns (markers: Markers)
    ensures AllSet(before, ids, pairs, markers)
  {
    markers := before;
    for j := 0 to |ids|
      invariant AllSet(before, ids[..j], pairs, markers)
    {
      markers := markers[ids[j] := pairs];
    }
    assert ids[..|ids|] == ids;
  }

  ghost predicate AllSet(before: Markers, ids: seq<string>, pairs: set<Rename>, after: Markers) {
    && (forall id :: id in after <==> id in before || id in ids)
    && (forall id :: id in after ==> after[id] == if id in ids then pairs else before[id])
  }

  lemma BackedSkip(profiles: seq<Option<Profile>>, i: nat, markers: Markers)
    requires i < |profiles| && profiles[i].None? && BackedBelow(profiles, i, markers)
    ensures BackedBelow(profiles, i + 1, markers)
  {
    var m := i + 1;
    forall id ensures id in markers <==> NamedBelow(profiles, m, id) {
      NamedNext(profiles, i, id);
    }
    forall id | id in markers ensures BackedBy(profiles, m, id, markers[id]) {
      BackedStays(profiles, i, id, markers[id]);
    }
  }

  lemma NamedNext(profiles: seq<Option<Profile>>, i: nat, id: string)
    requires i < |profiles|
    ensures NamedBelow(profiles, i + 1, id) <==> NamedBelow(profiles, i, id) || Names(profiles[i], id)
  {
  }

  lemma BackedStays(profiles: seq<Option<Profile>>, i: nat, id: string, pairs: set<Rename>)
    requires i < |profiles| && !Names(profiles[i], id) && BackedBy(profiles, i, id, pairs)
    ensures BackedBy(profiles, i + 1, id, pairs)
  {
    var k: nat :| LastNaming(profiles, i, id, k) && IsHistory(profiles[k].value, pairs);
    assert LastNaming(profiles, i + 1, id, k);
  }

  lemma BackedNext(profiles: seq<Option<Profile>>, i: nat, before: Markers, pairs: set<Rename>, after: Markers)
    requires i < |profiles| && profiles[i].Some? && BackedBelow(profiles, i, before)
    requires IsHistory(profiles[i].value, pairs) && AllSet(before, profiles[i].value.moveIds, pairs, after)
    ensures BackedBelow(profiles, i + 1, after)
  {
    var m := i + 1;
    forall id ensures id in after <==> NamedBelow(profiles, m, id) {
      NamedNext(profiles, i, id);
    }
    forall id | id in after ensures BackedBy(profiles, m, id, after[id]) {
      if Names(profiles[i], id) {
        assert LastNaming(profiles, m, id, i);
      } else {
        BackedStays(profiles, i, id, before[id]);
      }
    }
  }

  // ---- Who owns an entry: each entry's slug carried through the later trusted markers ----

  predicate IsMarker(markers: Markers, e: Entry) {
    && e.tenant != "" && e.movedFrom.Some? && e.movedFrom.value != e.tenant
    && e.id in markers && (e.movedFrom.value, e.tenant) in markers[e.id]
  }

  /** The first marker with its id: each marker id is followed once. */
  ghost predicate Trusted(es: seq<Entry>, markers: Markers, j: nat) {
    j < |es| && IsMarker(markers, es[j]) && !SeenMarker(es, markers, j, es[j].id)
  }

  ghost predicate SeenMarker(es: seq<Entry>, markers: Markers, n: nat, id: string)
    requires n <= |es|
  {
    exists k :: 0 <= k < n && IsMarker(markers, es[k]) && es[k].id == id
  }

  lemma SeenNext(es: seq<Entry>, markers: Markers, n: nat, m: nat)
    requires n + 1 == m <= |es|
    ensures forall id {:trigger SeenMarker(es, markers, n, id)} {:trigger SeenMarker(es, markers, m, id)} ::
      SeenMarker(es, markers, m, id) <==> SeenMarker(es, markers, n, id) || (IsMarker(markers, es[n]) && es[n].id == id)
  {
    forall id {:trigger SeenMarker(es, markers, m, id)} | SeenMarker(es, markers, n, id)
      ensures SeenMarker(es, markers, m, id)
    {
      var k :| 0 <= k < n && IsMarker(markers, es[k]) && es[k].id == id;
      assert 0 <= k < m;
    }
  }

  /** What one trusted rename does to the mirror an earlier entry is in. */
  function Renamed(slug: Option<string>, previous: string, next: string): Option<string> {
    if slug == Some(previous) then Some(next) else if slug == Some(next) then None else slug
  }

  /** `slug` carried through the trusted markers at `start`, ..., `end - 1`. */
  ghost function Carry(es: seq<Entry>, markers: Markers, slug: Option<string>, start: nat, end: nat): Option<string>
    requires end <= |es|
    decreases end
  {
    if end <= start then slug else
      var earlier := Carry(es, markers, slug, start, end - 1);
      if Trusted(es, markers, end - 1) then Renamed(earlier, es[end - 1].movedFrom.value, es[end - 1].tenant)
      else earlier
  }

  /** The mirror entry `i` belongs to once the first `n` entries are replayed, if any. */
  ghost function Owner(es: seq<Entry>, markers: Markers, i: nat, n: nat): Option<string>
    requires i < n <= |es|
  {
    if es[i].tenant == "" then None else Carry(es, markers, Some(es[i].tenant), i + 1, n)
  }

  // ---- The replay ----

  type Indexes = map<string, seq<nat>>

  ghost predicate Increasing(list: seq<nat>) {
    forall a, b :: 0 <= a < b < |list| ==> list[a] < list[b]
  }

  ghost predicate Has(list: seq<nat>, i: nat) {
    exists k :: 0 <= k < |list| && list[k] == i
  }

  ghost predicate Lists(indexes: Indexes, s: string, i: nat) {
    s in indexes && Has(indexes[s], i)
  }

  /** The lists hold exactly the entries below `n`, each under its owner once `upTo` entries are replayed. */
  ghost predicate ListOwners(es: seq<Entry>, markers: Markers, n: nat, upTo: nat, indexes: Indexes)
    requires n <= upTo <= |es|
  {
    && (forall s, i: nat {:trigger Lists(indexes, s, i)} :: Lists(indexes, s, i) ==>
        i < n && Owner(es, markers, i, upTo) == Some(s))
    && (forall i: nat {:trigger Owner(es, markers, i, upTo)} :: i < n && Owner(es, markers, i, upTo).Some? ==>
        Lists(indexes, Owner(es, markers, i, upTo).value, i))
  }

  /** After `n` entries, every list is in master order and holds exactly the entries its slug owns. */
  ghost predicate Replayed(es: seq<Entry>, markers: Markers, n: nat, indexes: Indexes)
    requires n <= |es|
  {
    && (forall s :: s in indexes ==> Increasing(indexes[s]) && indexes[s] != [])
    && ListOwners(es, markers, n, n, indexes)
  }

  /** Move the previous slug's list under the new slug. */
  function Moved(indexes: Indexes, previous: string, next: string): Indexes {
    indexes[next := if previous in indexes then indexes[previous] else []] - {previous}
  }

  /** Append index `n` to a slug's list. */
  function Pushed(indexes: Indexes, s: string, n: nat): Indexes {
    indexes[s := (if s in indexes then indexes[s] else []) + [n]]
  }

  lemma OwnerNext(es: seq<Entry>, markers: Markers, i: nat, n: nat)
    requires i < n < |es|
    ensures Owner(es, markers, i, n + 1) ==
      if Trusted(es, markers, n) then Renamed(Owner(es, markers, i, n), es[n].movedFrom.value, es[n].tenant)
      else Owner(es, markers, i, n)
  {
  }

  lemma PushedMember(list: seq<nat>, n: nat)
    requires Increasing(list) && forall i: nat :: Has(list, i) ==> i < n
    ensures Increasing(list + [n]) && forall i: nat :: Has(list + [n], i) <==> Has(list, i) || i == n
  {
    forall a | 0 <= a < |list| ensures (list + [n])[a] < n {
      assert Has(list, list[a]);
    }
    assert (list + [n])[|list|] == n;
    forall i: nat | Has(list, i) ensures Has(list + [n], i) {
      var k :| 0 <= k < |list| && list[k] == i;
      assert (list + [n])[k] == i;
    }
  }

  /** `middle` is the state between the move and the push of entry `n`. */
  ghost predicate HalfReplayed(es: seq<Entry>, markers: Markers, n: nat, middle: Indexes)
    requires n < |es|
  {
    && (forall s :: s in middle ==> Increasing(middle[s]) && (middle[s] == [] ==> s == es[n].tenant))
    && ListOwners(es, markers, n, n + 1, middle)
  }

  lemma MoveIsReplayed(es: seq<Entry>, markers: Markers, n: nat, indexes: Indexes)
    requires n < |es| && Replayed(es, markers, n, indexes) && Trusted(es, markers, n)
    ensures HalfReplayed(es, markers, n, Moved(indexes, es[n].movedFrom.value, es[n].tenant))
  {
    var previous, next := es[n].movedFrom.value, es[n].tenant;
    var middle, m := Moved(indexes, previous, next), n + 1;
    forall s, i: nat | Lists(middle, s, i) ensures i < n && Owner(es, markers, i, m) == Some(s) {
      assert Lists(indexes, if s == next then previous else s, i);
      OwnerNext(es, markers, i, n);
    }
    forall i: nat | i < n && Owner(es, markers, i, m).Some? ensures Lists(middle, Owner(es, markers, i, m).value, i) {
      OwnerNext(es, markers, i, n);
    }
  }

  lemma SkipIsReplayed(es: seq<Entry>, markers: Markers, n: nat, indexes: Indexes)
    requires n < |es| && Replayed(es, markers, n, indexes) && !Trusted(es, markers, n)
    ensures HalfReplayed(es, markers, n, indexes)
  {
    var m := n + 1;
    forall i: nat {:trigger Owner(es, markers, i, n)} {:trigger Owner(es, markers, i, m)} | i < n
      ensures Owner(es, markers, i, m) == Owner(es, markers, i, n)
    {
      OwnerNext(es, markers, i, n);
    }
  }

  lemma PushIsReplayed(es: seq<Entry>, markers: Markers, n: nat, middle: Indexes)
    requires n < |es| && es[n].tenant != "" && HalfReplayed(es, markers, n, middle)
    ensures Replayed(es, markers, n + 1, Pushed(middle, es[n].tenant, n))
  {
    var s, m := es[n].tenant, n + 1;
    var list := if s in middle then middle[s] else [];
    var after := Pushed(middle, s, n);
    assert forall i: nat :: Has(list, i) <==> Lists(middle, s, i);
    PushedMember(list, n);
    assert Owner(es, markers, n, m) == Some(s);
    forall t, i: nat ensures Lists(after, t, i) <==> Lists(middle, t, i) || (t == s && i == n) {
    }
  }

  method ReplayIndexes(es: seq<Entry>, markers: Markers) returns (indexes: Indexes)
    ensures Replayed(es, markers, |es|, indexes)
  {
    indexes := map[];
    var followed: set<string> := {};
    for n := 0 to |es|
      invariant Replayed(es, markers, n, indexes)
      invariant forall id {:trigger SeenMarker(es, markers, n, id)} ::
        id in followed <==> SeenMarker(es, markers, n, id)
    {
      var e := es[n];
      SeenNext(es, markers, n, n + 1);
      if e.tenant == "" {
        SkipIsReplayed(es, markers, n, indexes);
      } else {
        if IsMarker(markers, e) && e.id !in followed {
          MoveIsReplayed(es, markers, n, indexes);
          followed := followed + {e.id};
          indexes := Moved(indexes, e.movedFrom.value, e.tenant);
        } else {
          SkipIsReplayed(es, markers, n, indexes);
        }
        PushIsReplayed(es, markers, n, indexes);
        indexes := Pushed(indexes, e.tenant, n);
      }
    }
  }

  // ---- The entries each mirror should hold ----

  /** The first `n` indexes a slug owns at the end of the log, in master order. */
  ghost function Owned(es: seq<Entry>, markers: Markers, s: string, n: nat): seq<nat>
    requires n <= |es|
  {
    if n == 0 then [] else
      var last := if Owner(es, markers, n - 1, |es|) == Some(s) then [n - 1] else [];
      Owned(es, markers, s, n - 1) + last
  }

  function At(es: seq<Entry>, list: seq<nat>): (r: seq<Entry>)
    requires forall k :: 0 <= k < |list| ==> list[k] < |es|
    ensures |r| == |list|
  {
    if list == [] then [] else
      At(es, list[..|list| - 1]) + [es[list[|list| - 1]]]
  }

  /** The master entries the mirror of `s` should hold. */
  ghost function Expected(es: seq<Entry>, markers: Markers, s: string): seq<Entry> {
    OwnedAreOwned(es, markers, s, |es|);
    assert forall k :: 0 <= k < |Owned(es, markers, s, |es|)| ==>
      Has(Owned(es, markers, s, |es|), Owned(es, markers, s, |es|)[k]);
    At(es, Owned(es, markers, s, |es|))
  }

  lemma {:induction false} OwnedAreOwned(es: seq<Entry>, markers: Markers, s: string, n: nat)
    requires n <= |es|
    ensures Increasing(Owned(es, markers, s, n))
    ensures forall i: nat :: Has(Owned(es, markers, s, n), i) <==> i < n && Owner(es, markers, i, |es|) == Some(s)
  {
    if n > 0 {
      OwnedAreOwned(es, markers, s, n - 1);
      var list := Owned(es, markers, s, n - 1);
      assert forall i: nat :: Has(list, i) ==> i < n - 1;
      PushedMember(list, n - 1);
      assert list + [] == list;
      assert Owned(es, markers, s, n) == list + if Owner(es, markers, n - 1, |es|) == Some(s) then [n - 1] else [];
    }
  }

  lemma {:induction false} IncreasingIsUnique(a: seq<nat>, b: seq<nat>)
    requires Increasing(a) && Increasing(b) && forall i: nat :: Has(a, i) <==> Has(b, i)
    ensures a == b
    decreases |a|
  {
    if |a| > 0 && |b| > 0 {
      var x, y := a[|a| - 1], b[|b| - 1];
      LastIsLargest(a);
      LastIsLargest(b);
      assert Has(b, x) && Has(a, y);
      var c, d := a[..|a| - 1], b[..|b| - 1];
      assert forall i: nat :: Has(c, i) <==> Has(a, i) && i != x;
      assert forall i: nat :: Has(d, i) <==> Has(b, i) && i != y;
      IncreasingIsUnique(c, d);
      assert a == a[..|a| - 1] + [x] && b == b[..|b| - 1] + [y];
    } else if |a| > 0 {
      LastIsLargest(a);
    } else if |b| > 0 {
      LastIsLargest(b);
    }
  }

  lemma LastIsLargest(a: seq<nat>)
    requires Increasing(a) && a != []
    ensures Has(a, a[|a| - 1]) && forall i: nat :: Has(a, i) ==> i <= a[|a| - 1]
    ensures forall i: nat :: Has(a[..|a| - 1], i) <==> Has(a, i) && i != a[|a| - 1]
  {
    forall i: nat | Has(a, i) && i != a[|a| - 1] ensures Has(a[..|a| - 1], i) {
      var k :| 0 <= k < |a| && a[k] == i;
      assert a[..|a| - 1][k] == i;
    }
  }

  lemma IndexesAreOwned(es: seq<Entry>, markers: Markers, indexes: Indexes)
    requires Replayed(es, markers, |es|, indexes)
    ensures forall s :: s in indexes ==> indexes[s] == Owned(es, markers, s, |es|)
    ensures forall s, k :: s in indexes && 0 <= k < |indexes[s]| ==> indexes[s][k] < |es|
    ensures forall s :: s in indexes <==> Expected(es, markers, s) != []
  {
    forall s
      ensures s in indexes ==> indexes[s] == Owned(es, markers, s, |es|)
      ensures s in indexes <==> Owned(es, markers, s, |es|) != []
    {
      OwnedAreOwned(es, markers, s, |es|);
      var list := if s in indexes then indexes[s] else [];
      assert forall i: nat :: Has(list, i) <==> Lists(indexes, s, i);
      IncreasingIsUnique(list, Owned(es, markers, s, |es|));
    }
    forall s, k | s in indexes && 0 <= k < |indexes[s]| ensures indexes[s][k] < |es| {
      assert Lists(indexes, s, indexes[s][k]);
    }
    assert forall s :: |Expected(es, markers, s)| == |Owned(es, markers, s, |es|)|;
  }

  method MasterEntriesByTenant(es: seq<Entry>, profiles: seq<Option<Profile>>)
    returns (byTenant: map<string, seq<Entry>>, markers: Markers)
    ensures AreBacked(profiles, markers)
    ensures forall s :: s in byTenant <==> Expected(es, markers, s) != []
    ensures forall s :: s in byTenant ==> byTenant[s] == Expected(es, markers, s)
  {
    markers := RegistryMoveMarkers(profiles);
    var indexes := ReplayIndexes(es, markers);
    IndexesAreOwned(es, markers, indexes);
    byTenant := map s | s in indexes :: At(es, indexes[s]);
  }

  /** No entry is expected in two mirrors. */
  lemma MirrorsAreDisjoint(es: seq<Entry>, markers: Markers, s: string, t: string, i: nat)
    requires Has(Owned(es, markers, s, |es|), i) && Has(Owned(es, markers, t, |es|), i)
    ensures s == t
  {
    OwnedAreOwned(es, markers, s, |es|);
    OwnedAreOwned(es, markers, t, |es|);
  }

  /** Once a rename is followed, its target mirror starts over with the previous slug's entries and nothing else. */
  lemma RenameTakesOverExactly(es: seq<Entry>, markers: Markers, n: nat, i: nat)
    requires i < n < |es| && Trusted(es, markers, n)
    ensures Owner(es, markers, i, n + 1) == Some(es[n].tenant) <==>
      Owner(es, markers, i, n) == Some(es[n].movedFrom.value)
    ensures Owner(es, markers, i, n + 1) != Some(es[n].movedFrom.value)
  {
    OwnerNext(es, markers, i, n);
  }

  /** An entry of another tenant is in the mirror of `s` only through a trusted rename to `s`. */
  lemma {:induction false} OnlyTrustedRenamesMoveEntries(es: seq<Entry>, markers: Markers, i: nat, n: nat, s: string)
    requires i < n <= |es| && Owner(es, markers, i, n) == Some(s) && es[i].tenant != s
    ensures exists j: nat :: i < j < n && Trusted(es, markers, j) && es[j].tenant == s
    decreases n
  {
    if i + 1 < n {
      OwnerNext(es, markers, i, n - 1);
      if Owner(es, markers, i, n - 1) == Some(s) {
        OnlyTrustedRenamesMoveEntries(es, markers, i, n - 1, s);
      } else {
        assert Trusted(es, markers, n - 1);
      }
    }
  }
}
