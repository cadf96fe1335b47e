/** Which renames are followed and what they do to each entry, spelled out over the log and the tenant profiles. */
module ReplayMeaning {
  import opened Wrappers
  import opened MirrorReplay
  import opened MirrorReconcile

  // ---- What the registry backs ----

  /** The two slugs stand next to each other in the profile's history, which ends in its slug. */
  ghost predicate AreConsecutive(p: Profile, a: string, b: string) {
    exists k: nat :: k < |p.previousSlugs| && p.previousSlugs[k] == a && SlugAfter(p, k) == b
  }

  function SlugAfter(p: Profile, k: nat): string {
    if k + 1 < |p.previousSlugs| then p.previousSlugs[k + 1] else p.slug
  }

  ghost predicate Records(profiles: seq<Option<Profile>>, k: nat, id: string) {
    && k < |profiles| && profiles[k].Some?
    && exists j :: 0 <= j < |profiles[k].value.moveIds| && profiles[k].value.moveIds[j] == id
  }

  /** The last readable profile that recorded the id holds the rename in its history. */
  ghost predicate LastRecorderHolds(profiles: seq<Option<Profile>>, id: string, a: string, b: string) {
    exists k: nat :: Records(profiles, k, id) && (forall j: nat :: k < j ==> !Records(profiles, j, id))
      && AreConsecutive(profiles[k].value, a, b)
  }

  /** A marker id backs just the renames between different slugs that its last recorder's history holds. */
  lemma MarkerBacksIff(profiles: seq<Option<Profile>>, markers: Markers, id: string, a: string, b: string)
    requires AreBacked(profiles, markers)
    ensures (id in markers && (a, b) in markers[id]) <==> (a != b && LastRecorderHolds(profiles, id, a, b))
  {
    hide Records, AreConsecutive;
    forall k: nat ensures Records(profiles, k, id) <==> k < |profiles| && Names(profiles[k], id) {
      RecordsIff(profiles, k, id);
    }
    if id in markers {
      var k: nat :| LastNaming(profiles, |profiles|, id, k) && IsHistory(profiles[k].value, markers[id]);
      assert (a, b) in markers[id] <==> InHistory(profiles[k].value, (a, b));
      InHistoryIff(profiles[k].value, a, b);
      assert Records(profiles, k, id);
      assert forall j: nat :: k < j ==> !Records(profiles, j, id);
      forall j: nat | Records(profiles, j, id) && (forall i: nat :: j < i ==> !Records(profiles, i, id))
        ensures j == k
      {
        assert !(j < k) && !(k < j);
      }
    } else {
      assert !NamedBelow(profiles, |profiles|, id);
    }
  }

  lemma RecordsIff(profiles: seq<Option<Profile>>, k: nat, id: string)
    ensures Records(profiles, k, id) <==> k < |profiles| && Names(profiles[k], id)
  {
  }

  lemma InHistoryIff(p: Profile, a: string, b: string)
    ensures InHistory(p, (a, b)) <==> a != b && AreConsecutive(p, a, b)
  {
    var chain := SlugChain(p);
    if k: nat :| StepAt(chain, k, (a, b)) {
      var i := k - 1;
      assert p.previousSlugs[i] == a && SlugAfter(p, i) == b;
    }
    if k: nat :| k < |p.previousSlugs| && p.previousSlugs[k] == a && SlugAfter(p, k) == b {
      var m := k + 1;
      assert StepAt(chain, m, (a, b));
    }
  }

  // ---- Which entries move a mirror ----

  /** A completed move of a tenant's mirror, from another slug, that its id backs. */
  predicate IsMove(markers: Markers, e: Entry) {
    && e.tenant != "" && e.movedFrom.Some? && e.movedFrom.value != e.tenant
    && e.id in markers && (e.movedFrom.value, e.tenant) in markers[e.id]
  }

  /** The moves followed are the first of each id. */
  lemma TrustedIff(es: seq<Entry>, markers: Markers, n: nat)
    requires n < |es|
    ensures Trusted(es, markers, n) <==>
      IsMove(markers, es[n]) && forall k :: 0 <= k < n && es[k].id == es[n].id ==> !IsMove(markers, es[k])
  {
  }

  // ---- What a followed move does ----

  /** An entry starts out in its own tenant's mirror, and in none without a tenant. */
  lemma EntryStartsAtItsTenant(es: seq<Entry>, markers: Markers, i: nat)
    requires i < |es|
    ensures Owner(es, markers, i, i + 1) == if es[i].tenant == "" then None else Some(es[i].tenant)
  {
  }

  /** Each later entry moves it from the previous slug to the new one, drops it from the new one, or leaves it. */
  lemma EachEntryMovesOnly(es: seq<Entry>, markers: Markers, i: nat, n: nat)
    requires i < n < |es|
    ensures var before, after := Owner(es, markers, i, n), Owner(es, markers, i, n + 1);
      if !Trusted(es, markers, n) || before.None? then after == before
      else if before.value == es[n].movedFrom.value then after == Some(es[n].tenant)
      else if before.value == es[n].tenant then after == None
      else after == before
  {
    OwnerNext(es, markers, i, n);
  }

  /** The mirror of a slug is expected to hold what it owns at the end of the log, in log order. */
  lemma ExpectedAre(es: seq<Entry>, markers: Markers, s: string)
    ensures exists list: seq<nat> ::
      IsPart(es, list, Expected(es, markers, s)) && AreOwned(es, markers, s, list)
  {
    OwnedAreOwned(es, markers, s, |es|);
    ExpectedIsPart(es, markers, s);
    assert IsPart(es, Owned(es, markers, s, |es|), Expected(es, markers, s));
  }

  ghost predicate AreOwned(es: seq<Entry>, markers: Markers, s: string, list: seq<nat>) {
    forall i: nat :: Has(list, i) <==> i < |es| && Owner(es, markers, i, |es|) == Some(s)
  }

  ghost predicate IsPart(es: seq<Entry>, list: seq<nat>, part: seq<Entry>) {
    && Increasing(list) && |part| == |list|
    && forall k :: 0 <= k < |list| ==> list[k] < |es| && part[k] == es[list[k]]
  }
}
