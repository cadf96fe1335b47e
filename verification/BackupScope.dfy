/** The paths a tenant backup may hold, and the validator that decides it when an archive is restored. */
module BackupScope {
  import opened Wrappers

  /** A repository path by its segments, none of which holds a slash. */
  type Path = seq<string>

  const KNOWLEDGE := "knowledge"
  const PERSONAL := "personal"
  const ACTIVE := "active"
  const SHARED := "shared"
  const RUNTIME := "runtime"
  const MEDIA := "media-generation"
  const MESH_HUB := "mesh-hub"
  const TENANTS := "tenants"
  const CUSTOMERS := "customers"

  /** The roots that hold `tenants/<slug>` namespaces. */
  const PHYSICAL_ROOTS: seq<Path> := [
    [ACTIVE, SHARED, "coordination", "channels"],
    [ACTIVE, SHARED, RUNTIME, "presence"],
    [ACTIVE, SHARED, RUNTIME, MEDIA, "schedules"],
    [ACTIVE, SHARED, RUNTIME, MEDIA, "artifacts"],
    [ACTIVE, SHARED, RUNTIME, MEDIA, "cost-settlements"],
    [ACTIVE, SHARED, RUNTIME, "peer-messaging"],
    [ACTIVE, SHARED, "observability", "peer-messaging"],
    [ACTIVE, SHARED, RUNTIME, "peer-conversations"],
    [ACTIVE, SHARED, "observability", "peer-conversations"],
    [ACTIVE, SHARED, RUNTIME, MESH_HUB],
    [ACTIVE, SHARED, "observability", MESH_HUB],
    [ACTIVE, SHARED, RUNTIME, "feedback-loop"],
    [ACTIVE, SHARED, RUNTIME, TENANTS],
    [ACTIVE, SHARED, "observability", TENANTS],
    [ACTIVE, SHARED, "coordination", TENANTS]
  ]

  /** The roots whose whole content belongs to the tenant. */
  function ExactRoots(tenant: string): seq<Path> {
    [
      [KNOWLEDGE, "confidential", tenant],
      [KNOWLEDGE, PERSONAL, tenant],
      [KNOWLEDGE, PERSONAL, TENANTS, tenant],
      [KNOWLEDGE, PERSONAL, CUSTOMERS, tenant],
      ["customer", tenant],
      [CUSTOMERS, tenant],
      [ACTIVE, SHARED, RUNTIME, "ingest-cursors", tenant],
      [ACTIVE, SHARED, RUNTIME, MEDIA, "quota", tenant]
    ]
  }

  const MESH_ROOTS: seq<Path> := [[ACTIVE, SHARED, RUNTIME, MESH_HUB], [ACTIVE, SHARED, "observability", MESH_HUB]]

  /** `entry === root || entry.startsWith(root + '/')`. */
  predicate Within(entry: Path, root: Path) {
    root <= entry
  }

  predicate WithinAny(entry: Path, roots: seq<Path>) {
    exists i :: 0 <= i < |roots| && Within(entry, roots[i])
  }

  /** `^active/(projects|missions)/[^/]+/`, and the fourth segment is the tenant. */
  predicate InTier(entry: Path, tenant: string) {
    && |entry| >= 4 && entry[0] == ACTIVE && entry[1] in ["projects", "missions"] && entry[2] != ""
    && entry[3] == tenant
  }

  /** One level of nesting is allowed below the mesh hubs. */
  predicate InMeshHub(entry: Path, root: Path, tenant: string) {
    && root < entry
    && var relative := entry[|root|..];
      || (|relative| > 1 && relative[0] == TENANTS && relative[1] == tenant)
      || (|relative| > 2 && relative[1] == TENANTS && relative[2] == tenant)
  }

  predicate InNamespace(entry: Path, tenant: string) {
    exists i :: 0 <= i < |PHYSICAL_ROOTS| && Within(entry, PHYSICAL_ROOTS[i] + [TENANTS, tenant])
  }

  /** The validator's allowlist, with the tenant of the runtime partition the entry lies in, if any. */
  predicate IsTenantBackupEntry(entry: Path, tenant: string, partition: Option<string>) {
    || WithinAny(entry, ExactRoots(tenant))
    || partition == Some(tenant)
    || InTier(entry, tenant)
    || (exists i :: 0 <= i < |MESH_ROOTS| && InMeshHub(entry, MESH_ROOTS[i], tenant))
    || InNamespace(entry, tenant)
  }

  // ---- The shape of what is allowed ----

  predicate IsArea(area: string, name: string) {
    || (area == "coordination" && name in ["channels", TENANTS])
    || (area == RUNTIME &&
        name in ["presence", "peer-messaging", "peer-conversations", MESH_HUB, "feedback-loop", TENANTS])
    || (area == "observability" && name in ["peer-messaging", "peer-conversations", MESH_HUB, TENANTS])
  }

  predicate IsShared(p: Path) {
    |p| >= 4 && p[0] == ACTIVE && p[1] == SHARED
  }

  predicate IsMediaRoot(p: Path) {
    && |p| == 5 && IsShared(p) && p[2] == RUNTIME && p[3] == MEDIA
    && p[4] in ["schedules", "artifacts", "cost-settlements"]
  }

  predicate IsPhysicalRoot(p: Path) {
    (|p| == 4 && IsShared(p) && IsArea(p[2], p[3])) || IsMediaRoot(p)
  }

  lemma PhysicalRootsHaveShape(i: nat)
    requires i < |PHYSICAL_ROOTS|
    ensures IsPhysicalRoot(PHYSICAL_ROOTS[i])
  {
  }

  lemma AreasAreApart(area: string, name: string)
    requires IsArea(area, name)
    ensures name != MEDIA && name != "ingest-cursors"
  {
  }

  lemma MeshRootsArePhysical(i: nat)
    requires i < |MESH_ROOTS|
    ensures |MESH_ROOTS[i]| == 4 && IsPhysicalRoot(MESH_ROOTS[i]) && MESH_ROOTS[i][3] == MESH_HUB
  {
  }

  /** A namespace lies under one registered root at most. */
  lemma OneRoot(entry: Path, r: Path, q: Path)
    requires IsPhysicalRoot(r) && IsPhysicalRoot(q) && r <= entry && q <= entry
    ensures r == q
  {
    hide IsArea;
    if |r| == 4 {
      AreasAreApart(r[2], r[3]);
    }
    if |q| == 4 {
      AreasAreApart(q[2], q[3]);
    }
    assert r[3] == entry[3] == q[3];
    assert |r| == |q|;
    assert r == entry[..|r|] && q == entry[..|q|];
  }

  // ---- Walked namespaces ----

  /** A namespace found `|mid|` levels below its registered root. */
  function Namespace(root: Path, mid: Path, tenant: string): Path {
    root + mid + [TENANTS, tenant]
  }

  lemma NamespaceIsNoExactRoot(root: Path, mid: Path, tenant: string)
    requires IsPhysicalRoot(root)
    ensures !WithinAny(Namespace(root, mid, tenant), ExactRoots(tenant))
    ensures !InTier(Namespace(root, mid, tenant), tenant)
  {
    var e := Namespace(root, mid, tenant);
    assert root <= e;
    SharedIsNoExactRoot(e, root, tenant);
  }

  lemma SharedIsNoExactRoot(e: Path, root: Path, tenant: string)
    requires IsPhysicalRoot(root) && root <= e
    ensures !WithinAny(e, ExactRoots(tenant)) && !InTier(e, tenant)
  {
    hide IsArea;
    assert e[0] == ACTIVE && e[1] == SHARED;
    if |root| == 4 {
      AreasAreApart(root[2], root[3]);
    } else {
      assert e[4] == root[4] && root[4] != "quota";
    }
    assert e[3] == root[3];
  }

  lemma InNamespaceIffDirect(root: Path, mid: Path, tenant: string)
    requires IsPhysicalRoot(root) && root in PHYSICAL_ROOTS && (mid != [] ==> mid[0] != TENANTS)
    ensures InNamespace(Namespace(root, mid, tenant), tenant) <==> mid == []
  {
    hide IsArea, IsPhysicalRoot, PHYSICAL_ROOTS;
    var e := Namespace(root, mid, tenant);
    if mid == [] {
      assert e == root + [TENANTS, tenant];
    } else {
      forall i | 0 <= i < |PHYSICAL_ROOTS| ensures !Within(e, PHYSICAL_ROOTS[i] + [TENANTS, tenant]) {
        var q := PHYSICAL_ROOTS[i];
        if q + [TENANTS, tenant] <= e {
          PhysicalRootsHaveShape(i);
          assert q <= q + [TENANTS, tenant] <= e;
          OneRoot(e, root, q);
          NamespaceSegment(e, q, tenant);
        }
      }
    }
  }

  lemma NamespaceSegment(e: Path, root: Path, tenant: string)
    requires root + [TENANTS, tenant] <= e
    ensures e[|root|] == TENANTS
  {
    assert (root + [TENANTS, tenant])[|root|] == TENANTS;
  }

  lemma InMeshHubIffShallow(root: Path, mid: Path, tenant: string, i: nat)
    requires IsPhysicalRoot(root) && (forall k :: 0 <= k < |mid| ==> mid[k] != TENANTS) && i < |MESH_ROOTS|
    ensures InMeshHub(Namespace(root, mid, tenant), MESH_ROOTS[i], tenant) <==>
      root == MESH_ROOTS[i] && |mid| <= 1
  {
    hide IsArea, IsPhysicalRoot, MESH_ROOTS;
    var e, q := Namespace(root, mid, tenant), MESH_ROOTS[i];
    MeshRootsArePhysical(i);
    assert root <= e;
    if q < e {
      OneRoot(e, root, q);
      assert e[|root|..] == mid + [TENANTS, tenant];
    }
    if root == q {
      assert e[|root|..] == mid + [TENANTS, tenant];
    }
  }

  /**
   * The validator accepts a namespace found below a registered root only where it expects one: right under the
   * root, or one level down in a mesh hub. The runtime partition lookup can also vouch for it.
   */
  lemma NamespaceAcceptedIff(root: Path, mid: Path, tenant: string, partition: Option<string>)
    requires root in PHYSICAL_ROOTS && forall k :: 0 <= k < |mid| ==> mid[k] != TENANTS
    ensures IsTenantBackupEntry(Namespace(root, mid, tenant), tenant, partition) <==>
      partition == Some(tenant) || |mid| == 0 || (|mid| == 1 && root in MESH_ROOTS)
  {
    hide IsPhysicalRoot, PHYSICAL_ROOTS, MESH_ROOTS, InMeshHub, InTier, ExactRoots;
    var i :| 0 <= i < |PHYSICAL_ROOTS| && PHYSICAL_ROOTS[i] == root;
    PhysicalRootsHaveShape(i);
    NamespaceIsNoExactRoot(root, mid, tenant);
    InNamespaceIffDirect(root, mid, tenant);
    forall j | 0 <= j < |MESH_ROOTS|
      ensures InMeshHub(Namespace(root, mid, tenant), MESH_ROOTS[j], tenant) <==> root == MESH_ROOTS[j] && |mid| <= 1
    {
      InMeshHubIffShallow(root, mid, tenant, j);
    }
  }

  // ---- Tenants do not share entries ----

  /** Which segment names the tenant, by the shape of the path. */
  function OwnerIndex(e: Path): nat {
    if e == [] then 0
    else if e[0] == KNOWLEDGE then
      if |e| > 2 && e[1] == PERSONAL && e[2] in [TENANTS, CUSTOMERS] then 3 else 2
    else if e[0] != ACTIVE then 1
    else if |e| < 6 || e[1] != SHARED then (if |e| == 5 && e[1] == SHARED then 4 else 3)
    else if e[3] == "ingest-cursors" then 4
    else if e[3] == MEDIA then (if e[4] == "quota" then 5 else 6)
    else if e[4] == TENANTS && e[5] != TENANTS then 5 else 6
  }

  predicate IsNamespaceName(tenant: string) {
    tenant in [TENANTS, CUSTOMERS]
  }

  predicate OwnedBy(e: Path, tenant: string) {
    OwnerIndex(e) < |e| && e[OwnerIndex(e)] == tenant
  }

  lemma ExactRootNamesOwner(e: Path, tenant: string, i: nat)
    requires !IsNamespaceName(tenant) && i < |ExactRoots(tenant)| && Within(e, ExactRoots(tenant)[i])
    ensures OwnedBy(e, tenant)
  {
    var root := ExactRoots(tenant)[i];
    assert forall k :: 0 <= k < |root| ==> e[k] == root[k];
  }

  lemma MeshHubNamesOwner(e: Path, tenant: string, i: nat)
    requires !IsNamespaceName(tenant) && i < |MESH_ROOTS| && InMeshHub(e, MESH_ROOTS[i], tenant)
    ensures OwnedBy(e, tenant)
  {
    hide IsArea;
    var root := MESH_ROOTS[i];
    MeshRootsArePhysical(i);
    assert forall k :: 0 <= k < 4 ==> e[k] == root[k];
    assert forall k :: 0 <= k < |e| - 4 ==> e[4..][k] == e[4 + k];
    AreasAreApart(root[2], root[3]);
  }

  lemma NamespaceNamesOwner(e: Path, tenant: string, i: nat)
    requires !IsNamespaceName(tenant) && i < |PHYSICAL_ROOTS| && Within(e, PHYSICAL_ROOTS[i] + [TENANTS, tenant])
    ensures OwnedBy(e, tenant)
  {
    hide IsArea, PHYSICAL_ROOTS;
    var root := PHYSICAL_ROOTS[i];
    var whole := root + [TENANTS, tenant];
    PhysicalRootsHaveShape(i);
    assert forall k :: 0 <= k < |whole| ==> e[k] == whole[k];
    assert whole[|root|] == TENANTS && whole[|root| + 1] == tenant;
    if |root| == 4 {
      AreasAreApart(root[2], root[3]);
    }
  }

  lemma AcceptedNamesOwner(e: Path, tenant: string)
    requires !IsNamespaceName(tenant) && IsTenantBackupEntry(e, tenant, None)
    ensures OwnedBy(e, tenant)
  {
    hide PHYSICAL_ROOTS, MESH_ROOTS, ExactRoots, OwnedBy, InMeshHub, InTier;
    if WithinAny(e, ExactRoots(tenant)) {
      var i :| 0 <= i < |ExactRoots(tenant)| && Within(e, ExactRoots(tenant)[i]);
      ExactRootNamesOwner(e, tenant, i);
    } else if InTier(e, tenant) {
      TierNamesOwner(e, tenant);
    } else if InNamespace(e, tenant) {
      var i :| 0 <= i < |PHYSICAL_ROOTS| && Within(e, PHYSICAL_ROOTS[i] + [TENANTS, tenant]);
      NamespaceNamesOwner(e, tenant, i);
    } else {
      var i :| 0 <= i < |MESH_ROOTS| && InMeshHub(e, MESH_ROOTS[i], tenant);
      MeshHubNamesOwner(e, tenant, i);
    }
  }

  lemma TierNamesOwner(e: Path, tenant: string)
    requires InTier(e, tenant)
    ensures OwnedBy(e, tenant)
  {
  }

  /** The tenant of the runtime partition a path lies in, as the runtime layout tells it. */
  type Lookup = Path -> Option<string>

  ghost predicate ShareAnEntry(a: string, b: string, lookup: Lookup) {
    exists e: Path :: IsTenantBackupEntry(e, a, lookup(e)) && IsTenantBackupEntry(e, b, lookup(e))
  }

  /** No partition of one tenant lies where the allowlist gives an entry to another. */
  ghost predicate PartitionsAreApart(lookup: Lookup) {
    forall e, t :: lookup(e).Some? && IsTenantBackupEntry(e, t, None) ==> lookup(e) == Some(t)
  }

  lemma LookupOnlyAdds(e: Path, tenant: string, partition: Option<string>)
    ensures IsTenantBackupEntry(e, tenant, partition) <==>
      IsTenantBackupEntry(e, tenant, None) || partition == Some(tenant)
  {
    hide ExactRoots, PHYSICAL_ROOTS, MESH_ROOTS, InMeshHub, InTier, InNamespace;
  }

  /**
   * The allowlist keeps tenants apart except those named like the namespaces `tenants` and `customers`, whose
   * personal root holds every other tenant's.
   */
  lemma TenantsAreApartIff(a: string, b: string, lookup: Lookup)
    requires a != b && PartitionsAreApart(lookup)
    ensures ShareAnEntry(a, b, lookup) <==> IsNamespaceName(a) || IsNamespaceName(b)
  {
    hide IsTenantBackupEntry, OwnerIndex, IsNamespaceName;
    if IsNamespaceName(a) {
      NamespaceNameIsShared(a, b, lookup);
    } else if IsNamespaceName(b) {
      NamespaceNameIsShared(b, a, lookup);
    } else {
      forall e: Path | IsTenantBackupEntry(e, a, lookup(e)) && IsTenantBackupEntry(e, b, lookup(e)) ensures false {
        LookupOnlyAdds(e, a, lookup(e));
        LookupOnlyAdds(e, b, lookup(e));
        OwnersAreApart(e, a, b, lookup);
      }
    }
  }

  lemma OwnersAreApart(e: Path, a: string, b: string, lookup: Lookup)
    requires !IsNamespaceName(a) && !IsNamespaceName(b) && PartitionsAreApart(lookup)
    requires IsTenantBackupEntry(e, a, None) || lookup(e) == Some(a)
    requires IsTenantBackupEntry(e, b, None) || lookup(e) == Some(b)
    ensures a == b
  {
    hide IsTenantBackupEntry, OwnerIndex, IsNamespaceName;
    if IsTenantBackupEntry(e, a, None) && IsTenantBackupEntry(e, b, None) {
      AcceptedNamesOwner(e, a);
      AcceptedNamesOwner(e, b);
    }
  }

  lemma NamespaceNameIsShared(name: string, other: string, lookup: Lookup)
    requires IsNamespaceName(name)
    ensures ShareAnEntry(name, other, lookup) && ShareAnEntry(other, name, lookup)
  {
    hide IsTenantBackupEntry, IsNamespaceName;
    var e := [KNOWLEDGE, PERSONAL, name, other];
    NamespaceNameHoldsOthers(name, other);
    LookupOnlyAdds(e, name, lookup(e));
    LookupOnlyAdds(e, other, lookup(e));
  }

  lemma NamespaceNameHoldsOthers(name: string, other: string)
    requires IsNamespaceName(name)
    ensures var e := [KNOWLEDGE, PERSONAL, name, other];
      IsTenantBackupEntry(e, name, None) && IsTenantBackupEntry(e, other, None)
  {
    var e := [KNOWLEDGE, PERSONAL, name, other];
    assert Within(e, ExactRoots(name)[1]);
    assert Within(e, ExactRoots(other)[if name == TENANTS then 2 else 3]);
  }

  /** `^[a-z][a-z0-9-]{1,30}$`, and no reserved scope name. */
  predicate IsValidTenantSlug(slug: string) {
    && 2 <= |slug| <= 31 && 'a' <= slug[0] <= 'z'
    && (forall i :: 0 <= i < |slug| ==> 'a' <= slug[i] <= 'z' || '0' <= slug[i] <= '9' || slug[i] == '-')
    && slug !in ["public", "confidential", "personal", "shared"]
  }

  /** Both names are slugs a tenant may have. */
  lemma NamespaceNamesAreSlugs(name: string)
    requires IsNamespaceName(name)
    ensures IsValidTenantSlug(name)
  {
  }
}
