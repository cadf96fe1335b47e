/** Whether a tenant archive may be restored, and when the planner makes archives that may. */
module BackupRestore {
  import opened Wrappers
  import opened BackupScope
  import opened BackupPlan
  import opened MissionRepos

  datatype Scope = All | Mission | Tenant

  datatype Repo = Repo(path: Path, bundle: Option<Path>)

  datatype Manifest = Manifest(
    scope: Scope, tenant: Option<string>, entries: seq<Path>, repos: seq<Repo>, partitions: seq<Path>)

  datatype Request = Request(scope: Scope, tenant: Option<string>)

  datatype ScopeError =
    | UnsafePath | RepoOutside | BundleOutside | InvalidSlug | ScopeNotExplicit | TenantMismatch
    | EntryOutside | PartitionOutside | ScopeMismatch | MemberOutside

  // ---- The validator ----

  predicate IsSafe(p: Path) {
    p != [] && p[0] != "" && ".." !in p
  }

  function BundleDir(manifestMember: Path): Path
    requires manifestMember != []
  {
    manifestMember[..|manifestMember| - 1] + ["mission-git-bundles"]
  }

  /** Equal, below the root, or a directory above it. */
  predicate IsWithinArchiveRoot(member: Path, root: Path) {
    root <= member || member <= root
  }

  predicate RepoAllowed(m: Manifest, manifestMember: Path, repo: Repo, lookup: Lookup)
    requires manifestMember != []
  {
    && IsSafe(repo.path)
    && (m.scope.Tenant? ==> m.tenant.Some? && IsTenantBackupEntry(repo.path, m.tenant.value, lookup(repo.path)))
    && (repo.bundle.Some? ==> IsSafe(repo.bundle.value) && BundleDir(manifestMember) < repo.bundle.value)
  }

  function Bundles(repos: seq<Repo>): seq<Path> {
    if repos == [] then []
    else if repos[0].bundle.Some? then [repos[0].bundle.value] + Bundles(repos[1..])
    else Bundles(repos[1..])
  }

  function AllowedRoots(m: Manifest, manifestMember: Path): seq<Path> {
    m.entries + [manifestMember] + Bundles(m.repos)
  }

  predicate MemberAllowed(roots: seq<Path>, member: Path) {
    exists i :: 0 <= i < |roots| && IsWithinArchiveRoot(member, roots[i])
  }

  predicate TenantAllowed(m: Manifest, request: Request, lookup: Lookup) {
    && m.tenant.Some? && IsValidTenantSlug(m.tenant.value)
    && request.scope.Tenant? && request.tenant == m.tenant
    && (forall i :: 0 <= i < |m.entries| ==> IsTenantBackupEntry(m.entries[i], m.tenant.value, lookup(m.entries[i])))
    && forall i :: 0 <= i < |m.partitions| ==> lookup(m.partitions[i]) == m.tenant
  }

  /** What the validator stands for. */
  predicate MayRestore(m: Manifest, manifestMember: Path, members: seq<Path>, request: Request, lookup: Lookup)
    requires manifestMember != []
  {
    && (forall i :: 0 <= i < |m.repos| ==> RepoAllowed(m, manifestMember, m.repos[i], lookup))
    && (if m.scope.Tenant? then TenantAllowed(m, request, lookup) else request.scope.All? || request.scope == m.scope)
    && forall i :: 0 <= i < |members| ==> MemberAllowed(AllowedRoots(m, manifestMember), members[i])
  }

  // ---- Which error is reported ----

  predicate ReposAllowed(m: Manifest, manifestMember: Path, n: nat, lookup: Lookup)
    requires manifestMember != [] && n <= |m.repos|
  {
    forall i :: 0 <= i < n ==> RepoAllowed(m, manifestMember, m.repos[i], lookup)
  }

  /** What is wrong with a repository, its path first, then its tenant, then its bundle. */
  predicate RepoFails(m: Manifest, manifestMember: Path, repo: Repo, lookup: Lookup, e: ScopeError)
    requires manifestMember != []
  {
    var foreign := m.scope.Tenant? &&
      (m.tenant.None? || !IsTenantBackupEntry(repo.path, m.tenant.value, lookup(repo.path)));
    var unsafeBundle := repo.bundle.Some? && !IsSafe(repo.bundle.value);
    match e
    case UnsafePath => !IsSafe(repo.path) || (!foreign && unsafeBundle)
    case RepoOutside => IsSafe(repo.path) && foreign
    case BundleOutside =>
      IsSafe(repo.path) && !foreign && repo.bundle.Some? && !unsafeBundle
      && !(BundleDir(manifestMember) < repo.bundle.value)
    case _ => false
  }

  predicate RepoErrorIs(m: Manifest, manifestMember: Path, lookup: Lookup, e: ScopeError)
    requires manifestMember != []
  {
    exists i :: 0 <= i < |m.repos| && ReposAllowed(m, manifestMember, i, lookup)
      && RepoFails(m, manifestMember, m.repos[i], lookup, e)
  }

  /** What is wrong with a tenant archive: its slug, then the request, then its entries, then its partitions. */
  predicate TenantErrorIs(m: Manifest, request: Request, lookup: Lookup, e: ScopeError) {
    var named := m.tenant.Some? && IsValidTenantSlug(m.tenant.value);
    var asked := request.scope.Tenant? && request.tenant.Some? && request.tenant.value != "";
    var foreign := named &&
      exists i :: 0 <= i < |m.entries| && !IsTenantBackupEntry(m.entries[i], m.tenant.value, lookup(m.entries[i]));
    match e
    case InvalidSlug => !named
    case ScopeNotExplicit => named && !asked
    case TenantMismatch => named && asked && request.tenant.value != m.tenant.value
    case EntryOutside => named && asked && request.tenant == m.tenant && foreign
    case PartitionOutside =>
      named && asked && request.tenant == m.tenant && !foreign
      && exists i :: 0 <= i < |m.partitions| && lookup(m.partitions[i]) != m.tenant
    case _ => false
  }

  /** The repositories are looked at first, then the scope, then the members; the first fault found is reported. */
  predicate ErrorIs(m: Manifest, manifestMember: Path, members: seq<Path>, request: Request, lookup: Lookup,
                    e: ScopeError)
    requires manifestMember != []
  {
    var reposFine := ReposAllowed(m, manifestMember, |m.repos|, lookup);
    match e
    case UnsafePath => RepoErrorIs(m, manifestMember, lookup, e)
    case RepoOutside => RepoErrorIs(m, manifestMember, lookup, e)
    case BundleOutside => RepoErrorIs(m, manifestMember, lookup, e)
    case ScopeMismatch => reposFine && !m.scope.Tenant? && !request.scope.All? && request.scope != m.scope
    case MemberOutside =>
      && reposFine
      && (if m.scope.Tenant? then TenantAllowed(m, request, lookup) else request.scope.All? || request.scope == m.scope)
      && exists i :: 0 <= i < |members| && !MemberAllowed(AllowedRoots(m, manifestMember), members[i])
    case _ => reposFine && m.scope.Tenant? && TenantErrorIs(m, request, lookup, e)
  }

  // ---- The checks ----

  method CheckRepos(m: Manifest, manifestMember: Path, lookup: Lookup)
    returns (r: Option<ScopeError>, bundlePaths: seq<Path>)
    requires manifestMember != []
    ensures r.None? <==> forall i :: 0 <= i < |m.repos| ==> RepoAllowed(m, manifestMember, m.repos[i], lookup)
    ensures r.Some? ==> RepoErrorIs(m, manifestMember, lookup, r.value)
    ensures r.None? ==> bundlePaths == Bundles(m.repos)
  {
    hide IsTenantBackupEntry;
    bundlePaths := [];
    for i := 0 to |m.repos|
      invariant forall j :: 0 <= j < i ==> RepoAllowed(m, manifestMember, m.repos[j], lookup)
      invariant Bundles(m.repos) == bundlePaths + Bundles(m.repos[i..])
    {
      var repo := m.repos[i];
      assert m.repos[i..][1..] == m.repos[i + 1..];
      if !IsSafe(repo.path) {
        return Some(UnsafePath), bundlePaths;
      }
      if m.scope.Tenant? && (m.tenant.None? || !IsTenantBackupEntry(repo.path, m.tenant.value, lookup(repo.path))) {
        return Some(RepoOutside), bundlePaths;
      }
      if repo.bundle.Some? {
        if !IsSafe(repo.bundle.value) {
          return Some(UnsafePath), bundlePaths;
        }
        if !(BundleDir(manifestMember) < repo.bundle.value) {
          return Some(BundleOutside), bundlePaths;
        }
        bundlePaths := bundlePaths + [repo.bundle.value];
      }
    }
    r := None;
  }

  method CheckTenant(m: Manifest, request: Request, lookup: Lookup) returns (r: Option<ScopeError>)
    ensures r.None? <==> TenantAllowed(m, request, lookup)
    ensures r.Some? ==> TenantErrorIs(m, request, lookup, r.value)
  {
    hide IsTenantBackupEntry;
    if m.tenant.None? || !IsValidTenantSlug(m.tenant.value) {
      return Some(InvalidSlug);
    }
    if !request.scope.Tenant? || request.tenant.None? || request.tenant.value == "" {
      return Some(ScopeNotExplicit);
    }
    if request.tenant != m.tenant {
      return Some(TenantMismatch);
    }
    if exists i :: 0 <= i < |m.entries| && !IsTenantBackupEntry(m.entries[i], m.tenant.value, lookup(m.entries[i])) {
      return Some(EntryOutside);
    }
    for i := 0 to |m.partitions|
      invariant forall j :: 0 <= j < i ==> lookup(m.partitions[j]) == m.tenant
    {
      if lookup(m.partitions[i]) != m.tenant {
        return Some(PartitionOutside);
      }
    }
    r := None;
  }

  method ValidateArchiveManifestScope(
    m: Manifest, manifestMember: Path, members: seq<Path>, request: Request, lookup: Lookup)
    returns (r: Option<ScopeError>)
    requires manifestMember != []
    ensures r.None? <==> MayRestore(m, manifestMember, members, request, lookup)
    ensures r.Some? ==> ErrorIs(m, manifestMember, members, request, lookup, r.value)
  {
    hide RepoAllowed, TenantAllowed;
    var bundlePaths;
    r, bundlePaths := CheckRepos(m, manifestMember, lookup);
    if r.Some? {
      return;
    }
    var allowedRoots := m.entries + [manifestMember] + bundlePaths;
    if m.scope.Tenant? {
      r := CheckTenant(m, request, lookup);
      if r.Some? {
        return;
      }
    } else if !request.scope.All? && request.scope != m.scope {
      return Some(ScopeMismatch);
    }
    for i := 0 to |members|
      invariant forall j :: 0 <= j < i ==> MemberAllowed(allowedRoots, members[j])
    {
      if !MemberAllowed(allowedRoots, members[i]) {
        return Some(MemberOutside);
      }
    }
    r := None;
  }

  // ---- The planner against the validator ----

  /** Directories list names, and a name is not empty. */
  ghost predicate NamesAreReal(disk: Disk) {
    forall dir :: dir in disk.listing ==> "" !in disk.listing[dir]
  }

  predicate IsShallow(root: Path, mid: Path) {
    |mid| == 0 || (|mid| == 1 && root in MESH_ROOTS)
  }

  /** A namespace the walk finds below a registered root. */
  ghost predicate IsWalkedTo(disk: Disk, tenant: string, i: nat, mid: Path)
    requires i < |PHYSICAL_ROOTS|
  {
    && |mid| <= MAX_DEPTH && Reaches(disk, PHYSICAL_ROOTS[i], mid)
    && Namespace(PHYSICAL_ROOTS[i], mid, tenant) in disk.present
  }

  /** Every namespace the walk finds lies where the validator expects one, or in a partition of the tenant. */
  ghost predicate NamespacesAreShallow(disk: Disk, tenant: string, lookup: Lookup) {
    forall i, mid :: 0 <= i < |PHYSICAL_ROOTS| && IsWalkedTo(disk, tenant, i, mid) ==>
      IsShallow(PHYSICAL_ROOTS[i], mid) || lookup(Namespace(PHYSICAL_ROOTS[i], mid, tenant)) == Some(tenant)
  }

  ghost predicate AllAccepted(disk: Disk, tenant: string, partitions: set<Path>, lookup: Lookup) {
    forall e :: IsPlanned(disk, tenant, partitions, e) ==> IsTenantBackupEntry(e, tenant, lookup(e))
  }

  lemma TierIsAccepted(disk: Disk, base: Path, tenant: string, e: Path, partition: Option<string>)
    requires NamesAreReal(disk) && base in [PROJECTS, ACTIVE_MISSIONS] && TierFinds(disk, base, tenant, e)
    ensures IsTenantBackupEntry(e, tenant, partition)
  {
    hide ExactRoots, PHYSICAL_ROOTS, MESH_ROOTS;
    var tier :| tier in disk.listing[base] && e == base + [tier, tenant];
    assert InTier(e, tenant);
  }

  lemma FixedIsAccepted(disk: Disk, tenant: string, e: Path, partition: Option<string>)
    requires FixedFinds(disk, tenant, |ExactRoots(tenant)|, e)
    ensures IsTenantBackupEntry(e, tenant, partition)
  {
    hide ExactRoots, PHYSICAL_ROOTS, MESH_ROOTS;
    assert WithinAny(e, ExactRoots(tenant));
  }

  lemma WalkedIsAcceptedIff(disk: Disk, tenant: string, i: nat, mid: Path, partition: Option<string>)
    requires i < |PHYSICAL_ROOTS| && IsWalkedTo(disk, tenant, i, mid)
    ensures IsTenantBackupEntry(Namespace(PHYSICAL_ROOTS[i], mid, tenant), tenant, partition) <==>
      IsShallow(PHYSICAL_ROOTS[i], mid) || partition == Some(tenant)
  {
    hide PHYSICAL_ROOTS, MESH_ROOTS, IsTenantBackupEntry;
    WalkAvoidsTenants(disk, PHYSICAL_ROOTS[i], mid);
    NamespaceAcceptedIff(PHYSICAL_ROOTS[i], mid, tenant, partition);
  }

  lemma WalkedIsPlanned(disk: Disk, tenant: string, partitions: set<Path>, i: nat, mid: Path)
    requires i < |PHYSICAL_ROOTS| && IsWalkedTo(disk, tenant, i, mid)
    ensures IsPlanned(disk, tenant, partitions, Namespace(PHYSICAL_ROOTS[i], mid, tenant))
  {
    hide PHYSICAL_ROOTS, ExactRoots, Namespace;
    assert Finds(disk, PHYSICAL_ROOTS[i], tenant, 0, Namespace(PHYSICAL_ROOTS[i], mid, tenant));
  }

  lemma PlannedIsAccepted(disk: Disk, tenant: string, partitions: set<Path>, lookup: Lookup, e: Path)
    requires NamesAreReal(disk) && forall p :: p in partitions ==> lookup(p) == Some(tenant)
    requires NamespacesAreShallow(disk, tenant, lookup) && IsPlanned(disk, tenant, partitions, e)
    ensures IsTenantBackupEntry(e, tenant, lookup(e))
  {
    hide PHYSICAL_ROOTS, MESH_ROOTS, ExactRoots, IsShallow, TierFinds, FixedFinds;
    if TierFinds(disk, PROJECTS, tenant, e) {
      TierIsAccepted(disk, PROJECTS, tenant, e, lookup(e));
    } else if TierFinds(disk, ACTIVE_MISSIONS, tenant, e) {
      TierIsAccepted(disk, ACTIVE_MISSIONS, tenant, e, lookup(e));
    } else if FixedFinds(disk, tenant, |ExactRoots(tenant)|, e) {
      FixedIsAccepted(disk, tenant, e, lookup(e));
    } else if WalkFinds(disk, tenant, |PHYSICAL_ROOTS|, e) {
      var i :| 0 <= i < |PHYSICAL_ROOTS| && Finds(disk, PHYSICAL_ROOTS[i], tenant, 0, e);
      var mid :| |mid| <= MAX_DEPTH && Reaches(disk, PHYSICAL_ROOTS[i], mid)
        && e == Namespace(PHYSICAL_ROOTS[i], mid, tenant);
      assert IsWalkedTo(disk, tenant, i, mid);
      WalkedIsAcceptedIff(disk, tenant, i, mid, lookup(e));
    }
  }

  /** The validator accepts every planned entry exactly when no namespace is nested deeper than it expects. */
  lemma PlanIsAcceptedIff(disk: Disk, tenant: string, partitions: set<Path>, lookup: Lookup)
    requires NamesAreReal(disk) && forall p :: p in partitions ==> lookup(p) == Some(tenant)
    ensures AllAccepted(disk, tenant, partitions, lookup) <==> NamespacesAreShallow(disk, tenant, lookup)
  {
    hide PHYSICAL_ROOTS, MESH_ROOTS, IsPlanned, IsTenantBackupEntry, IsShallow, IsWalkedTo;
    if NamespacesAreShallow(disk, tenant, lookup) {
      forall e | IsPlanned(disk, tenant, partitions, e) ensures IsTenantBackupEntry(e, tenant, lookup(e)) {
        PlannedIsAccepted(disk, tenant, partitions, lookup, e);
      }
    }
    if AllAccepted(disk, tenant, partitions, lookup) {
      forall i, mid | 0 <= i < |PHYSICAL_ROOTS| && IsWalkedTo(disk, tenant, i, mid)
        ensures IsShallow(PHYSICAL_ROOTS[i], mid) ||
          lookup(Namespace(PHYSICAL_ROOTS[i], mid, tenant)) == Some(tenant)
      {
        var e := Namespace(PHYSICAL_ROOTS[i], mid, tenant);
        WalkedIsPlanned(disk, tenant, partitions, i, mid);
        WalkedIsAcceptedIff(disk, tenant, i, mid, lookup(e));
      }
    }
  }

  // ---- Mission repositories ----

  /** A repository of the tenant's own active missions, or a personal one of a tenant that is called `missions`. */
  predicate IsOwnMissionRepo(repo: Path, tenant: string, i: nat) {
    (i == 0 && InTier(repo, tenant)) || (i == 2 && tenant == MISSIONS)
  }

  lemma MissionRootSegments(repo: Path, i: nat)
    requires i < |MISSION_ROOTS| && MISSION_ROOTS[i] <= repo
    ensures i < 3 && |repo| >= 2
    ensures i == 0 ==> repo[0] == ACTIVE && repo[1] == MISSIONS
    ensures i == 1 ==> repo[0] == ACTIVE && repo[1] == "archive"
    ensures i == 2 ==> |repo| >= 3 && repo[0] == KNOWLEDGE && repo[1] == PERSONAL && repo[2] == MISSIONS
  {
    var root := MISSION_ROOTS[i];
    assert forall k :: 0 <= k < |root| ==> repo[k] == root[k];
  }

  /** No mission root lies in the shared area that the physical roots are in. */
  lemma MissionRootIsNotShared(repo: Path, i: nat)
    requires i < |MISSION_ROOTS| && MISSION_ROOTS[i] <= repo
    ensures !(repo[0] == ACTIVE && repo[1] == SHARED)
  {
    MissionRootSegments(repo, i);
    assert KNOWLEDGE[0] != ACTIVE[0];
    assert |MISSIONS| != |SHARED| && |"archive"| != |SHARED|;
  }

  lemma SharedSegments(repo: Path, root: Path)
    requires IsPhysicalRoot(root) && root <= repo
    ensures |repo| >= 4 && repo[0] == ACTIVE && repo[1] == SHARED
  {
    hide IsArea;
    assert forall k :: 0 <= k < |root| ==> repo[k] == root[k];
  }

  lemma MissionRepoInNoPhysicalRoot(repo: Path, tenant: string, i: nat)
    requires i < |MISSION_ROOTS| && MISSION_ROOTS[i] <= repo
    ensures forall j :: 0 <= j < |MESH_ROOTS| ==> !InMeshHub(repo, MESH_ROOTS[j], tenant)
    ensures !InNamespace(repo, tenant)
  {
    hide IsPhysicalRoot, MISSION_ROOTS, MESH_ROOTS, PHYSICAL_ROOTS, ACTIVE, SHARED, TENANTS;
    MissionRootIsNotShared(repo, i);
    forall j | 0 <= j < |MESH_ROOTS| ensures !InMeshHub(repo, MESH_ROOTS[j], tenant) {
      MeshRootsArePhysical(j);
      if MESH_ROOTS[j] <= repo {
        SharedSegments(repo, MESH_ROOTS[j]);
      }
    }
    forall j | 0 <= j < |PHYSICAL_ROOTS| ensures !Within(repo, PHYSICAL_ROOTS[j] + [TENANTS, tenant]) {
      PhysicalRootsHaveShape(j);
      if PHYSICAL_ROOTS[j] + [TENANTS, tenant] <= repo {
        PrefixOfWhole(PHYSICAL_ROOTS[j], [TENANTS, tenant], repo);
        SharedSegments(repo, PHYSICAL_ROOTS[j]);
      }
    }
  }

  lemma PrefixOfWhole(a: Path, b: Path, p: Path)
    requires a + b <= p
    ensures a <= p
  {
    assert a <= a + b;
  }

  lemma MissionRepoInExactRootIff(repo: Path, tenant: string, i: nat)
    requires i < |MISSION_ROOTS| && MISSION_ROOTS[i] <= repo
    ensures WithinAny(repo, ExactRoots(tenant)) <==> i == 2 && tenant == MISSIONS
  {
    hide MISSION_ROOTS;
    var exact := ExactRoots(tenant);
    MissionRootSegments(repo, i);
    MissionRootIsNotShared(repo, i);
    if i == 2 && tenant == MISSIONS {
      assert repo[..3] == exact[1] && Within(repo, exact[1]);
    }
    forall j | 0 <= j < |exact| && Within(repo, exact[j]) ensures i == 2 && tenant == MISSIONS {
      ExactRootOfMission(repo, tenant, j);
    }
  }

  /** Of the exact roots only the tenant's personal one can hold a mission repository. */
  lemma ExactRootOfMission(repo: Path, tenant: string, j: nat)
    requires j < |ExactRoots(tenant)| && Within(repo, ExactRoots(tenant)[j]) && |repo| >= 2
    requires (repo[0] == ACTIVE && repo[1] != SHARED) ||
      (|repo| >= 3 && repo[0] == KNOWLEDGE && repo[1] == PERSONAL && repo[2] == MISSIONS)
    ensures repo[0] == KNOWLEDGE && tenant == MISSIONS
  {
    var root := ExactRoots(tenant)[j];
    assert repo[0] == root[0] && repo[1] == root[1];
    assert ACTIVE[0] != KNOWLEDGE[0] && CUSTOMERS[0] != ACTIVE[0] && CUSTOMERS[0] != KNOWLEDGE[0];
    assert "customer"[0] == 'c' && ACTIVE[0] == 'a' && KNOWLEDGE[0] == 'k';
    if j < 4 {
      assert repo[0] == KNOWLEDGE;
      assert PERSONAL[0] != "confidential"[0];
      assert repo[2] == root[2];
      assert |MISSIONS| == 8 && |TENANTS| == 7 && |CUSTOMERS| == 9;
    }
  }

  /**
   * Of the repositories found below the mission roots, the validator lets a tenant have those of its own active
   * missions; the personal ones only pass for a tenant that is called `missions`.
   */
  lemma MissionRepoAcceptedIff(repo: Path, tenant: string, i: nat)
    requires i < |MISSION_ROOTS| && MISSION_ROOTS[i] <= repo
    ensures IsTenantBackupEntry(repo, tenant, None) <==> IsOwnMissionRepo(repo, tenant, i)
  {
    hide MISSION_ROOTS, MESH_ROOTS, PHYSICAL_ROOTS, ExactRoots, InNamespace, InMeshHub;
    MissionRepoInNoPhysicalRoot(repo, tenant, i);
    MissionRepoInExactRootIff(repo, tenant, i);
    MissionRepoInTier(repo, tenant, i);
  }

  lemma MissionRepoInTier(repo: Path, tenant: string, i: nat)
    requires i < |MISSION_ROOTS| && MISSION_ROOTS[i] <= repo
    ensures InTier(repo, tenant) ==> i == 0
  {
    hide MISSION_ROOTS;
    MissionRootSegments(repo, i);
    assert KNOWLEDGE[0] != ACTIVE[0] && "archive"[0] != "projects"[0] && "archive"[0] != MISSIONS[0];
  }
}
