/** From the plan of a tenant backup to its restore: which archives of the planner the validator lets through. */
module BackupRoundTrip {
  import opened Wrappers
  import opened BackupScope
  import opened BackupPlan
  import opened MissionRepos
  import opened BackupRestore

  // ---- What the planner archives ----

  function SetOf(paths: seq<Path>): set<Path> {
    set p | p in paths
  }

  function TenantManifest(tenant: string, entries: seq<Path>, repos: seq<Repo>, partitions: seq<Path>): Manifest {
    Manifest(Tenant, Some(tenant), entries, repos, partitions)
  }

  ghost predicate ListsRepo(repos: seq<Repo>, repo: Path) {
    exists i :: 0 <= i < |repos| && repos[i].path == repo
  }

  /** Bundles lie in the temporary directory beside the manifest, or could not be made. */
  ghost predicate BundlesAreBeside(repos: seq<Repo>, manifestMember: Path)
    requires manifestMember != []
  {
    forall i :: 0 <= i < |repos| && repos[i].bundle.Some? ==>
      IsSafe(repos[i].bundle.value) && BundleDir(manifestMember) < repos[i].bundle.value
  }

  /** A member lies below a path, or is a directory on the way to it. */
  predicate LiesAlong(member: Path, p: Path) {
    p <= member || member <= p
  }

  /** The archive holds the planned entries, the manifest and the bundles, with what is below and above them. */
  ghost predicate IsArchived(entries: seq<Path>, repos: seq<Repo>, manifestMember: Path, member: Path) {
    || (exists e :: e in entries && LiesAlong(member, e))
    || LiesAlong(member, manifestMember)
    || exists i :: 0 <= i < |repos| && repos[i].bundle.Some? && LiesAlong(member, repos[i].bundle.value)
  }

  /** Names on a disk are names: not empty, and not the way up. */
  ghost predicate NamesAreProper(disk: Disk) {
    forall dir :: dir in disk.listing ==> "" !in disk.listing[dir] && ".." !in disk.listing[dir]
  }

  /** What lies below a partition lies in it. */
  ghost predicate LookupGoesDown(lookup: Lookup) {
    forall p, q :: p <= q && lookup(p).Some? ==> lookup(q) == lookup(p)
  }

  ghost predicate ArePartitions(partitions: seq<Path>, tenant: string, lookup: Lookup) {
    forall p :: p in partitions ==> lookup(p) == Some(tenant) && IsSafe(p)
  }

  /** A path the plan makes the repository walk start from. */
  ghost predicate IsPlannedRoot(disk: Disk, tenant: string, partitions: set<Path>, root: Path) {
    || (IsPlanned(disk, tenant, partitions, root) && HoldsMissions(root))
    || (root in MISSION_ROOTS && root in disk.present)
  }

  /** No listing that the plan needs fails, so the plan does not throw. */
  ghost predicate PlanRuns(disk: Disk, tenant: string, partitions: set<Path>) {
    && IsReadable(disk, PROJECTS) && IsReadable(disk, ACTIVE_MISSIONS)
    && forall root :: IsPlannedRoot(disk, tenant, partitions, root) ==> !Throws(disk, root, 0)
  }

  /** An archive the planner makes of a tenant on a disk. */
  ghost predicate IsArchiveOf(disk: Disk, tenant: string, entries: seq<Path>, repos: seq<Repo>, partitions: seq<Path>,
                              manifestMember: Path, members: seq<Path>, lookup: Lookup) {
    && NamesAreProper(disk) && IsValidTenantSlug(tenant) && manifestMember != []
    && PlanRuns(disk, tenant, SetOf(partitions))
    && LookupGoesDown(lookup) && ArePartitions(partitions, tenant, lookup)
    && (forall e :: e in entries <==> IsPlanned(disk, tenant, SetOf(partitions), e))
    && (forall r :: ListsRepo(repos, r) <==> IsCollected(disk, entries, r))
    && BundlesAreBeside(repos, manifestMember)
    && forall i :: 0 <= i < |members| ==> IsArchived(entries, repos, manifestMember, members[i])
  }

  // ---- What the disk must be like ----

  /**
   * Every repository found below a mission root is one of the tenant's own active missions, or a personal one of a
   * tenant that is called `missions`, or lies in a partition of the tenant.
   */
  ghost predicate MissionReposAreOwn(disk: Disk, tenant: string, lookup: Lookup) {
    forall i, repo :: 0 <= i < |MISSION_ROOTS| && IsMissionRepo(disk, i, repo) ==>
      IsOwnMissionRepo(repo, tenant, i) || lookup(repo) == Some(tenant)
  }

  ghost predicate IsMissionRepo(disk: Disk, i: nat, repo: Path)
    requires i < |MISSION_ROOTS|
  {
    MISSION_ROOTS[i] in disk.present && FindsRepo(disk, MISSION_ROOTS[i], 0, repo)
  }

  // ---- What is accepted stays accepted further down ----

  lemma AcceptedGoesDown(e: Path, q: Path, tenant: string, lookup: Lookup)
    requires e <= q && LookupGoesDown(lookup) && IsTenantBackupEntry(e, tenant, lookup(e))
    ensures IsTenantBackupEntry(q, tenant, lookup(q))
  {
    hide ExactRoots, PHYSICAL_ROOTS, MESH_ROOTS, TENANTS;
    if i :| 0 <= i < |MESH_ROOTS| && InMeshHub(e, MESH_ROOTS[i], tenant) {
      MeshHubGoesDown(e, q, MESH_ROOTS[i], tenant);
    }
    if InTier(e, tenant) {
      TierGoesDown(e, q, tenant);
    }
  }

  lemma TierGoesDown(e: Path, q: Path, tenant: string)
    requires e <= q && InTier(e, tenant)
    ensures InTier(q, tenant)
  {
    assert forall k :: 0 <= k < |e| ==> q[k] == e[k];
  }

  lemma MeshHubGoesDown(e: Path, q: Path, root: Path, tenant: string)
    requires e <= q && InMeshHub(e, root, tenant)
    ensures InMeshHub(q, root, tenant)
  {
    hide TENANTS;
    assert q[|root|..] == e[|root|..] + q[|e|..];
  }

  lemma MissionRepoIsAcceptedIff(disk: Disk, tenant: string, lookup: Lookup, i: nat, repo: Path)
    requires i < |MISSION_ROOTS| && IsMissionRepo(disk, i, repo)
    ensures IsTenantBackupEntry(repo, tenant, lookup(repo)) <==>
      IsOwnMissionRepo(repo, tenant, i) || lookup(repo) == Some(tenant)
  {
    hide IsTenantBackupEntry, IsOwnMissionRepo, MISSION_ROOTS, ReachesRepo;
    LookupOnlyAdds(repo, tenant, lookup(repo));
    MissionRepoAcceptedIff(repo, tenant, i);
  }

  ghost predicate ReposAreAccepted(repos: seq<Repo>, tenant: string, lookup: Lookup) {
    forall i :: 0 <= i < |repos| ==> IsTenantBackupEntry(repos[i].path, tenant, lookup(repos[i].path))
  }

  /** Once the entries are accepted, so are the repositories exactly when the missions' ones are the tenant's. */
  lemma ReposAreAcceptedIff(disk: Disk, tenant: string, entries: seq<Path>, repos: seq<Repo>, lookup: Lookup)
    requires LookupGoesDown(lookup)
    requires forall e :: e in entries ==> IsTenantBackupEntry(e, tenant, lookup(e))
    requires forall r :: ListsRepo(repos, r) <==> IsCollected(disk, entries, r)
    ensures ReposAreAccepted(repos, tenant, lookup) <==> MissionReposAreOwn(disk, tenant, lookup)
  {
    hide IsTenantBackupEntry, IsOwnMissionRepo, MISSION_ROOTS, HoldsMissions, LookupGoesDown, FindsRepo;
    if ReposAreAccepted(repos, tenant, lookup) {
      forall i, repo | 0 <= i < |MISSION_ROOTS| && IsMissionRepo(disk, i, repo)
        ensures IsOwnMissionRepo(repo, tenant, i) || lookup(repo) == Some(tenant)
      {
        assert IsRepoRoot(disk, entries, MISSION_ROOTS[i]);
        assert ListsRepo(repos, repo);
        MissionRepoIsAcceptedIff(disk, tenant, lookup, i, repo);
      }
    }
    if MissionReposAreOwn(disk, tenant, lookup) {
      forall k | 0 <= k < |repos| ensures IsTenantBackupEntry(repos[k].path, tenant, lookup(repos[k].path)) {
        assert ListsRepo(repos, repos[k].path);
        CollectedIsAccepted(disk, tenant, entries, repos[k].path, lookup);
      }
    }
  }

  lemma CollectedIsAccepted(disk: Disk, tenant: string, entries: seq<Path>, repo: Path, lookup: Lookup)
    requires LookupGoesDown(lookup) && MissionReposAreOwn(disk, tenant, lookup) && IsCollected(disk, entries, repo)
    requires forall e :: e in entries ==> IsTenantBackupEntry(e, tenant, lookup(e))
    ensures IsTenantBackupEntry(repo, tenant, lookup(repo))
  {
    hide IsTenantBackupEntry, IsOwnMissionRepo, MISSION_ROOTS, HoldsMissions, LookupGoesDown, ReachesRepo;
    var root :| IsRepoRoot(disk, entries, root) && FindsRepo(disk, root, 0, repo);
    if root in entries {
      AcceptedGoesDown(root, repo, tenant, lookup);
    } else {
      var i :| 0 <= i < |MISSION_ROOTS| && MISSION_ROOTS[i] == root;
      assert IsMissionRepo(disk, i, repo);
      MissionRepoIsAcceptedIff(disk, tenant, lookup, i, repo);
    }
  }

  // ---- Planned paths are safe to name ----

  lemma SafeAppend(p: Path, q: Path)
    requires IsSafe(p) && ".." !in q
    ensures IsSafe(p + q)
  {
  }

  lemma SlugIsProper(tenant: string)
    requires IsValidTenantSlug(tenant)
    ensures tenant != ".." && tenant != ""
  {
    assert ".."[0] == '.';
  }

  lemma SegmentsAreProper(tenant: string)
    requires IsValidTenantSlug(tenant)
    ensures ".." !in [TENANTS, tenant]
    ensures IsSafe(PROJECTS) && IsSafe(ACTIVE_MISSIONS)
    ensures forall i :: 0 <= i < |MISSION_ROOTS| ==> IsSafe(MISSION_ROOTS[i])
  {
    SlugIsProper(tenant);
  }

  lemma PhysicalRootsAreSafe(i: nat)
    requires i < |PHYSICAL_ROOTS|
    ensures IsSafe(PHYSICAL_ROOTS[i])
  {
  }

  lemma ExactRootsAreSafe(tenant: string, i: nat)
    requires IsValidTenantSlug(tenant) && i < |ExactRoots(tenant)|
    ensures IsSafe(ExactRoots(tenant)[i])
  {
    SlugIsProper(tenant);
  }

  lemma {:induction false} WalkIsProper(disk: Disk, dir: Path, mid: Path)
    requires NamesAreProper(disk) && Reaches(disk, dir, mid)
    ensures ".." !in mid
    decreases mid
  {
    if mid != [] {
      WalkIsProper(disk, dir + [mid[0]], mid[1..]);
      assert mid == [mid[0]] + mid[1..];
    }
  }

  lemma {:induction false} RepoWalkIsProper(disk: Disk, dir: Path, mid: Path)
    requires NamesAreProper(disk) && ReachesRepo(disk, dir, mid)
    ensures ".." !in mid
    decreases mid
  {
    if mid != [] {
      RepoWalkIsProper(disk, dir + [mid[0]], mid[1..]);
      assert mid == [mid[0]] + mid[1..];
    }
  }

  lemma PlannedIsSafe(disk: Disk, tenant: string, partitions: set<Path>, e: Path)
    requires NamesAreProper(disk) && IsValidTenantSlug(tenant) && forall p :: p in partitions ==> IsSafe(p)
    requires IsPlanned(disk, tenant, partitions, e)
    ensures IsSafe(e)
  {
    hide PHYSICAL_ROOTS, ExactRoots, IsValidTenantSlug, NamesAreProper, MISSION_ROOTS, PROJECTS, ACTIVE_MISSIONS;
    SegmentsAreProper(tenant);
    if TierFinds(disk, PROJECTS, tenant, e) {
      TierEntryIsSafe(disk, PROJECTS, tenant, e);
    } else if TierFinds(disk, ACTIVE_MISSIONS, tenant, e) {
      TierEntryIsSafe(disk, ACTIVE_MISSIONS, tenant, e);
    } else if FixedFinds(disk, tenant, |ExactRoots(tenant)|, e) {
      var i :| 0 <= i < |ExactRoots(tenant)| && ExactRoots(tenant)[i] == e;
      ExactRootsAreSafe(tenant, i);
    } else if WalkFinds(disk, tenant, |PHYSICAL_ROOTS|, e) {
      var i :| 0 <= i < |PHYSICAL_ROOTS| && Finds(disk, PHYSICAL_ROOTS[i], tenant, 0, e);
      WalkedEntryIsSafe(disk, tenant, i, e);
    }
  }

  lemma TierEntryIsSafe(disk: Disk, base: Path, tenant: string, e: Path)
    requires NamesAreProper(disk) && IsValidTenantSlug(tenant) && IsSafe(base) && TierFinds(disk, base, tenant, e)
    ensures IsSafe(e)
  {
    hide IsSafe, IsValidTenantSlug;
    SlugIsProper(tenant);
    var tier :| tier in disk.listing[base] && e == base + [tier, tenant];
    SafeAppend(base, [tier, tenant]);
  }

  lemma NamespaceIsSafe(root: Path, mid: Path, tenant: string)
    requires IsSafe(root) && ".." !in mid && IsValidTenantSlug(tenant)
    ensures IsSafe(Namespace(root, mid, tenant))
  {
    hide IsSafe, IsValidTenantSlug;
    SegmentsAreProper(tenant);
    SafeAppend(root, mid);
    SafeAppend(root + mid, [TENANTS, tenant]);
  }

  lemma WalkedEntryIsSafe(disk: Disk, tenant: string, i: nat, e: Path)
    requires NamesAreProper(disk) && IsValidTenantSlug(tenant)
    requires i < |PHYSICAL_ROOTS| && Finds(disk, PHYSICAL_ROOTS[i], tenant, 0, e)
    ensures IsSafe(e)
  {
    hide IsSafe, IsValidTenantSlug, NamesAreProper, PHYSICAL_ROOTS, Reaches;
    var mid :| Reaches(disk, PHYSICAL_ROOTS[i], mid) && e == Namespace(PHYSICAL_ROOTS[i], mid, tenant);
    PhysicalRootsAreSafe(i);
    WalkIsProper(disk, PHYSICAL_ROOTS[i], mid);
    NamespaceIsSafe(PHYSICAL_ROOTS[i], mid, tenant);
  }

  lemma CollectedIsSafe(disk: Disk, tenant: string, entries: seq<Path>, repo: Path)
    requires NamesAreProper(disk) && IsValidTenantSlug(tenant) && IsCollected(disk, entries, repo)
    requires forall e :: e in entries ==> IsSafe(e)
    ensures IsSafe(repo)
  {
    hide IsSafe, IsValidTenantSlug, NamesAreProper, MISSION_ROOTS, HoldsMissions, ReachesRepo;
    var root :| IsRepoRoot(disk, entries, root) && FindsRepo(disk, root, 0, repo);
    SegmentsAreProper(tenant);
    if root !in entries {
      var i :| 0 <= i < |MISSION_ROOTS| && MISSION_ROOTS[i] == root;
    }
    var mid :| ReachesRepo(disk, root, mid) && repo == root + mid;
    RepoWalkIsProper(disk, root, mid);
    SafeAppend(root, mid);
  }

  // ---- The round trip ----

  lemma {:induction false} BundlesMember(repos: seq<Repo>, i: nat)
    requires i < |repos| && repos[i].bundle.Some?
    ensures repos[i].bundle.value in Bundles(repos)
  {
    if i > 0 {
      BundlesMember(repos[1..], i - 1);
    }
  }

  lemma ArchivedIsAllowed(m: Manifest, manifestMember: Path, member: Path)
    requires IsArchived(m.entries, m.repos, manifestMember, member)
    ensures MemberAllowed(AllowedRoots(m, manifestMember), member)
  {
    var roots := AllowedRoots(m, manifestMember);
    if e :| e in m.entries && LiesAlong(member, e) {
      AllowedAlong(roots, member, e);
    } else if LiesAlong(member, manifestMember) {
      AllowedAlong(roots, member, manifestMember);
    } else {
      var i :| 0 <= i < |m.repos| && m.repos[i].bundle.Some? && LiesAlong(member, m.repos[i].bundle.value);
      BundlesMember(m.repos, i);
      AllowedAlong(roots, member, m.repos[i].bundle.value);
    }
  }

  lemma AllowedAlong(roots: seq<Path>, member: Path, p: Path)
    requires p in roots && LiesAlong(member, p)
    ensures MemberAllowed(roots, member)
  {
    var i :| 0 <= i < |roots| && roots[i] == p;
    assert IsWithinArchiveRoot(member, roots[i]);
  }

  lemma EntriesAreAcceptedIff(disk: Disk, tenant: string, entries: seq<Path>, partitions: seq<Path>, lookup: Lookup)
    requires NamesAreProper(disk) && ArePartitions(partitions, tenant, lookup)
    requires forall e :: e in entries <==> IsPlanned(disk, tenant, SetOf(partitions), e)
    ensures (forall i :: 0 <= i < |entries| ==> IsTenantBackupEntry(entries[i], tenant, lookup(entries[i]))) <==>
      NamespacesAreShallow(disk, tenant, lookup)
  {
    hide IsTenantBackupEntry, IsPlanned, NamespacesAreShallow, IsSafe;
    PlanIsAcceptedIff(disk, tenant, SetOf(partitions), lookup);
    if forall i :: 0 <= i < |entries| ==> IsTenantBackupEntry(entries[i], tenant, lookup(entries[i])) {
      forall e | IsPlanned(disk, tenant, SetOf(partitions), e) ensures IsTenantBackupEntry(e, tenant, lookup(e)) {
        var i :| 0 <= i < |entries| && entries[i] == e;
      }
    }
    if AllAccepted(disk, tenant, SetOf(partitions), lookup) {
      forall i | 0 <= i < |entries| ensures IsTenantBackupEntry(entries[i], tenant, lookup(entries[i])) {
        assert entries[i] in entries;
      }
    }
  }

  lemma ReposAreAllowedIff(disk: Disk, tenant: string, entries: seq<Path>, repos: seq<Repo>, partitions: seq<Path>,
                           manifestMember: Path, members: seq<Path>, lookup: Lookup)
    requires IsArchiveOf(disk, tenant, entries, repos, partitions, manifestMember, members, lookup)
    ensures var m := TenantManifest(tenant, entries, repos, partitions);
      (forall i :: 0 <= i < |repos| ==> RepoAllowed(m, manifestMember, repos[i], lookup)) <==>
        ReposAreAccepted(repos, tenant, lookup)
  {
    hide IsTenantBackupEntry, IsPlanned, IsSafe, IsCollected, IsValidTenantSlug, BundleDir, NamesAreProper;
    forall e | e in entries ensures IsSafe(e) {
      PlannedIsSafe(disk, tenant, SetOf(partitions), e);
    }
    forall i | 0 <= i < |repos| ensures IsSafe(repos[i].path) {
      assert ListsRepo(repos, repos[i].path);
      CollectedIsSafe(disk, tenant, entries, repos[i].path);
    }
  }

  /**
   * The planner's archive of a tenant passes the validator, asked for that tenant, exactly when no namespace on the
   * disk is nested deeper than the validator expects and every repository below the mission roots is the tenant's.
   */
  lemma PlannedArchiveMayBeRestoredIff(disk: Disk, tenant: string, entries: seq<Path>, repos: seq<Repo>,
      partitions: seq<Path>, manifestMember: Path, members: seq<Path>, lookup: Lookup)
    requires IsArchiveOf(disk, tenant, entries, repos, partitions, manifestMember, members, lookup)
    ensures MayRestore(TenantManifest(tenant, entries, repos, partitions), manifestMember, members,
        Request(Tenant, Some(tenant)), lookup) <==>
      NamespacesAreShallow(disk, tenant, lookup) && MissionReposAreOwn(disk, tenant, lookup)
  {
    hide IsTenantBackupEntry, IsPlanned, NamespacesAreShallow, MissionReposAreOwn, IsValidTenantSlug, RepoAllowed,
      IsArchived, MemberAllowed, IsCollected, ReposAreAccepted, BundlesAreBeside, ArePartitions;
    var m := TenantManifest(tenant, entries, repos, partitions);
    forall i | 0 <= i < |members| ensures MemberAllowed(AllowedRoots(m, manifestMember), members[i]) {
      ArchivedIsAllowed(m, manifestMember, members[i]);
    }
    ReposAreAllowedIff(disk, tenant, entries, repos, partitions, manifestMember, members, lookup);
    EntriesAreAcceptedIff(disk, tenant, entries, partitions, lookup);
    assert forall p :: p in partitions ==> lookup(p) == Some(tenant) by {
      PartitionsAreTheTenants(partitions, tenant, lookup);
    }
    if NamespacesAreShallow(disk, tenant, lookup) {
      forall e | e in entries ensures IsTenantBackupEntry(e, tenant, lookup(e)) {
        var i :| 0 <= i < |entries| && entries[i] == e;
      }
      ReposAreAcceptedIff(disk, tenant, entries, repos, lookup);
    }
  }

  lemma PartitionsAreTheTenants(partitions: seq<Path>, tenant: string, lookup: Lookup)
    requires ArePartitions(partitions, tenant, lookup)
    ensures forall p :: p in partitions ==> lookup(p) == Some(tenant)
  {
  }

  // ---- Every disk that can be planned has an archive ----

  ghost predicate Lists(s: seq<Path>, t: set<Path>) {
    forall p :: p in s <==> p in t
  }

  lemma {:induction false} SetCanBeListed(t: set<Path>)
    ensures exists s :: Lists(s, t)
  {
    if t == {} {
      assert Lists([], t);
    } else {
      var q :| q in t;
      SetCanBeListed(t - {q});
      var rest :| Lists(rest, t - {q});
      assert Lists([q] + rest, t);
    }
  }

  function NoPartition(p: Path): Option<string> {
    None
  }

  const MANIFEST: Path := [ACTIVE, SHARED, "tmp", "backup", "manifest.json"]

  ghost predicate ListsPlan(disk: Disk, tenant: string, entries: seq<Path>) {
    forall e :: e in entries <==> IsPlanned(disk, tenant, {}, e)
  }

  lemma PlanCanBeListed(disk: Disk, tenant: string)
    ensures exists entries :: ListsPlan(disk, tenant, entries)
  {
    hide PHYSICAL_ROOTS, ExactRoots, Reaches;
    var planned := set e | e in disk.present && IsPlanned(disk, tenant, {}, e);
    assert forall e :: e in planned <==> IsPlanned(disk, tenant, {}, e);
    SetCanBeListed(planned);
    var entries :| Lists(entries, planned);
    assert ListsPlan(disk, tenant, entries);
  }

  lemma {:induction false} FoundRepoHasGit(disk: Disk, dir: Path, mid: Path)
    requires ReachesRepo(disk, dir, mid)
    ensures dir + mid + [GIT] in disk.present
    decreases mid
  {
    hide IsWalked;
    RepoSteps(disk, dir, mid);
    if mid != [] {
      FoundRepoHasGit(disk, dir + [mid[0]], mid[1..]);
    }
  }

  function Unbundled(paths: seq<Path>): (repos: seq<Repo>)
    ensures |repos| == |paths| && forall i :: 0 <= i < |repos| ==> repos[i] == Repo(paths[i], None)
  {
    seq(|paths|, i requires 0 <= i < |paths| => Repo(paths[i], None))
  }

  ghost predicate ListsRepos(disk: Disk, entries: seq<Path>, paths: seq<Path>) {
    forall r :: ListsRepo(Unbundled(paths), r) <==> IsCollected(disk, entries, r)
  }

  lemma ReposCanBeListed(disk: Disk, entries: seq<Path>)
    ensures exists paths :: ListsRepos(disk, entries, paths)
  {
    hide MISSION_ROOTS, HoldsMissions, ReachesRepo;
    var found := set p | p in disk.present && p != [] && IsCollected(disk, entries, p[..|p| - 1]) :: p[..|p| - 1];
    forall r ensures r in found <==> IsCollected(disk, entries, r) {
      if IsCollected(disk, entries, r) {
        var root :| IsRepoRoot(disk, entries, root) && FindsRepo(disk, root, 0, r);
        var mid :| ReachesRepo(disk, root, mid) && r == root + mid;
        FoundRepoHasGit(disk, root, mid);
        assert (r + [GIT])[..|r + [GIT]| - 1] == r;
      }
    }
    SetCanBeListed(found);
    var paths :| Lists(paths, found);
    forall r ensures ListsRepo(Unbundled(paths), r) <==> IsCollected(disk, entries, r) {
      if r in paths {
        var i :| 0 <= i < |paths| && paths[i] == r;
        assert Unbundled(paths)[i].path == r;
      }
    }
    assert ListsRepos(disk, entries, paths);
  }

  /** An archive of the tenant's whole plan without bundles, holding at least its manifest. */
  ghost predicate IsBareArchive(disk: Disk, tenant: string, entries: seq<Path>, paths: seq<Path>) {
    IsArchiveOf(disk, tenant, entries, Unbundled(paths), [], MANIFEST, [MANIFEST], NoPartition)
  }

  ghost predicate IsRefused(tenant: string, entries: seq<Path>, paths: seq<Path>) {
    !MayRestore(TenantManifest(tenant, entries, Unbundled(paths), []), MANIFEST, [MANIFEST],
      Request(Tenant, Some(tenant)), NoPartition)
  }

  lemma ArchiveExists(disk: Disk, tenant: string)
    requires NamesAreProper(disk) && IsValidTenantSlug(tenant) && PlanRuns(disk, tenant, {})
    ensures exists entries, paths :: IsBareArchive(disk, tenant, entries, paths)
  {
    hide IsPlanned, IsCollected, IsValidTenantSlug, NamesAreProper, PlanRuns;
    PlanCanBeListed(disk, tenant);
    var entries :| ListsPlan(disk, tenant, entries);
    ReposCanBeListed(disk, entries);
    var paths :| ListsRepos(disk, entries, paths);
    assert SetOf([]) == {};
    assert LiesAlong(MANIFEST, MANIFEST);
    assert IsBareArchive(disk, tenant, entries, paths);
  }

  lemma BadDiskHasRefusedArchive(disk: Disk, tenant: string)
    requires NamesAreProper(disk) && IsValidTenantSlug(tenant) && PlanRuns(disk, tenant, {})
    requires !NamespacesAreShallow(disk, tenant, NoPartition) || !MissionReposAreOwn(disk, tenant, NoPartition)
    ensures exists entries, paths :: IsBareArchive(disk, tenant, entries, paths) && IsRefused(tenant, entries, paths)
  {
    hide NamespacesAreShallow, MissionReposAreOwn, IsArchiveOf, MayRestore, IsValidTenantSlug, NamesAreProper, PlanRuns;
    ArchiveExists(disk, tenant);
    var entries, paths :| IsBareArchive(disk, tenant, entries, paths);
    PlannedArchiveMayBeRestoredIff(disk, tenant, entries, Unbundled(paths), [], MANIFEST, [MANIFEST], NoPartition);
    assert IsRefused(tenant, entries, paths);
  }

  // ---- Two disks whose archives are refused ----

  lemma AcmeIsASlug()
    ensures IsValidTenantSlug("acme")
  {
    assert |"acme"| == 4 && |"public"| == 6 && |"shared"| == 6 && |"personal"| == 8 && |"confidential"| == 12;
  }

  function NestedDisk(root: Path, name: string, tenant: string): Disk {
    var dir := root + [name];
    Disk({root, dir, Namespace(root, [name], tenant)}, map[root := {name}, dir := {TENANTS}],
      {dir, dir + [TENANTS]}, {})
  }

  lemma NestedIsWalkedTo(i: nat, name: string, tenant: string)
    requires i < |PHYSICAL_ROOTS| && name != TENANTS && !IsSkipped(name)
    ensures IsWalkedTo(NestedDisk(PHYSICAL_ROOTS[i], name, tenant), tenant, i, [name])
  {
    hide PHYSICAL_ROOTS;
    var root := PHYSICAL_ROOTS[i];
    var disk, dir := NestedDisk(root, name, tenant), root + [name];
    assert Reaches(disk, dir, []);
    assert [name][1..] == [];
  }

  lemma PresenceIsNoMeshHub()
    ensures |PHYSICAL_ROOTS| > 1 && PHYSICAL_ROOTS[1] !in MESH_ROOTS
  {
    assert PHYSICAL_ROOTS[1][3] == "presence" && "presence"[0] != MESH_HUB[0];
  }

  lemma ListedDiskIsPlanned(disk: Disk, tenant: string)
    requires forall d :: d in disk.dirs ==> d in disk.listing || d + [GIT] in disk.present
    requires IsReadable(disk, PROJECTS) && IsReadable(disk, ACTIVE_MISSIONS)
    ensures PlanRuns(disk, tenant, {})
  {
    hide IsPlannedRoot, IsReadable, Throws;
    forall root ensures !Throws(disk, root, 0) {
      ListedDisksDoNotThrow(disk, root, 0);
    }
  }

  lemma NestedDiskIsPlanned(tenant: string)
    ensures |PHYSICAL_ROOTS| > 1 && PlanRuns(NestedDisk(PHYSICAL_ROOTS[1], "bridge", tenant), tenant, {})
  {
    hide PlanRuns;
    var disk := NestedDisk(PHYSICAL_ROOTS[1], "bridge", tenant);
    assert |PROJECTS| == 2 && |ACTIVE_MISSIONS| == 2 && |PHYSICAL_ROOTS[1]| == 4;
    ListedDiskIsPlanned(disk, tenant);
  }

  lemma RepoDiskIsPlanned(tenant: string)
    ensures PlanRuns(RepoDisk(ACTIVE_MISSIONS, "public", "globex"), tenant, {})
  {
    hide PlanRuns;
    var root, disk := ACTIVE_MISSIONS, RepoDisk(ACTIVE_MISSIONS, "public", "globex");
    assert root + ["public", "globex"] + [GIT] == root + ["public", "globex", GIT];
    assert "missions"[0] != "projects"[0];
    assert PROJECTS[1] != ACTIVE_MISSIONS[1];
    ListedDiskIsPlanned(disk, tenant);
  }

  /** A namespace that is not right under its root is backed up, and its archive is refused on restore. */
  lemma NestedNamespaceIsRefused()
    ensures exists disk, entries, paths ::
      IsBareArchive(disk, "acme", entries, paths) && IsRefused("acme", entries, paths)
  {
    hide MESH_ROOTS, PHYSICAL_ROOTS, IsBareArchive, IsRefused, IsValidTenantSlug, MissionReposAreOwn, IsWalkedTo,
      IsSkipped, NestedDisk, NamesAreProper, PlanRuns;
    PresenceIsNoMeshHub();
    AcmeIsASlug();
    var disk := NestedDisk(PHYSICAL_ROOTS[1], "bridge", "acme");
    BridgeIsAName(PHYSICAL_ROOTS[1]);
    NestedIsWalkedTo(1, "bridge", "acme");
    assert !IsShallow(PHYSICAL_ROOTS[1], ["bridge"]);
    NestedDiskIsPlanned("acme");
    BadDiskHasRefusedArchive(disk, "acme");
  }

  lemma BridgeIsAName(root: Path)
    ensures "bridge" != TENANTS && !IsSkipped("bridge")
    ensures NamesAreProper(NestedDisk(root, "bridge", "acme"))
  {
    assert |"bridge"| == 6 && |TENANTS| == 7 && |".quarantine"| == 11 && |"node_modules"| == 12 && |".."| == 2;
  }

  function RepoDisk(root: Path, tier: string, name: string): Disk {
    Disk({root, root + [tier, name, GIT]}, map[root := {tier}, root + [tier] := {name}], {},
      {root, root + [tier], root + [tier, name]})
  }

  lemma RepoIsFound(root: Path, tier: string, name: string)
    requires tier !in [GIT, "node_modules"] && name !in [GIT, "node_modules"]
    ensures FindsRepo(RepoDisk(root, tier, name), root, 0, root + [tier, name])
  {
    var disk := RepoDisk(root, tier, name);
    assert root + [tier] + [name] == root + [tier, name];
    assert |root + [GIT]| < |root + [tier] + [GIT]| < |root + [tier, name, GIT]|;
    assert root + [tier, name] + [GIT] == root + [tier, name, GIT];
    assert ReachesRepo(disk, root + [tier] + [name], []);
    assert [name][1..] == [] && [tier, name][1..] == [name];
    assert ReachesRepo(disk, root + [tier], [name]);
    assert ReachesRepo(disk, root, [tier, name]);
  }

  /** Another tenant's mission repository is bundled too, and makes the whole archive unfit for restore. */
  lemma ForeignRepoIsRefused()
    ensures exists disk, entries, paths ::
      IsBareArchive(disk, "acme", entries, paths) && IsRefused("acme", entries, paths)
      && ACTIVE_MISSIONS + ["public", "globex"] in paths
  {
    hide IsBareArchive, IsRefused, IsValidTenantSlug, NamespacesAreShallow, FindsRepo, NamesAreProper, RepoDisk,
      PlanRuns;
    AcmeIsASlug();
    var disk, repo := RepoDisk(ACTIVE_MISSIONS, "public", "globex"), ACTIVE_MISSIONS + ["public", "globex"];
    GlobexIsAName();
    RepoIsFound(ACTIVE_MISSIONS, "public", "globex");
    assert IsMissionRepo(disk, 0, repo);
    assert !IsOwnMissionRepo(repo, "acme", 0);
    RepoDiskIsPlanned("acme");
    BadDiskHasRefusedArchive(disk, "acme");
    var entries, paths :| IsBareArchive(disk, "acme", entries, paths) && IsRefused("acme", entries, paths);
    RepoIsListed(disk, "acme", entries, paths, repo);
  }

  lemma RepoIsListed(disk: Disk, tenant: string, entries: seq<Path>, paths: seq<Path>, repo: Path)
    requires IsBareArchive(disk, tenant, entries, paths) && IsMissionRepo(disk, 0, repo)
    ensures repo in paths
  {
    hide HoldsMissions, FindsRepo, IsPlanned, NamesAreProper, IsValidTenantSlug;
    assert IsRepoRoot(disk, entries, MISSION_ROOTS[0]);
    assert IsCollected(disk, entries, repo);
    assert ListsRepo(Unbundled(paths), repo);
  }

  lemma GlobexIsAName()
    ensures "public" !in [GIT, "node_modules"] && "globex" !in [GIT, "node_modules"] && "globex" != "acme"
    ensures NamesAreProper(RepoDisk(ACTIVE_MISSIONS, "public", "globex"))
    ensures ACTIVE_MISSIONS in RepoDisk(ACTIVE_MISSIONS, "public", "globex").present
  {
    assert |"public"| == 6 && |"globex"| == 6 && |GIT| == 4 && |"node_modules"| == 12 && |".."| == 2 && |"acme"| == 4;
  }
}
