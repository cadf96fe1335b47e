/** Which archives may be restored, spelled out over the paths and scopes the manifest and the request name. */
module RestoreMeaning {
  import opened Wrappers
  import opened BackupScope
  import opened BackupRestore

  /** Equal, or one lies below the other. */
  predicate OnOneLine(a: Path, b: Path) {
    forall i :: 0 <= i < |a| && i < |b| ==> a[i] == b[i]
  }

  /** The member lies on one line with an entry, the manifest itself or a listed bundle. */
  ghost predicate IsCovered(m: Manifest, manifestMember: Path, member: Path) {
    || (exists i :: 0 <= i < |m.entries| && OnOneLine(member, m.entries[i]))
    || OnOneLine(member, manifestMember)
    || (exists i :: 0 <= i < |m.repos| && m.repos[i].bundle.Some? && OnOneLine(member, m.repos[i].bundle.value))
  }

  ghost predicate NoSegmentEscapes(p: Path) {
    |p| > 0 && |p[0]| > 0 && forall i :: 0 <= i < |p| ==> p[i] != ".."
  }

  /** The bundle lies below the directory for bundles beside the manifest. */
  predicate IsBesideManifest(bundle: Path, manifestMember: Path)
    requires |manifestMember| > 0
  {
    && |bundle| > |manifestMember|
    && (forall i :: 0 <= i < |manifestMember| - 1 ==> bundle[i] == manifestMember[i])
    && bundle[|manifestMember| - 1] == "mission-git-bundles"
  }

  ghost predicate RepoFits(m: Manifest, manifestMember: Path, repo: Repo, lookup: Lookup)
    requires |manifestMember| > 0
  {
    && NoSegmentEscapes(repo.path)
    && (m.scope == Tenant ==> m.tenant.Some? && IsTenantBackupEntry(repo.path, m.tenant.value, lookup(repo.path)))
    && (repo.bundle.Some? ==>
          NoSegmentEscapes(repo.bundle.value) && IsBesideManifest(repo.bundle.value, manifestMember))
  }

  /** A tenant archive wants the same tenant by name; any other wants its own scope or all. */
  ghost predicate RequestFits(m: Manifest, request: Request) {
    if m.scope == Tenant
    then request.scope == Tenant && m.tenant.Some? && request.tenant.Some? && request.tenant.value == m.tenant.value
    else request.scope == All || request.scope == m.scope
  }

  /** What a tenant archive lists is the tenant's, which has a proper name. */
  ghost predicate ListsItsTenant(m: Manifest, lookup: Lookup)
    requires m.tenant.Some?
  {
    && IsValidTenantSlug(m.tenant.value)
    && (forall i :: 0 <= i < |m.entries| ==> IsTenantBackupEntry(m.entries[i], m.tenant.value, lookup(m.entries[i])))
    && (forall i :: 0 <= i < |m.partitions| ==> lookup(m.partitions[i]) == Some(m.tenant.value))
  }

  lemma OnOneLineIff(member: Path, root: Path)
    ensures IsWithinArchiveRoot(member, root) <==> OnOneLine(member, root)
  {
  }

  lemma IsSafeIff(p: Path)
    ensures IsSafe(p) <==> NoSegmentEscapes(p)
  {
    if p != [] {
      assert (p[0] != "") == (|p[0]| > 0);
    }
  }

  lemma BesideManifestIff(bundle: Path, manifestMember: Path)
    requires manifestMember != []
    ensures BundleDir(manifestMember) < bundle <==> IsBesideManifest(bundle, manifestMember)
  {
    var dir, n := BundleDir(manifestMember), |manifestMember| - 1;
    assert |dir| == n + 1 && dir[n] == "mission-git-bundles";
    if IsBesideManifest(bundle, manifestMember) {
      assert forall i :: 0 <= i < |dir| ==> dir[i] == bundle[i];
    }
    if dir < bundle {
      assert forall i :: 0 <= i < |dir| ==> dir[i] == bundle[i];
    }
  }

  lemma {:induction false} BundlesAre(repos: seq<Repo>, b: Path)
    ensures b in Bundles(repos) <==> exists i :: 0 <= i < |repos| && repos[i].bundle == Some(b)
  {
    if repos != [] {
      BundlesAre(repos[1..], b);
      if i :| 0 <= i < |repos| && repos[i].bundle == Some(b) && i > 0 {
        assert repos[1..][i - 1] == repos[i];
      }
      if b in Bundles(repos[1..]) {
        var i :| 0 <= i < |repos[1..]| && repos[1..][i].bundle == Some(b);
        assert repos[i + 1] == repos[1..][i];
      }
    }
  }

  lemma CoveredIff(m: Manifest, manifestMember: Path, member: Path)
    requires manifestMember != []
    ensures MemberAllowed(AllowedRoots(m, manifestMember), member) <==> IsCovered(m, manifestMember, member)
  {
    hide OnOneLine, IsWithinArchiveRoot, Bundles;
    var roots := AllowedRoots(m, manifestMember);
    forall root ensures IsWithinArchiveRoot(member, root) <==> OnOneLine(member, root) {
      OnOneLineIff(member, root);
    }
    assert MemberAllowed(roots, member) <==> exists root :: root in roots && OnOneLine(member, root);
    assert forall root :: root in roots <==> root in m.entries || root == manifestMember || root in Bundles(m.repos);
    forall b ensures b in Bundles(m.repos) <==> exists i :: 0 <= i < |m.repos| && m.repos[i].bundle == Some(b) {
      BundlesAre(m.repos, b);
    }
    BundleOnLineIff(m.repos, member);
  }

  lemma BundleOnLineIff(repos: seq<Repo>, member: Path)
    ensures (exists b :: b in Bundles(repos) && OnOneLine(member, b)) <==>
      exists i :: 0 <= i < |repos| && repos[i].bundle.Some? && OnOneLine(member, repos[i].bundle.value)
  {
    hide OnOneLine, Bundles;
    forall b ensures b in Bundles(repos) <==> exists i :: 0 <= i < |repos| && repos[i].bundle == Some(b) {
      BundlesAre(repos, b);
    }
    if i :| 0 <= i < |repos| && repos[i].bundle.Some? && OnOneLine(member, repos[i].bundle.value) {
      assert repos[i].bundle.value in Bundles(repos);
    }
  }

  lemma RepoFitsIff(m: Manifest, manifestMember: Path, repo: Repo, lookup: Lookup)
    requires manifestMember != []
    ensures RepoAllowed(m, manifestMember, repo, lookup) <==> RepoFits(m, manifestMember, repo, lookup)
  {
    hide IsTenantBackupEntry, IsSafe, NoSegmentEscapes, BundleDir, IsBesideManifest;
    IsSafeIff(repo.path);
    if repo.bundle.Some? {
      IsSafeIff(repo.bundle.value);
      BesideManifestIff(repo.bundle.value, manifestMember);
    }
  }

  /**
   * An archive may be restored exactly when its repositories and bundles are where they belong, the request fits its
   * scope, a tenant archive lists what is its tenant's, and every member is covered.
   */
  lemma MayRestoreIff(m: Manifest, manifestMember: Path, members: seq<Path>, request: Request, lookup: Lookup)
    requires manifestMember != []
    ensures MayRestore(m, manifestMember, members, request, lookup) <==>
      && (forall i :: 0 <= i < |m.repos| ==> RepoFits(m, manifestMember, m.repos[i], lookup))
      && RequestFits(m, request)
      && (m.scope == Tenant ==> ListsItsTenant(m, lookup))
      && (forall i :: 0 <= i < |members| ==> IsCovered(m, manifestMember, members[i]))
  {
    hide RepoAllowed, RepoFits, MemberAllowed, IsCovered, AllowedRoots, IsTenantBackupEntry, IsValidTenantSlug;
    forall i | 0 <= i < |m.repos|
      ensures RepoAllowed(m, manifestMember, m.repos[i], lookup) <==> RepoFits(m, manifestMember, m.repos[i], lookup)
    {
      RepoFitsIff(m, manifestMember, m.repos[i], lookup);
    }
    forall i | 0 <= i < |members|
      ensures MemberAllowed(AllowedRoots(m, manifestMember), members[i]) <==> IsCovered(m, manifestMember, members[i])
    {
      CoveredIff(m, manifestMember, members[i]);
    }
  }

  /** A member that meets none of them at some segment is refused, whatever else the archive holds. */
  lemma MemberApartIsRefused(m: Manifest, manifestMember: Path, members: seq<Path>, request: Request, lookup: Lookup,
                             i: nat)
    requires manifestMember != [] && i < |members| && !IsCovered(m, manifestMember, members[i])
    ensures !MayRestore(m, manifestMember, members, request, lookup)
  {
    hide MayRestore, IsCovered;
    MayRestoreIff(m, manifestMember, members, request, lookup);
  }

  /** An archive of one tenant asked for as another's, or not as a tenant's, is refused. */
  lemma OtherTenantIsRefused(m: Manifest, manifestMember: Path, members: seq<Path>, request: Request, lookup: Lookup)
    requires manifestMember != [] && m.scope == Tenant && (request.scope != Tenant || request.tenant != m.tenant)
    ensures !MayRestore(m, manifestMember, members, request, lookup)
  {
    hide MayRestore;
    MayRestoreIff(m, manifestMember, members, request, lookup);
  }

  /** An archive of everything or of the missions is refused unless everything or just its scope is asked for. */
  lemma OtherScopeIsRefused(m: Manifest, manifestMember: Path, members: seq<Path>, request: Request, lookup: Lookup)
    requires manifestMember != [] && m.scope != Tenant && request.scope != All && request.scope != m.scope
    ensures !MayRestore(m, manifestMember, members, request, lookup)
  {
    hide MayRestore;
    MayRestoreIff(m, manifestMember, members, request, lookup);
  }

  // ---- Which error it is ----

  /** Only one error fits an archive, and one fits only what may not be restored. */
  lemma OneErrorFits(m: Manifest, manifestMember: Path, members: seq<Path>, request: Request, lookup: Lookup,
                     e: ScopeError, f: ScopeError)
    requires manifestMember != [] && ErrorIs(m, manifestMember, members, request, lookup, e)
    ensures !MayRestore(m, manifestMember, members, request, lookup)
    ensures ErrorIs(m, manifestMember, members, request, lookup, f) ==> e == f
  {
    hide IsTenantBackupEntry, IsValidTenantSlug, IsSafe, BundleDir, AllowedRoots, MemberAllowed, RepoFails, RepoAllowed;
    if RepoErrorIs(m, manifestMember, lookup, e) {
      RepoErrorBars(m, manifestMember, lookup, e);
    }
    if RepoErrorIs(m, manifestMember, lookup, f) {
      RepoErrorBars(m, manifestMember, lookup, f);
    }
    if RepoErrorIs(m, manifestMember, lookup, e) && RepoErrorIs(m, manifestMember, lookup, f) {
      OneRepoErrorFits(m, manifestMember, lookup, e, f);
    }
    if TenantErrorIs(m, request, lookup, e) {
      TenantErrorBars(m, request, lookup, e, f);
    }
    if TenantErrorIs(m, request, lookup, f) {
      TenantErrorBars(m, request, lookup, f, e);
    }
  }

  lemma RepoFailsIff(m: Manifest, manifestMember: Path, repo: Repo, lookup: Lookup, e: ScopeError, f: ScopeError)
    requires manifestMember != [] && RepoFails(m, manifestMember, repo, lookup, e)
    ensures !RepoAllowed(m, manifestMember, repo, lookup)
    ensures RepoFails(m, manifestMember, repo, lookup, f) ==> e == f
  {
    hide IsTenantBackupEntry, IsSafe, BundleDir;
  }

  lemma RepoErrorBars(m: Manifest, manifestMember: Path, lookup: Lookup, e: ScopeError)
    requires manifestMember != [] && RepoErrorIs(m, manifestMember, lookup, e)
    ensures !ReposAllowed(m, manifestMember, |m.repos|, lookup)
    ensures e.UnsafePath? || e.RepoOutside? || e.BundleOutside?
  {
    hide RepoAllowed;
    var i :| 0 <= i < |m.repos| && RepoFails(m, manifestMember, m.repos[i], lookup, e);
    RepoFailsIff(m, manifestMember, m.repos[i], lookup, e, e);
  }

  lemma OneRepoErrorFits(m: Manifest, manifestMember: Path, lookup: Lookup, e: ScopeError, f: ScopeError)
    requires manifestMember != []
    requires RepoErrorIs(m, manifestMember, lookup, e) && RepoErrorIs(m, manifestMember, lookup, f)
    ensures e == f
  {
    hide RepoAllowed, RepoFails;
    var i :| 0 <= i < |m.repos| && ReposAllowed(m, manifestMember, i, lookup)
      && RepoFails(m, manifestMember, m.repos[i], lookup, e);
    var j :| 0 <= j < |m.repos| && ReposAllowed(m, manifestMember, j, lookup)
      && RepoFails(m, manifestMember, m.repos[j], lookup, f);
    RepoFailsIff(m, manifestMember, m.repos[i], lookup, e, f);
    RepoFailsIff(m, manifestMember, m.repos[j], lookup, f, f);
    assert !(i < j) && !(j < i);
  }

  lemma TenantErrorBars(m: Manifest, request: Request, lookup: Lookup, e: ScopeError, f: ScopeError)
    requires TenantErrorIs(m, request, lookup, e)
    ensures !TenantAllowed(m, request, lookup)
    ensures TenantErrorIs(m, request, lookup, f) ==> e == f
    ensures !e.UnsafePath? && !e.RepoOutside? && !e.BundleOutside? && !e.ScopeMismatch? && !e.MemberOutside?
  {
    hide IsTenantBackupEntry;
  }

  // ---- What is a tenant's ----

  lemma BelowExactRoot(root: Path, below: Path, tenant: string, partition: Option<string>, i: nat)
    requires i < |ExactRoots(tenant)| && ExactRoots(tenant)[i] == root
    ensures IsTenantBackupEntry(root + below, tenant, partition)
  {
    hide ExactRoots;
    assert Within(root + below, ExactRoots(tenant)[i]);
  }

  /** The tenant's own directories and all that lies below them are its entries. */
  lemma OwnDirectoriesAreAccepted(tenant: string, below: Path, partition: Option<string>)
    ensures IsTenantBackupEntry(["knowledge", "confidential", tenant] + below, tenant, partition)
    ensures IsTenantBackupEntry(["knowledge", "personal", tenant] + below, tenant, partition)
    ensures IsTenantBackupEntry(["knowledge", "personal", "tenants", tenant] + below, tenant, partition)
    ensures IsTenantBackupEntry(["knowledge", "personal", "customers", tenant] + below, tenant, partition)
    ensures IsTenantBackupEntry(["customer", tenant] + below, tenant, partition)
    ensures IsTenantBackupEntry(["customers", tenant] + below, tenant, partition)
    ensures IsTenantBackupEntry(["active", "shared", "runtime", "ingest-cursors", tenant] + below, tenant, partition)
    ensures IsTenantBackupEntry(["active", "shared", "runtime", "media-generation", "quota", tenant] + below, tenant,
      partition)
  {
    hide IsTenantBackupEntry;
    BelowExactRoot(["knowledge", "confidential", tenant], below, tenant, partition, 0);
    BelowExactRoot(["knowledge", "personal", tenant], below, tenant, partition, 1);
    BelowExactRoot(["knowledge", "personal", "tenants", tenant], below, tenant, partition, 2);
    BelowExactRoot(["knowledge", "personal", "customers", tenant], below, tenant, partition, 3);
    BelowExactRoot(["customer", tenant], below, tenant, partition, 4);
    BelowExactRoot(["customers", tenant], below, tenant, partition, 5);
    BelowExactRoot(["active", "shared", "runtime", "ingest-cursors", tenant], below, tenant, partition, 6);
    BelowExactRoot(["active", "shared", "runtime", "media-generation", "quota", tenant], below, tenant, partition, 7);
  }

  /** So are its projects and missions of every tier that has a name. */
  lemma OwnProjectsAreAccepted(tenant: string, tier: string, below: Path, partition: Option<string>)
    requires tier != ""
    ensures IsTenantBackupEntry(["active", "projects", tier, tenant] + below, tenant, partition)
    ensures IsTenantBackupEntry(["active", "missions", tier, tenant] + below, tenant, partition)
  {
    assert InTier(["active", "projects", tier, tenant] + below, tenant);
    assert InTier(["active", "missions", tier, tenant] + below, tenant);
  }

  /** A tier without a name gives nobody anything. */
  lemma NamelessTierIsRefused(tenant: string, area: string, below: Path)
    requires area == "projects" || area == "missions"
    ensures !IsTenantBackupEntry(["active", area, "", tenant] + below, tenant, None)
  {
    var e := ["active", area, "", tenant] + below;
    AreaIsNotShared(area);
    assert e[0] == ACTIVE && e[1] == area && e[2] == "";
    assert !InTier(e, tenant);
    forall i | 0 <= i < |ExactRoots(tenant)| ensures !Within(e, ExactRoots(tenant)[i]) {
      NoExactRootInArea(e, tenant, i);
    }
    hide ExactRoots;
    forall i | 0 <= i < |PHYSICAL_ROOTS| ensures !Within(e, PHYSICAL_ROOTS[i] + [TENANTS, tenant]) {
      PhysicalRootsHaveShape(i);
      assert (PHYSICAL_ROOTS[i] + [TENANTS, tenant])[1] == SHARED;
    }
    forall i | 0 <= i < |MESH_ROOTS| ensures !InMeshHub(e, MESH_ROOTS[i], tenant) {
      MeshRootsArePhysical(i);
      assert MESH_ROOTS[i][1] == SHARED;
    }
  }

  lemma AreaIsNotShared(area: string)
    requires area == "projects" || area == "missions"
    ensures area != SHARED
  {
    assert |area| == 8 && |SHARED| == 6;
  }

  lemma NoExactRootInArea(e: Path, tenant: string, i: nat)
    requires i < |ExactRoots(tenant)| && |e| >= 2 && e[0] == ACTIVE && e[1] != SHARED
    ensures !Within(e, ExactRoots(tenant)[i])
  {
    var root := ExactRoots(tenant)[i];
    assert KNOWLEDGE[0] == 'k' && ACTIVE[0] == 'a' && "customer"[0] == 'c' && CUSTOMERS[0] == 'c';
    assert root[0] == ACTIVE ==> root[1] == SHARED;
  }

  // ---- An archive of one customer directory ----

  const MANIFEST_FILE: Path := ["backup-1", "manifest.json"]

  function OneTenant(tenant: string): Manifest {
    Manifest(Tenant, Some(tenant), [["customer", tenant]], [], [])
  }

  /** It gives its tenant what lies in the directory, and nobody a file from elsewhere. */
  lemma OneTenantRestores(tenant: string, file: string, other: string, lookup: Lookup)
    requires IsValidTenantSlug(tenant)
    ensures MayRestore(OneTenant(tenant), MANIFEST_FILE, [["customer", tenant, file], MANIFEST_FILE],
      Request(Tenant, Some(tenant)), lookup)
    ensures !MayRestore(OneTenant(tenant), MANIFEST_FILE, [["vault", file]], Request(Tenant, Some(tenant)), lookup)
    ensures !MayRestore(OneTenant(tenant), MANIFEST_FILE, [["customer", tenant + "2", file]],
      Request(Tenant, Some(tenant)), lookup)
    ensures other != tenant ==>
      !MayRestore(OneTenant(tenant), MANIFEST_FILE, [], Request(Tenant, Some(other)), lookup)
    ensures !MayRestore(OneTenant(tenant), MANIFEST_FILE, [], Request(All, None), lookup)
  {
    hide MayRestore, IsTenantBackupEntry, IsCovered, IsValidTenantSlug;
    var m, request := OneTenant(tenant), Request(Tenant, Some(tenant));
    CustomerIsAccepted(tenant, lookup(["customer", tenant]));
    CustomerFileIsCovered(m, tenant, file);
    StrangerIsApart(m, tenant, ["vault", file]);
    StrangerIsApart(m, tenant, ["customer", tenant + "2", file]);
    MayRestoreIff(m, MANIFEST_FILE, [["customer", tenant, file], MANIFEST_FILE], request, lookup);
    MemberApartIsRefused(m, MANIFEST_FILE, [["vault", file]], request, lookup, 0);
    MemberApartIsRefused(m, MANIFEST_FILE, [["customer", tenant + "2", file]], request, lookup, 0);
    OtherTenantIsRefused(m, MANIFEST_FILE, [], Request(All, None), lookup);
    if other != tenant {
      OtherTenantIsRefused(m, MANIFEST_FILE, [], Request(Tenant, Some(other)), lookup);
    }
  }

  lemma CustomerIsAccepted(tenant: string, partition: Option<string>)
    ensures IsTenantBackupEntry(["customer", tenant], tenant, partition)
  {
    assert Within(["customer", tenant], ExactRoots(tenant)[4]);
  }

  lemma CustomerFileIsCovered(m: Manifest, tenant: string, file: string)
    requires m == OneTenant(tenant)
    ensures IsCovered(m, MANIFEST_FILE, ["customer", tenant, file]) && IsCovered(m, MANIFEST_FILE, MANIFEST_FILE)
  {
    hide MANIFEST_FILE;
    assert OnOneLine(["customer", tenant, file], m.entries[0]);
    assert OnOneLine(MANIFEST_FILE, MANIFEST_FILE);
  }

  lemma StrangerIsApart(m: Manifest, tenant: string, member: Path)
    requires m == OneTenant(tenant) && |member| >= 2
    requires member[0] == "vault" || (member[0] == "customer" && member[1] != tenant)
    ensures !IsCovered(m, MANIFEST_FILE, member)
  {
    assert "vault"[0] == 'v' && "customer"[0] == 'c' && "backup-1"[0] == 'b';
    assert !OnOneLine(member, m.entries[0]) by {
      assert m.entries[0][0] == "customer" && m.entries[0][1] == tenant;
    }
    assert !OnOneLine(member, MANIFEST_FILE) by {
      assert MANIFEST_FILE[0] == "backup-1";
    }
  }
}
