/** What the planner's walks find, spelled out directory by directory. */
module PlanMeaning {
  import opened BackupScope
  import opened BackupPlan
  import opened MissionRepos

  // ---- Tenant namespaces ----

  /** The directory after `k` steps. */
  function Through(dir: Path, mid: Path, k: nat): Path
    requires k <= |mid|
  {
    dir + mid[..k]
  }

  /** A directory that is there and can be listed, and in it a plain directory of that name. */
  predicate Offers(disk: Disk, dir: Path, name: string) {
    dir in disk.present && dir in disk.listing && name in disk.listing[dir] && dir + [name] in disk.plainDirs
  }

  /** Each step is offered and has none of the three names the walk does not go through. */
  ghost predicate StepIsOffered(disk: Disk, dir: Path, mid: Path, k: nat) {
    k < |mid| ==>
      && Offers(disk, Through(dir, mid, k), mid[k])
      && mid[k] != "tenants" && mid[k] != ".quarantine" && mid[k] != "node_modules"
  }

  ghost predicate LeadsToTenants(disk: Disk, dir: Path, mid: Path) {
    && (forall k :: StepIsOffered(disk, dir, mid, k))
    && Offers(disk, dir + mid, "tenants")
  }

  lemma StepsShift(disk: Disk, dir: Path, mid: Path)
    requires mid != []
    ensures (forall k :: StepIsOffered(disk, dir, mid, k)) <==>
      StepIsOffered(disk, dir, mid, 0) && forall k :: StepIsOffered(disk, dir + [mid[0]], mid[1..], k)
  {
    hide Offers;
    forall k: nat | k < |mid[1..]|
      ensures Through(dir + [mid[0]], mid[1..], k) == Through(dir, mid, k + 1) && mid[1..][k] == mid[k + 1]
    {
      assert mid[..k + 1] == [mid[0]] + mid[1..][..k];
    }
    if forall k :: StepIsOffered(disk, dir, mid, k) {
      forall k: nat ensures StepIsOffered(disk, dir + [mid[0]], mid[1..], k) {
        assert StepIsOffered(disk, dir, mid, k + 1);
      }
    }
    if StepIsOffered(disk, dir, mid, 0) && forall k :: StepIsOffered(disk, dir + [mid[0]], mid[1..], k) {
      forall k: nat ensures StepIsOffered(disk, dir, mid, k) {
        if k > 0 {
          assert StepIsOffered(disk, dir + [mid[0]], mid[1..], k - 1);
        }
      }
    }
  }

  lemma TenantsIsNotSkipped()
    ensures !IsSkipped("tenants")
  {
    assert |"tenants"| == 7 && |".quarantine"| == 11 && |"node_modules"| == 12;
  }

  lemma {:induction false} ReachesIff(disk: Disk, dir: Path, mid: Path)
    ensures Reaches(disk, dir, mid) <==> LeadsToTenants(disk, dir, mid)
    decreases mid
  {
    hide IsSkipped, StepIsOffered;
    TenantsIsNotSkipped();
    if mid == [] {
      assert dir + mid == dir;
      NoStepIsOffered(disk, dir);
    } else {
      ReachesIff(disk, dir + [mid[0]], mid[1..]);
      StepsShift(disk, dir, mid);
      FirstStepIff(disk, dir, mid);
      assert dir + [mid[0]] + mid[1..] == dir + mid;
    }
  }

  lemma NoStepIsOffered(disk: Disk, dir: Path)
    ensures forall k :: StepIsOffered(disk, dir, [], k)
  {
  }

  lemma FirstStepIff(disk: Disk, dir: Path, mid: Path)
    requires mid != []
    ensures StepIsOffered(disk, dir, mid, 0) <==>
      IsOpen(disk, dir) && mid[0] != TENANTS && IsEntered(disk, dir, mid[0])
  {
    assert Through(dir, mid, 0) == dir;
  }

  /**
   * A walk from a registered root finds exactly the tenant's directories that are there, behind a `tenants` directory
   * at most six directories below the root.
   */
  lemma NamespaceFoundIff(disk: Disk, root: Path, tenant: string, e: Path)
    ensures Finds(disk, root, tenant, 0, e) <==>
      e in disk.present
      && exists mid :: |mid| <= 6 && LeadsToTenants(disk, root, mid) && e == root + mid + ["tenants", tenant]
  {
    hide Reaches, LeadsToTenants;
    forall mid ensures Reaches(disk, root, mid) <==> LeadsToTenants(disk, root, mid) {
      ReachesIff(disk, root, mid);
    }
    if mid :| |mid| <= 6 && LeadsToTenants(disk, root, mid) && e == root + mid + ["tenants", tenant] {
      assert e == Namespace(root, mid, tenant);
    }
  }

  // ---- Mission repositories ----

  /** A directory without a repository, and in it an entry of that name. */
  predicate PassesBy(disk: Disk, dir: Path, name: string) {
    && dir in disk.dirs && dir + [".git"] !in disk.present && dir in disk.listing && name in disk.listing[dir]
    && name != ".git" && name != "node_modules"
  }

  ghost predicate StepPassesBy(disk: Disk, dir: Path, mid: Path, k: nat) {
    k < |mid| ==> PassesBy(disk, Through(dir, mid, k), mid[k])
  }

  /** A directory that holds a repository, behind directories that hold none. */
  ghost predicate LeadsToRepo(disk: Disk, dir: Path, mid: Path) {
    && (forall k :: StepPassesBy(disk, dir, mid, k))
    && dir + mid in disk.dirs && dir + mid + [".git"] in disk.present
  }

  lemma PassesShift(disk: Disk, dir: Path, mid: Path)
    requires mid != []
    ensures (forall k :: StepPassesBy(disk, dir, mid, k)) <==>
      PassesBy(disk, dir, mid[0]) && forall k :: StepPassesBy(disk, dir + [mid[0]], mid[1..], k)
  {
    hide PassesBy;
    forall k: nat | k < |mid[1..]|
      ensures Through(dir + [mid[0]], mid[1..], k) == Through(dir, mid, k + 1) && mid[1..][k] == mid[k + 1]
    {
      assert mid[..k + 1] == [mid[0]] + mid[1..][..k];
    }
    assert Through(dir, mid, 0) == dir;
    if forall k :: StepPassesBy(disk, dir, mid, k) {
      assert StepPassesBy(disk, dir, mid, 0);
      forall k: nat ensures StepPassesBy(disk, dir + [mid[0]], mid[1..], k) {
        assert StepPassesBy(disk, dir, mid, k + 1);
      }
    }
    if PassesBy(disk, dir, mid[0]) && forall k :: StepPassesBy(disk, dir + [mid[0]], mid[1..], k) {
      forall k: nat ensures StepPassesBy(disk, dir, mid, k) {
        if k > 0 {
          assert StepPassesBy(disk, dir + [mid[0]], mid[1..], k - 1);
        }
      }
    }
  }

  lemma {:induction false} ReachesRepoIff(disk: Disk, dir: Path, mid: Path)
    ensures ReachesRepo(disk, dir, mid) <==> LeadsToRepo(disk, dir, mid)
    decreases mid
  {
    hide StepPassesBy;
    if mid == [] {
      assert dir + mid == dir;
      NoStepPassesBy(disk, dir);
    } else {
      ReachesRepoIff(disk, dir + [mid[0]], mid[1..]);
      PassesShift(disk, dir, mid);
      assert dir + [mid[0]] + mid[1..] == dir + mid;
    }
  }

  lemma NoStepPassesBy(disk: Disk, dir: Path)
    ensures forall k :: StepPassesBy(disk, dir, [], k)
  {
  }

  /** A walk finds exactly the repositories at most five directories below it that lie in no other repository. */
  lemma RepoFoundIff(disk: Disk, root: Path, repo: Path)
    ensures FindsRepo(disk, root, 0, repo) <==>
      exists mid :: |mid| <= 5 && LeadsToRepo(disk, root, mid) && repo == root + mid
  {
    hide ReachesRepo, LeadsToRepo;
    forall mid ensures ReachesRepo(disk, root, mid) <==> LeadsToRepo(disk, root, mid) {
      ReachesRepoIff(disk, root, mid);
    }
  }

  // ---- The roots walked for repositories ----

  ghost predicate IsMissionRoot(p: Path) {
    p == ["active", "missions"] || p == ["active", "archive", "missions"] || p == ["knowledge", "personal", "missions"]
  }

  lemma MissionRootIff(p: Path)
    ensures IsMissionRoot(p) <==> p in MISSION_ROOTS
  {
    assert MISSION_ROOTS[0] == ["active", "missions"] && MISSION_ROOTS[1] == ["active", "archive", "missions"];
    assert MISSION_ROOTS[2] == ["knowledge", "personal", "missions"];
  }

  /**
   * Repositories are looked for below each entry that is a mission root or goes through a directory called `missions`,
   * and below each mission root that is there.
   */
  lemma RepoRootIff(disk: Disk, entries: seq<Path>, root: Path)
    ensures IsRepoRoot(disk, entries, root) <==>
      || (root in entries && (IsMissionRoot(root) || exists i :: 0 < i < |root| - 1 && root[i] == "missions"))
      || (IsMissionRoot(root) && root in disk.present)
  {
    hide MISSION_ROOTS, IsMissionRoot;
    MissionRootIff(root);
  }

  // ---- The plan ----

  /** A directory, or a link to one, listed in an area of the active tree that is there. */
  predicate IsTier(disk: Disk, area: string, tier: string) {
    && ["active", area] in disk.present && ["active", area] in disk.listing
    && tier in disk.listing[["active", area]] && ["active", area, tier] in disk.dirs
  }

  ghost predicate IsTierEntry(disk: Disk, area: string, tenant: string, e: Path) {
    exists tier :: IsTier(disk, area, tier) && e == ["active", area, tier, tenant]
  }

  predicate IsOwnDirectory(e: Path, tenant: string) {
    || e == ["knowledge", "confidential", tenant]
    || e == ["knowledge", "personal", tenant]
    || e == ["knowledge", "personal", "tenants", tenant]
    || e == ["knowledge", "personal", "customers", tenant]
    || e == ["customer", tenant]
    || e == ["customers", tenant]
    || e == ["active", "shared", "runtime", "ingest-cursors", tenant]
    || e == ["active", "shared", "runtime", "media-generation", "quota", tenant]
  }

  lemma TierIff(disk: Disk, base: Path, area: string, tenant: string, e: Path)
    requires base == ["active", area]
    ensures TierFinds(disk, base, tenant, e) <==>
      e in disk.present && IsTierEntry(disk, area, tenant, e)
  {
    assert forall tier :: base + [tier] == ["active", area, tier];
    assert forall tier :: base + [tier, tenant] == ["active", area, tier, tenant];
    if tier :| IsTier(disk, area, tier) && e == ["active", area, tier, tenant] {
      assert base + [tier] in disk.dirs && e == base + [tier, tenant];
    }
    if TierFinds(disk, base, tenant, e) {
      var tier :| tier in disk.listing[base] && base + [tier] in disk.dirs && e == base + [tier, tenant];
      assert IsTier(disk, area, tier);
    }
  }

  lemma FixedIff(disk: Disk, tenant: string, e: Path)
    ensures FixedFinds(disk, tenant, |ExactRoots(tenant)|, e) <==> e in disk.present && IsOwnDirectory(e, tenant)
  {
    var roots := ExactRoots(tenant);
    assert IsOwnDirectory(e, tenant) ==> e in roots;
    if e in roots {
      var i :| 0 <= i < |roots| && roots[i] == e;
      assert i == 0 || i == 1 || i == 2 || i == 3 || i == 4 || i == 5 || i == 6 || i == 7;
    }
  }

  /**
   * A tenant's plan holds exactly the given partitions, what is there of its projects and missions of each tier and of
   * its own eight directories, and the namespaces the walks from the registered roots find.
   */
  lemma PlannedIff(disk: Disk, tenant: string, partitions: set<Path>, e: Path)
    ensures IsPlanned(disk, tenant, partitions, e) <==>
      || e in partitions
      || (e in disk.present && IsTierEntry(disk, "projects", tenant, e))
      || (e in disk.present && IsTierEntry(disk, "missions", tenant, e))
      || (e in disk.present && IsOwnDirectory(e, tenant))
      || (exists i :: 0 <= i < |PHYSICAL_ROOTS| && Finds(disk, PHYSICAL_ROOTS[i], tenant, 0, e))
  {
    hide TierFinds, FixedFinds, Finds, PHYSICAL_ROOTS, ExactRoots, IsTierEntry, IsOwnDirectory;
    TierIff(disk, PROJECTS, "projects", tenant, e);
    TierIff(disk, ACTIVE_MISSIONS, "missions", tenant, e);
    FixedIff(disk, tenant, e);
  }
}
