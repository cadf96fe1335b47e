/** What a tenant backup collects from the disk. */
module BackupPlan {
  import opened BackupScope

  /**
   * What the planner sees of a disk: which paths exist, what a directory lists, which paths are directories in
   * their own right, and which are directories once links are followed.
   */
  datatype Disk = Disk(present: set<Path>, listing: map<Path, set<string>>, plainDirs: set<Path>, dirs: set<Path>)

  const MAX_DEPTH := 6
  const MAX_REPO_DEPTH := 5
  const MISSIONS := "missions"

  // ---- Registered roots ----

  predicate IsSkipped(name: string) {
    name == ".quarantine" || name == "node_modules"
  }

  predicate IsOpen(disk: Disk, dir: Path) {
    dir in disk.present && dir in disk.listing
  }

  /** A plain directory that the walk looks at. */
  predicate IsEntered(disk: Disk, dir: Path, child: string)
    requires IsOpen(disk, dir)
  {
    child in disk.listing[dir] && !IsSkipped(child) && dir + [child] in disk.plainDirs
  }

  /** The walk gets from a directory through `mid` to a `tenants` directory. */
  ghost predicate Reaches(disk: Disk, dir: Path, mid: Path)
    decreases mid
  {
    && IsOpen(disk, dir)
    && if mid == [] then IsEntered(disk, dir, TENANTS)
      else mid[0] != TENANTS && IsEntered(disk, dir, mid[0]) && Reaches(disk, dir + [mid[0]], mid[1..])
  }

  /** A namespace of the tenant at most `MAX_DEPTH` levels below the root, `depth` of them already walked. */
  ghost predicate Finds(disk: Disk, dir: Path, tenant: string, depth: nat, e: Path) {
    && e in disk.present
    && exists mid :: |mid| + depth <= MAX_DEPTH && Reaches(disk, dir, mid) && e == Namespace(dir, mid, tenant)
  }

  /** What the walk finds by way of one child. */
  ghost predicate ChildFinds(disk: Disk, dir: Path, tenant: string, depth: nat, child: string, e: Path)
    requires IsOpen(disk, dir)
  {
    var next := depth + 1;
    && IsEntered(disk, dir, child)
    && if child == TENANTS then e in disk.present && e == dir + [TENANTS, tenant]
      else Finds(disk, dir + [child], tenant, next, e)
  }

  /** What the walk finds by way of the children that are not still to come. */
  ghost predicate FindsBut(disk: Disk, dir: Path, tenant: string, depth: nat, rest: set<string>, e: Path)
    requires IsOpen(disk, dir)
  {
    exists c :: c in disk.listing[dir] && c !in rest && ChildFinds(disk, dir, tenant, depth, c, e)
  }

  lemma FindsByChildren(disk: Disk, dir: Path, tenant: string, depth: nat, e: Path)
    requires depth <= MAX_DEPTH
    ensures Finds(disk, dir, tenant, depth, e) <==>
      IsOpen(disk, dir) && FindsBut(disk, dir, tenant, depth, {}, e)
  {
    if Finds(disk, dir, tenant, depth, e) {
      var mid :| |mid| + depth <= MAX_DEPTH && Reaches(disk, dir, mid) && e == Namespace(dir, mid, tenant);
      FoundByFirst(disk, dir, tenant, depth, mid, e);
    }
    if IsOpen(disk, dir) {
      forall child | child in disk.listing[dir] && ChildFinds(disk, dir, tenant, depth, child, e)
        ensures Finds(disk, dir, tenant, depth, e)
      {
        ChildIsFound(disk, dir, tenant, depth, child, e);
      }
    }
  }

  lemma FoundByFirst(disk: Disk, dir: Path, tenant: string, depth: nat, mid: Path, e: Path)
    requires |mid| + depth <= MAX_DEPTH && Reaches(disk, dir, mid)
    requires e in disk.present && e == Namespace(dir, mid, tenant)
    ensures var child := if mid == [] then TENANTS else mid[0];
      IsOpen(disk, dir) && child in disk.listing[dir] && ChildFinds(disk, dir, tenant, depth, child, e)
  {
    hide IsSkipped, Finds, Namespace;
    NamespaceSteps(dir, mid, tenant);
    if mid != [] {
      FoundFromNext(disk, dir + [mid[0]], tenant, depth + 1, mid[1..], e);
    }
  }

  lemma NamespaceSteps(dir: Path, mid: Path, tenant: string)
    ensures mid == [] ==> Namespace(dir, mid, tenant) == dir + [TENANTS, tenant]
    ensures mid != [] ==> Namespace(dir, mid, tenant) == Namespace(dir + [mid[0]], mid[1..], tenant)
  {
    hide TENANTS;
    if mid != [] {
      assert dir + mid == dir + [mid[0]] + mid[1..];
    } else {
      assert dir + mid == dir;
    }
  }

  lemma FoundFromNext(disk: Disk, dir: Path, tenant: string, depth: nat, mid: Path, e: Path)
    requires |mid| + depth <= MAX_DEPTH && Reaches(disk, dir, mid)
    requires e in disk.present && e == Namespace(dir, mid, tenant)
    ensures Finds(disk, dir, tenant, depth, e)
  {
  }

  lemma ChildIsFound(disk: Disk, dir: Path, tenant: string, depth: nat, child: string, e: Path)
    requires IsOpen(disk, dir) && child in disk.listing[dir] && ChildFinds(disk, dir, tenant, depth, child, e)
    requires depth <= MAX_DEPTH
    ensures Finds(disk, dir, tenant, depth, e)
  {
    if child == TENANTS {
      assert Reaches(disk, dir, []);
      assert e == Namespace(dir, [], tenant);
    } else {
      var mid :| |mid| + depth + 1 <= MAX_DEPTH && Reaches(disk, dir + [child], mid)
        && e == Namespace(dir + [child], mid, tenant);
      assert ([child] + mid)[1..] == mid;
      assert Reaches(disk, dir, [child] + mid);
      assert e == Namespace(dir, [child] + mid, tenant);
    }
  }

  lemma {:induction false} WalkAvoidsTenants(disk: Disk, dir: Path, mid: Path)
    requires Reaches(disk, dir, mid)
    ensures forall k :: 0 <= k < |mid| ==> mid[k] != TENANTS
    decreases mid
  {
    if mid != [] {
      WalkAvoidsTenants(disk, dir + [mid[0]], mid[1..]);
      assert mid == [mid[0]] + mid[1..];
    }
  }

  // ---- Tiers and fixed roots ----

  /** `<base>/<tier>/<tenant>`, for every tier directory. */
  ghost predicate TierFinds(disk: Disk, base: Path, tenant: string, e: Path) {
    && IsOpen(disk, base) && e in disk.present
    && exists tier :: tier in disk.listing[base] && base + [tier] in disk.dirs && e == base + [tier, tenant]
  }

  predicate IsReadable(disk: Disk, base: Path) {
    base in disk.present ==> base in disk.listing
  }

  /** The same without the tiers still to come. */
  ghost predicate TierFindsBut(disk: Disk, base: Path, tenant: string, rest: set<string>, e: Path)
    requires IsOpen(disk, base)
  {
    && e in disk.present
    && exists t :: t in disk.listing[base] && t !in rest && base + [t] in disk.dirs && e == base + [t, tenant]
  }

  const PROJECTS: Path := [ACTIVE, "projects"]
  const ACTIVE_MISSIONS: Path := [ACTIVE, MISSIONS]

  ghost predicate FixedFinds(disk: Disk, tenant: string, n: nat, e: Path)
    requires n <= |ExactRoots(tenant)|
  {
    e in disk.present && exists i :: 0 <= i < n && ExactRoots(tenant)[i] == e
  }

  ghost predicate WalkFinds(disk: Disk, tenant: string, n: nat, e: Path)
    requires n <= |PHYSICAL_ROOTS|
  {
    exists i :: 0 <= i < n && Finds(disk, PHYSICAL_ROOTS[i], tenant, 0, e)
  }

  /** What a tenant plan holds, next to the runtime partitions it is given. */
  ghost predicate IsPlanned(disk: Disk, tenant: string, partitions: set<Path>, e: Path) {
    || TierFinds(disk, PROJECTS, tenant, e)
    || TierFinds(disk, ACTIVE_MISSIONS, tenant, e)
    || FixedFinds(disk, tenant, |ExactRoots(tenant)|, e)
    || WalkFinds(disk, tenant, |PHYSICAL_ROOTS|, e)
    || e in partitions
  }

  /** The planner and the set of entries it fills. */
  class Planner {
    const disk: Disk
    const tenant: string
    var entries: set<Path>

    constructor (disk: Disk, tenant: string)
      ensures this.disk == disk && this.tenant == tenant && entries == {}
    {
      this.disk, this.tenant, entries := disk, tenant, {};
    }

    method AddIfExists(e: Path)
      modifies this
      ensures entries == old(entries) + if e in disk.present then {e} else {}
    {
      if e in disk.present {
        entries := entries + {e};
      }
    }

    /** Listing a base that is there but cannot be read throws. */
    method AddTenantMatches(base: Path) returns (ok: bool)
      modifies this
      ensures ok <==> IsReadable(disk, base)
      ensures ok ==> forall e :: e in entries <==> e in old(entries) || TierFinds(disk, base, tenant, e)
    {
      if base !in disk.present {
        return true;
      }
      if base !in disk.listing {
        return false;
      }
      var rest := disk.listing[base];
      while rest != {}
        invariant rest <= disk.listing[base]
        invariant forall e :: e in entries <==> e in old(entries) || TierFindsBut(disk, base, tenant, rest, e)
      {
        var tier :| tier in rest;
        if base + [tier] in disk.dirs {
          AddIfExists(base + [tier, tenant]);
        }
        rest := rest - {tier};
      }
      ok := true;
    }

    method AddPhysicalTenantNamespaceMatches(dir: Path, depth: nat)
      modifies this
      ensures forall e :: e in entries <==> e in old(entries) || Finds(disk, dir, tenant, depth, e)
      decreases MAX_DEPTH + 1 - depth
    {
      if depth > MAX_DEPTH || dir !in disk.present || dir !in disk.listing {
        return;
      }
      var rest := disk.listing[dir];
      while rest != {}
        invariant rest <= disk.listing[dir]
        invariant forall e :: e in entries <==> e in old(entries) || FindsBut(disk, dir, tenant, depth, rest, e)
      {
        var child :| child in rest;
        AddChild(dir, child, depth);
        rest := rest - {child};
      }
      forall e {
        FindsByChildren(disk, dir, tenant, depth, e);
      }
    }

    /** The body of the walk's loop. */
    method AddChild(dir: Path, child: string, depth: nat)
      requires depth <= MAX_DEPTH && IsOpen(disk, dir) && child in disk.listing[dir]
      modifies this
      ensures forall e :: e in entries <==> e in old(entries) || ChildFinds(disk, dir, tenant, depth, child, e)
      decreases MAX_DEPTH + 1 - depth, 0
    {
      if IsSkipped(child) || dir + [child] !in disk.plainDirs {
        return;
      }
      if child == TENANTS {
        AddIfExists(dir + [TENANTS, tenant]);
        return;
      }
      AddPhysicalTenantNamespaceMatches(dir + [child], depth + 1);
    }

    /** The tenant branch of the plan. It throws exactly when the projects or the missions cannot be listed. */
    method ResolveTenantEntries(partitions: set<Path>) returns (ok: bool)
      requires entries == {}
      modifies this
      ensures ok <==> IsReadable(disk, PROJECTS) && IsReadable(disk, ACTIVE_MISSIONS)
      ensures ok ==> forall e :: e in entries <==> IsPlanned(disk, tenant, partitions, e)
    {
      ok := AddTenantMatches(PROJECTS);
      if !ok {
        return;
      }
      ok := AddTenantMatches(ACTIVE_MISSIONS);
      if !ok {
        return;
      }
      AddFixedRoots();
      AddWalkedRoots();
      entries := entries + partitions;
    }

    method AddFixedRoots()
      modifies this
      ensures forall e :: e in entries <==> e in old(entries) || FixedFinds(disk, tenant, |ExactRoots(tenant)|, e)
    {
      for i := 0 to |ExactRoots(tenant)|
        invariant forall e :: e in entries <==> e in old(entries) || FixedFinds(disk, tenant, i, e)
      {
        AddIfExists(ExactRoots(tenant)[i]);
      }
    }

    method AddWalkedRoots()
      modifies this
      ensures forall e :: e in entries <==> e in old(entries) || WalkFinds(disk, tenant, |PHYSICAL_ROOTS|, e)
    {
      hide Finds, PHYSICAL_ROOTS;
      for i := 0 to |PHYSICAL_ROOTS|
        invariant forall e :: e in entries <==> e in old(entries) || WalkFinds(disk, tenant, i, e)
      {
        AddPhysicalTenantNamespaceMatches(PHYSICAL_ROOTS[i], 0);
      }
    }
  }
}
