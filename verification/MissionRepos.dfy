/** The mission git repositories a backup bundles. */
module MissionRepos {
  import opened BackupScope
  import opened BackupPlan

  const GIT := ".git"

  const MISSION_ROOTS: seq<Path> := [ACTIVE_MISSIONS, [ACTIVE, "archive", MISSIONS], [KNOWLEDGE, PERSONAL, MISSIONS]]

  predicate IsWalked(disk: Disk, dir: Path, child: string) {
    dir in disk.listing && child in disk.listing[dir] && child != GIT && child != "node_modules"
  }

  /** The walk gets from a directory through `mid` to the first directory that holds a repository. */
  ghost predicate ReachesRepo(disk: Disk, dir: Path, mid: Path)
    decreases mid
  {
    && dir in disk.dirs
    && if mid == [] then dir + [GIT] in disk.present
      else dir + [GIT] !in disk.present && IsWalked(disk, dir, mid[0]) && ReachesRepo(disk, dir + [mid[0]], mid[1..])
  }

  ghost predicate FindsRepo(disk: Disk, dir: Path, depth: nat, repo: Path) {
    exists mid :: |mid| + depth <= MAX_REPO_DEPTH && ReachesRepo(disk, dir, mid) && repo == dir + mid
  }

  ghost predicate FindsRepoBut(disk: Disk, dir: Path, depth: nat, rest: set<string>, repo: Path) {
    var next := depth + 1;
    exists c :: IsWalked(disk, dir, c) && c !in rest && FindsRepo(disk, dir + [c], next, repo)
  }

  /** The walk gets from a directory through `mid` to one that it cannot list, which makes it throw. */
  ghost predicate ReachesUnlisted(disk: Disk, dir: Path, mid: Path)
    decreases mid
  {
    && dir in disk.dirs && dir + [GIT] !in disk.present
    && if mid == [] then dir !in disk.listing
      else IsWalked(disk, dir, mid[0]) && ReachesUnlisted(disk, dir + [mid[0]], mid[1..])
  }

  ghost predicate Throws(disk: Disk, dir: Path, depth: nat) {
    exists mid: Path :: |mid| + depth <= MAX_REPO_DEPTH && ReachesUnlisted(disk, dir, mid)
  }

  ghost predicate ThrowsBut(disk: Disk, dir: Path, depth: nat, rest: set<string>) {
    var next := depth + 1;
    exists c :: IsWalked(disk, dir, c) && c !in rest && Throws(disk, dir + [c], next)
  }

  lemma ThrowsByChildren(disk: Disk, dir: Path, depth: nat)
    requires depth <= MAX_REPO_DEPTH && dir in disk.dirs && dir + [GIT] !in disk.present
    ensures Throws(disk, dir, depth) <==> dir !in disk.listing || ThrowsBut(disk, dir, depth, {})
  {
    hide IsWalked;
    var next := depth + 1;
    if Throws(disk, dir, depth) && dir in disk.listing {
      var mid: Path :| |mid| + depth <= MAX_REPO_DEPTH && ReachesUnlisted(disk, dir, mid);
      assert Throws(disk, dir + [mid[0]], next) by {
        assert |mid[1..]| + next <= MAX_REPO_DEPTH;
      }
    }
    if dir !in disk.listing {
      var none: Path := [];
      assert |none| == 0 && ReachesUnlisted(disk, dir, none);
    }
    if ThrowsBut(disk, dir, depth, {}) {
      var c :| IsWalked(disk, dir, c) && Throws(disk, dir + [c], next);
      ChildThrows(disk, dir, depth, c);
    }
  }

  lemma ChildThrows(disk: Disk, dir: Path, depth: nat, c: string)
    requires dir in disk.dirs && dir + [GIT] !in disk.present && IsWalked(disk, dir, c)
    requires Throws(disk, dir + [c], depth + 1)
    ensures Throws(disk, dir, depth)
  {
    var mid: Path :| |mid| + depth + 1 <= MAX_REPO_DEPTH && ReachesUnlisted(disk, dir + [c], mid);
    var whole := [c] + mid;
    assert whole[0] == c && whole[1..] == mid;
    assert ReachesUnlisted(disk, dir, whole);
  }

  /** Where every directory without a repository can be listed, no walk throws. */
  lemma ListedDisksDoNotThrow(disk: Disk, dir: Path, depth: nat)
    requires forall d :: d in disk.dirs ==> d in disk.listing || d + [GIT] in disk.present
    ensures !Throws(disk, dir, depth)
  {
    forall mid | ReachesUnlisted(disk, dir, mid) ensures false {
      NothingUnlisted(disk, dir, mid);
    }
  }

  lemma {:induction false} NothingUnlisted(disk: Disk, dir: Path, mid: Path)
    requires forall d :: d in disk.dirs ==> d in disk.listing || d + [GIT] in disk.present
    ensures !ReachesUnlisted(disk, dir, mid)
    decreases mid
  {
    if mid != [] {
      NothingUnlisted(disk, dir + [mid[0]], mid[1..]);
    }
  }

  lemma RepoByChildren(disk: Disk, dir: Path, depth: nat, repo: Path)
    requires depth <= MAX_REPO_DEPTH && dir in disk.dirs
    ensures dir + [GIT] in disk.present ==> (FindsRepo(disk, dir, depth, repo) <==> repo == dir)
    ensures dir + [GIT] !in disk.present ==>
      (FindsRepo(disk, dir, depth, repo) <==> FindsRepoBut(disk, dir, depth, {}, repo))
  {
    if FindsRepo(disk, dir, depth, repo) {
      var mid :| |mid| + depth <= MAX_REPO_DEPTH && ReachesRepo(disk, dir, mid) && repo == dir + mid;
      RepoSteps(disk, dir, mid);
      if mid != [] {
        RepoFromNext(disk, dir + [mid[0]], depth + 1, mid[1..], repo);
      }
    }
    if dir + [GIT] in disk.present {
      assert ReachesRepo(disk, dir, []) && dir + [] == dir;
    } else if FindsRepoBut(disk, dir, depth, {}, repo) {
      var next := depth + 1;
      var c :| IsWalked(disk, dir, c) && FindsRepo(disk, dir + [c], next, repo);
      ChildRepoIsFound(disk, dir, depth, c, repo);
    }
  }

  lemma RepoSteps(disk: Disk, dir: Path, mid: Path)
    ensures if mid == [] then dir + mid == dir else dir + mid == dir + [mid[0]] + mid[1..]
  {
  }

  lemma RepoFromNext(disk: Disk, dir: Path, depth: nat, mid: Path, repo: Path)
    requires |mid| + depth <= MAX_REPO_DEPTH && ReachesRepo(disk, dir, mid) && repo == dir + mid
    ensures FindsRepo(disk, dir, depth, repo)
  {
  }

  lemma ChildRepoIsFound(disk: Disk, dir: Path, depth: nat, c: string, repo: Path)
    requires dir in disk.dirs && dir + [GIT] !in disk.present && IsWalked(disk, dir, c)
    requires FindsRepo(disk, dir + [c], depth + 1, repo)
    ensures FindsRepo(disk, dir, depth, repo)
  {
    hide IsWalked;
    var mid :| |mid| + depth + 1 <= MAX_REPO_DEPTH && ReachesRepo(disk, dir + [c], mid) && repo == dir + [c] + mid;
    var whole := [c] + mid;
    assert whole[0] == c && whole[1..] == mid;
    assert ReachesRepo(disk, dir, whole);
    RepoSteps(disk, dir, whole);
    RepoFromNext(disk, dir, depth, whole, repo);
  }

  /** The roots walked: those of the entries that hold missions, and the registered ones. */
  predicate HoldsMissions(entry: Path) {
    || entry in MISSION_ROOTS
    || exists i :: 0 < i < |entry| - 1 && entry[i] == MISSIONS
  }

  class Collector {
    const disk: Disk
    var repos: set<Path>

    constructor (disk: Disk)
      ensures this.disk == disk && repos == {}
    {
      this.disk, repos := disk, {};
    }

    /** The walk; listing a directory that cannot be read throws. */
    method CollectMissionGitRepos(dir: Path, depth: nat) returns (ok: bool)
      modifies this
      ensures ok <==> !Throws(disk, dir, depth)
      ensures ok ==> forall r :: r in repos <==> r in old(repos) || FindsRepo(disk, dir, depth, r)
      decreases MAX_REPO_DEPTH + 1 - depth
    {
      if depth > MAX_REPO_DEPTH || dir !in disk.dirs {
        return true;
      }
      forall r {
        RepoByChildren(disk, dir, depth, r);
      }
      if dir + [GIT] in disk.present {
        repos := repos + {dir};
        return true;
      }
      ThrowsByChildren(disk, dir, depth);
      if dir !in disk.listing {
        return false;
      }
      var rest := disk.listing[dir];
      while rest != {}
        invariant rest <= disk.listing[dir]
        invariant forall r :: r in repos <==> r in old(repos) || FindsRepoBut(disk, dir, depth, rest, r)
        invariant !ThrowsBut(disk, dir, depth, rest)
      {
        hide FindsRepo, Throws;
        var child :| child in rest;
        if child != GIT && child != "node_modules" {
          ok := CollectMissionGitRepos(dir + [child], depth + 1);
          if !ok {
            return;
          }
        }
        rest := rest - {child};
      }
      ok := true;
    }

    method ResolveMissionGitRepos(entries: seq<Path>) returns (ok: bool)
      requires repos == {}
      modifies this
      ensures ok <==> forall root :: IsRepoRoot(disk, entries, root) ==> !Throws(disk, root, 0)
      ensures ok ==> forall r :: r in repos <==> IsCollected(disk, entries, r)
    {
      hide HoldsMissions, FindsRepo, Throws;
      for i := 0 to |entries|
        invariant forall r :: r in repos <==> FromEntries(disk, entries, i, r)
        invariant forall k :: 0 <= k < i && HoldsMissions(entries[k]) ==> !Throws(disk, entries[k], 0)
      {
        if HoldsMissions(entries[i]) {
          ok := CollectMissionGitRepos(entries[i], 0);
          if !ok {
            assert IsRepoRoot(disk, entries, entries[i]);
            return;
          }
        }
      }
      ok := CollectFromRoots(entries);
    }

    method CollectFromRoots(ghost entries: seq<Path>) returns (ok: bool)
      requires forall r :: r in repos <==> FromEntries(disk, entries, |entries|, r)
      requires forall k :: 0 <= k < |entries| && HoldsMissions(entries[k]) ==> !Throws(disk, entries[k], 0)
      modifies this
      ensures ok <==> forall root :: IsRepoRoot(disk, entries, root) ==> !Throws(disk, root, 0)
      ensures ok ==> forall r :: r in repos <==> IsCollected(disk, entries, r)
    {
      hide HoldsMissions, FindsRepo, Throws, MISSION_ROOTS;
      for i := 0 to |MISSION_ROOTS|
        invariant forall r :: r in repos <==> r in old(repos) || FromRoots(disk, i, r)
        invariant forall k :: 0 <= k < i && MISSION_ROOTS[k] in disk.present ==> !Throws(disk, MISSION_ROOTS[k], 0)
      {
        if MISSION_ROOTS[i] in disk.present {
          ok := CollectMissionGitRepos(MISSION_ROOTS[i], 0);
          if !ok {
            assert IsRepoRoot(disk, entries, MISSION_ROOTS[i]);
            return;
          }
        }
      }
      forall r {
        RootsAreBoth(disk, entries, r);
      }
      ok := true;
    }
  }

  ghost predicate IsRepoRoot(disk: Disk, entries: seq<Path>, root: Path) {
    (root in entries && HoldsMissions(root)) || (root in MISSION_ROOTS && root in disk.present)
  }

  /** A repository below one of the roots walked. */
  ghost predicate IsCollected(disk: Disk, entries: seq<Path>, repo: Path) {
    exists root :: IsRepoRoot(disk, entries, root) && FindsRepo(disk, root, 0, repo)
  }

  ghost predicate FromEntries(disk: Disk, entries: seq<Path>, n: nat, r: Path)
    requires n <= |entries|
  {
    exists i :: 0 <= i < n && HoldsMissions(entries[i]) && FindsRepo(disk, entries[i], 0, r)
  }

  ghost predicate FromRoots(disk: Disk, n: nat, r: Path)
    requires n <= |MISSION_ROOTS|
  {
    exists i :: 0 <= i < n && MISSION_ROOTS[i] in disk.present && FindsRepo(disk, MISSION_ROOTS[i], 0, r)
  }

  lemma RootsAreBoth(disk: Disk, entries: seq<Path>, r: Path)
    ensures FromEntries(disk, entries, |entries|, r) || FromRoots(disk, |MISSION_ROOTS|, r) <==>
      IsCollected(disk, entries, r)
  {
    hide FindsRepo, HoldsMissions, MISSION_ROOTS;
    if FromEntries(disk, entries, |entries|, r) {
      var i :| 0 <= i < |entries| && HoldsMissions(entries[i]) && FindsRepo(disk, entries[i], 0, r);
      assert IsRepoRoot(disk, entries, entries[i]);
    }
    if FromRoots(disk, |MISSION_ROOTS|, r) {
      var i :| 0 <= i < |MISSION_ROOTS| && MISSION_ROOTS[i] in disk.present && FindsRepo(disk, MISSION_ROOTS[i], 0, r);
      assert IsRepoRoot(disk, entries, MISSION_ROOTS[i]);
    }
  }
}
