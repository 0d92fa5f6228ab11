/**
 * Routing a process to a branch by its cgroup (src/cas/branch_router.cpp): the
 * registrations, a cache per cgroup path and a cache per process that is only
 * consulted while the kernel fence reports an unchanged generation.
 */
module BranchRouter {
  import opened CasTypes
  import opened Paths
  import opened Sequences

  /** The cgroup directory's inode; 0 when there is none. */
  type CgroupId = nat

  datatype PathEntry = PathEntry(leaf: CgroupId, branch: nat)

  /** `path` is history: the cgroup the entry was computed for. */
  datatype FenceEntry = FenceEntry(branch: nat, generation: nat, path: string)

  datatype Router = Router(
    map_: map<CgroupId, nat>, generation: nat,
    paths: map<string, PathEntry>, pids: map<int, FenceEntry>)

  const PATH_CACHE_CAP: nat := 1024
  const FENCE_CACHE_CAP: nat := 4096

  // ---- the uncached lookup ---------------------------------------------------------------

  function Root(): string {
    "/sys/fs/cgroup"
  }

  /** The directories whose registration counts for a cgroup, nearest first. */
  function Chain(path: string): seq<string>
    decreases |path|
  {
    if path == "" then []
    else if Topmost(path) then [path]
    else [path] + Chain(path[..LastSlash(path)])
  }

  function IdsOf(ids: string -> CgroupId, chain: seq<string>): seq<CgroupId> {
    if chain == [] then []
    else (if ids(chain[0]) != 0 then [ids(chain[0])] else []) + IdsOf(ids, chain[1..])
  }

  predicate Topmost(path: string) {
    path == Root() || LastSlash(path) <= |Root()|
  }

  lemma ChainStep(ids: string -> CgroupId, path: string)
    requires path != ""
    ensures IdsOf(ids, Chain(path)) == (if ids(path) != 0 then [ids(path)] else []) +
                                       (if Topmost(path) then [] else IdsOf(ids, Chain(path[..LastSlash(path)])))
  {
    if Topmost(path) {
      assert Chain(path)[1..] == [];
    } else {
      assert Chain(path)[1..] == Chain(path[..LastSlash(path)]);
    }
  }

  function FirstBranch(reg: map<CgroupId, nat>, ids: seq<CgroupId>): nat {
    if ids == [] then 0 else if ids[0] in reg then reg[ids[0]] else FirstBranch(reg, ids[1..])
  }

  function Abs(rel: string): string {
    Root() + rel
  }

  /** The branch of the nearest registered ancestor. */
  function Route(ids: string -> CgroupId, reg: map<CgroupId, nat>, rel: string): nat {
    FirstBranch(reg, IdsOf(ids, Chain(Abs(rel))))
  }

  /** The k-th directory of the chain is the nearest that is registered. */
  ghost predicate NearestAt(ids: string -> CgroupId, reg: map<CgroupId, nat>, chain: seq<string>, k: nat) {
    && k < |chain| && ids(chain[k]) != 0 && ids(chain[k]) in reg
    && (forall i :: 0 <= i < k ==> ids(chain[i]) == 0 || ids(chain[i]) !in reg)
  }

  lemma {:induction false} NearestWins(ids: string -> CgroupId, reg: map<CgroupId, nat>, chain: seq<string>, k: nat)
    requires NearestAt(ids, reg, chain, k)
    ensures FirstBranch(reg, IdsOf(ids, chain)) == reg[ids(chain[k])]
  {
    if k > 0 {
      assert ids(chain[0]) == 0 || ids(chain[0]) !in reg;
      assert forall i :: 0 <= i < k - 1 ==> chain[1..][i] == chain[i + 1];
      NearestWins(ids, reg, chain[1..], k - 1);
      var rest := IdsOf(ids, chain[1..]);
      if ids(chain[0]) != 0 {
        assert IdsOf(ids, chain)[1..] == rest;
      } else {
        assert IdsOf(ids, chain) == rest;
      }
    } else {
      assert IdsOf(ids, chain)[0] == ids(chain[0]);
    }
  }

  lemma {:induction false} UnregisteredIsMain(ids: string -> CgroupId, reg: map<CgroupId, nat>, chain: seq<string>)
    requires forall i :: 0 <= i < |chain| ==> ids(chain[i]) == 0 || ids(chain[i]) !in reg
    ensures FirstBranch(reg, IdsOf(ids, chain)) == 0
  {
    if chain != [] {
      UnregisteredIsMain(ids, reg, chain[1..]);
      var rest := IdsOf(ids, chain[1..]);
      if ids(chain[0]) != 0 {
        assert IdsOf(ids, chain)[1..] == rest;
      } else {
        assert IdsOf(ids, chain) == rest;
      }
    }
  }

  // ---- the locked sections ------------------------------------------------------------------

  function Flush(r: Router): Router {
    r.(paths := map[], pids := map[])
  }

  function Register(r: Router, id: CgroupId, branch: nat): Router {
    Flush(r).(map_ := r.map_[id := branch], generation := r.generation + 1)
  }

  function Unregister(r: Router, id: CgroupId): Router {
    Flush(r).(map_ := r.map_ - {id}, generation := if id in r.map_ then r.generation + 1 else r.generation)
  }

  function Evict(r: Router, id: CgroupId): Router {
    Flush(r).(map_ := r.map_ - {id}, generation := r.generation + 1)
  }

  function DropBranch(r: Router, branch: nat): Router {
    Flush(r).(map_ := map id | id in r.map_ && r.map_[id] != branch :: r.map_[id], generation := r.generation + 1)
  }

  function StorePid(r: Router, pid: int, branch: nat, gen: nat, path: string): Router {
    var pids := if |r.pids| >= FENCE_CACHE_CAP then map[] else r.pids;
    r.(pids := pids[pid := FenceEntry(branch, gen, path)])
  }

  function StorePath(r: Router, rel: string, leaf: CgroupId, branch: nat): Router {
    var paths := if |r.paths| >= PATH_CACHE_CAP then map[] else r.paths;
    r.(paths := paths[rel := PathEntry(leaf, branch)])
  }

  predicate PidHit(r: Router, pid: int, gen: nat) {
    pid in r.pids && r.pids[pid].generation == gen
  }

  predicate PathHit(r: Router, rel: string, checkLeaf: bool, leaf: CgroupId) {
    rel in r.paths && (!checkLeaf || r.paths[rel].leaf == leaf)
  }

  /** A hit in the path cache; the process is cached too when the fence is tracking it. */
  function AfterHit(r: Router, pid: int, rel: string, fence: Option<nat>): Router
    requires rel in r.paths
  {
    if fence.Some? then StorePid(r, pid, r.paths[rel].branch, fence.value, rel) else r
  }

  /** The end of a miss: cached only if no registration changed during the walk. */
  function AfterWalk(r: Router, pid: int, rel: string, leaf: CgroupId, ids: seq<CgroupId>, missGeneration: nat, fence: Option<nat>): Router {
    var branch := FirstBranch(r.map_, ids);
    if r.generation != missGeneration then r
    else
      var r1 := StorePath(r, rel, leaf, branch);
      if fence.Some? then StorePid(r1, pid, branch, fence.value, rel) else r1
  }

  /** The generation before and after tracking the process, and whether tracking worked. */
  datatype FenceHooks = Detached | Attached(before: nat, tracked: bool, after: nat)

  // ---- the object ------------------------------------------------------------------------------

  class BranchRouter {
    var cgroupBranchMap: map<CgroupId, nat>
    var generation: nat
    var pathBranchCache: map<string, PathEntry>
    var pidFenceCache: map<int, FenceEntry>
    const cgroupId: string -> CgroupId

    ghost function R(): Router
      reads this
    {
      Router(cgroupBranchMap, generation, pathBranchCache, pidFenceCache)
    }

    constructor (cgroupId: string -> CgroupId)
      ensures R() == Router(map[], 0, map[], map[]) && this.cgroupId == cgroupId
    {
      this.cgroupId := cgroupId;
      cgroupBranchMap, generation, pathBranchCache, pidFenceCache := map[], 0, map[], map[];
    }

    method RegisterCgroup(path: string, branch: nat) returns (ok: bool)
      modifies this
      ensures ok <==> cgroupId(path) != 0
      ensures R() == if ok then Register(old(R()), cgroupId(path), branch) else old(R())
    {
      var id := cgroupId(path);
      if id == 0 {
        return false;
      }
      cgroupBranchMap := cgroupBranchMap[id := branch];
      generation := generation + 1;
      pathBranchCache := map[];
      pidFenceCache := map[];
      ok := true;
    }

    method UnregisterCgroup(path: string) returns (erased: bool)
      modifies this
      ensures erased <==> cgroupId(path) != 0 && cgroupId(path) in old(cgroupBranchMap)
      ensures R() == if cgroupId(path) != 0 then Unregister(old(R()), cgroupId(path)) else old(R())
    {
      var id := cgroupId(path);
      if id == 0 {
        return false;
      }
      erased := id in cgroupBranchMap;
      cgroupBranchMap := cgroupBranchMap - {id};
      if erased {
        generation := generation + 1;
      }
      pathBranchCache := map[];
      pidFenceCache := map[];
    }

    method EvictCgroupId(id: CgroupId)
      modifies this
      ensures R() == Evict(old(R()), id)
    {
      cgroupBranchMap := cgroupBranchMap - {id};
      generation := generation + 1;
      pathBranchCache := map[];
      pidFenceCache := map[];
    }

    method InvalidateBranch(branch: nat)
      modifies this
      ensures R() == DropBranch(old(R()), branch)
    {
      var todo := cgroupBranchMap.Keys;
      ghost var start := cgroupBranchMap;
      while todo != {}
        invariant todo <= start.Keys
        invariant cgroupBranchMap == map id | id in start && (id in todo || start[id] != branch) :: start[id]
        invariant generation == old(generation)
        decreases todo
      {
        var id :| id in todo;
        if cgroupBranchMap[id] == branch {
          cgroupBranchMap := cgroupBranchMap - {id};
        }
        todo := todo - {id};
      }
      generation := generation + 1;
      pathBranchCache := map[];
      pidFenceCache := map[];
    }

    method FenceCacheStore(pid: int, branch: nat, gen: nat, path: string)
      modifies this`pidFenceCache
      ensures R() == StorePid(old(R()), pid, branch, gen, path)
    {
      if |pidFenceCache| >= FENCE_CACHE_CAP {
        pidFenceCache := map[];
      }
      pidFenceCache := pidFenceCache[pid := FenceEntry(branch, gen, path)];
    }

    // ---- the locked sections of resolve -----------------------------------------------------

    method FastLookup(pid: int, gen: nat) returns (hit: Option<nat>)
      ensures hit == if PidHit(R(), pid, gen) then Some(pidFenceCache[pid].branch) else None
    {
      if pid in pidFenceCache && pidFenceCache[pid].generation == gen {
        return Some(pidFenceCache[pid].branch);
      }
      hit := None;
    }

    method PathLookup(pid: int, rel: string, checkLeaf: bool, leaf: CgroupId, fence: Option<nat>)
      returns (hit: Option<nat>, missGeneration: nat)
      modifies this`pidFenceCache
      ensures hit.Some? <==> PathHit(old(R()), rel, checkLeaf, leaf)
      ensures hit.Some? ==> hit.value == pathBranchCache[rel].branch && R() == AfterHit(old(R()), pid, rel, fence)
      ensures hit.None? ==> R() == old(R()) && missGeneration == generation
    {
      missGeneration := generation;
      if rel in pathBranchCache && (!checkLeaf || pathBranchCache[rel].leaf == leaf) {
        if fence.Some? {
          FenceCacheStore(pid, pathBranchCache[rel].branch, fence.value, rel);
        }
        return Some(pathBranchCache[rel].branch), missGeneration;
      }
      hit := None;
    }

    method FinishMiss(pid: int, rel: string, leaf: CgroupId, ids: seq<CgroupId>, missGeneration: nat, fence: Option<nat>)
      returns (branch: nat)
      modifies this`pathBranchCache, this`pidFenceCache
      ensures branch == FirstBranch(cgroupBranchMap, ids)
      ensures R() == AfterWalk(old(R()), pid, rel, leaf, ids, missGeneration, fence)
    {
      branch := BranchForCgroupIds(ids);
      if generation == missGeneration {
        if |pathBranchCache| >= PATH_CACHE_CAP {
          pathBranchCache := map[];
        }
        pathBranchCache := pathBranchCache[rel := PathEntry(leaf, branch)];
        if fence.Some? {
          FenceCacheStore(pid, branch, fence.value, rel);
        }
      }
    }

    method BranchForCgroupIds(ids: seq<CgroupId>) returns (branch: nat)
      ensures branch == FirstBranch(cgroupBranchMap, ids)
    {
      for k := 0 to |ids|
        invariant FirstBranch(cgroupBranchMap, ids) == FirstBranch(cgroupBranchMap, ids[k..])
      {
        if ids[k] in cgroupBranchMap {
          return cgroupBranchMap[ids[k]];
        }
        assert ids[k..][1..] == ids[k + 1..];
      }
      branch := 0;
    }

    /** The walk outside the lock; the leaf's id was read before. */
    method CgroupPathIds(abs: string, leaf: CgroupId) returns (ids: seq<CgroupId>)
      requires leaf == cgroupId(abs)
      ensures ids == IdsOf(cgroupId, Chain(abs))
    {
      ids := [];
      var path, isLeaf := abs, true;
      while path != ""
        invariant isLeaf ==> path == abs
        invariant ids + IdsOf(cgroupId, Chain(path)) == IdsOf(cgroupId, Chain(abs))
        decreases |path|
      {
        var id := if isLeaf then leaf else cgroupId(path);
        isLeaf := false;
        ChainStep(cgroupId, path);
        Regroup(ids, if id != 0 then [id] else [], if Topmost(path) then [] else IdsOf(cgroupId, Chain(path[..LastSlash(path)])));
        if id != 0 {
          ids := ids + [id];
        }
        var slash := LastSlash(path);
        if path == Root() || slash <= |Root()| {
          return;
        }
        path := path[..slash];
      }
    }

    /** Every cached answer is the uncached one for the cgroup it was computed for. */
    ghost predicate Agrees()
      reads this
    {
      && (forall rel | rel in pathBranchCache :: pathBranchCache[rel].branch == Route(cgroupId, cgroupBranchMap, rel))
      && (forall pid | pid in pidFenceCache ::
            pidFenceCache[pid].branch == Route(cgroupId, cgroupBranchMap, pidFenceCache[pid].path))
    }

    /**
     * One resolve with no other call beside it; rel is what reading the process's cgroup
     * gives, empty when it has none.
     */
    method Resolve(pid: int, fence: FenceHooks, rel: string, checkLeaf: bool) returns (branch: nat)
      requires Agrees()
      modifies this`pathBranchCache, this`pidFenceCache
      ensures Agrees()
      ensures fence.Attached? && PidHit(old(R()), pid, fence.before) ==>
        R() == old(R()) && branch == Route(cgroupId, cgroupBranchMap, pidFenceCache[pid].path)
      ensures !(fence.Attached? && PidHit(old(R()), pid, fence.before)) ==>
        branch == if rel == "" then 0 else Route(cgroupId, cgroupBranchMap, rel)
    {
      if fence.Attached? {
        var fast := FastLookup(pid, fence.before);
        if fast.Some? {
          return fast.value;
        }
      }
      var sampled := if fence.Attached? && fence.tracked then Some(fence.after) else None;
      if rel == "" {
        return 0;
      }
      var leaf := if checkLeaf then cgroupId(Abs(rel)) else 0;
      var hit, missGeneration := PathLookup(pid, rel, checkLeaf, leaf, sampled);
      if hit.Some? {
        return hit.value;
      }
      if !checkLeaf {
        leaf := cgroupId(Abs(rel));
      }
      var ids := CgroupPathIds(Abs(rel), leaf);
      branch := FinishMiss(pid, rel, leaf, ids, missGeneration, sampled);
    }
  }
}
