/** The CPU allocator object: pools by global slicing or by topology, then roles. */
module CpuBinding {
  import opened Arithmetic
  import opened Wrappers
  import opened CpuSlices
  import opened CpuTopology
  import opened CpuSharing
  import opened CpuFill

  class CpuAlloc {
    const info: DeviceInfo
    const cpuNode: map<int, int>
    var numaToCpu: NumaMap
    var npuCpuPool: map<int, seq<int>>
    var npuOrder: seq<int>
    var assignMain: map<int, seq<int>>
    var assignAcl: map<int, seq<int>>
    var assignRel: map<int, seq<int>>

    /** The insertion order lists the keys of the pool dictionary. */
    ghost predicate Valid()
      reads this
    {
      NoRepeats(npuOrder) && forall npu :: npu in npuOrder <==> npu in npuCpuPool
    }

    constructor (info: DeviceInfo, cpuNode: map<int, int>, numa: NumaMap)
      ensures this.info == info && this.cpuNode == cpuNode && numaToCpu == numa
      ensures Valid() && npuCpuPool == map[] && npuOrder == []
      ensures assignMain == map[] && assignAcl == map[] && assignRel == map[]
    {
      this.info := info;
      this.cpuNode := cpuNode;
      numaToCpu := numa;
      npuCpuPool := map[];
      npuOrder := [];
      assignMain := map[];
      assignAcl := map[];
      assignRel := map[];
    }

    method SetPool(npu: int, pool: seq<int>)
      modifies this`npuCpuPool, this`npuOrder
      ensures Filled(npuCpuPool, npuOrder, None) == old(Put(Filled(npuCpuPool, npuOrder, None), npu, pool))
    {
      if npu !in npuCpuPool {
        npuOrder := npuOrder + [npu];
      }
      npuCpuPool := npuCpuPool[npu := pool];
    }

    method BuildGlobalSlice(reserveIrq: bool) returns (error: Option<Error>)
      modifies this`npuCpuPool, this`npuOrder
      ensures Filled(npuCpuPool, npuOrder, error) ==
              old(GlobalBuild(Filled(npuCpuPool, npuOrder, None), info, reserveIrq))
    {
      ghost var start := Filled(npuCpuPool, npuOrder, None);
      error := None;
      var running := info.running;
      if running == [] {
        return;
      }
      var allowed := SortDedup(info.allowed);
      if allowed == [] {
        return;
      }
      var n := TotalNpus(info);
      if |allowed| / n < MinCpus(reserveIrq) {
        return Some(TooFewCpus);
      }
      for i := 0 to |running|
        invariant Filled(npuCpuPool, npuOrder, None) == Sliced(start, allowed, n, running, i)
      {
        var npu := running[i];
        if npu < 0 || npu >= n {
          SlicedStops(start, allowed, n, running, i + 1, |running|);
          return Some(InvalidNpu(npu));
        }
        var pool := GlobalPool(allowed, n, npu);
        SetPool(npu, pool);
      }
    }

    method ExtendNuma(cpus: seq<int>) returns (r: Result<seq<int>, Error>)
      requires numaToCpu != map[]
      modifies this`numaToCpu
      ensures Extended(numaToCpu, r) == old(Extend(cpuNode, numaToCpu, cpus, info.allowed))
    {
      if cpus == [] {
        return Ok([]);
      }
      var nodes: set<int> := {};
      for i := 0 to |cpus|
        invariant FirstMissing(cpuNode, cpus, i).None?
        invariant nodes == NodesOf(cpuNode, cpus, i)
      {
        if cpus[i] !in cpuNode {
          MissingStays(cpuNode, cpus, i + 1, |cpus|);
          return Err(MissingKey(cpus[i]));
        }
        nodes := nodes + {cpuNode[cpus[i]]};
      }
      var node := cpuNode[cpus[0]];
      OneNode(cpuNode, cpus, |cpus|);
      if nodes != {node} {
        return Ok(cpus);
      }
      var next := (node + 1) % |numaToCpu|;
      numaToCpu := Touch(numaToCpu, next);
      var extended := WithNearby(cpus, numaToCpu[next]);
      r := Ok(SortDedup(extended));
    }

    method WithNearby(cpus: seq<int>, near: seq<int>) returns (extended: seq<int>)
      ensures extended == cpus + Filter(near, info.allowed, |near|)
    {
      extended := cpus;
      for i := 0 to |near|
        invariant extended == cpus + Filter(near, info.allowed, i)
      {
        if near[i] in info.allowed {
          extended := extended + [near[i]];
        }
      }
    }

    method AssignRoles(npu: int, pool: seq<int>, reserveIrq: bool)
      requires |pool| >= MinCpus(reserveIrq)
      modifies this`assignMain, this`assignAcl, this`assignRel
      ensures Assigned(assignMain, assignAcl, assignRel, None) ==
              old(AssignStep(Assigned(assignMain, assignAcl, assignRel, None), pool, npu, reserveIrq))
    {
      RolesAre(pool, reserveIrq);
      var n := |pool|;
      assignMain := assignMain[npu := if reserveIrq then pool[2..n - 2] else pool[..n - 2]];
      assignAcl := assignAcl[npu := [pool[n - 2]]];
      assignRel := assignRel[npu := [pool[n - 1]]];
    }

    method Allocate(reserveIrq: bool) returns (error: Option<Error>)
      requires Valid()
      modifies this`assignMain, this`assignAcl, this`assignRel
      ensures Assigned(assignMain, assignAcl, assignRel, error) ==
              old(Assign(Assigned(assignMain, assignAcl, assignRel, None), npuCpuPool, npuOrder, reserveIrq, |npuOrder|))
    {
      ghost var start := Assigned(assignMain, assignAcl, assignRel, None);
      for i := 0 to |npuOrder|
        invariant Assigned(assignMain, assignAcl, assignRel, None) ==
                  Assign(start, npuCpuPool, npuOrder, reserveIrq, i)
      {
        var npu := npuOrder[i];
        var pool := npuCpuPool[npu];
        if |pool| < MinCpus(reserveIrq) {
          AssignStops(start, npuCpuPool, npuOrder, reserveIrq, i + 1, |npuOrder|);
          return Some(TooFewCpus);
        }
        AssignRoles(npu, pool, reserveIrq);
      }
      error := None;
    }

    method FindCandidates() returns (npus: seq<int>)
      ensures npus == AllCandidates(info)
    {
      npus := [];
      for i := 0 to |info.allLogic|
        invariant npus == Candidates(info, i)
      {
        var npu := info.allLogic[i];
        BaseIsAny(info, npu);
        if npu in info.running || exists cpu :: cpu in Affinity(info, npu) && cpu in info.allowed {
          npus := npus + [npu];
        }
      }
    }

    /** Fill the pool of one candidate. */
    method AddPool(npu: int) returns (error: Option<Error>)
      requires numaToCpu != map[]
      modifies this`numaToCpu, this`npuCpuPool, this`npuOrder
      ensures numaToCpu != map[]
      ensures Progress(numaToCpu, npuCpuPool, error) ==
              old(PoolStep(info, cpuNode, Progress(numaToCpu, npuCpuPool, None), npu))
      ensures error.None? && npu !in old(npuCpuPool) ==> npuOrder == old(npuOrder) + [npu]
    {
      var base := WithNearby([], Affinity(info, npu));
      assert base == Base(info, npu);
      if base == [] {
        return Some(AffinityConflict);
      }
      var extended := ExtendNuma(base);
      if extended.Err? {
        return Some(extended.error);
      }
      SetPool(npu, extended.value);
      error := None;
    }

    /** The next step of filling the pools. */
    method NextPool(npus: seq<int>, i: nat, ghost numa: NumaMap) returns (error: Option<Error>)
      requires i < |npus| && NoRepeats(npus) && numa != map[] && numaToCpu != map[] && npuOrder == npus[..i]
      requires Progress(numaToCpu, npuCpuPool, None) == Pools(info, cpuNode, numa, npus, i)
      modifies this`numaToCpu, this`npuCpuPool, this`npuOrder
      ensures numaToCpu != map[] && (error.None? ==> npuOrder == npus[..i + 1])
      ensures Progress(numaToCpu, npuCpuPool, error) == Pools(info, cpuNode, numa, npus, i + 1)
    {
      NextIsNew(npus, i);
      PoolsKeys(info, cpuNode, numa, npus, i);
      error := AddPool(npus[i]);
    }

    /** Fill the pools of the candidates; an error skips the rest. */
    method BuildPools(npus: seq<int>) returns (error: Option<Error>)
      requires npuCpuPool == map[] && npuOrder == [] && numaToCpu != map[] && NoRepeats(npus)
      modifies this`numaToCpu, this`npuCpuPool, this`npuOrder
      ensures Progress(numaToCpu, npuCpuPool, error) == Pools(info, cpuNode, old(numaToCpu), npus, |npus|)
      ensures error.None? ==> npuOrder == npus
    {
      ghost var numa := numaToCpu;
      error := None;
      for i := 0 to |npus|
        invariant numaToCpu != map[]
        invariant error.None? ==> npuOrder == npus[..i]
        invariant Progress(numaToCpu, npuCpuPool, error) == Pools(info, cpuNode, numa, npus, i)
      {
        if error.None? {
          error := NextPool(npus, i, numa);
        }
      }
    }

    /** The NPUs that have each pool, with the pools in the order they first occur. */
    method GroupByPool() returns (groups: map<seq<int>, seq<int>>, keys: seq<seq<int>>)
      requires Valid()
      ensures groups == Groups(npuCpuPool, npuOrder, |npuOrder|)
      ensures forall p :: p in keys <==> p in groups
    {
      groups, keys := map[], [];
      for i := 0 to |npuOrder|
        invariant groups == Groups(npuCpuPool, npuOrder, i)
        invariant forall p :: p in keys <==> p in groups
      {
        var pool := npuCpuPool[npuOrder[i]];
        if pool !in groups {
          keys := keys + [pool];
          groups := groups[pool := []];
        }
        groups := groups[pool := groups[pool] + [npuOrder[i]]];
      }
    }

    /** Cut a shared pool into one slice for each NPU that has it. */
    static method AverageDistribute(pool: seq<int>, npus: seq<int>) returns (result: map<int, seq<int>>)
      requires |npus| > 1 && NoRepeats(npus)
      ensures forall npu :: npu in result <==> npu in npus
      ensures forall i :: 0 <= i < |npus| ==> npus[i] in result && result[npus[i]] == Share(pool, npus, i)
    {
      result := map[];
      var cpus := Sort(pool);
      var per := |cpus| / |npus|;
      QuotientIs(|cpus|, |npus|);
      assert per == PerMember(|cpus|, |npus|);
      for i := 0 to |npus|
        invariant forall npu :: npu in result <==> npu in npus[..i]
        invariant forall j :: 0 <= j < i ==> npus[j] in result && result[npus[j]] == Share(pool, npus, j)
      {
        assert npus[..i + 1] == npus[..i] + [npus[i]];
        CutsFit(|cpus|, |npus|, per, i);
        MarkIs(per, i);
        MarkIs(per, i + 1);
        var end := if i < |npus| - 1 then (i + 1) * per else |cpus|;
        result := result[npus[i] := cpus[i * per..end]];
      }
      assert npus[..|npus|] == npus;
    }

    /** The shares of the NPUs that have one pool. */
    method ShareGroup(pool: seq<int>, members: seq<int>) returns (shares: map<int, seq<int>>)
      requires Valid() && members == Members(npuCpuPool, npuOrder, pool, |npuOrder|) != []
      ensures shares == GroupShares(npuCpuPool, npuOrder, pool)
    {
      MembersNoRepeats(npuCpuPool, npuOrder, pool, |npuOrder|);
      if |members| == 1 {
        shares := map[members[0] := pool];
      } else {
        shares := AverageDistribute(pool, members);
      }
      SharesAreOfGroup(npuCpuPool, npuOrder, pool, shares);
    }

    /** Add the shares of the next group. */
    method NextGroup(groups: map<seq<int>, seq<int>>, keys: seq<seq<int>>, g: nat, final: map<int, seq<int>>)
      returns (more: map<int, seq<int>>)
      requires Valid() && groups == Groups(npuCpuPool, npuOrder, |npuOrder|)
      requires g < |keys| && keys[g] in groups
      requires final == SharesOfGroups(npuCpuPool, npuOrder, keys, g)
      ensures more == SharesOfGroups(npuCpuPool, npuOrder, keys, g + 1)
    {
      GroupsAreMembers(npuCpuPool, npuOrder, |npuOrder|, keys[g]);
      var shares := ShareGroup(keys[g], groups[keys[g]]);
      more := final + shares;
    }

    method Distribute(groups: map<seq<int>, seq<int>>, keys: seq<seq<int>>) returns (final: map<int, seq<int>>)
      requires Valid() && groups == Groups(npuCpuPool, npuOrder, |npuOrder|)
      requires forall p :: p in keys <==> p in groups
      ensures final == FinalShares(npuCpuPool, npuOrder)
    {
      AllGroupsShare(npuCpuPool, npuOrder, keys);
      final := map[];
      for g := 0 to |keys|
        invariant final == SharesOfGroups(npuCpuPool, npuOrder, keys, g)
      {
        assert keys[g] in keys;
        final := NextGroup(groups, keys, g, final);
      }
    }

    /** Keep the entries of the visible NPUs; a visible NPU without one leaves the pools alone. */
    method KeepVisible(final: map<int, seq<int>>) returns (error: Option<Error>)
      modifies this`npuCpuPool, this`npuOrder
      ensures var kept := Keep(final, info.running, |info.running|);
              && error == kept.error
              && (error.None? ==> npuCpuPool == kept.pools && npuOrder == kept.order)
              && (error.Some? ==> npuCpuPool == old(npuCpuPool) && npuOrder == old(npuOrder))
    {
      var kept := Filled(map[], [], None);
      for i := 0 to |info.running|
        invariant kept == Keep(final, info.running, i)
      {
        var npu := info.running[i];
        if kept.error.None? {
          if npu in final {
            kept := Put(kept, npu, final[npu]);
          } else {
            kept := kept.(error := Some(MissingKey(npu)));
          }
        }
      }
      error := kept.error;
      if error.None? {
        npuCpuPool, npuOrder := kept.pools, kept.order;
      }
    }

    method BuildTopology() returns (error: Option<Error>)
      requires npuCpuPool == map[] && npuOrder == [] && numaToCpu != map[] && NoRepeats(info.allLogic)
      modifies this`numaToCpu, this`npuCpuPool, this`npuOrder
      ensures var built := TopoBuild(info, cpuNode, old(numaToCpu));
              && npuCpuPool == built.pools && error == built.error
              && (error.None? ==> npuOrder == built.order)
    {
      ghost var numa := numaToCpu;
      var npus := FindCandidates();
      CandidatesNoRepeats(info, |info.allLogic|);
      error := BuildPools(npus);
      if error.Some? {
        return;
      }
      PoolsKeys(info, cpuNode, numa, npus, |npus|);
      assert npus[..|npus|] == npus;
      var groups, keys := GroupByPool();
      var final := Distribute(groups, keys);
      error := KeepVisible(final);
    }

    method BuildCpuPools(mode: BindingMode, reserveIrq: bool) returns (error: Option<Error>)
      requires npuCpuPool == map[] && npuOrder == [] && NoRepeats(info.allLogic)
      modifies this`numaToCpu, this`npuCpuPool, this`npuOrder
      ensures var built := Build(mode, info, cpuNode, old(numaToCpu), reserveIrq);
              && npuCpuPool == built.pools && error == built.error
              && (error.None? ==> npuOrder == built.order && Valid())
    {
      ghost var numa := numaToCpu;
      if numaToCpu == map[] {
        error := Some(NoNumaNode);
      } else if mode.GlobalSlice? || info.affinity == map[] {
        error := BuildGlobalSlice(reserveIrq);
      } else {
        error := BuildTopology();
      }
      BuildIsOrdered(mode, info, cpuNode, numa, reserveIrq);
    }
  }
}
