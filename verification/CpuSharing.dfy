/** What the topology plan guarantees inside one process and between processes. */
module CpuSharing {
  import opened Wrappers
  import opened CpuSlices
  import opened CpuTopology

  function AllCandidates(d: DeviceInfo): seq<int> {
    Candidates(d, |d.allLogic|)
  }

  /** The pools of all candidates, before they are divided. */
  function Plan(d: DeviceInfo, cpuNode: map<int, int>, numa: NumaMap): Progress
    requires numa != map[]
  {
    Pools(d, cpuNode, numa, AllCandidates(d), |AllCandidates(d)|)
  }

  // ---------- pools ----------

  predicate AllowedPool(d: DeviceInfo, pool: seq<int>) {
    forall cpu :: cpu in pool ==> cpu in d.allowed
  }

  lemma ExtendIsAllowed(d: DeviceInfo, cpuNode: map<int, int>, numa: NumaMap, cpus: seq<int>)
    requires numa != map[] && AllowedPool(d, cpus)
    ensures var e := Extend(cpuNode, numa, cpus, d.allowed);
            e.cpus.Ok? ==> AllowedPool(d, e.cpus.value) && (NoRepeats(cpus) ==> NoRepeats(e.cpus.value))
                           && forall cpu :: cpu in cpus ==> cpu in e.cpus.value
  {
  }

  /** Every pool holds allowed CPUs only, among them all allowed CPUs near the NPU, and each once
      when the affinity list names it once. */
  lemma {:induction false} PoolsAreAllowed(d: DeviceInfo, cpuNode: map<int, int>, numa: NumaMap, npus: seq<int>, n: nat, npu: int)
    requires numa != map[] && n <= |npus|
    requires npu in Pools(d, cpuNode, numa, npus, n).pools
    ensures var pool := Pools(d, cpuNode, numa, npus, n).pools[npu];
            && AllowedPool(d, pool) && (forall cpu :: cpu in Base(d, npu) ==> cpu in pool)
            && (NoRepeats(Affinity(d, npu)) ==> NoRepeats(pool))
  {
    if n > 0 {
      var before := Pools(d, cpuNode, numa, npus, n - 1);
      if NoRepeats(Affinity(d, npu)) { FilterNoRepeats(Affinity(d, npu), d.allowed, |Affinity(d, npu)|); }
      ExtendIsAllowed(d, cpuNode, before.numa, Base(d, npus[n - 1]));
      if npu in before.pools {
        PoolsAreAllowed(d, cpuNode, numa, npus, n - 1, npu);
      }
    }
  }

  // ---------- pools from affinity lists and NUMA nodes ----------

  /** The CPUs listed for a node; none for a node that nothing lists. */
  function Near(numa: NumaMap, node: int): seq<int> {
    if node in numa then numa[node] else []
  }

  /** All CPUs have a node, and it is the same. */
  predicate Together(cpuNode: map<int, int>, cpus: seq<int>) {
    && cpus != [] && (forall i :: 0 <= i < |cpus| ==> cpus[i] in cpuNode)
    && OnOneNode(cpuNode, cpus)
  }

  function NextNode(cpuNode: map<int, int>, numa: NumaMap, cpus: seq<int>): int
    requires Together(cpuNode, cpus) && numa != map[]
  {
    (cpuNode[cpus[0]] + 1) % |numa|
  }

  /** CPUs of one node with the allowed ones of the next; CPUs of several nodes as they are. */
  function Joined(cpuNode: map<int, int>, numa: NumaMap, cpus: seq<int>, allowed: seq<int>): seq<int>
    requires numa != map[]
  {
    if !Together(cpuNode, cpus) then cpus
    else
      var near := Near(numa, NextNode(cpuNode, numa, cpus));
      SortDedup(cpus + Filter(near, allowed, |near|))
  }

  lemma JoinedHas(cpuNode: map<int, int>, numa: NumaMap, cpus: seq<int>, allowed: seq<int>, cpu: int)
    requires numa != map[]
    ensures cpu in Joined(cpuNode, numa, cpus, allowed) <==>
            || cpu in cpus
            || (Together(cpuNode, cpus) && cpu in allowed && cpu in Near(numa, NextNode(cpuNode, numa, cpus)))
  {
    if Together(cpuNode, cpus) {
      var near := Near(numa, NextNode(cpuNode, numa, cpus));
      assert near[..|near|] == near;
    }
  }

  /** The node table once the next node of some CPUs has been looked up. */
  function LookedUp(cpuNode: map<int, int>, numa: NumaMap, cpus: seq<int>): (r: NumaMap)
    requires numa != map[]
    ensures r != map[]
  {
    if Together(cpuNode, cpus) then Touch(numa, NextNode(cpuNode, numa, cpus)) else numa
  }

  /** The node table once the pools of the first n candidates are built. */
  function NumaAfter(d: DeviceInfo, cpuNode: map<int, int>, numa: NumaMap, npus: seq<int>, n: nat): (r: NumaMap)
    requires numa != map[] && n <= |npus|
    ensures r != map[]
  {
    if n == 0 then numa
    else LookedUp(cpuNode, NumaAfter(d, cpuNode, numa, npus, n - 1), Base(d, npus[n - 1]))
  }

  /** The pool of the i-th candidate, from the affinity lists and the NUMA nodes alone. */
  function NodePool(d: DeviceInfo, cpuNode: map<int, int>, numa: NumaMap, npus: seq<int>, i: nat): seq<int>
    requires numa != map[] && i < |npus|
  {
    Joined(cpuNode, NumaAfter(d, cpuNode, numa, npus, i), Base(d, npus[i]), d.allowed)
  }

  lemma ExtendIsJoined(cpuNode: map<int, int>, numa: NumaMap, cpus: seq<int>, allowed: seq<int>)
    requires numa != map[] && Extend(cpuNode, numa, cpus, allowed).cpus.Ok?
    ensures Extend(cpuNode, numa, cpus, allowed) ==
            Extended(LookedUp(cpuNode, numa, cpus), Ok(Joined(cpuNode, numa, cpus, allowed)))
  {
  }

  lemma StepIsJoined(d: DeviceInfo, cpuNode: map<int, int>, p: Progress, npu: int)
    requires p.numa != map[] && PoolStep(d, cpuNode, p, npu).error.None?
    ensures PoolStep(d, cpuNode, p, npu) ==
            Progress(LookedUp(cpuNode, p.numa, Base(d, npu)),
                     p.pools[npu := Joined(cpuNode, p.numa, Base(d, npu), d.allowed)], None)
  {
    ExtendIsJoined(cpuNode, p.numa, Base(d, npu), d.allowed);
  }

  lemma {:induction false} NodesGrow(d: DeviceInfo, cpuNode: map<int, int>, numa: NumaMap, npus: seq<int>, n: nat)
    requires numa != map[] && n <= |npus| && Pools(d, cpuNode, numa, npus, n).error.None?
    ensures Pools(d, cpuNode, numa, npus, n).numa == NumaAfter(d, cpuNode, numa, npus, n)
  {
    if n > 0 {
      NodesGrow(d, cpuNode, numa, npus, n - 1);
      StepIsJoined(d, cpuNode, Pools(d, cpuNode, numa, npus, n - 1), npus[n - 1]);
    }
  }

  lemma LastPool(d: DeviceInfo, cpuNode: map<int, int>, numa: NumaMap, npus: seq<int>, n: nat)
    requires numa != map[] && n < |npus| && Pools(d, cpuNode, numa, npus, n + 1).error.None?
    ensures Pools(d, cpuNode, numa, npus, n + 1).pools ==
            Pools(d, cpuNode, numa, npus, n).pools[npus[n] := NodePool(d, cpuNode, numa, npus, n)]
  {
    NodesGrow(d, cpuNode, numa, npus, n);
    StepIsJoined(d, cpuNode, Pools(d, cpuNode, numa, npus, n), npus[n]);
  }

  lemma EarlierPool(d: DeviceInfo, cpuNode: map<int, int>, numa: NumaMap, npus: seq<int>, n: nat, npu: int)
    requires numa != map[] && n < |npus| && Pools(d, cpuNode, numa, npus, n + 1).error.None? && npu != npus[n]
    ensures var before, after := Pools(d, cpuNode, numa, npus, n), Pools(d, cpuNode, numa, npus, n + 1);
            before.error.None? && (npu in before.pools ==> npu in after.pools && after.pools[npu] == before.pools[npu])
  {
    LastPool(d, cpuNode, numa, npus, n);
  }

  /** Every pool follows from the affinity lists and the NUMA nodes. */
  lemma {:induction false} PoolsAreNodePools(d: DeviceInfo, cpuNode: map<int, int>, numa: NumaMap, npus: seq<int>, n: nat, i: nat)
    requires numa != map[] && i < n <= |npus| && NoRepeats(npus) && Pools(d, cpuNode, numa, npus, n).error.None?
    ensures npus[i] in Pools(d, cpuNode, numa, npus, n).pools
    ensures Pools(d, cpuNode, numa, npus, n).pools[npus[i]] == NodePool(d, cpuNode, numa, npus, i)
  {
    if i == n - 1 {
      LastPool(d, cpuNode, numa, npus, i);
    } else {
      EarlierPool(d, cpuNode, numa, npus, n - 1, npus[i]);
      PoolsAreNodePools(d, cpuNode, numa, npus, n - 1, i);
    }
  }

  /** A look-up lists no CPU: it can only make the table longer, by nodes without CPUs. */
  lemma {:induction false} SameLists(d: DeviceInfo, cpuNode: map<int, int>, numa: NumaMap, npus: seq<int>, n: nat, node: int)
    requires numa != map[] && n <= |npus|
    ensures Near(NumaAfter(d, cpuNode, numa, npus, n), node) == Near(numa, node)
  {
    if n > 0 { SameLists(d, cpuNode, numa, npus, n - 1, node); }
  }

  /** The NUMA nodes are numbered without gaps. */
  predicate Contiguous(numa: NumaMap) {
    numa != map[] && forall node :: 0 <= node < |numa| ==> node in numa
  }

  /** Without gaps no look-up adds a node, so that the pools do not depend on each other. */
  lemma {:induction false} NoNodesAdded(d: DeviceInfo, cpuNode: map<int, int>, numa: NumaMap, npus: seq<int>, n: nat)
    requires Contiguous(numa) && n <= |npus|
    ensures NumaAfter(d, cpuNode, numa, npus, n) == numa
    ensures n < |npus| ==> NodePool(d, cpuNode, numa, npus, n) == Joined(cpuNode, numa, Base(d, npus[n]), d.allowed)
  {
    if n > 0 { NoNodesAdded(d, cpuNode, numa, npus, n - 1); }
  }

  // ---------- agreement between processes ----------

  /** Processes on one machine with one cpuset: only their visible NPUs differ. */
  ghost predicate SameTables(a: DeviceInfo, b: DeviceInfo) {
    && (forall cpu :: cpu in a.allowed <==> cpu in b.allowed)
    && a.affinity == b.affinity
    && a.allLogic == b.allLogic
  }

  lemma SameBase(a: DeviceInfo, b: DeviceInfo, npu: int)
    requires SameTables(a, b)
    ensures Base(a, npu) == Base(b, npu)
  {
    FilterSame(Affinity(a, npu), a.allowed, b.allowed, |Affinity(a, npu)|);
  }

  lemma SameExtend(cpuNode: map<int, int>, numa: NumaMap, cpus: seq<int>, allowed: seq<int>, other: seq<int>)
    requires numa != map[] && forall cpu :: cpu in allowed <==> cpu in other
    ensures Extend(cpuNode, numa, cpus, allowed) == Extend(cpuNode, numa, cpus, other)
  {
    if cpus != [] && FirstMissing(cpuNode, cpus, |cpus|).None? && OnOneNode(cpuNode, cpus) {
      var next := (cpuNode[cpus[0]] + 1) % |numa|;
      var near := Touch(numa, next)[next];
      FilterSame(near, allowed, other, |near|);
    }
  }

  lemma {:induction false} SamePools(a: DeviceInfo, b: DeviceInfo, cpuNode: map<int, int>, numa: NumaMap, npus: seq<int>, n: nat)
    requires SameTables(a, b) && numa != map[] && n <= |npus|
    ensures Pools(a, cpuNode, numa, npus, n) == Pools(b, cpuNode, numa, npus, n)
  {
    if n > 0 {
      SamePools(a, b, cpuNode, numa, npus, n - 1);
      SameBase(a, b, npus[n - 1]);
      SameExtend(cpuNode, Pools(a, cpuNode, numa, npus, n - 1).numa, Base(a, npus[n - 1]), a.allowed, b.allowed);
    }
  }

  lemma {:induction false} NoErrorMeansBase(d: DeviceInfo, cpuNode: map<int, int>, numa: NumaMap, npus: seq<int>, n: nat, i: nat)
    requires numa != map[] && i < n <= |npus| && Pools(d, cpuNode, numa, npus, n).error.None?
    ensures Base(d, npus[i]) != []
  {
    if i < n - 1 { NoErrorMeansBase(d, cpuNode, numa, npus, n - 1, i); }
  }

  predicate SameChoice(a: DeviceInfo, b: DeviceInfo, npu: int) {
    Candidate(a, npu) <==> Candidate(b, npu)
  }

  lemma {:induction false} SameCandidates(a: DeviceInfo, b: DeviceInfo, n: nat)
    requires a.allLogic == b.allLogic && n <= |a.allLogic|
    requires forall i :: 0 <= i < n ==> SameChoice(a, b, a.allLogic[i])
    ensures Candidates(a, n) == Candidates(b, n)
  {
    if n > 0 {
      SameCandidates(a, b, n - 1);
      assert SameChoice(a, b, a.allLogic[n - 1]);
    }
  }

  lemma CandidateMeansBase(d: DeviceInfo, cpuNode: map<int, int>, numa: NumaMap, npu: int)
    requires numa != map[] && Plan(d, cpuNode, numa).error.None? && npu in d.allLogic
    ensures Candidate(d, npu) <==> Base(d, npu) != []
  {
    var c := AllCandidates(d);
    assert d.allLogic[..|d.allLogic|] == d.allLogic;
    assert npu in c <==> Candidate(d, npu);
    if npu in c {
      var i :| 0 <= i < |c| && c[i] == npu;
      NoErrorMeansBase(d, cpuNode, numa, c, |c|, i);
    }
  }

  /** Processes that do not raise work out the same candidates and the same pools, so they give
      every NPU the same share, whichever NPUs each of them can see. */
  lemma ProcessesAgree(a: DeviceInfo, b: DeviceInfo, cpuNode: map<int, int>, numa: NumaMap)
    requires SameTables(a, b) && numa != map[]
    requires Plan(a, cpuNode, numa).error.None? && Plan(b, cpuNode, numa).error.None?
    ensures AllCandidates(a) == AllCandidates(b)
    ensures Plan(a, cpuNode, numa) == Plan(b, cpuNode, numa)
  {
    forall i | 0 <= i < |a.allLogic|
      ensures SameChoice(a, b, a.allLogic[i])
    {
      SameBase(a, b, a.allLogic[i]);
      CandidateMeansBase(a, cpuNode, numa, a.allLogic[i]);
      CandidateMeansBase(b, cpuNode, numa, a.allLogic[i]);
    }
    SameCandidates(a, b, |a.allLogic|);
    SamePools(a, b, cpuNode, numa, AllCandidates(a), |AllCandidates(a)|);
  }

  // ---------- disjoint shares ----------

  /** No CPU is in the shares of two NPUs. */
  ghost predicate SharesAreDisjoint(pools: map<int, seq<int>>, npus: seq<int>)
    requires forall npu :: npu in npus ==> npu in pools
  {
    forall x, y, cpu :: x in npus && y in npus && cpu in ShareOf(pools, npus, x) && cpu in ShareOf(pools, npus, y) ==>
      x == y
  }

  /** Pools that differ have no CPU in common. */
  ghost predicate PoolsAreApart(pools: map<int, seq<int>>, npus: seq<int>)
    requires forall npu :: npu in npus ==> npu in pools
  {
    forall x, y, cpu :: x in npus && y in npus && cpu in pools[x] && cpu in pools[y] ==> pools[x] == pools[y]
  }

  /** No cut of a shared pool falls between two occurrences of one CPU. */
  ghost predicate GroupsAreClean(pools: map<int, seq<int>>, npus: seq<int>)
    requires forall npu :: npu in npus ==> npu in pools
  {
    forall npu :: npu in npus ==> CleanGroup(pools, npus, npu)
  }

  lemma DisjointMeansApart(pools: map<int, seq<int>>, npus: seq<int>, x: int, y: int, cpu: int)
    requires NoRepeats(npus) && (forall npu :: npu in npus ==> npu in pools) && SharesAreDisjoint(pools, npus)
    requires x in npus && y in npus && cpu in pools[x] && cpu in pools[y]
    ensures pools[x] == pools[y]
  {
    var p := SomeMemberHolds(pools, npus, x, cpu);
    var q := SomeMemberHolds(pools, npus, y, cpu);
  }

  lemma DisjointMeansClean(pools: map<int, seq<int>>, npus: seq<int>, npu: int)
    requires NoRepeats(npus) && (forall x :: x in npus ==> x in pools) && SharesAreDisjoint(pools, npus)
    requires npu in npus
    ensures CleanGroup(pools, npus, npu)
  {
    GroupDividesItsPool(pools, npus, npu);
  }

  lemma ApartMeansDisjoint(pools: map<int, seq<int>>, npus: seq<int>, x: int, y: int, cpu: int)
    requires NoRepeats(npus) && (forall npu :: npu in npus ==> npu in pools)
    requires PoolsAreApart(pools, npus) && GroupsAreClean(pools, npus)
    requires x in npus && y in npus && cpu in ShareOf(pools, npus, x) && cpu in ShareOf(pools, npus, y)
    ensures x == y
  {
    GroupDividesItsPool(pools, npus, x);
    assert InGroup(pools, npus, x, x) && InGroup(pools, npus, x, y);
  }

  /** The division keeps NPUs apart exactly when different pools already are apart, which after the
      extension by a neighbouring NUMA node they need not be, and no cut falls between two
      occurrences of one CPU. */
  lemma DisjointIffPoolsApart(pools: map<int, seq<int>>, npus: seq<int>)
    requires NoRepeats(npus) && forall npu :: npu in npus ==> npu in pools
    ensures SharesAreDisjoint(pools, npus) <==> PoolsAreApart(pools, npus) && GroupsAreClean(pools, npus)
    ensures (forall npu :: npu in npus ==> NoRepeats(pools[npu])) ==> GroupsAreClean(pools, npus)
  {
    if SharesAreDisjoint(pools, npus) {
      forall x, y, cpu | x in npus && y in npus && cpu in pools[x] && cpu in pools[y] ensures pools[x] == pools[y] {
        DisjointMeansApart(pools, npus, x, y, cpu);
      }
      forall npu | npu in npus ensures CleanGroup(pools, npus, npu) {
        DisjointMeansClean(pools, npus, npu);
      }
    }
    if PoolsAreApart(pools, npus) && GroupsAreClean(pools, npus) {
      forall x, y, cpu | x in npus && y in npus && cpu in ShareOf(pools, npus, x) && cpu in ShareOf(pools, npus, y)
        ensures x == y
      {
        ApartMeansDisjoint(pools, npus, x, y, cpu);
      }
    }
    forall npu | npu in npus && NoRepeats(pools[npu]) ensures CleanGroup(pools, npus, npu) {
      GroupDividesItsPool(pools, npus, npu);
    }
  }
}
