/** Machines on which the topology plan gives one CPU to two NPUs. */
module CpuLimits {
  import opened Arithmetic
  import opened Wrappers
  import opened CpuSlices
  import opened CpuTopology
  import opened CpuSharing
  import opened CpuFill

  /** n consecutive CPUs. */
  function Upto(lo: int, n: nat): (s: seq<int>)
    ensures |s| == n && forall i :: 0 <= i < n ==> s[i] == lo + i
  {
    if n == 0 then [] else Upto(lo, n - 1) + [lo + n - 1]
  }

  lemma UptoHas(lo: int, n: nat)
    ensures Increasing(Upto(lo, n)) && forall x :: x in Upto(lo, n) <==> lo <= x < lo + n
  {
    forall x | lo <= x < lo + n ensures x in Upto(lo, n) {
      assert Upto(lo, n)[x - lo] == x;
    }
  }

  lemma InUpto(lo: int, n: nat, x: int)
    ensures x in Upto(lo, n) <==> lo <= x < lo + n
  {
    UptoHas(lo, n);
  }

  /** The two node tables agree about a CPU and a node. */
  predicate Agree(cpuNode: map<int, int>, numa: NumaMap, node: int, cpu: int) {
    cpu in Near(numa, node) <==> cpu in cpuNode && cpuNode[cpu] == node
  }

  /** Both node tables come from one list of CPUs and their nodes. */
  ghost predicate OneListing(cpuNode: map<int, int>, numa: NumaMap) {
    && (forall node, cpu :: Agree(cpuNode, numa, node, cpu))
    && forall node :: node in numa ==> numa[node] != []
  }

  lemma {:induction false} FilterAll(s: seq<int>, keep: seq<int>, n: nat)
    requires n <= |s| && forall x :: x in s ==> x in keep
    ensures Filter(s, keep, n) == s[..n]
  {
    if n > 0 { FilterAll(s, keep, n - 1); }
  }

  lemma BaseIsAffinity(d: DeviceInfo, npu: int)
    requires npu in d.affinity && forall x :: x in d.affinity[npu] ==> x in d.allowed
    ensures Base(d, npu) == d.affinity[npu]
  {
    var near := d.affinity[npu];
    FilterAll(near, d.allowed, |near|);
    assert near[..|near|] == near;
  }

  lemma TwoCandidates(d: DeviceInfo)
    requires d.allLogic == [0, 1] && d.running == [0, 1]
    ensures AllCandidates(d) == [0, 1] && Parsed(d)
  {
    assert d.running[0] == 0 && d.running[1] == 1;
    assert Candidates(d, 0) == [];
    assert Candidates(d, 1) == [0];
    assert Candidates(d, 2) == [0, 1];
  }

  function OwnPool(d: DeviceInfo, cpuNode: map<int, int>, numa: NumaMap, npu: int): Result<seq<int>, Error>
    requires numa != map[]
  {
    Extend(cpuNode, numa, Base(d, npu), d.allowed).cpus
  }

  lemma ExtendKeepsNodes(cpuNode: map<int, int>, numa: NumaMap, cpus: seq<int>, allowed: seq<int>)
    requires Contiguous(numa)
    ensures Extend(cpuNode, numa, cpus, allowed).numa == numa
  {
  }

  lemma TwoPools(d: DeviceInfo, cpuNode: map<int, int>, numa: NumaMap, p: seq<int>, q: seq<int>)
    requires AllCandidates(d) == [0, 1] && Contiguous(numa) && Base(d, 0) != [] && Base(d, 1) != []
    requires OwnPool(d, cpuNode, numa, 0) == Ok(p) && OwnPool(d, cpuNode, numa, 1) == Ok(q)
    ensures Plan(d, cpuNode, numa) == Progress(numa, map[0 := p, 1 := q], None)
  {
    ExtendKeepsNodes(cpuNode, numa, Base(d, 0), d.allowed);
    ExtendKeepsNodes(cpuNode, numa, Base(d, 1), d.allowed);
    assert Pools(d, cpuNode, numa, [0, 1], 0) == Progress(numa, map[], None);
    assert Pools(d, cpuNode, numa, [0, 1], 1) == Progress(numa, map[0 := p], None);
    assert Pools(d, cpuNode, numa, [0, 1], 2) == Progress(numa, map[0 := p, 1 := q], None);
  }

  lemma TwoKept(shares: map<int, seq<int>>)
    requires shares.Keys == {0, 1}
    ensures Keep(shares, [0, 1], 2) == Filled(shares, [0, 1], None)
  {
    assert Keep(shares, [0, 1], 0) == Filled(map[], [], None);
    assert Keep(shares, [0, 1], 1) == Filled(map[0 := shares[0]], [0], None);
    assert shares == map[0 := shares[0], 1 := shares[1]];
  }

  /** The roles of two pools that are large enough. */
  lemma TwoAssigned(pools: map<int, seq<int>>, reserveIrq: bool)
    requires 0 in pools && 1 in pools && |pools[0]| >= MinCpus(reserveIrq) && |pools[1]| >= MinCpus(reserveIrq)
    ensures var a := Assign(Assigned(map[], map[], map[], None), pools, [0, 1], reserveIrq, 2);
            && a.error.None? && 0 in a.main && 1 in a.main && 0 in a.rel && 1 in a.rel
            && a.main[0] == RoleCpus(pools[0], reserveIrq, Main) && a.main[1] == RoleCpus(pools[1], reserveIrq, Main)
            && a.rel[0] == RoleCpus(pools[0], reserveIrq, Release)
  {
    var none := Assigned(map[], map[], map[], None);
    assert Assign(none, pools, [0, 1], reserveIrq, 0) == none;
    assert Assign(none, pools, [0, 1], reserveIrq, 1) == AssignStep(none, pools[0], 0, reserveIrq);
  }

  lemma BuildOfPlan(d: DeviceInfo, cpuNode: map<int, int>, numa: NumaMap, p: seq<int>, q: seq<int>, shares: map<int, seq<int>>)
    requires d.allLogic == [0, 1] && d.running == [0, 1] && Contiguous(numa) && Base(d, 0) != [] && Base(d, 1) != []
    requires OwnPool(d, cpuNode, numa, 0) == Ok(p) && OwnPool(d, cpuNode, numa, 1) == Ok(q)
    requires FinalShares(map[0 := p, 1 := q], [0, 1]) == shares
    ensures TopoBuild(d, cpuNode, numa) == Filled(shares, [0, 1], None)
  {
    TwoCandidates(d);
    TwoPools(d, cpuNode, numa, p, q);
    TwoKept(shares);
  }

  // ---------- neighbouring NUMA nodes ----------

  // Three NUMA nodes with w CPUs each, and an NPU at each of the first two.

  function NodeOf(w: nat): map<int, int> {
    map cpu | cpu in Upto(0, 3 * w) :: if cpu < w then 0 else if cpu < w + w then 1 else 2
  }

  function ThreeNodes(w: nat): (numa: NumaMap)
    ensures Contiguous(numa) && |numa| == 3
  {
    var numa := map[0 := Upto(0, w), 1 := Upto(w, w), 2 := Upto(w + w, w)];
    assert 0 in numa;
    numa
  }

  function TwoNpus(w: nat): DeviceInfo {
    DeviceInfo(Upto(0, 3 * w), [0, 1], map[0 := Upto(0, w), 1 := Upto(w, w)], [0, 1])
  }

  lemma NodeOfIs(w: nat, cpu: int)
    ensures cpu in NodeOf(w) <==> 0 <= cpu < 3 * w
    ensures cpu in NodeOf(w) ==> NodeOf(w)[cpu] == if cpu < w then 0 else if cpu < w + w then 1 else 2
  {
    UptoHas(0, 3 * w);
  }

  lemma ThreeNodesHave(w: nat, node: int, cpu: int)
    ensures cpu in Near(ThreeNodes(w), node) <==> 0 <= node < 3 && InBlock(w, if node == 0 then 0 else if node == 1 then w else w + w, cpu)
  {
    InUpto(0, w, cpu);
    InUpto(w, w, cpu);
    InUpto(w + w, w, cpu);
  }

  predicate InBlock(w: nat, lo: int, cpu: int) {
    lo <= cpu < lo + w
  }

  lemma ThreeAgree(w: nat)
    requires w > 0
    ensures OneListing(NodeOf(w), ThreeNodes(w))
  {
    forall node, cpu ensures Agree(NodeOf(w), ThreeNodes(w), node, cpu) {
      NodeOfIs(w, cpu);
      ThreeNodesHave(w, node, cpu);
    }
  }

  /** Allowed CPUs of one node are joined by those of the next one. */
  lemma NextNodeJoins(cpuNode: map<int, int>, numa: NumaMap, base: seq<int>, allowed: seq<int>, node: int, both: seq<int>)
    requires Contiguous(numa) && base != [] && 0 <= node && node + 1 < |numa| && Increasing(both)
    requires forall i :: 0 <= i < |base| ==> base[i] in cpuNode && cpuNode[base[i]] == node
    requires forall cpu :: cpu in numa[node + 1] ==> cpu in allowed
    requires forall cpu :: cpu in both <==> cpu in base || cpu in numa[node + 1]
    ensures Extend(cpuNode, numa, base, allowed).cpus == Ok(both)
  {
    ExtendAddsNextNode(cpuNode, numa, base, allowed);
    SmallMod(node + 1, |numa|);
    JoinedIs(Extend(cpuNode, numa, base, allowed), base, numa[node + 1], allowed, both);
  }

  lemma SmallMod(a: int, n: int)
    requires 0 <= a < n
    ensures a % n == a
  {
  }

  lemma JoinedIs(e: Extended, base: seq<int>, near: seq<int>, allowed: seq<int>, both: seq<int>)
    requires e.cpus.Ok? && Increasing(e.cpus.value) && Increasing(both)
    requires forall cpu :: cpu in e.cpus.value <==> cpu in base || (cpu in allowed && cpu in near)
    requires forall cpu :: cpu in near ==> cpu in allowed
    requires forall cpu :: cpu in both <==> cpu in base || cpu in near
    ensures e.cpus == Ok(both)
  {
    IncreasingIsUnique(e.cpus.value, both);
  }

  lemma BlockIsOnNode(w: nat, npu: int, lo: int, i: nat)
    requires (npu == 0 || npu == 1) && lo == (if npu == 0 then 0 else w) && i < w
    ensures Upto(lo, w)[i] in NodeOf(w) && NodeOf(w)[Upto(lo, w)[i]] == npu
  {
    UptoHas(0, 3 * w);
  }

  lemma BlocksJoin(lo: int, w: nat)
    ensures forall cpu :: cpu in Upto(lo, w + w) <==> cpu in Upto(lo, w) || cpu in Upto(lo + w, w)
  {
    UptoHas(lo, w);
    UptoHas(lo + w, w);
    UptoHas(lo, w + w);
  }

  lemma BlockIsAllowed(w: nat, lo: int)
    requires 0 <= lo <= w + w
    ensures forall cpu :: cpu in Upto(lo, w) ==> cpu in Upto(0, 3 * w)
  {
    UptoHas(lo, w);
    UptoHas(0, 3 * w);
  }

  lemma NeighbourBase(w: nat, npu: int, lo: int)
    requires (npu == 0 || npu == 1) && lo == (if npu == 0 then 0 else w)
    ensures Base(TwoNpus(w), npu) == Upto(lo, w)
  {
    BlockIsAllowed(w, lo);
    BaseIsAffinity(TwoNpus(w), npu);
  }

  lemma NextBlock(w: nat, npu: int, lo: int)
    requires (npu == 0 || npu == 1) && lo == (if npu == 0 then 0 else w)
    ensures npu + 1 in ThreeNodes(w) && ThreeNodes(w)[npu + 1] == Upto(lo + w, w)
  {
  }

  lemma NeighbourPool(w: nat, npu: int, lo: int, d: DeviceInfo, cpuNode: map<int, int>, numa: NumaMap)
    requires w > 0 && (npu == 0 || npu == 1) && lo == (if npu == 0 then 0 else w)
    requires d == TwoNpus(w) && cpuNode == NodeOf(w) && numa == ThreeNodes(w)
    ensures Base(d, npu) == Upto(lo, w)
    ensures OwnPool(d, cpuNode, numa, npu) == Ok(Upto(lo, w + w))
  {
    NeighbourBase(w, npu, lo);
    NextBlock(w, npu, lo);
    NeighbourExtends(d, cpuNode, numa, w, npu, lo);
  }

  lemma NeighbourExtends(d: DeviceInfo, cpuNode: map<int, int>, numa: NumaMap, w: nat, npu: int, lo: int)
    requires w > 0 && (npu == 0 || npu == 1) && lo == (if npu == 0 then 0 else w) && cpuNode == NodeOf(w)
    requires Base(d, npu) == Upto(lo, w) && Contiguous(numa) && |numa| == 3 && numa[npu + 1] == Upto(lo + w, w)
    requires d.allowed == Upto(0, 3 * w)
    ensures OwnPool(d, cpuNode, numa, npu) == Ok(Upto(lo, w + w))
  {
    forall i | 0 <= i < w ensures Upto(lo, w)[i] in cpuNode && cpuNode[Upto(lo, w)[i]] == npu {
      BlockIsOnNode(w, npu, lo, i);
    }
    BlockIsAllowed(w, lo + w);
    BlocksJoin(lo, w);
    UptoHas(lo, w + w);
    NextNodeJoins(cpuNode, numa, Upto(lo, w), d.allowed, npu, Upto(lo, w + w));
  }

  /** NPUs with pools of their own keep them. */
  lemma OwnPools(p: seq<int>, q: seq<int>)
    requires p != q
    ensures FinalShares(map[0 := p, 1 := q], [0, 1]) == map[0 := p, 1 := q]
  {
    var pools := map[0 := p, 1 := q];
    assert Members(pools, [0, 1], p, 0) == [] && Members(pools, [0, 1], p, 1) == [0];
    assert Members(pools, [0, 1], p, 2) == [0];
    assert Members(pools, [0, 1], q, 0) == [] && Members(pools, [0, 1], q, 1) == [];
    assert Members(pools, [0, 1], q, 2) == [1];
  }

  lemma NeighbouringBuild(w: nat, d: DeviceInfo, cpuNode: map<int, int>, numa: NumaMap)
    requires w > 0 && d == TwoNpus(w) && cpuNode == NodeOf(w) && numa == ThreeNodes(w)
    ensures TopoBuild(d, cpuNode, numa) == Filled(map[0 := Upto(0, w + w), 1 := Upto(w, w + w)], [0, 1], None)
  {
    NeighbourPool(w, 0, 0, d, cpuNode, numa);
    NeighbourPool(w, 1, w, d, cpuNode, numa);
    var p, q := Upto(0, w + w), Upto(w, w + w);
    assert p[0] == 0 && q[0] == w;
    OwnPools(p, q);
    BuildOfPlan(d, cpuNode, numa, p, q, map[0 := p, 1 := q]);
  }

  lemma SharedMain(w: nat)
    requires w >= 5
    ensures w + 2 in RoleCpus(Upto(0, w + w), true, Main) && w + 2 in RoleCpus(Upto(w, w + w), true, Main)
  {
    assert RoleCpus(Upto(0, w + w), true, Main)[w] == w + 2;
    assert RoleCpus(Upto(w, w + w), true, Main)[0] == w + 2;
  }

  /** With five or more CPUs a node, build and allocation succeed, and both NPUs run their main threads
      on one CPU. */
  lemma NeighbouringPoolsOverlap(w: nat)
    requires w >= 5
    ensures Parsed(TwoNpus(w)) && OneListing(NodeOf(w), ThreeNodes(w))
    ensures var f := TopoBuild(TwoNpus(w), NodeOf(w), ThreeNodes(w));
            && f.error.None? && f.order == [0, 1] && f.pools.Keys == {0, 1}
            && w + 2 in f.pools[0] && w + 2 in f.pools[1]
            && var a := Assign(Assigned(map[], map[], map[], None), f.pools, f.order, true, |f.order|);
               a.error.None? && 0 in a.main && w + 2 in a.main[0] && 1 in a.main && w + 2 in a.main[1]
  {
    ThreeAgree(w);
    TwoCandidates(TwoNpus(w));
    NeighbouringBuild(w, TwoNpus(w), NodeOf(w), ThreeNodes(w));
    var pools := map[0 := Upto(0, w + w), 1 := Upto(w, w + w)];
    TwoAssigned(pools, true);
    SharedMain(w);
    RoleCpusAreInPool(pools[0], true, Main);
    RoleCpusAreInPool(pools[1], true, Main);
  }

  // ---------- an NPU that no process sees ----------

  /** One process that sees the first NPU only. */
  function OneSeen(w: nat): DeviceInfo {
    TwoNpus(w).(running := [0])
  }

  lemma SecondIsCandidate(d: DeviceInfo)
    requires d.allLogic == [0, 1] && d.running == [0] && Base(d, 1) != []
    ensures AllCandidates(d) == [0, 1] && Parsed(d)
  {
    assert d.running[0] == 0 && [0, 1][0] == 0;
    assert Candidates(d, 0) == [];
    assert Candidates(d, 1) == [0];
    assert Candidates(d, 2) == [0, 1];
  }

  lemma OneSeenPools(w: nat, d: DeviceInfo, cpuNode: map<int, int>, numa: NumaMap, npu: int, lo: int)
    requires w > 0 && d == OneSeen(w) && cpuNode == NodeOf(w) && numa == ThreeNodes(w)
    requires (npu == 0 || npu == 1) && lo == (if npu == 0 then 0 else w)
    ensures Base(d, npu) == Upto(lo, w) && OwnPool(d, cpuNode, numa, npu) == Ok(Upto(lo, w + w))
  {
    BlockIsAllowed(w, lo);
    BaseIsAffinity(d, npu);
    NextBlock(w, npu, lo);
    NeighbourExtends(d, cpuNode, numa, w, npu, lo);
  }

  lemma OneSeenPlan(w: nat, d: DeviceInfo, cpuNode: map<int, int>, numa: NumaMap)
    requires w > 0 && d == OneSeen(w) && cpuNode == NodeOf(w) && numa == ThreeNodes(w)
    ensures Parsed(d) && AllCandidates(d) == [0, 1]
    ensures Plan(d, cpuNode, numa) == Progress(numa, map[0 := Upto(0, w + w), 1 := Upto(w, w + w)], None)
  {
    OneSeenPools(w, d, cpuNode, numa, 0, 0);
    OneSeenPools(w, d, cpuNode, numa, 1, w);
    SecondIsCandidate(d);
    TwoPools(d, cpuNode, numa, Upto(0, w + w), Upto(w, w + w));
  }

  lemma OneSeenOnly(procs: seq<DeviceInfo>, r: int, x: int)
    requires |procs| == 1 && procs[0].running == [r] && Seen(procs, x)
    ensures x == r
  {
  }

  lemma OneGives(procs: seq<DeviceInfo>, r: int, cpuNode: map<int, int>, numa: NumaMap)
    requires |procs| == 1 && procs[0].running == [r] && Machine(procs, cpuNode, numa)
    ensures NoCpuTwice(procs, cpuNode, numa)
  {
    NoneTwiceIff(procs, cpuNode, numa);
    forall x | Seen(procs, x) ensures x == r {
      OneSeenOnly(procs, r, x);
    }
  }

  lemma NotSeparate(d: DeviceInfo, cpuNode: map<int, int>, numa: NumaMap, p: seq<int>, q: seq<int>, cpu: int)
    requires numa != map[] && AllCandidates(d) == [0, 1]
    requires Plan(d, cpuNode, numa) == Progress(numa, map[0 := p, 1 := q], None) && p != q && cpu in p && cpu in q
    ensures !Separate(d, cpuNode, numa)
  {
    var npus := AllCandidates(d);
    assert npus[0] == 0 && npus[1] == 1;
  }

  lemma OneUnseen(procs: seq<DeviceInfo>, d: DeviceInfo)
    requires procs == [d] && AllCandidates(d) == [0, 1] && d.running == [0]
    ensures !AllSeen(procs)
  {
    var npus := AllCandidates(d);
    assert npus[1] == 1 && !Seen(procs, 1);
  }

  /** Pools may overlap without harm where no process sees the other NPU. */
  lemma UnseenNpuTakesNothing(w: nat, d: DeviceInfo, procs: seq<DeviceInfo>, cpuNode: map<int, int>, numa: NumaMap)
    requires w > 0 && d == OneSeen(w) && procs == [d] && cpuNode == NodeOf(w) && numa == ThreeNodes(w)
    ensures Machine(procs, cpuNode, numa) && !AllSeen(procs)
    ensures NoCpuTwice(procs, cpuNode, numa) && !Separate(d, cpuNode, numa)
  {
    OneSeenPlan(w, d, cpuNode, numa);
    BuildRaisesWithPlan(d, cpuNode, numa);
    OneGives(procs, 0, cpuNode, numa);
    OneUnseen(procs, d);
    Neighbours(w);
    NotSeparate(d, cpuNode, numa, Upto(0, w + w), Upto(w, w + w), w);
  }

  lemma Neighbours(w: nat)
    requires w > 0
    ensures w in Upto(0, w + w) && w in Upto(w, w + w) && Upto(0, w + w) != Upto(w, w + w)
  {
    UptoHas(0, w + w);
    UptoHas(w, w + w);
    assert 0 in Upto(0, w + w) && 0 !in Upto(w, w + w);
  }

  // ---------- gaps in the node numbers ----------

  // Two NUMA nodes, 0 and 2, with one CPU each, and an NPU at each.

  function GapNodes(): (numa: NumaMap)
    ensures numa != map[] && |numa| == 2
  {
    var numa := map[0 := [0], 2 := [1]];
    assert 0 in numa;
    numa
  }

  function GapNodeOf(): map<int, int> {
    map[0 := 0, 1 := 2]
  }

  function GapNpus(): DeviceInfo {
    DeviceInfo([0, 1], [0, 1], map[0 := [0], 1 := [1]], [0, 1])
  }

  lemma GapBase(npu: int)
    requires npu == 0 || npu == 1
    ensures Base(GapNpus(), npu) == [npu]
  {
    assert npu in [0, 1] by { assert [0, 1][npu] == npu; }
    BaseIsAffinity(GapNpus(), npu);
  }

  lemma OneCpu(cpuNode: map<int, int>, numa: NumaMap, cpu: int)
    requires numa != map[] && cpu in cpuNode
    ensures Together(cpuNode, [cpu]) && NextNode(cpuNode, numa, [cpu]) == (cpuNode[cpu] + 1) % |numa|
  {
  }

  lemma GapAgrees()
    ensures OneListing(GapNodeOf(), GapNodes())
  {
    forall node, cpu ensures Agree(GapNodeOf(), GapNodes(), node, cpu) {
      assert cpu in [0] <==> cpu == 0;
      assert cpu in [1] <==> cpu == 1;
    }
  }

  lemma NodeAdded(cpuNode: map<int, int>, numa: NumaMap, cpus: seq<int>, next: int)
    requires numa != map[] && Together(cpuNode, cpus) && NextNode(cpuNode, numa, cpus) == next && next !in numa
    ensures LookedUp(cpuNode, numa, cpus) == numa[next := []]
  {
  }

  lemma FirstLookUp(d: DeviceInfo, cpuNode: map<int, int>, numa: NumaMap, npus: seq<int>, n: nat)
    requires numa != map[] && n == 1 <= |npus|
    ensures NumaAfter(d, cpuNode, numa, npus, n) == LookedUp(cpuNode, numa, Base(d, npus[0]))
  {
    assert NumaAfter(d, cpuNode, numa, npus, n - 1) == numa;
  }

  lemma GapNext(cpuNode: map<int, int>, numa: NumaMap, cpus: seq<int>)
    requires cpuNode == GapNodeOf() && numa == GapNodes() && cpus == [0]
    ensures Together(cpuNode, cpus) && NextNode(cpuNode, numa, cpus) == 1 && 1 !in numa
  {
  }

  /** The look-up for the first NPU adds node 1. */
  lemma GapFilled(d: DeviceInfo, cpuNode: map<int, int>, numa: NumaMap, npus: seq<int>)
    requires d == GapNpus() && cpuNode == GapNodeOf() && numa == GapNodes() && npus == [0, 1]
    ensures NumaAfter(d, cpuNode, numa, npus, 1) == numa[1 := []]
  {
    GapBase(0);
    GapNext(cpuNode, numa, [0]);
    FirstLookUp(d, cpuNode, numa, npus, 1);
    NodeAdded(cpuNode, numa, [0], 1);
  }

  lemma AfterGap(d: DeviceInfo, cpuNode: map<int, int>, numa: NumaMap, npus: seq<int>, i: nat, cpu: int)
    requires numa != map[] && i < |npus| && Base(d, npus[i]) == [1]
    requires 1 in cpuNode && cpuNode[1] == 2 && cpu != 1 && cpu in d.allowed
    ensures var table := NumaAfter(d, cpuNode, numa, npus, i);
            && (|table| == 2 ==> (cpu in NodePool(d, cpuNode, numa, npus, i) <==> cpu in Near(table, 1)))
            && (|table| == 3 ==> (cpu in NodePool(d, cpuNode, numa, npus, i) <==> cpu in Near(table, 0)))
  {
    var table := NumaAfter(d, cpuNode, numa, npus, i);
    OneCpu(cpuNode, table, 1);
    JoinedHas(cpuNode, table, [1], d.allowed, cpu);
  }

  lemma GapTables()
    ensures |GapNodes()| == 2 && 0 !in Near(GapNodes(), 1)
    ensures |GapNodes()[1 := []]| == 3 && 0 in Near(GapNodes()[1 := []], 0)
    ensures 1 in GapNodeOf() && GapNodeOf()[1] == 2 && 0 in GapNpus().allowed
  {
    assert [0][0] == 0 && GapNpus().allowed[0] == 0;
  }

  /** With gaps the pool of an NPU depends on the candidates before it: looking up the missing node
      for the first NPU changes which node is next to the second one's. */
  lemma GapShiftsPool(d: DeviceInfo, cpuNode: map<int, int>, numa: NumaMap, both: seq<int>, alone: seq<int>)
    requires d == GapNpus() && cpuNode == GapNodeOf() && numa == GapNodes() && both == [0, 1] && alone == [1]
    ensures OneListing(cpuNode, numa)
    ensures 0 in NodePool(d, cpuNode, numa, both, 1) && 0 !in NodePool(d, cpuNode, numa, alone, 0)
  {
    GapAgrees();
    GapTables();
    GapBase(1);
    GapFilled(d, cpuNode, numa, both);
    AfterGap(d, cpuNode, numa, both, 1, 0);
    AfterGap(d, cpuNode, numa, alone, 0, 0);
  }

  // ---------- a CPU named twice ----------

  // Two NUMA nodes, and two NPUs near the same CPUs, one of which their list names twice.

  function Twice(h: nat): seq<int>
    requires h > 0
  {
    Upto(0, h) + Upto(h - 1, h)
  }

  function TwoNodes(h: nat): (numa: NumaMap)
    requires h > 0
    ensures Contiguous(numa) && |numa| == 2
  {
    var numa := map[0 := Upto(0, h), 1 := Upto(h, h)];
    assert 0 in numa;
    numa
  }

  function LowOrHigh(h: nat): map<int, int> {
    var all := Upto(0, h + h);
    map cpu | cpu in all :: if cpu < h then 0 else 1
  }

  function SameList(h: nat): DeviceInfo
    requires h > 0
  {
    DeviceInfo(Upto(0, h + h), [0, 1], map[0 := Twice(h), 1 := Twice(h)], [0, 1])
  }

  lemma TwoAgree(h: nat)
    requires h > 0
    ensures OneListing(LowOrHigh(h), TwoNodes(h))
  {
    forall node, cpu ensures Agree(LowOrHigh(h), TwoNodes(h), node, cpu) {
      InUpto(0, h + h, cpu);
      InUpto(0, h, cpu);
      InUpto(h, h, cpu);
    }
  }

  lemma TwiceHas(h: nat)
    requires h > 1
    ensures |Twice(h)| == h + h && Twice(h)[..h] == Upto(0, h) && Twice(h)[h..] == Upto(h - 1, h)
    ensures Ascending(Twice(h)) && forall x :: x in Twice(h) ==> 0 <= x < h + h
    ensures Twice(h)[0] == 0 && Twice(h)[h + h - 1] == h + h - 2
  {
  }

  /** A list that spans two nodes is not extended. */
  lemma SpreadListStays(d: DeviceInfo, cpuNode: map<int, int>, numa: NumaMap, npu: int, list: seq<int>, i: nat, j: nat)
    requires numa != map[] && npu in d.affinity && d.affinity[npu] == list
    requires forall n :: 0 <= n < |list| ==> list[n] in cpuNode && list[n] in d.allowed
    requires i < |list| && j < |list| && cpuNode[list[i]] != cpuNode[list[j]]
    ensures Base(d, npu) == list && OwnPool(d, cpuNode, numa, npu) == Ok(list)
  {
    BaseIsAffinity(d, npu);
    assert !OnOneNode(cpuNode, list);
    ExtendAddsNextNode(cpuNode, numa, list, d.allowed);
  }

  lemma ListStays(h: nat, npu: int)
    requires h > 1 && (npu == 0 || npu == 1)
    ensures Base(SameList(h), npu) == Twice(h)
    ensures OwnPool(SameList(h), LowOrHigh(h), TwoNodes(h), npu) == Ok(Twice(h))
  {
    TwiceHas(h);
    UptoHas(0, h + h);
    SpreadListStays(SameList(h), LowOrHigh(h), TwoNodes(h), npu, Twice(h), 0, h + h - 1);
  }

  lemma {:induction false} SortAscending(s: seq<int>)
    requires Ascending(s)
    ensures Sort(s) == s
  {
    if s != [] {
      var n := |s| - 1;
      SortAscending(s[..n]);
      assert AscendingPosition(s[..n], s[n], n) == n;
      assert s == s[..n] + [s[n]];
    }
  }

  lemma EvenCuts(s: seq<int>, h: nat, members: seq<int>)
    requires |s| == h + h && Ascending(s) && members == [0, 1]
    ensures Share(s, members, 0) == s[..h] && Share(s, members, 1) == s[h..]
  {
    SortAscending(s);
    QuotientIs(h + h, 2);
    assert Mark(h, 0) == 0 && Mark(h, 1) == h;
  }

  lemma SplitInTwo(s: seq<int>, h: nat)
    requires |s| == h + h && Ascending(s)
    ensures FinalShares(map[0 := s, 1 := s], [0, 1]) == map[0 := s[..h], 1 := s[h..]]
  {
    var pools := map[0 := s, 1 := s];
    assert Members(pools, [0, 1], s, 0) == [] && Members(pools, [0, 1], s, 1) == [0];
    var members := Members(pools, [0, 1], s, 2);
    assert members == [0, 1];
    EvenCuts(s, h, members);
    ShareOfMember(pools, [0, 1], s, 0);
    ShareOfMember(pools, [0, 1], s, 1);
  }

  lemma RepeatedBuild(h: nat)
    requires h > 1
    ensures TopoBuild(SameList(h), LowOrHigh(h), TwoNodes(h)) ==
            Filled(map[0 := Upto(0, h), 1 := Upto(h - 1, h)], [0, 1], None)
  {
    ListStays(h, 0);
    ListStays(h, 1);
    TwiceHas(h);
    SplitInTwo(Twice(h), h);
    BuildOfPlan(SameList(h), LowOrHigh(h), TwoNodes(h), Twice(h), Twice(h), map[0 := Upto(0, h), 1 := Upto(h - 1, h)]);
  }

  lemma SplitRoles(h: nat)
    requires h >= 3
    ensures h - 1 in RoleCpus(Upto(0, h), false, Release) && h - 1 in RoleCpus(Upto(h - 1, h), false, Main)
  {
    assert RoleCpus(Upto(0, h), false, Release)[0] == h - 1;
    assert RoleCpus(Upto(h - 1, h), false, Main)[0] == h - 1;
  }

  /** Build and allocation succeed, and one CPU runs the release thread of one NPU and the main
      threads of the other. */
  lemma RepeatedCpuIsSplit(h: nat)
    requires h >= 3
    ensures Parsed(SameList(h)) && OneListing(LowOrHigh(h), TwoNodes(h))
    ensures var f := TopoBuild(SameList(h), LowOrHigh(h), TwoNodes(h));
            && f.error.None? && f.order == [0, 1] && f.pools.Keys == {0, 1}
            && var a := Assign(Assigned(map[], map[], map[], None), f.pools, f.order, false, |f.order|);
               a.error.None? && 0 in a.rel && h - 1 in a.rel[0] && 1 in a.main && h - 1 in a.main[1]
  {
    TwoAgree(h);
    TwoCandidates(SameList(h));
    RepeatedBuild(h);
    TwoAssigned(map[0 := Upto(0, h), 1 := Upto(h - 1, h)], false);
    SplitRoles(h);
  }
}
