/** What the allocator's dictionaries hold after slicing, after the topology plan and after the
    role split, including what an error leaves behind. */
module CpuFill {
  import opened Wrappers
  import opened CpuSlices
  import opened CpuTopology
  import opened CpuSharing

  /** The number of NPUs that slicing counts on: the NPU map first, then the topology, and the
      visible NPUs only when neither is known. */
  function TotalNpus(d: DeviceInfo): (n: nat)
    ensures d.running != [] ==> n > 0
  {
    if |d.allLogic| > 0 then |d.allLogic|
    else if |d.affinity| > 0 then |d.affinity|
    else |d.running|
  }

  // ---------- filling the pools ----------

  /** A dictionary of pools with its insertion order, and the error that stopped filling it. */
  datatype Filled = Filled(pools: map<int, seq<int>>, order: seq<int>, error: Option<Error>)

  function Put(f: Filled, npu: int, pool: seq<int>): Filled {
    Filled(f.pools[npu := pool], if npu in f.pools then f.order else f.order + [npu], f.error)
  }

  function SliceStep(f: Filled, allowed: seq<int>, n: nat, npu: int): Filled {
    if f.error.Some? then f
    else if npu < 0 || npu >= n then f.(error := Some(InvalidNpu(npu)))
    else Put(f, npu, GlobalPool(allowed, n, npu))
  }

  function Sliced(f: Filled, allowed: seq<int>, n: nat, running: seq<int>, k: nat): Filled
    requires k <= |running|
  {
    if k == 0 then f else SliceStep(Sliced(f, allowed, n, running, k - 1), allowed, n, running[k - 1])
  }

  /** What global slicing makes of the pools. */
  function GlobalBuild(f: Filled, d: DeviceInfo, reserveIrq: bool): Filled {
    var allowed, n := SortDedup(d.allowed), TotalNpus(d);
    if d.running == [] || allowed == [] then f
    else if |allowed| / n < MinCpus(reserveIrq) then f.(error := Some(TooFewCpus))
    else Sliced(f, allowed, n, d.running, |d.running|)
  }

  /** The shares of all candidates. */
  function FinalShares(pools: map<int, seq<int>>, npus: seq<int>): map<int, seq<int>>
    requires forall npu :: npu in npus ==> npu in pools
  {
    map npu | npu in npus :: ShareOf(pools, npus, npu)
  }

  function GroupShares(pools: map<int, seq<int>>, npus: seq<int>, pool: seq<int>): map<int, seq<int>> {
    map npu | npu in npus && npu in pools && pools[npu] == pool :: ShareOf(pools, npus, npu)
  }

  lemma SharesAreOfGroup(pools: map<int, seq<int>>, npus: seq<int>, pool: seq<int>, shares: map<int, seq<int>>)
    requires NoRepeats(npus)
    requires var members := Members(pools, npus, pool, |npus|);
             && (forall npu :: npu in shares ==> npu in members)
             && forall i :: 0 <= i < |members| ==> members[i] in shares && shares[members[i]] == Share(pool, members, i)
    ensures shares == GroupShares(pools, npus, pool)
  {
    var members := Members(pools, npus, pool, |npus|);
    assert npus[..|npus|] == npus;
    forall npu | npu in members
      ensures npu in shares && shares[npu] == ShareOf(pools, npus, npu)
    {
      var i :| 0 <= i < |members| && members[i] == npu;
      ShareOfMember(pools, npus, pool, i);
    }
    var expected := GroupShares(pools, npus, pool);
    assert forall npu :: npu in expected <==> npu in members;
    assert forall npu :: npu in shares ==> npu in members && shares[npu] == expected[npu];
  }

  function SharesOfGroups(pools: map<int, seq<int>>, npus: seq<int>, keys: seq<seq<int>>, n: nat): map<int, seq<int>>
    requires n <= |keys|
  {
    if n == 0 then map[] else SharesOfGroups(pools, npus, keys, n - 1) + GroupShares(pools, npus, keys[n - 1])
  }

  function ReachedShares(pools: map<int, seq<int>>, npus: seq<int>, keys: seq<seq<int>>): map<int, seq<int>>
    requires forall npu :: npu in npus ==> npu in pools
  {
    map npu | npu in npus && pools[npu] in keys :: ShareOf(pools, npus, npu)
  }

  lemma {:induction false} GroupsShare(pools: map<int, seq<int>>, npus: seq<int>, keys: seq<seq<int>>, n: nat)
    requires n <= |keys| && forall npu :: npu in npus ==> npu in pools
    ensures SharesOfGroups(pools, npus, keys, n) == ReachedShares(pools, npus, keys[..n])
  {
    if n > 0 {
      GroupsShare(pools, npus, keys, n - 1);
      assert keys[..n] == keys[..n - 1] + [keys[n - 1]];
    }
  }

  lemma AllReached(pools: map<int, seq<int>>, npus: seq<int>, keys: seq<seq<int>>)
    requires forall npu :: npu in npus ==> npu in pools && pools[npu] in keys
    ensures ReachedShares(pools, npus, keys) == FinalShares(pools, npus)
  {
  }

  /** Going through the groups one by one reaches every NPU. */
  lemma AllGroupsShare(pools: map<int, seq<int>>, npus: seq<int>, keys: seq<seq<int>>)
    requires forall npu :: npu in npus ==> npu in pools
    requires forall p :: p in keys <==> p in Groups(pools, npus, |npus|)
    ensures SharesOfGroups(pools, npus, keys, |keys|) == FinalShares(pools, npus)
  {
    forall npu | npu in npus
      ensures pools[npu] in keys
    {
      EveryPoolIsGrouped(pools, npus, npu);
    }
    GroupsShare(pools, npus, keys, |keys|);
    assert keys[..|keys|] == keys;
    AllReached(pools, npus, keys);
  }

  lemma EveryPoolIsGrouped(pools: map<int, seq<int>>, npus: seq<int>, npu: int)
    requires (forall y :: y in npus ==> y in pools) && npu in npus
    ensures pools[npu] in Groups(pools, npus, |npus|)
  {
    GroupsAreMembers(pools, npus, |npus|, pools[npu]);
    assert npus[..|npus|] == npus;
    assert npu in Members(pools, npus, pools[npu], |npus|);
  }

  /** The visible NPUs keep their own entries. */
  function Keep(shares: map<int, seq<int>>, running: seq<int>, k: nat): Filled
    requires k <= |running|
  {
    if k == 0 then Filled(map[], [], None)
    else
      var f := Keep(shares, running, k - 1);
      if f.error.Some? then f
      else if running[k - 1] !in shares then f.(error := Some(MissingKey(running[k - 1])))
      else Put(f, running[k - 1], shares[running[k - 1]])
  }

  function Divide(pools: map<int, seq<int>>, npus: seq<int>, running: seq<int>): Filled
    requires forall npu :: npu in npus ==> npu in pools
  {
    Keep(FinalShares(pools, npus), running, |running|)
  }

  /** What the topology build makes of empty pools. A visible NPU that is not a candidate is an
      error that leaves the undivided pools behind. */
  function TopoBuild(d: DeviceInfo, cpuNode: map<int, int>, numa: NumaMap): Filled
    requires numa != map[]
  {
    var npus, plan := AllCandidates(d), Plan(d, cpuNode, numa);
    if plan.error.Some? then Filled(plan.pools, [], plan.error)
    else
      var kept := Divide(plan.pools, npus, d.running);
      if kept.error.Some? then Filled(plan.pools, npus, kept.error) else kept
  }

  lemma {:induction false} KeepIsShares(shares: map<int, seq<int>>, running: seq<int>, k: nat)
    requires k <= |running|
    ensures var f := Keep(shares, running, k);
            && (f.error.None? <==> forall i :: 0 <= i < k ==> running[i] in shares)
            && (f.error.None? ==> f.pools == map npu | npu in running[..k] && npu in shares :: shares[npu])
  {
    if k > 0 {
      KeepIsShares(shares, running, k - 1);
      assert running[..k] == running[..k - 1] + [running[k - 1]];
    }
  }

  lemma DivideIsShares(pools: map<int, seq<int>>, npus: seq<int>, running: seq<int>, npu: int)
    requires forall y :: y in npus ==> y in pools
    requires Divide(pools, npus, running).error.None?
    ensures var f := Divide(pools, npus, running);
            && (npu in f.pools <==> npu in running)
            && (npu in running ==> npu in npus && f.pools[npu] == ShareOf(pools, npus, npu))
  {
    var shares := FinalShares(pools, npus);
    KeepIsShares(shares, running, |running|);
    assert running[..|running|] == running;
  }

  /** A topology build that does not raise gives every visible NPU its share of the one plan that
      all processes compute, and nothing else. */
  lemma TopoBuildIsShares(d: DeviceInfo, cpuNode: map<int, int>, numa: NumaMap, npu: int)
    requires numa != map[] && TopoBuild(d, cpuNode, numa).error.None?
    ensures Plan(d, cpuNode, numa).error.None?
    ensures var f, plan := TopoBuild(d, cpuNode, numa), Plan(d, cpuNode, numa);
            && (npu in f.pools <==> npu in d.running)
            && (npu in d.running ==>
                  && npu in AllCandidates(d) && npu in plan.pools
                  && f.pools[npu] == ShareOf(plan.pools, AllCandidates(d), npu))
  {
    var plan := Plan(d, cpuNode, numa);
    assert plan.error.None?;
    DivideIsShares(plan.pools, AllCandidates(d), d.running, npu);
  }

  /** For tables as they are read, a topology build raises only where the plan does. */
  lemma BuildRaisesWithPlan(d: DeviceInfo, cpuNode: map<int, int>, numa: NumaMap)
    requires Parsed(d) && numa != map[]
    ensures TopoBuild(d, cpuNode, numa).error == Plan(d, cpuNode, numa).error
  {
    var plan, npus := Plan(d, cpuNode, numa), AllCandidates(d);
    if plan.error.None? {
      ParsedCandidates(d);
      AllKept(plan.pools, npus, d.running);
    }
  }

  lemma AllKept(pools: map<int, seq<int>>, npus: seq<int>, running: seq<int>)
    requires forall npu :: npu in npus ==> npu in pools
    requires forall i :: 0 <= i < |running| ==> running[i] in npus
    ensures Keep(FinalShares(pools, npus), running, |running|).error.None?
  {
    KeepIsShares(FinalShares(pools, npus), running, |running|);
  }

  lemma ParsedCandidates(d: DeviceInfo)
    requires Parsed(d)
    ensures NoRepeats(AllCandidates(d)) && forall i :: 0 <= i < |d.running| ==> d.running[i] in AllCandidates(d)
  {
    CandidatesNoRepeats(d, |d.allLogic|);
    assert d.allLogic[..|d.allLogic|] == d.allLogic;
    forall i | 0 <= i < |d.running| ensures d.running[i] in AllCandidates(d) {
      var npu := d.running[i];
      assert npu in d.running && npu in d.allLogic && Candidate(d, npu);
    }
  }

  /** Two processes that do not raise give allowed CPUs only, never one CPU to two NPUs with equal
      pools unless a cut falls between two occurrences of it, and an NPU that both see the same CPUs. */
  lemma TopoProcessesDoNotCollide(a: DeviceInfo, b: DeviceInfo, cpuNode: map<int, int>, numa: NumaMap, x: int, y: int, cpu: int)
    requires SameTables(a, b) && numa != map[] && Parsed(a) && Parsed(b)
    requires TopoBuild(a, cpuNode, numa).error.None? && TopoBuild(b, cpuNode, numa).error.None?
    requires x in a.running && y in b.running
    ensures x in TopoBuild(a, cpuNode, numa).pools && y in TopoBuild(b, cpuNode, numa).pools
    ensures Plan(a, cpuNode, numa) == Plan(b, cpuNode, numa)
    ensures x in Plan(a, cpuNode, numa).pools && y in Plan(a, cpuNode, numa).pools
    ensures cpu in TopoBuild(a, cpuNode, numa).pools[x] ==> cpu in a.allowed
    ensures (&& Plan(a, cpuNode, numa).pools[x] == Plan(a, cpuNode, numa).pools[y]
             && CleanGroup(Plan(a, cpuNode, numa).pools, AllCandidates(a), x)
             && cpu in TopoBuild(a, cpuNode, numa).pools[x]
             && cpu in TopoBuild(b, cpuNode, numa).pools[y]) ==> x == y
    ensures x == y ==> TopoBuild(a, cpuNode, numa).pools[x] == TopoBuild(b, cpuNode, numa).pools[y]
  {
    TopoBuildIsShares(a, cpuNode, numa, x);
    TopoBuildIsShares(b, cpuNode, numa, y);
    ProcessesAgree(a, b, cpuNode, numa);
    var npus, pools := AllCandidates(a), Plan(a, cpuNode, numa).pools;
    PoolsAreAllowed(a, cpuNode, numa, npus, |npus|, x);
    ParsedCandidates(a);
    GroupDividesItsPool(pools, npus, x);
    assert pools[x] == pools[y] ==> InGroup(pools, npus, x, x) && InGroup(pools, npus, x, y);
  }

  // ---------- all processes of a machine ----------

  /** The process gives the CPU to the NPU. */
  predicate Gives(d: DeviceInfo, cpuNode: map<int, int>, numa: NumaMap, npu: int, cpu: int)
    requires numa != map[]
  {
    var f := TopoBuild(d, cpuNode, numa);
    npu in f.pools && cpu in f.pools[npu]
  }

  ghost predicate NoCpuTwice(procs: seq<DeviceInfo>, cpuNode: map<int, int>, numa: NumaMap)
    requires numa != map[]
  {
    forall i, j, x, y, cpu :: 0 <= i < |procs| && 0 <= j < |procs| ==>
      Gives(procs[i], cpuNode, numa, x, cpu) ==> Gives(procs[j], cpuNode, numa, y, cpu) ==> x == y
  }

  /** The processes of one machine: one set of tables, and none raises. */
  ghost predicate Machine(procs: seq<DeviceInfo>, cpuNode: map<int, int>, numa: NumaMap) {
    && numa != map[] && procs != []
    && (forall i :: 0 <= i < |procs| ==>
          Parsed(procs[i]) && SameTables(procs[0], procs[i]) && TopoBuild(procs[i], cpuNode, numa).error.None?)
  }

  predicate Seen(procs: seq<DeviceInfo>, npu: int) {
    exists i :: 0 <= i < |procs| && npu in procs[i].running
  }

  /** Every candidate is visible to some process. */
  ghost predicate AllSeen(procs: seq<DeviceInfo>)
    requires procs != []
  {
    forall npu :: npu in AllCandidates(procs[0]) ==> Seen(procs, npu)
  }

  lemma GivesShares(procs: seq<DeviceInfo>, cpuNode: map<int, int>, numa: NumaMap, i: nat, npu: int, cpu: int)
    requires Machine(procs, cpuNode, numa) && i < |procs|
    ensures var npus, plan := AllCandidates(procs[0]), Plan(procs[0], cpuNode, numa);
            && plan.error.None?
            && (Gives(procs[i], cpuNode, numa, npu, cpu) <==>
                npu in procs[i].running && npu in npus && npu in plan.pools && cpu in ShareOf(plan.pools, npus, npu))
  {
    TopoBuildIsShares(procs[0], cpuNode, numa, npu);
    TopoBuildIsShares(procs[i], cpuNode, numa, npu);
    ProcessesAgree(procs[0], procs[i], cpuNode, numa);
  }

  lemma SomeProcessGives(procs: seq<DeviceInfo>, cpuNode: map<int, int>, numa: NumaMap, npu: int, cpu: int) returns (i: nat)
    requires Machine(procs, cpuNode, numa) && npu in AllCandidates(procs[0]) && Seen(procs, npu)
    requires npu in Plan(procs[0], cpuNode, numa).pools
    requires cpu in ShareOf(Plan(procs[0], cpuNode, numa).pools, AllCandidates(procs[0]), npu)
    ensures i < |procs| && Gives(procs[i], cpuNode, numa, npu, cpu)
  {
    i :| 0 <= i < |procs| && npu in procs[i].running;
    GivesShares(procs, cpuNode, numa, i, npu, cpu);
  }

  lemma PlanCovers(procs: seq<DeviceInfo>, cpuNode: map<int, int>, numa: NumaMap)
    requires Machine(procs, cpuNode, numa)
    ensures NoRepeats(AllCandidates(procs[0]))
    ensures forall npu :: npu in AllCandidates(procs[0]) ==> npu in Plan(procs[0], cpuNode, numa).pools
  {
    GivesShares(procs, cpuNode, numa, 0, 0, 0);
    ParsedCandidates(procs[0]);
  }

  /** No CPU is in the shares of two visible NPUs. */
  ghost predicate SeenDisjoint(procs: seq<DeviceInfo>, pools: map<int, seq<int>>, npus: seq<int>)
    requires forall npu :: npu in npus ==> npu in pools
  {
    forall x, y, cpu :: x in npus && y in npus && Seen(procs, x) && Seen(procs, y) ==>
      cpu in ShareOf(pools, npus, x) ==> cpu in ShareOf(pools, npus, y) ==> x == y
  }

  lemma NoneTwiceGives(procs: seq<DeviceInfo>, cpuNode: map<int, int>, numa: NumaMap)
    requires Machine(procs, cpuNode, numa) && NoCpuTwice(procs, cpuNode, numa)
    requires forall npu :: npu in AllCandidates(procs[0]) ==> npu in Plan(procs[0], cpuNode, numa).pools
    ensures SeenDisjoint(procs, Plan(procs[0], cpuNode, numa).pools, AllCandidates(procs[0]))
  {
    var npus, pools := AllCandidates(procs[0]), Plan(procs[0], cpuNode, numa).pools;
    forall x, y, cpu | x in npus && y in npus && Seen(procs, x) && Seen(procs, y) &&
                       cpu in ShareOf(pools, npus, x) && cpu in ShareOf(pools, npus, y)
      ensures x == y
    {
      var i := SomeProcessGives(procs, cpuNode, numa, x, cpu);
      var j := SomeProcessGives(procs, cpuNode, numa, y, cpu);
    }
  }

  lemma DisjointGives(procs: seq<DeviceInfo>, cpuNode: map<int, int>, numa: NumaMap)
    requires Machine(procs, cpuNode, numa)
    requires forall npu :: npu in AllCandidates(procs[0]) ==> npu in Plan(procs[0], cpuNode, numa).pools
    requires SeenDisjoint(procs, Plan(procs[0], cpuNode, numa).pools, AllCandidates(procs[0]))
    ensures NoCpuTwice(procs, cpuNode, numa)
  {
    forall i, j, x, y, cpu | 0 <= i < |procs| && 0 <= j < |procs| &&
                             Gives(procs[i], cpuNode, numa, x, cpu) && Gives(procs[j], cpuNode, numa, y, cpu)
      ensures x == y
    {
      GivesShares(procs, cpuNode, numa, i, x, cpu);
      GivesShares(procs, cpuNode, numa, j, y, cpu);
    }
  }

  /** What the processes give out is what the shares of the visible NPUs in one plan hold. */
  lemma NoneTwiceIff(procs: seq<DeviceInfo>, cpuNode: map<int, int>, numa: NumaMap)
    requires Machine(procs, cpuNode, numa)
    ensures forall npu :: npu in AllCandidates(procs[0]) ==> npu in Plan(procs[0], cpuNode, numa).pools
    ensures NoCpuTwice(procs, cpuNode, numa) <==>
            SeenDisjoint(procs, Plan(procs[0], cpuNode, numa).pools, AllCandidates(procs[0]))
  {
    PlanCovers(procs, cpuNode, numa);
    if NoCpuTwice(procs, cpuNode, numa) { NoneTwiceGives(procs, cpuNode, numa); }
    if SeenDisjoint(procs, Plan(procs[0], cpuNode, numa).pools, AllCandidates(procs[0])) {
      DisjointGives(procs, cpuNode, numa);
    }
  }

  /** Pools that differ have no CPU in common, and no cut falls between two occurrences of one CPU. */
  ghost predicate Separate(d: DeviceInfo, cpuNode: map<int, int>, numa: NumaMap) {
    && numa != map[] && Plan(d, cpuNode, numa).error.None?
    && PoolsAreApart(Plan(d, cpuNode, numa).pools, AllCandidates(d))
    && GroupsAreClean(Plan(d, cpuNode, numa).pools, AllCandidates(d))
  }

  /** The processes of a machine, whatever NPUs they see, give no CPU to two NPUs when the pools are
      separate; when every candidate is visible to some process, exactly then. */
  lemma MachineIsDisjointIff(procs: seq<DeviceInfo>, cpuNode: map<int, int>, numa: NumaMap)
    requires Machine(procs, cpuNode, numa)
    ensures Separate(procs[0], cpuNode, numa) ==> NoCpuTwice(procs, cpuNode, numa)
    ensures AllSeen(procs) ==> (NoCpuTwice(procs, cpuNode, numa) <==> Separate(procs[0], cpuNode, numa))
  {
    PlanCovers(procs, cpuNode, numa);
    NoneTwiceIff(procs, cpuNode, numa);
    DisjointIffPoolsApart(Plan(procs[0], cpuNode, numa).pools, AllCandidates(procs[0]));
  }

  /** The pools of the candidates, said on affinity lists and NUMA nodes, are equal or have no CPU in
      common. */
  ghost predicate NearApart(d: DeviceInfo, cpuNode: map<int, int>, numa: NumaMap, npus: seq<int>)
    requires numa != map[]
  {
    forall i, j :: 0 <= i < |npus| && 0 <= j < |npus| ==>
      ApartOrEqual(NodePool(d, cpuNode, numa, npus, i), NodePool(d, cpuNode, numa, npus, j))
  }

  predicate ApartOrEqual(p: seq<int>, q: seq<int>) {
    p == q || forall cpu :: cpu in p ==> cpu !in q
  }

  /** So the first half of the condition is one on affinity lists and NUMA nodes. */
  lemma ApartOnNodes(d: DeviceInfo, cpuNode: map<int, int>, numa: NumaMap)
    requires Parsed(d) && numa != map[] && Plan(d, cpuNode, numa).error.None?
    ensures PoolsAreApart(Plan(d, cpuNode, numa).pools, AllCandidates(d)) <==>
            NearApart(d, cpuNode, numa, AllCandidates(d))
  {
    ParsedCandidates(d);
    var npus, pools := AllCandidates(d), Plan(d, cpuNode, numa).pools;
    forall i | 0 <= i < |npus| ensures npus[i] in pools && pools[npus[i]] == NodePool(d, cpuNode, numa, npus, i) {
      PoolsAreNodePools(d, cpuNode, numa, npus, |npus|, i);
    }
    ApartIsNearApart(d, cpuNode, numa, npus, pools);
  }

  lemma ApartIsNearApart(d: DeviceInfo, cpuNode: map<int, int>, numa: NumaMap, npus: seq<int>, pools: map<int, seq<int>>)
    requires numa != map[] && forall npu :: npu in npus ==> npu in pools
    requires forall i :: 0 <= i < |npus| ==> npus[i] in pools && pools[npus[i]] == NodePool(d, cpuNode, numa, npus, i)
    ensures PoolsAreApart(pools, npus) <==> NearApart(d, cpuNode, numa, npus)
  {
    if PoolsAreApart(pools, npus) {
      forall i, j | 0 <= i < |npus| && 0 <= j < |npus|
        ensures ApartOrEqual(NodePool(d, cpuNode, numa, npus, i), NodePool(d, cpuNode, numa, npus, j))
      {
        var x, y := npus[i], npus[j];
        assert (exists cpu :: cpu in pools[x] && cpu in pools[y]) ==> pools[x] == pools[y];
      }
    }
    if NearApart(d, cpuNode, numa, npus) {
      forall x, y, cpu | x in npus && y in npus && cpu in pools[x] && cpu in pools[y] ensures pools[x] == pools[y] {
        var i :| 0 <= i < |npus| && npus[i] == x;
        var j :| 0 <= j < |npus| && npus[j] == y;
        assert ApartOrEqual(NodePool(d, cpuNode, numa, npus, i), NodePool(d, cpuNode, numa, npus, j));
      }
    }
  }

  lemma {:induction false} SlicedIsPools(f: Filled, allowed: seq<int>, n: nat, running: seq<int>, k: nat)
    requires k <= |running| && Sliced(f, allowed, n, running, k).error.None?
    ensures f.error.None? && forall i :: 0 <= i < k ==>
              && 0 <= running[i] < n && running[i] in Sliced(f, allowed, n, running, k).pools
              && Sliced(f, allowed, n, running, k).pools[running[i]] == GlobalPool(allowed, n, running[i])
  {
    if k > 0 { SlicedIsPools(f, allowed, n, running, k - 1); }
  }

  datatype BindingMode = TopoAffinity | GlobalSlice

  /** What the allocator makes of empty pools: without a topology it slices in either mode. */
  function Build(mode: BindingMode, d: DeviceInfo, cpuNode: map<int, int>, numa: NumaMap, reserveIrq: bool): Filled {
    if numa == map[] then Filled(map[], [], Some(NoNumaNode))
    else if mode.GlobalSlice? || d.affinity == map[] then GlobalBuild(Filled(map[], [], None), d, reserveIrq)
    else TopoBuild(d, cpuNode, numa)
  }

  predicate Ordered(f: Filled) {
    NoRepeats(f.order) && (forall npu :: npu in f.order ==> npu in f.pools) && forall npu :: npu in f.pools ==> npu in f.order
  }

  lemma {:induction false} KeepIsOrdered(shares: map<int, seq<int>>, running: seq<int>, k: nat)
    requires k <= |running|
    ensures Ordered(Keep(shares, running, k))
  {
    if k > 0 { KeepIsOrdered(shares, running, k - 1); }
  }

  lemma {:induction false} SlicedIsOrdered(f: Filled, allowed: seq<int>, n: nat, running: seq<int>, k: nat)
    requires k <= |running| && Ordered(f)
    ensures Ordered(Sliced(f, allowed, n, running, k))
  {
    if k > 0 { SlicedIsOrdered(f, allowed, n, running, k - 1); }
  }

  lemma BuildIsOrdered(mode: BindingMode, d: DeviceInfo, cpuNode: map<int, int>, numa: NumaMap, reserveIrq: bool)
    ensures var f := Build(mode, d, cpuNode, numa, reserveIrq);
            f.error.None? ==> Ordered(f)
  {
    if numa == map[] {
    } else if mode.GlobalSlice? || d.affinity == map[] {
      SlicedIsOrdered(Filled(map[], [], None), SortDedup(d.allowed), TotalNpus(d), d.running, |d.running|);
    } else if Plan(d, cpuNode, numa).error.None? {
      KeepIsOrdered(FinalShares(Plan(d, cpuNode, numa).pools, AllCandidates(d)), d.running, |d.running|);
    }
  }

  // ---------- roles ----------

  datatype Assigned = Assigned(
    main: map<int, seq<int>>, acl: map<int, seq<int>>, rel: map<int, seq<int>>, error: Option<Error>)

  function AssignStep(a: Assigned, pool: seq<int>, npu: int, reserveIrq: bool): Assigned {
    if a.error.Some? then a
    else if |pool| < MinCpus(reserveIrq) then a.(error := Some(TooFewCpus))
    else
      Assigned(
        a.main[npu := RoleCpus(pool, reserveIrq, Main)],
        a.acl[npu := RoleCpus(pool, reserveIrq, Acl)],
        a.rel[npu := RoleCpus(pool, reserveIrq, Release)],
        None)
  }

  function Assign(a: Assigned, pools: map<int, seq<int>>, order: seq<int>, reserveIrq: bool, k: nat): Assigned
    requires k <= |order| && forall npu :: npu in order ==> npu in pools
  {
    if k == 0 then a
    else AssignStep(Assign(a, pools, order, reserveIrq, k - 1), pools[order[k - 1]], order[k - 1], reserveIrq)
  }

  /** Allocation succeeds only with enough CPUs in every pool, and then every NPU has its roles. */
  lemma {:induction false} AssignIsRoles(a: Assigned, pools: map<int, seq<int>>, order: seq<int>, reserveIrq: bool, k: nat)
    requires k <= |order| && (forall npu :: npu in order ==> npu in pools) && NoRepeats(order)
    requires Assign(a, pools, order, reserveIrq, k).error.None?
    ensures var r := Assign(a, pools, order, reserveIrq, k);
            a.error.None? && forall i :: 0 <= i < k ==>
              && |pools[order[i]]| >= MinCpus(reserveIrq)
              && order[i] in r.main && r.main[order[i]] == RoleCpus(pools[order[i]], reserveIrq, Main)
              && order[i] in r.acl && r.acl[order[i]] == RoleCpus(pools[order[i]], reserveIrq, Acl)
              && order[i] in r.rel && r.rel[order[i]] == RoleCpus(pools[order[i]], reserveIrq, Release)
  {
    if k > 0 { AssignIsRoles(a, pools, order, reserveIrq, k - 1); }
  }

  lemma RolesAre(pool: seq<int>, reserveIrq: bool)
    requires |pool| >= MinCpus(reserveIrq)
    ensures var n := |pool|;
            && RoleCpus(pool, reserveIrq, Main) == (if reserveIrq then pool[2..n - 2] else pool[..n - 2])
            && RoleCpus(pool, reserveIrq, Acl) == [pool[n - 2]]
            && RoleCpus(pool, reserveIrq, Release) == [pool[n - 1]]
  {
  }

  // ---------- several processes ----------

  /** Two processes with one cpuset and one NPU map slice alike: no CPU is given to two devices, or
      to one device in two roles, in either of them. */
  lemma ProcessesDoNotCollide(a: DeviceInfo, b: DeviceInfo, reserveIrq: bool, x: nat, p: Role, y: nat, q: Role, cpu: int)
    requires SameTables(a, b) && Parsed(a) && Parsed(b)
    requires x < TotalNpus(a) && y < TotalNpus(b)
    requires |SortDedup(a.allowed)| / TotalNpus(a) >= MinCpus(reserveIrq)
    ensures SortDedup(a.allowed) == SortDedup(b.allowed) && TotalNpus(a) == TotalNpus(b)
    ensures |GlobalPool(SortDedup(a.allowed), TotalNpus(a), x)| >= MinCpus(reserveIrq)
    ensures |GlobalPool(SortDedup(b.allowed), TotalNpus(b), y)| >= MinCpus(reserveIrq)
    ensures (&& cpu in RoleCpus(GlobalPool(SortDedup(a.allowed), TotalNpus(a), x), reserveIrq, p)
             && cpu in RoleCpus(GlobalPool(SortDedup(b.allowed), TotalNpus(b), y), reserveIrq, q)) ==>
              x == y && p == q
  {
    var allowed, n := SortDedup(a.allowed), TotalNpus(a);
    CountIsMapped(a);
    CountIsMapped(b);
    IncreasingIsUnique(allowed, SortDedup(b.allowed));
    assert |allowed| > 0 by { EnoughMeansSome(|allowed|, n, MinCpus(reserveIrq)); }
    EveryCpuHasOneHolder(allowed, n, reserveIrq, 0, x, p);
    EveryCpuHasOneHolder(allowed, n, reserveIrq, 0, y, q);
    if cpu in RoleCpus(GlobalPool(allowed, n, x), reserveIrq, p) {
      RoleCpusAreInPool(GlobalPool(allowed, n, x), reserveIrq, p);
      PoolsPartitionTheCpuset(allowed, n, 0, x, x);
      var k :| 0 <= k < |allowed| && allowed[k] == cpu;
      EveryCpuHasOneHolder(allowed, n, reserveIrq, k, x, p);
      EveryCpuHasOneHolder(allowed, n, reserveIrq, k, y, q);
    }
  }

  lemma BuiltFromSlices(d: DeviceInfo, reserveIrq: bool, x: int)
    requires GlobalBuild(Filled(map[], [], None), d, reserveIrq).error.None?
    requires SortDedup(d.allowed) != [] && x in d.running
    ensures 0 <= x < TotalNpus(d) && |SortDedup(d.allowed)| / TotalNpus(d) >= MinCpus(reserveIrq)
    ensures var f := GlobalBuild(Filled(map[], [], None), d, reserveIrq);
            x in f.pools && f.pools[x] == GlobalPool(SortDedup(d.allowed), TotalNpus(d), x)
  {
    SlicedIsPools(Filled(map[], [], None), SortDedup(d.allowed), TotalNpus(d), d.running, |d.running|);
  }

  /** The pools that two processes build, split into roles, never give one CPU to two devices, or to
      one device in two roles. */
  lemma BuiltPoolsDoNotCollide(a: DeviceInfo, b: DeviceInfo, reserveIrq: bool, x: int, p: Role, y: int, q: Role, cpu: int)
    requires SameTables(a, b) && Parsed(a) && Parsed(b)
    requires GlobalBuild(Filled(map[], [], None), a, reserveIrq).error.None?
    requires GlobalBuild(Filled(map[], [], None), b, reserveIrq).error.None?
    requires SortDedup(a.allowed) != [] && x in a.running && y in b.running
    ensures var f, g := GlobalBuild(Filled(map[], [], None), a, reserveIrq), GlobalBuild(Filled(map[], [], None), b, reserveIrq);
            && x in f.pools && |f.pools[x]| >= MinCpus(reserveIrq)
            && y in g.pools && |g.pools[y]| >= MinCpus(reserveIrq)
            && (cpu in RoleCpus(f.pools[x], reserveIrq, p) && cpu in RoleCpus(g.pools[y], reserveIrq, q) ==> x == y && p == q)
  {
    IncreasingIsUnique(SortDedup(a.allowed), SortDedup(b.allowed));
    BuiltFromSlices(a, reserveIrq, x);
    BuiltFromSlices(b, reserveIrq, y);
    ProcessesDoNotCollide(a, b, reserveIrq, x, p, y, q, cpu);
  }

  lemma EnoughMeansSome(size: nat, n: nat, least: nat)
    requires n > 0 && size / n >= least > 0
    ensures size > 0
  {
  }

  /** For tables as they are read, the count is that of the NPU map. */
  lemma CountIsMapped(d: DeviceInfo)
    requires Parsed(d)
    ensures TotalNpus(d) == |d.allLogic| > 0
  {
    assert d.running[0] in d.running;
  }

  // ---------- roles under the topology plan ----------

  lemma DistinctRoles(pool: seq<int>, reserveIrq: bool, p: Role, q: Role, cpu: int)
    requires NoRepeats(pool) && |pool| >= MinCpus(reserveIrq)
    requires cpu in RoleCpus(pool, reserveIrq, p) && cpu in RoleCpus(pool, reserveIrq, q)
    ensures p == q
  {
    var i :| 0 <= i < |RoleCpus(pool, reserveIrq, p)| && RoleCpus(pool, reserveIrq, p)[i] == cpu;
    var j :| 0 <= j < |RoleCpus(pool, reserveIrq, q)| && RoleCpus(pool, reserveIrq, q)[j] == cpu;
    var k, l := RoleStart(|pool|, reserveIrq, p) + i, RoleStart(|pool|, reserveIrq, q) + j;
    assert pool[k] == cpu && pool[l] == cpu;
    RolesShareNoIndex(|pool|, reserveIrq, k, p);
    RolesShareNoIndex(|pool|, reserveIrq, l, q);
  }

  /** When the pools are separate, the processes give no CPU to two NPUs in whatever roles, and to one
      NPU in two roles only if its pool names the CPU twice. */
  lemma TopoRolesDoNotCollide(procs: seq<DeviceInfo>, cpuNode: map<int, int>, numa: NumaMap, reserveIrq: bool,
                              i: nat, x: int, p: Role, j: nat, y: int, q: Role, cpu: int)
    requires Machine(procs, cpuNode, numa) && Separate(procs[0], cpuNode, numa) && i < |procs| && j < |procs|
    requires var f := TopoBuild(procs[i], cpuNode, numa);
             x in f.pools && |f.pools[x]| >= MinCpus(reserveIrq) && cpu in RoleCpus(f.pools[x], reserveIrq, p)
    requires var g := TopoBuild(procs[j], cpuNode, numa);
             y in g.pools && |g.pools[y]| >= MinCpus(reserveIrq) && cpu in RoleCpus(g.pools[y], reserveIrq, q)
    ensures x == y
    ensures NoRepeats(TopoBuild(procs[i], cpuNode, numa).pools[x]) ==> p == q
  {
    var f, g := TopoBuild(procs[i], cpuNode, numa), TopoBuild(procs[j], cpuNode, numa);
    RoleCpusAreInPool(f.pools[x], reserveIrq, p);
    RoleCpusAreInPool(g.pools[y], reserveIrq, q);
    MachineIsDisjointIff(procs, cpuNode, numa);
    assert Gives(procs[i], cpuNode, numa, x, cpu) && Gives(procs[j], cpuNode, numa, y, cpu);
    SamePool(procs, cpuNode, numa, i, j, x);
    if NoRepeats(f.pools[x]) { DistinctRoles(f.pools[x], reserveIrq, p, q, cpu); }
  }

  /** Processes that both see an NPU give it the same list. */
  lemma SamePool(procs: seq<DeviceInfo>, cpuNode: map<int, int>, numa: NumaMap, i: nat, j: nat, x: int)
    requires Machine(procs, cpuNode, numa) && i < |procs| && j < |procs|
    requires x in TopoBuild(procs[i], cpuNode, numa).pools && x in TopoBuild(procs[j], cpuNode, numa).pools
    ensures TopoBuild(procs[i], cpuNode, numa).pools[x] == TopoBuild(procs[j], cpuNode, numa).pools[x]
  {
    TopoBuildIsShares(procs[i], cpuNode, numa, x);
    TopoBuildIsShares(procs[j], cpuNode, numa, x);
    TopoBuildIsShares(procs[0], cpuNode, numa, x);
    ProcessesAgree(procs[0], procs[i], cpuNode, numa);
    ProcessesAgree(procs[0], procs[j], cpuNode, numa);
  }

  // ---------- an error is final ----------

  lemma {:induction false} SlicedStops(f: Filled, allowed: seq<int>, n: nat, running: seq<int>, k: nat, m: nat)
    requires k <= m <= |running| && Sliced(f, allowed, n, running, k).error.Some?
    ensures Sliced(f, allowed, n, running, m) == Sliced(f, allowed, n, running, k)
  {
    if k < m { SlicedStops(f, allowed, n, running, k, m - 1); }
  }

  lemma {:induction false} AssignStops(a: Assigned, pools: map<int, seq<int>>, order: seq<int>, reserveIrq: bool, k: nat, m: nat)
    requires k <= m <= |order| && forall npu :: npu in order ==> npu in pools
    requires Assign(a, pools, order, reserveIrq, k).error.Some?
    ensures Assign(a, pools, order, reserveIrq, m) == Assign(a, pools, order, reserveIrq, k)
  {
    if k < m { AssignStops(a, pools, order, reserveIrq, k, m - 1); }
  }
}
