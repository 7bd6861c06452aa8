/** CPU pools by NPU topology: every process works out the pools of all candidate NPUs, divides
    each pool among the NPUs that have the same one, and keeps its own NPUs. */
module CpuTopology {
  import opened Arithmetic
  import opened Wrappers
  import opened CpuSlices

  datatype DeviceInfo = DeviceInfo(
    allowed: seq<int>, running: seq<int>, affinity: map<int, seq<int>>, allLogic: seq<int>)

  /** What reading the tables guarantees: the visible NPUs are some of the mapped ones, and both
      lists are sorted sets of numbers. */
  predicate Parsed(d: DeviceInfo) {
    && d.running != [] && Increasing(d.running) && Increasing(d.allLogic)
    && (forall npu :: npu in d.running ==> npu in d.allLogic)
    && (forall npu :: npu in d.allLogic ==> npu >= 0)
  }

  datatype Error =
    | NoNumaNode
    | TooFewCpus
    | InvalidNpu(npu: int)
    | AffinityConflict
    | MissingKey(key: int)

  // ---------- lists ----------

  predicate NoRepeats(s: seq<int>) {
    forall i, j :: 0 <= i < j < |s| ==> s[i] != s[j]
  }

  lemma NextIsNew(s: seq<int>, i: nat)
    requires NoRepeats(s) && i < |s|
    ensures s[i] !in s[..i] && s[..i + 1] == s[..i] + [s[i]]
  {
  }

  /** The elements of a list that occur in another one, in their own order. */
  function Filter(s: seq<int>, keep: seq<int>, n: nat): (r: seq<int>)
    requires n <= |s|
    ensures forall y :: y in r <==> y in s[..n] && y in keep
  {
    if n == 0 then []
    else
      assert s[..n] == s[..n - 1] + [s[n - 1]];
      var r := Filter(s, keep, n - 1);
      if s[n - 1] in keep then r + [s[n - 1]] else r
  }

  lemma {:induction false} FilterNoRepeats(s: seq<int>, keep: seq<int>, n: nat)
    requires n <= |s| && NoRepeats(s)
    ensures NoRepeats(Filter(s, keep, n))
  {
    if n > 0 { FilterNoRepeats(s, keep, n - 1); }
  }

  lemma {:induction false} FilterSame(s: seq<int>, keep: seq<int>, other: seq<int>, n: nat)
    requires n <= |s| && forall y :: y in keep <==> y in other
    ensures Filter(s, keep, n) == Filter(s, other, n)
  {
    if n > 0 { FilterSame(s, keep, other, n - 1); }
  }

  predicate Ascending(s: seq<int>) {
    forall i, j :: 0 <= i < j < |s| ==> s[i] <= s[j]
  }

  function AscendingPosition(s: seq<int>, x: int, n: nat): (p: nat)
    requires Ascending(s) && n <= |s|
    ensures p <= n && (forall i :: 0 <= i < p ==> s[i] <= x) && (forall i :: p <= i < n ==> s[i] > x)
  {
    if n == 0 then 0 else if s[n - 1] <= x then n else AscendingPosition(s, x, n - 1)
  }

  function Insert(s: seq<int>, x: int): (r: seq<int>)
    requires Ascending(s)
    ensures Ascending(r) && forall y :: y in r <==> y in s || y == x
  {
    var p := AscendingPosition(s, x, |s|);
    assert s == s[..p] + s[p..];
    s[..p] + [x] + s[p..]
  }

  /** A list in ascending order, repeats kept. */
  function Sort(s: seq<int>): (r: seq<int>)
    ensures Ascending(r) && forall y :: y in r <==> y in s
  {
    var n := |s| - 1;
    if s == [] then []
    else
      assert s == s[..n] + [s[n]];
      Insert(Sort(s[..n]), s[n])
  }

  lemma InsertKeeps(s: seq<int>, x: int)
    requires Ascending(s)
    ensures multiset(Insert(s, x)) == multiset(s) + multiset{x}
  {
    var p := AscendingPosition(s, x, |s|);
    assert s == s[..p] + s[p..];
  }

  lemma {:induction false} SortKeeps(s: seq<int>)
    ensures multiset(Sort(s)) == multiset(s)
  {
    var n := |s| - 1;
    if s != [] {
      assert s == s[..n] + [s[n]];
      SortKeeps(s[..n]);
      InsertKeeps(Sort(s[..n]), s[n]);
    }
  }

  lemma InsertIncreases(s: seq<int>, x: int)
    requires Increasing(s) && x !in s
    ensures Increasing(Insert(s, x))
  {
    var p := AscendingPosition(s, x, |s|);
    assert forall i :: 0 <= i < p ==> s[i] < x;
  }

  lemma {:induction false} SortIncreases(s: seq<int>)
    requires NoRepeats(s)
    ensures Increasing(Sort(s))
  {
    var n := |s| - 1;
    if s != [] {
      assert s == s[..n] + [s[n]];
      SortIncreases(s[..n]);
      assert s[n] !in s[..n];
      InsertIncreases(Sort(s[..n]), s[n]);
    }
  }

  // ---------- pools of the candidates ----------

  function Affinity(d: DeviceInfo, npu: int): seq<int> {
    if npu in d.affinity then d.affinity[npu] else []
  }

  /** The CPUs near an NPU that this process may use. */
  function Base(d: DeviceInfo, npu: int): seq<int> {
    Filter(Affinity(d, npu), d.allowed, |Affinity(d, npu)|)
  }

  /** NPUs of this process always take part; others when this process may use a CPU near them. */
  predicate Candidate(d: DeviceInfo, npu: int) {
    npu in d.running || Base(d, npu) != []
  }

  lemma BaseIsAny(d: DeviceInfo, npu: int)
    ensures Base(d, npu) != [] <==> exists cpu :: cpu in Affinity(d, npu) && cpu in d.allowed
  {
    var near := Affinity(d, npu);
    assert near[..|near|] == near;
    var base := Base(d, npu);
    if base != [] {
      var cpu := base[0];
      assert cpu in base;
      assert cpu in Affinity(d, npu) && cpu in d.allowed;
    }
    assert forall cpu :: cpu in near && cpu in d.allowed ==> cpu in base;
  }

  function Candidates(d: DeviceInfo, n: nat): (r: seq<int>)
    requires n <= |d.allLogic|
    ensures forall y :: y in r <==> y in d.allLogic[..n] && Candidate(d, y)
  {
    if n == 0 then []
    else
      assert d.allLogic[..n] == d.allLogic[..n - 1] + [d.allLogic[n - 1]];
      var r := Candidates(d, n - 1);
      if Candidate(d, d.allLogic[n - 1]) then r + [d.allLogic[n - 1]] else r
  }

  lemma {:induction false} CandidatesNoRepeats(d: DeviceInfo, n: nat)
    requires n <= |d.allLogic| && NoRepeats(d.allLogic)
    ensures NoRepeats(Candidates(d, n))
  {
    if n > 0 { CandidatesNoRepeats(d, n - 1); }
  }

  function FirstMissing(cpuNode: map<int, int>, cpus: seq<int>, n: nat): (r: Option<int>)
    requires n <= |cpus|
    ensures r.None? <==> forall i :: 0 <= i < n ==> cpus[i] in cpuNode
  {
    if n == 0 then None
    else
      var r := FirstMissing(cpuNode, cpus, n - 1);
      if r.None? && cpus[n - 1] !in cpuNode then Some(cpus[n - 1]) else r
  }

  lemma {:induction false} MissingStays(cpuNode: map<int, int>, cpus: seq<int>, k: nat, m: nat)
    requires k <= m <= |cpus| && FirstMissing(cpuNode, cpus, k).Some?
    ensures FirstMissing(cpuNode, cpus, m) == FirstMissing(cpuNode, cpus, k)
  {
    if k < m { MissingStays(cpuNode, cpus, k, m - 1); }
  }

  function NodesOf(cpuNode: map<int, int>, cpus: seq<int>, n: nat): set<int>
    requires n <= |cpus| && forall i :: 0 <= i < n ==> cpus[i] in cpuNode
  {
    if n == 0 then {} else NodesOf(cpuNode, cpus, n - 1) + {cpuNode[cpus[n - 1]]}
  }

  lemma {:induction false} OneNode(cpuNode: map<int, int>, cpus: seq<int>, n: nat)
    requires 0 < n <= |cpus| && forall i :: 0 <= i < n ==> cpus[i] in cpuNode
    ensures cpuNode[cpus[0]] in NodesOf(cpuNode, cpus, n)
    ensures NodesOf(cpuNode, cpus, n) == {cpuNode[cpus[0]]} <==>
            forall i :: 0 <= i < n ==> cpuNode[cpus[i]] == cpuNode[cpus[0]]
  {
    if n > 1 {
      OneNode(cpuNode, cpus, n - 1);
      assert cpuNode[cpus[n - 1]] in NodesOf(cpuNode, cpus, n);
    }
  }

  predicate OnOneNode(cpuNode: map<int, int>, cpus: seq<int>)
    requires cpus != [] && forall i :: 0 <= i < |cpus| ==> cpus[i] in cpuNode
  {
    forall i :: 0 <= i < |cpus| ==> cpuNode[cpus[i]] == cpuNode[cpus[0]]
  }

  type NumaMap = map<int, seq<int>>

  /** Look up a NUMA node; a node without CPUs gets an empty entry, which later calls count. */
  function Touch(numa: NumaMap, node: int): (r: NumaMap)
    ensures node in r && r.Keys == numa.Keys + {node}
  {
    if node in numa then numa else numa[node := []]
  }

  datatype Extended = Extended(numa: NumaMap, cpus: Result<seq<int>, Error>)

  /** Add the allowed CPUs of the next NUMA node when all CPUs are on one node. */
  function Extend(cpuNode: map<int, int>, numa: NumaMap, cpus: seq<int>, allowed: seq<int>): Extended
    requires numa != map[]
  {
    if cpus == [] then Extended(numa, Ok([]))
    else
      var missing := FirstMissing(cpuNode, cpus, |cpus|);
      if missing.Some? then Extended(numa, Err(MissingKey(missing.value)))
      else if !OnOneNode(cpuNode, cpus) then Extended(numa, Ok(cpus))
      else
        var next := (cpuNode[cpus[0]] + 1) % |numa|;
        var touched := Touch(numa, next);
        var added := Filter(touched[next], allowed, |touched[next]|);
        Extended(touched, Ok(SortDedup(cpus + added)))
  }

  /** CPUs of one node are joined, in increasing order, by exactly the allowed CPUs of the next
      node; CPUs of several nodes stay as they are; a CPU without a node is an error. */
  lemma ExtendAddsNextNode(cpuNode: map<int, int>, numa: NumaMap, cpus: seq<int>, allowed: seq<int>)
    requires numa != map[] && cpus != []
    ensures var e := Extend(cpuNode, numa, cpus, allowed);
            && (e.cpus.Ok? <==> forall i :: 0 <= i < |cpus| ==> cpus[i] in cpuNode)
            && (e.cpus.Ok? && !OnOneNode(cpuNode, cpus) ==> e == Extended(numa, Ok(cpus)))
            && (e.cpus.Ok? && OnOneNode(cpuNode, cpus) ==>
                  var next := (cpuNode[cpus[0]] + 1) % |numa|;
                  && e.numa == (if next in numa then numa else numa[next := []])
                  && Increasing(e.cpus.value)
                  && forall cpu :: cpu in e.cpus.value <==>
                       cpu in cpus || (cpu in allowed && next in numa && cpu in numa[next]))
  {
    var e := Extend(cpuNode, numa, cpus, allowed);
    if e.cpus.Ok? && OnOneNode(cpuNode, cpus) {
      var next := (cpuNode[cpus[0]] + 1) % |numa|;
      var near := Touch(numa, next)[next];
      assert near[..|near|] == near;
      assert e.cpus.value == SortDedup(cpus + Filter(near, allowed, |near|));
    }
  }

  datatype Progress = Progress(numa: NumaMap, pools: map<int, seq<int>>, error: Option<Error>)

  function PoolStep(d: DeviceInfo, cpuNode: map<int, int>, p: Progress, npu: int): (r: Progress)
    requires p.numa != map[]
    ensures r.numa != map[]
    ensures r.error.None? ==> p.error.None? && Base(d, npu) != [] && r.pools.Keys == p.pools.Keys + {npu}
  {
    if p.error.Some? then p
    else if Base(d, npu) == [] then p.(error := Some(AffinityConflict))
    else
      var e := Extend(cpuNode, p.numa, Base(d, npu), d.allowed);
      if e.cpus.Err? then p.(error := Some(e.cpus.error))
      else Progress(e.numa, p.pools[npu := e.cpus.value], None)
  }

  /** The pools of the first n candidates, up to the first error. */
  function Pools(d: DeviceInfo, cpuNode: map<int, int>, numa: NumaMap, npus: seq<int>, n: nat): (r: Progress)
    requires numa != map[] && n <= |npus|
    ensures r.numa != map[]
    ensures r.error.None? ==> forall i :: 0 <= i < n ==> npus[i] in r.pools
  {
    if n == 0 then Progress(numa, map[], None)
    else PoolStep(d, cpuNode, Pools(d, cpuNode, numa, npus, n - 1), npus[n - 1])
  }

  lemma OneKeyMore(before: map<int, seq<int>>, after: map<int, seq<int>>, npus: seq<int>, n: nat)
    requires 0 < n <= |npus| && after.Keys == before.Keys + {npus[n - 1]}
    requires forall npu :: npu in npus[..n - 1] <==> npu in before
    ensures forall npu :: npu in npus[..n] <==> npu in after
  {
    assert npus[..n] == npus[..n - 1] + [npus[n - 1]];
    assert forall npu :: npu in after <==> npu in before || npu == npus[n - 1];
  }

  lemma {:induction false} PoolsKeys(d: DeviceInfo, cpuNode: map<int, int>, numa: NumaMap, npus: seq<int>, n: nat)
    requires numa != map[] && n <= |npus|
    ensures var p := Pools(d, cpuNode, numa, npus, n);
            p.error.None? ==> forall npu :: npu in npus[..n] <==> npu in p.pools
  {
    if n > 0 {
      PoolsKeys(d, cpuNode, numa, npus, n - 1);
      var before, after := Pools(d, cpuNode, numa, npus, n - 1), Pools(d, cpuNode, numa, npus, n);
      if after.error.None? { OneKeyMore(before.pools, after.pools, npus, n); }
    }
  }

  // ---------- dividing a pool among the NPUs that have it ----------

  /** The NPUs that have a given pool, in candidate order. */
  function Members(pools: map<int, seq<int>>, npus: seq<int>, pool: seq<int>, n: nat): (r: seq<int>)
    requires n <= |npus|
    ensures forall y :: y in r <==> y in npus[..n] && y in pools && pools[y] == pool
  {
    if n == 0 then []
    else
      assert npus[..n] == npus[..n - 1] + [npus[n - 1]];
      var r := Members(pools, npus, pool, n - 1);
      if npus[n - 1] in pools && pools[npus[n - 1]] == pool then r + [npus[n - 1]] else r
  }

  lemma {:induction false} MembersNoRepeats(pools: map<int, seq<int>>, npus: seq<int>, pool: seq<int>, n: nat)
    requires n <= |npus| && NoRepeats(npus)
    ensures NoRepeats(Members(pools, npus, pool, n))
  {
    if n > 0 { MembersNoRepeats(pools, npus, pool, n - 1); }
  }

  /** The NPUs of each pool, filled in one by one. */
  function Groups(pools: map<int, seq<int>>, npus: seq<int>, n: nat): map<seq<int>, seq<int>>
    requires n <= |npus| && forall npu :: npu in npus ==> npu in pools
  {
    if n == 0 then map[]
    else
      var g, pool := Groups(pools, npus, n - 1), pools[npus[n - 1]];
      g[pool := (if pool in g then g[pool] else []) + [npus[n - 1]]]
  }

  lemma {:induction false} GroupsAreMembers(pools: map<int, seq<int>>, npus: seq<int>, n: nat, pool: seq<int>)
    requires n <= |npus| && forall npu :: npu in npus ==> npu in pools
    ensures pool in Groups(pools, npus, n) <==> Members(pools, npus, pool, n) != []
    ensures pool in Groups(pools, npus, n) ==> Groups(pools, npus, n)[pool] == Members(pools, npus, pool, n)
  {
    if n > 0 { GroupsAreMembers(pools, npus, n - 1, pool); }
  }

  lemma {:induction false} MarksAreOrdered(per: nat, i: nat, j: nat)
    requires i <= j
    ensures Mark(per, i) <= Mark(per, j)
    ensures i < j ==> Mark(per, i + 1) <= Mark(per, j)
    decreases j
  {
    if i < j { MarksAreOrdered(per, i, j - 1); }
  }

  /** The i-th of k cuts of equal size ends where the next one starts; the last one takes what is
      left over. */
  function CutEnd(size: nat, k: nat, per: nat, i: nat): nat {
    if i + 1 < k then Mark(per, i + 1) else size
  }

  lemma CutsFit(size: nat, k: nat, per: nat, i: nat)
    requires i < k && Mark(per, k) <= size
    ensures Mark(per, i) <= CutEnd(size, k, per, i) <= size
  {
    MarksAreOrdered(per, i, k);
    if i + 1 < k { MarksAreOrdered(per, i + 1, k); }
  }

  function Cut(cpus: seq<int>, k: nat, per: nat, i: nat): (r: seq<int>)
    requires i < k && Mark(per, k) <= |cpus|
    ensures forall cpu :: cpu in r ==> cpu in cpus
  {
    CutsFit(|cpus|, k, per, i);
    cpus[Mark(per, i)..CutEnd(|cpus|, k, per, i)]
  }

  function CutOwner(k: nat, per: nat, j: nat): (i: nat)
    requires k > 0
    ensures i < k && Mark(per, i) <= j && (i < k - 1 ==> j < Mark(per, i + 1))
  {
    if k == 1 || Mark(per, k - 1) <= j then k - 1 else CutOwner(k - 1, per, j)
  }

  lemma OneCut(k: nat, per: nat, i: nat, j: nat)
    requires i < k
    ensures Mark(per, i) <= j && (i < k - 1 ==> j < Mark(per, i + 1)) <==> i == CutOwner(k, per, j)
  {
    var o := CutOwner(k, per, j);
    if i < o { MarksAreOrdered(per, i, o); }
    if o < i { MarksAreOrdered(per, o, i); }
  }

  lemma {:induction false} NoMark(i: nat)
    ensures Mark(0, i) == 0
  {
    if i > 0 { NoMark(i - 1); }
  }

  lemma {:induction false} MarkGrows(per: nat, i: nat)
    ensures Mark(per + 1, i) == Mark(per, i) + i
  {
    if i > 0 { MarkGrows(per, i - 1); }
  }

  lemma {:induction false} QuotientFits(size: nat, k: nat)
    requires k > 0
    ensures Mark(Quotient(size, k), k) <= size
    decreases size
  {
    if size < k {
      NoMark(k);
    } else {
      QuotientFits(size - k, k);
      MarkGrows(Quotient(size - k, k), k);
    }
  }

  /** How many CPUs each of k members gets at least. */
  function PerMember(size: nat, k: nat): (per: nat)
    requires k > 0
    ensures Mark(per, k) <= size
  {
    QuotientFits(size, k);
    Quotient(size, k)
  }

  /** What an NPU gets: a pool of its own as it stands, or its cut of the sorted shared pool. */
  function Share(pool: seq<int>, members: seq<int>, i: nat): (r: seq<int>)
    requires i < |members|
    ensures forall cpu :: cpu in r ==> cpu in pool
  {
    var sorted, k := Sort(pool), |members|;
    if k == 1 then pool else Cut(sorted, k, PerMember(|sorted|, k), i)
  }

  function IndexIn(s: seq<int>, x: int, n: nat): (i: nat)
    requires n <= |s| && x in s[..n]
    ensures i < n && s[i] == x
  {
    if s[n - 1] == x then n - 1 else IndexIn(s, x, n - 1)
  }

  function ShareOf(pools: map<int, seq<int>>, npus: seq<int>, npu: int): (r: seq<int>)
    requires npu in npus && npu in pools
    ensures forall cpu :: cpu in r ==> cpu in pools[npu]
  {
    var members := Members(pools, npus, pools[npu], |npus|);
    assert npus[..|npus|] == npus && members[..|members|] == members;
    Share(pools[npu], members, IndexIn(members, npu, |members|))
  }

  lemma ShareOfMember(pools: map<int, seq<int>>, npus: seq<int>, pool: seq<int>, i: nat)
    requires NoRepeats(npus) && i < |Members(pools, npus, pool, |npus|)|
    ensures var members := Members(pools, npus, pool, |npus|);
            && members[i] in npus && members[i] in pools
            && ShareOf(pools, npus, members[i]) == Share(pool, members, i)
  {
    var members := Members(pools, npus, pool, |npus|);
    assert npus[..|npus|] == npus && members[..|members|] == members;
    assert members[i] in members;
    MembersNoRepeats(pools, npus, pool, |npus|);
    var j := IndexIn(members, members[i], |members|);
    assert members[j] == members[i] && j == i;
  }

  // ---------- what a division keeps ----------

  /** Cuts hold what their positions hold. */
  lemma CutHolds(cpus: seq<int>, k: nat, per: nat, i: nat, j: nat)
    requires i < k && Mark(per, k) <= |cpus| && j < |cpus|
    ensures CutOwner(k, per, j) == i ==> cpus[j] in Cut(cpus, k, per, i)
  {
    CutsFit(|cpus|, k, per, i);
    var cut := Cut(cpus, k, per, i);
    if CutOwner(k, per, j) == i { assert cut[j - Mark(per, i)] == cpus[j]; }
  }

  lemma CutPosition(cpus: seq<int>, k: nat, per: nat, i: nat, cpu: int) returns (j: nat)
    requires i < k && Mark(per, k) <= |cpus| && cpu in Cut(cpus, k, per, i)
    ensures j < |cpus| && cpus[j] == cpu && CutOwner(k, per, j) == i
  {
    CutsFit(|cpus|, k, per, i);
    var cut := Cut(cpus, k, per, i);
    var n :| 0 <= n < |cut| && cut[n] == cpu;
    j := Mark(per, i) + n;
    OneCut(k, per, i, j);
  }

  function OwnerOf(sorted: seq<int>, k: nat, j: nat): (i: nat)
    requires k > 0
    ensures i < k
  {
    CutOwner(k, PerMember(|sorted|, k), j)
  }

  lemma ShareHolds(pool: seq<int>, members: seq<int>, i: nat, j: nat)
    requires i < |members| && j < |Sort(pool)| && OwnerOf(Sort(pool), |members|, j) == i
    ensures Sort(pool)[j] in Share(pool, members, i)
  {
    var sorted, k := Sort(pool), |members|;
    assert sorted[j] in sorted;
    if k > 1 { CutHolds(sorted, k, PerMember(|sorted|, k), i, j); }
  }

  lemma SharePosition(pool: seq<int>, members: seq<int>, i: nat, cpu: int) returns (j: nat)
    requires i < |members| && cpu in Share(pool, members, i)
    ensures j < |Sort(pool)| && Sort(pool)[j] == cpu && OwnerOf(Sort(pool), |members|, j) == i
  {
    var sorted, k := Sort(pool), |members|;
    if k == 1 {
      assert cpu in sorted;
      j :| 0 <= j < |sorted| && sorted[j] == cpu;
    } else {
      j := CutPosition(sorted, k, PerMember(|sorted|, k), i, cpu);
    }
  }

  /** What the first n members of a group get, one after the other. */
  function SharedOut(pool: seq<int>, members: seq<int>, n: nat): seq<int>
    requires n <= |members|
  {
    if n == 0 then [] else SharedOut(pool, members, n - 1) + Share(pool, members, n - 1)
  }

  lemma CutJoins(cpus: seq<int>, k: nat, per: nat, i: nat)
    requires i < k && Mark(per, k) <= |cpus|
    ensures Mark(per, i) <= CutEnd(|cpus|, k, per, i) <= |cpus|
    ensures cpus[..Mark(per, i)] + Cut(cpus, k, per, i) == cpus[..CutEnd(|cpus|, k, per, i)]
  {
    CutsFit(|cpus|, k, per, i);
  }

  function CutsOut(cpus: seq<int>, k: nat, per: nat, n: nat): seq<int>
    requires n <= k && Mark(per, k) <= |cpus|
  {
    if n == 0 then [] else CutsOut(cpus, k, per, n - 1) + Cut(cpus, k, per, n - 1)
  }

  lemma {:induction false} CutsAddUp(cpus: seq<int>, k: nat, per: nat, n: nat)
    requires n < k && Mark(per, k) <= |cpus|
    ensures Mark(per, n) <= |cpus| && CutsOut(cpus, k, per, n) == cpus[..Mark(per, n)]
  {
    MarksAreOrdered(per, n, k);
    if n > 0 {
      CutsAddUp(cpus, k, per, n - 1);
      CutJoins(cpus, k, per, n - 1);
      assert CutEnd(|cpus|, k, per, n - 1) == Mark(per, n);
    }
  }

  lemma AllCutsAddUp(cpus: seq<int>, k: nat, per: nat)
    requires k > 0 && Mark(per, k) <= |cpus|
    ensures CutsOut(cpus, k, per, k) == cpus
  {
    CutsAddUp(cpus, k, per, k - 1);
    CutJoins(cpus, k, per, k - 1);
    var lo := Mark(per, k - 1);
    assert CutsOut(cpus, k, per, k) == cpus[..lo] + Cut(cpus, k, per, k - 1);
    assert cpus[..CutEnd(|cpus|, k, per, k - 1)] == cpus;
  }

  lemma {:induction false} SharesAreCuts(pool: seq<int>, members: seq<int>, n: nat, sorted: seq<int>, per: nat)
    requires 1 < |members| && n <= |members| && sorted == Sort(pool) && per == PerMember(|sorted|, |members|)
    ensures SharedOut(pool, members, n) == CutsOut(sorted, |members|, per, n)
  {
    if n > 0 { SharesAreCuts(pool, members, n - 1, sorted, per); }
  }

  /** A division gives out every occurrence of every CPU of the pool, and nothing else. */
  lemma SharesAddUp(pool: seq<int>, members: seq<int>)
    requires members != []
    ensures multiset(SharedOut(pool, members, |members|)) == multiset(pool)
  {
    if |members| == 1 {
      assert SharedOut(pool, members, 0) == [] && SharedOut(pool, members, 1) == pool;
    } else {
      var per := PerMember(|Sort(pool)|, |members|);
      SharesAreCuts(pool, members, |members|, Sort(pool), per);
      AllCutsAddUp(Sort(pool), |members|, per);
      SortKeeps(pool);
    }
  }

  /** The CPUs on both sides of the i-th cut differ. */
  predicate CleanAt(sorted: seq<int>, k: nat, i: nat)
    requires i < k
  {
    var b := Mark(PerMember(|sorted|, k), i);
    0 < b < |sorted| ==> sorted[b - 1] != sorted[b]
  }

  /** No cut separates two occurrences of one CPU. */
  predicate CleanCuts(sorted: seq<int>, k: nat) {
    forall i :: 0 <= i < k ==> CleanAt(sorted, k, i)
  }

  ghost predicate SharesApart(pool: seq<int>, members: seq<int>) {
    forall i, j, cpu :: 0 <= i < j < |members| && cpu in Share(pool, members, i) ==> cpu !in Share(pool, members, j)
  }

  lemma BoundaryOwners(k: nat, per: nat, i: nat)
    requires 0 < i < k && 0 < per
    ensures Mark(per, i) > 0 && CutOwner(k, per, Mark(per, i) - 1) == i - 1 && CutOwner(k, per, Mark(per, i)) == i
  {
    OneCut(k, per, i - 1, Mark(per, i) - 1);
    OneCut(k, per, i, Mark(per, i));
  }

  lemma BoundaryShared(pool: seq<int>, members: seq<int>, sorted: seq<int>, i: nat, b: nat)
    requires 0 < i < |members| && sorted == Sort(pool) && 0 < b < |sorted| && sorted[b - 1] == sorted[b]
    requires OwnerOf(sorted, |members|, b - 1) == i - 1 && OwnerOf(sorted, |members|, b) == i
    ensures !SharesApart(pool, members)
  {
    ShareHolds(pool, members, i - 1, b - 1);
    ShareHolds(pool, members, i, b);
  }

  lemma DirtyCutCollides(pool: seq<int>, members: seq<int>, i: nat)
    requires i < |members| && !CleanAt(Sort(pool), |members|, i)
    ensures !SharesApart(pool, members)
  {
    var sorted, k := Sort(pool), |members|;
    var per := PerMember(|sorted|, k);
    NoMark(i);
    BoundaryOwners(k, per, i);
    BoundaryShared(pool, members, sorted, i, Mark(per, i));
  }

  /** A CPU in two cuts sits on both sides of one of them. */
  lemma CollisionIsDirty(sorted: seq<int>, k: nat, p: nat, q: nat)
    requires Ascending(sorted) && k > 0 && p < |sorted| && q < |sorted| && sorted[p] == sorted[q]
    requires OwnerOf(sorted, k, p) < OwnerOf(sorted, k, q)
    ensures !CleanCuts(sorted, k)
  {
    var per := PerMember(|sorted|, k);
    var i := OwnerOf(sorted, k, p) + 1;
    MarksAreOrdered(per, i, OwnerOf(sorted, k, q));
    var b := Mark(per, i);
    assert p < b <= q;
    assert sorted[p] <= sorted[b - 1] <= sorted[b] <= sorted[q];
    assert !CleanAt(sorted, k, i);
  }

  /** The members of a group get no CPU in common exactly when no cut falls between two occurrences
      of one CPU; a pool that names every CPU once is always divided. */
  lemma DividedIff(pool: seq<int>, members: seq<int>)
    ensures SharesApart(pool, members) <==> CleanCuts(Sort(pool), |members|)
    ensures NoRepeats(pool) ==> SharesApart(pool, members)
  {
    var sorted, k := Sort(pool), |members|;
    if !CleanCuts(sorted, k) {
      var i :| 0 <= i < k && !CleanAt(sorted, k, i);
      DirtyCutCollides(pool, members, i);
    }
    if !SharesApart(pool, members) {
      var i, j, cpu :| 0 <= i < j < k && cpu in Share(pool, members, i) && cpu in Share(pool, members, j);
      var p := SharePosition(pool, members, i, cpu);
      var q := SharePosition(pool, members, j, cpu);
      CollisionIsDirty(sorted, k, p, q);
    }
    if NoRepeats(pool) {
      SortIncreases(pool);
      assert CleanCuts(sorted, k);
    }
  }

  predicate InGroup(pools: map<int, seq<int>>, npus: seq<int>, npu: int, x: int)
    requires npu in pools
  {
    x in npus && x in pools && pools[x] == pools[npu]
  }

  /** No two NPUs with the pool of `npu` get a CPU in common. */
  ghost predicate GroupApart(pools: map<int, seq<int>>, npus: seq<int>, npu: int)
    requires npu in pools
  {
    forall x, y, cpu :: InGroup(pools, npus, npu, x) && InGroup(pools, npus, npu, y) ==>
      cpu in ShareOf(pools, npus, x) ==> cpu in ShareOf(pools, npus, y) ==> x == y
  }

  predicate CleanGroup(pools: map<int, seq<int>>, npus: seq<int>, npu: int)
    requires npu in pools
  {
    CleanCuts(Sort(pools[npu]), |Members(pools, npus, pools[npu], |npus|)|)
  }

  lemma MemberPosition(pools: map<int, seq<int>>, npus: seq<int>, npu: int) returns (i: nat)
    requires NoRepeats(npus) && npu in npus && npu in pools
    ensures var members := Members(pools, npus, pools[npu], |npus|);
            i < |members| && members[i] == npu && ShareOf(pools, npus, npu) == Share(pools[npu], members, i)
  {
    var members := Members(pools, npus, pools[npu], |npus|);
    assert npus[..|npus|] == npus && members[..|members|] == members;
    i := IndexIn(members, npu, |members|);
  }

  lemma GroupApartMeansShares(pools: map<int, seq<int>>, npus: seq<int>, npu: int, i: nat, j: nat, cpu: int)
    requires NoRepeats(npus) && npu in pools && GroupApart(pools, npus, npu)
    requires i < j < |Members(pools, npus, pools[npu], |npus|)|
    requires cpu in Share(pools[npu], Members(pools, npus, pools[npu], |npus|), i)
    ensures cpu !in Share(pools[npu], Members(pools, npus, pools[npu], |npus|), j)
  {
    var members := Members(pools, npus, pools[npu], |npus|);
    MembersNoRepeats(pools, npus, pools[npu], |npus|);
    ShareOfMember(pools, npus, pools[npu], i);
    ShareOfMember(pools, npus, pools[npu], j);
    var x, y := members[i], members[j];
    assert x in members && y in members && x != y;
    assert InGroup(pools, npus, npu, x) && InGroup(pools, npus, npu, y);
  }

  lemma SharesApartMeansGroup(pools: map<int, seq<int>>, npus: seq<int>, npu: int, x: int, y: int, cpu: int)
    requires NoRepeats(npus) && npu in pools && SharesApart(pools[npu], Members(pools, npus, pools[npu], |npus|))
    requires InGroup(pools, npus, npu, x) && InGroup(pools, npus, npu, y)
    requires cpu in ShareOf(pools, npus, x) && cpu in ShareOf(pools, npus, y)
    ensures x == y
  {
    var i := MemberPosition(pools, npus, x);
    var j := MemberPosition(pools, npus, y);
  }

  lemma SharesApartGroupApart(pools: map<int, seq<int>>, npus: seq<int>, npu: int)
    requires NoRepeats(npus) && npu in pools
    ensures GroupApart(pools, npus, npu) <==> SharesApart(pools[npu], Members(pools, npus, pools[npu], |npus|))
  {
    var members := Members(pools, npus, pools[npu], |npus|);
    if GroupApart(pools, npus, npu) {
      forall i, j, cpu | 0 <= i < j < |members| && cpu in Share(pools[npu], members, i)
        ensures cpu !in Share(pools[npu], members, j)
      {
        GroupApartMeansShares(pools, npus, npu, i, j, cpu);
      }
    }
    if SharesApart(pools[npu], members) {
      forall x, y, cpu | InGroup(pools, npus, npu, x) && InGroup(pools, npus, npu, y) &&
                         cpu in ShareOf(pools, npus, x) && cpu in ShareOf(pools, npus, y)
        ensures x == y
      {
        SharesApartMeansGroup(pools, npus, npu, x, y, cpu);
      }
    }
  }

  /** NPUs with equal pools divide the pool among them, occurrence by occurrence, and share no CPU
      exactly when no cut falls between two occurrences of one CPU. */
  lemma GroupDividesItsPool(pools: map<int, seq<int>>, npus: seq<int>, npu: int)
    requires NoRepeats(npus) && npu in npus && npu in pools
    ensures var members := Members(pools, npus, pools[npu], |npus|);
            members != [] && multiset(SharedOut(pools[npu], members, |members|)) == multiset(pools[npu])
    ensures GroupApart(pools, npus, npu) <==> CleanGroup(pools, npus, npu)
    ensures NoRepeats(pools[npu]) ==> CleanGroup(pools, npus, npu)
  {
    var members := Members(pools, npus, pools[npu], |npus|);
    var i := MemberPosition(pools, npus, npu);
    SharesAddUp(pools[npu], members);
    DividedIff(pools[npu], members);
    SharesApartGroupApart(pools, npus, npu);
  }

  /** Every CPU of a pool is in the share of some NPU that has the pool. */
  lemma SomeMemberHolds(pools: map<int, seq<int>>, npus: seq<int>, npu: int, cpu: int) returns (holder: int)
    requires NoRepeats(npus) && npu in npus && npu in pools && cpu in pools[npu]
    ensures holder in npus && holder in pools && pools[holder] == pools[npu] && cpu in ShareOf(pools, npus, holder)
  {
    var pool := pools[npu];
    var members := Members(pools, npus, pool, |npus|);
    var at := MemberPosition(pools, npus, npu);
    assert cpu in Sort(pool);
    var j :| 0 <= j < |Sort(pool)| && Sort(pool)[j] == cpu;
    var i := OwnerOf(Sort(pool), |members|, j);
    ShareHolds(pool, members, i, j);
    ShareOfMember(pools, npus, pool, i);
    holder := members[i];
    assert holder in members;
  }
}
