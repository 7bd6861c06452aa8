/** The mapped-host registry as the object whose fields every call updates in place. */
module MappedHostPools {
  import opened Arithmetic
  import opened Wrappers
  import opened HostRanges
  import opened Registry
  import opened RegistryInvariant
  import opened RegistryRuns

  /** What the statistics report; the counters arrive as signed 64-bit numbers. */
  datatype PoolStats = PoolStats(
    mappingCount: nat, mappedBytes: int, bytesPeak: int, maxRegion: int, registerCalls: int, bytesTotal: int,
    unregisterCalls: int, ownedCount: nat, borrowedCount: nat, borrowedTotal: int, activeHandles: nat,
    storedHandles: nat, explicitRegisters: int, explicitUnregisters: int, pid: nat)

  function AsSigned(x: U64): int {
    if x <= MAX_I64 then x else x - TWO64
  }

  function MappedBytesTo(ms: seq<Mapping>, n: nat): nat
    requires n <= |ms|
  {
    if n == 0 then 0 else MappedBytesTo(ms, n - 1) + ms[n - 1].size
  }

  function MappedBytes(ms: seq<Mapping>): nat {
    MappedBytesTo(ms, |ms|)
  }

  function LargestTo(ms: seq<Mapping>, n: nat): U64
    requires n <= |ms|
  {
    if n == 0 then 0 else Max(LargestTo(ms, n - 1), ms[n - 1].size)
  }

  /** The size of the largest mapping. */
  function Largest(ms: seq<Mapping>): U64 {
    LargestTo(ms, |ms|)
  }

  lemma {:induction false} LargestIsAttained(ms: seq<Mapping>, n: nat)
    requires n <= |ms|
    ensures forall i :: 0 <= i < n ==> ms[i].size <= LargestTo(ms, n)
    ensures LargestTo(ms, n) == 0 || exists i :: 0 <= i < n && ms[i].size == LargestTo(ms, n)
  {
    if n > 0 {
      LargestIsAttained(ms, n - 1);
      assert ms[n - 1].size == LargestTo(ms, n) || LargestTo(ms, n - 1) == LargestTo(ms, n);
    }
  }

  function Active(handles: map<int, Lease>): set<int> {
    set h | h in handles && handles[h].active
  }

  lemma CountOne(handles: map<int, Lease>, left: set<int>, h: int)
    requires h in left && h in handles
    ensures |Active(handles) - (left - {h})| ==
            |Active(handles) - left| + if handles[h].active then 1 else 0
  {
    if handles[h].active {
      assert Active(handles) - (left - {h}) == (Active(handles) - left) + {h};
    } else {
      assert Active(handles) - (left - {h}) == Active(handles) - left;
    }
  }

  /** The statistics of a state. */
  ghost predicate Reports(st: PoolStats, s: State, pid: nat) {
    var c := s.counters;
    && st.mappingCount == |s.mappings| && st.ownedCount == OwnedCount(s.mappings)
    && st.borrowedCount == |s.mappings| - OwnedCount(s.mappings)
    && st.mappedBytes == AsSigned(MappedBytes(s.mappings) % TWO64) && st.bytesPeak == AsSigned(c.bytesPeak)
    && st.maxRegion == AsSigned(Largest(s.mappings))
    && st.registerCalls == AsSigned(c.registerCalls) && st.bytesTotal == AsSigned(c.bytesTotal)
    && st.unregisterCalls == AsSigned(c.unregisterCalls) && st.borrowedTotal == AsSigned(c.borrowedTotal)
    && st.activeHandles == |Active(s.handles)| && st.storedHandles == |s.handles|
    && st.explicitRegisters == AsSigned(c.explicitRegisters)
    && st.explicitUnregisters == AsSigned(c.explicitUnregisters) && st.pid == pid
  }

  lemma AllAreActive(ms: seq<Mapping>, handles: map<int, Lease>)
    requires WfLeases(ms, handles)
    ensures Active(handles) == handles.Keys
  {
    forall h | h in handles ensures handles[h].active {
      assert WfLease(ms, h, handles[h]);
    }
  }

  lemma {:induction false} AllOwnedBytes(ms: seq<Mapping>, n: nat)
    requires n <= |ms|
    ensures OwnedCountTo(ms, n) <= n
    ensures OwnedCountTo(ms, n) == n ==> MappedBytesTo(ms, n) == OwnedBytesTo(ms, n)
  {
    if n > 0 { AllOwnedBytes(ms, n - 1); }
  }

  lemma CountersReported(s: State, first: int, st: PoolStats, pid: nat)
    requires CountersOk(s, first) && Reports(st, s, pid)
    ensures st.ownedCount == s.counters.registerCalls - s.counters.unregisterCalls
    ensures st.borrowedCount == 0 ==> st.mappedBytes == AsSigned(s.counters.bytesCurrent)
    ensures st.storedHandles == s.nextHandle - first - s.counters.explicitUnregisters
    ensures st.borrowedTotal == AsSigned(s.nextId - 1 - s.counters.registerCalls)
  {
    AllOwnedBytes(s.mappings, |s.mappings|);
  }

  /** What the reported numbers mean while the registry is consistent. */
  lemma StatsAreConsistent(s: State, page: int, first: int, st: PoolStats, pid: nat)
    requires Inv(s, page, first) && Reports(st, s, pid)
    ensures st.ownedCount == s.counters.registerCalls - s.counters.unregisterCalls
    ensures st.borrowedCount == 0 ==> st.mappedBytes == AsSigned(s.counters.bytesCurrent)
    ensures st.activeHandles == st.storedHandles == s.nextHandle - first - s.counters.explicitUnregisters
    ensures st.borrowedTotal == AsSigned(s.nextId - 1 - s.counters.registerCalls)
    ensures st.bytesTotal == AsSigned(RegisteredBytesTo(s.acl, |s.acl|) % TWO64)
  {
    CountersReported(s, first, st, pid);
    AllAreActive(s.mappings, s.handles);
  }

  lemma AddWraps(total: nat, size: U64)
    ensures Add64(total % TWO64, size) == (total + size) % TWO64
  {
  }

  lemma PlacedOutcomes(s: State, handle: int, env: ReleaseEnv)
    requires handle in s.handles ==> Placed(s, handle)
    ensures var (s', outcome) := Unregister(s, handle, env);
            && (outcome == Released ==> handle in s.handles && s'.handles == s.handles - {handle})
            && (outcome == NotActive <==> env.device.Some? && handle !in s.handles)
  {
    TargetOfPlaced(s, handle, env.device);
  }

  lemma ReleaseOutcomes(s: State, page: int, first: int, handle: int, env: ReleaseEnv)
    requires Inv(s, page, first)
    ensures var (s', outcome) := Unregister(s, handle, env);
            && (outcome == Released ==> handle in s.handles && s'.handles == s.handles - {handle})
            && (outcome != Released ==> s'.(acl := s.acl) == s)
            && (outcome == NotActive <==> env.device.Some? && handle !in s.handles)
  {
    if handle in s.handles { LeaseIsPlaced(s, page, handle); }
    PlacedOutcomes(s, handle, env);
    FailedReleaseChangesNothing(s, handle, env);
  }

  predicate IsLeaseOf(l: Lease, ptr: U64, bytes: U64, device: Option<nat>) {
    l.addr == ptr && l.bytes == bytes && device == Some(l.device)
  }

  class HostMappingRegistry {
    var mappings: seq<Mapping>
    var handles: map<int, Lease>
    var nextMappingId: U64
    var nextHandle: int
    var counters: Counters
    const page: int
    const pid: nat
    const firstHandle: int
    /** The ACL calls that took effect so far. */
    ghost var acl: seq<AclCall>

    ghost function Abs(): State
      reads this
    {
      State(pid, mappings, handles, nextMappingId, nextHandle, counters, acl)
    }

    ghost predicate Valid()
      reads this
    {
      Inv(Abs(), page, firstHandle)
    }

    constructor (owner: nat, pageSize: int)
      requires ValidPage(pageSize)
      ensures Valid() && Abs() == Init(owner) && page == pageSize
      ensures pid == owner && firstHandle == FirstHandle(owner)
    {
      mappings, handles := [], map[];
      nextMappingId, nextHandle := 1, FirstHandle(owner);
      counters := Counters(0, 0, 0, 0, 0, 0, 0, 0);
      page, pid, firstHandle := pageSize, owner, FirstHandle(owner);
      acl := [];
      new;
      InitKeepsInv(owner, pageSize);
    }

    // ---------- searches ----------

    /** Scan the mappings in order; the first one that contains the range decides. */
    method FindHostMapping(addr: U64, bytes: U64, device: nat) returns (r: Result<nat, LookupError>)
      ensures r == Find(mappings, addr, bytes, device)
      ensures r.Ok? ==> Holds(mappings[r.value], addr, bytes) && mappings[r.value].device == device
    {
      var i := 0;
      while i < |mappings|
        invariant 0 <= i <= |mappings|
        invariant forall j :: 0 <= j < i ==> !Holds(mappings[j], addr, bytes)
      {
        if addr >= mappings[i].base && Add64(addr, bytes) <= End64(mappings[i]) {
          FirstIs(mappings, m => Holds(m, addr, bytes), i);
          return if mappings[i].device == device then Ok(i) else Err(LookupOtherDevice);
        }
        i := i + 1;
      }
      FirstIs(mappings, m => Holds(m, addr, bytes), i);
      r := Err(NotMapped);
    }

    method FindOverlapping(addr: U64, bytes: U64) returns (k: nat)
      ensures k == FirstBlocking(mappings, addr, bytes)
      ensures k == |mappings| <==> forall j :: 0 <= j < |mappings| ==> !Blocks(mappings[j], addr, bytes)
    {
      k := 0;
      while k < |mappings| && !Blocks(mappings[k], addr, bytes)
        invariant 0 <= k <= |mappings|
        invariant forall j :: 0 <= j < k ==> !Blocks(mappings[j], addr, bytes)
      {
        k := k + 1;
      }
      FirstIs(mappings, m => Blocks(m, addr, bytes), k);
    }

    method FindById(id: U64) returns (k: nat)
      ensures k == IndexOf(mappings, id)
      ensures k == |mappings| <==> forall j :: 0 <= j < |mappings| ==> mappings[j].id != id
    {
      k := 0;
      while k < |mappings| && mappings[k].id != id
        invariant 0 <= k <= |mappings|
        invariant forall j :: 0 <= j < k ==> mappings[j].id != id
      {
        k := k + 1;
      }
      FirstIs(mappings, (m: Mapping) => m.id == id, k);
    }

    /** Resolve a source range for a gather. */
    method GetMappedDevicePtr(ptr: U64, bytes: U64, device: Option<nat>) returns (r: Result<U64, LookupError>)
      ensures r == Resolve(Abs(), page, ptr, bytes, device)
      ensures Valid() ==> forall h :: h in handles && IsLeaseOf(handles[h], ptr, bytes, device) ==>
                r == if EndsSpace(handles[h]) then Err(NotMapped) else Ok(handles[h].deviceAddr)
    {
      if Valid() {
        forall h | h in handles && IsLeaseOf(handles[h], ptr, bytes, device)
          ensures Resolve(Abs(), page, ptr, bytes, device) ==
                  if EndsSpace(handles[h]) then Err(NotMapped) else Ok(handles[h].deviceAddr)
        {
          LeaseResolves(Abs(), page, firstHandle, h);
        }
      }
      match GetHostRange(page, ptr, bytes) {
        case Err(e) =>
          r := Err(BadLookup(e));
        case Ok(range) =>
          if device.None? {
            r := Err(LookupNoDevice);
          } else {
            var found := FindHostMapping(range.addr, bytes, device.value);
            match found {
              case Err(e) => r := Err(e);
              case Ok(k) => r := Ok(DeviceAddress(mappings[k], range.addr));
            }
          }
      }
    }

    // ---------- registration ----------

    /** Take the next handle and record the lease on mapping `k`. */
    method AddLeaseTo(k: nat, addr: U64, bytes: U64, device: nat, alreadyMapped: bool)
      returns (outcome: RegisterOutcome)
      requires k < |mappings|
      modifies this
      ensures (Abs(), outcome) == AddLease(old(Abs()), k, addr, bytes, device, alreadyMapped)
    {
      if nextHandle <= 0 || nextHandle >= MAX_I64 {
        return Refused(HandlesExhausted);
      }
      var handle := nextHandle;
      var m := mappings[k];
      var lease := Lease(handle, m.id, addr, bytes, m.base, m.size, DeviceAddress(m, addr), m.owned,
                         alreadyMapped, true, pid, device);
      nextHandle := nextHandle + 1;
      mappings := mappings[k := m.(leases := Add64(m.leases, 1))];
      if handle !in handles {
        handles := handles[handle := lease];
      }
      outcome := Registered(handle);
    }

    method BorrowMapping(range: HostRange, bytes: U64, device: nat, env: RegisterEnv) returns (outcome: RegisterOutcome)
      requires env.borrowed.Some?
      modifies this
      ensures (Abs(), outcome) == CreateMapping(old(Abs()), range, bytes, device, env)
    {
      if nextMappingId == 0 || nextMappingId >= MAX_U64 {
        return Refused(IdsExhausted);
      }
      mappings := mappings + [Mapping(nextMappingId, range.addr, bytes, env.borrowed.value, device, false, 0)];
      nextMappingId := nextMappingId + 1;
      counters := counters.(borrowedTotal := Add64(counters.borrowedTotal, 1));
      outcome := AddLeaseTo(|mappings| - 1, range.addr, bytes, device, true);
    }

    method OwnMapping(range: HostRange, bytes: U64, device: nat, env: RegisterEnv) returns (outcome: RegisterOutcome)
      requires env.borrowed.None? && env.registered.Some?
      modifies this
      ensures (Abs(), outcome) == CreateMapping(old(Abs()), range, bytes, device, env)
    {
      acl := acl + [HostRegistered(range.aligned, range.size)];
      if nextMappingId == 0 || nextMappingId >= MAX_U64 {
        return Refused(IdsExhausted);
      }
      mappings := mappings + [Mapping(nextMappingId, range.aligned, range.size, env.registered.value, device, true, 0)];
      nextMappingId := nextMappingId + 1;
      var current := Add64(counters.bytesCurrent, range.size);
      counters := counters.(registerCalls := Add64(counters.registerCalls, 1),
                            bytesTotal := Add64(counters.bytesTotal, range.size),
                            bytesCurrent := current,
                            bytesPeak := if current > counters.bytesPeak then current else counters.bytesPeak);
      outcome := AddLeaseTo(|mappings| - 1, range.addr, bytes, device, false);
    }

    method RegisterPool(ptr: U64, bytes: U64, env: RegisterEnv) returns (outcome: RegisterOutcome)
      requires Valid()
      modifies this
      ensures (Abs(), outcome) == Register(old(Abs()), page, ptr, bytes, env)
      ensures Valid() <==>
              !old(Leaks(Abs(), page, ptr, bytes, env)) && !old(FillsSpace(Abs(), page, ptr, bytes, env))
    {
      RegisterKeepsInv(Abs(), page, firstHandle, ptr, bytes, env);
      outcome := RegisterLocked(ptr, bytes, env);
    }

    /** Register a range while the registry lock is held. */
    method RegisterLocked(ptr: U64, bytes: U64, env: RegisterEnv) returns (outcome: RegisterOutcome)
      modifies this
      ensures (Abs(), outcome) == Register(old(Abs()), page, ptr, bytes, env)
    {
      match GetHostRange(page, ptr, bytes) {
        case Err(e) =>
          outcome := Refused(BadRange(e));
        case Ok(range) =>
          if env.device.None? {
            return Refused(NoDevice);
          }
          counters := counters.(explicitRegisters := Add64(counters.explicitRegisters, 1));
          var found := FindHostMapping(range.addr, bytes, env.device.value);
          match found {
            case Ok(k) =>
              outcome := AddLeaseTo(k, range.addr, bytes, env.device.value, !mappings[k].owned);
            case Err(NotMapped) =>
              var b := FindOverlapping(range.addr, bytes);
              if b < |mappings| {
                outcome := Refused(if End64(mappings[b]) < mappings[b].base then CachedOverflow else PartialOverlap);
              } else if env.borrowed.Some? {
                outcome := BorrowMapping(range, bytes, env.device.value, env);
              } else if env.registered.None? {
                outcome := Refused(RegistrationFailed);
              } else {
                outcome := OwnMapping(range, bytes, env.device.value, env);
              }
            case Err(_) =>
              outcome := Refused(OtherDevice);
          }
      }
    }

    // ---------- release ----------

    /** Remove every mapping with the given id, keeping the order of the others. */
    method EraseMapping(id: U64)
      modifies this`mappings
      ensures mappings == Without(old(mappings), id)
    {
      var kept: seq<Mapping> := [];
      var i := 0;
      while i < |mappings|
        invariant 0 <= i <= |mappings| && mappings == old(mappings)
        invariant kept == WithoutTo(mappings, id, i)
      {
        if mappings[i].id != id {
          kept := kept + [mappings[i]];
        }
        i := i + 1;
      }
      mappings := kept;
    }

    /** Release a lease while the registry lock is held. */
    method ReleaseLocked(handle: int, env: ReleaseEnv) returns (outcome: ReleaseOutcome)
      modifies this
      ensures (Abs(), outcome) == Unregister(old(Abs()), handle, env)
    {
      if env.device.None? {
        return Failed(ReleaseNoDevice);
      }
      if handle !in handles || !handles[handle].active {
        return NotActive;
      }
      var k := FindById(handles[handle].mappingId);
      if k == |mappings| {
        return Failed(DanglingHandle);
      }
      var m := mappings[k];
      if m.leases == 0 {
        return Failed(BadLeaseCount);
      }
      if m.device != env.device.value {
        return Failed(ReleaseOtherDevice);
      }
      var removeMapping := m.leases == 1;
      if removeMapping {
        if !env.fenceOk {
          return Failed(FenceFailed);
        }
        acl := acl + [Fenced(m.device)];
        if m.owned {
          if !env.unmapOk {
            return Failed(UnmapFailed);
          }
          acl := acl + [HostUnregistered(m.base)];
        }
      }
      counters := counters.(explicitUnregisters := Add64(counters.explicitUnregisters, 1));
      if removeMapping {
        if m.owned {
          counters := counters.(unregisterCalls := Add64(counters.unregisterCalls, 1),
                                bytesCurrent := Sub64(counters.bytesCurrent, m.size));
        }
        EraseMapping(m.id);
      } else {
        mappings := mappings[k := m.(leases := Sub64(m.leases, 1))];
      }
      handles := handles - {handle};
      outcome := Released;
    }

    method UnregisterPool(handle: int, env: ReleaseEnv) returns (outcome: ReleaseOutcome)
      requires Valid()
      modifies this
      ensures (Abs(), outcome) == Unregister(old(Abs()), handle, env)
      ensures Valid()
      ensures outcome == Released ==> old(handle in handles) && handles == old(handles) - {handle}
      ensures outcome != Released ==> Abs().(acl := old(acl)) == old(Abs())
      ensures outcome == NotActive <==> env.device.Some? && old(handle !in handles)
    {
      UnregisterKeepsInv(Abs(), page, firstHandle, handle, env);
      ReleaseOutcomes(Abs(), page, firstHandle, handle, env);
      outcome := ReleaseLocked(handle, env);
    }

    // ---------- inspection ----------

    /** Inspect a handle: unknown once released, otherwise everything its registration recorded. */
    method Inspect(handle: int) returns (info: Option<Lease>)
      ensures info.Some? <==> handle in handles
      ensures info.Some? ==> info.value == handles[handle]
      ensures Valid() && info.Some? ==> info.value.active && info.value.owned != info.value.alreadyMapped
    {
      if Valid() && handle in handles {
        assert WfLease(mappings, handle, handles[handle]);
      }
      info := if handle in handles then Some(handles[handle]) else None;
    }

    /** One pass over the mappings: total and largest size, and how many are owned. */
    method Tally() returns (bytes: U64, largest: U64, owned: nat, borrowed: nat)
      ensures bytes == MappedBytes(mappings) % TWO64
      ensures owned == OwnedCount(mappings) && owned + borrowed == |mappings|
      ensures borrowed == 0 ==> MappedBytes(mappings) == OwnedBytes(mappings)
      ensures largest == Largest(mappings)
    {
      bytes, largest, owned, borrowed := 0, 0, 0, 0;
      var i := 0;
      while i < |mappings|
        invariant 0 <= i <= |mappings| && owned + borrowed == i
        invariant bytes == MappedBytesTo(mappings, i) % TWO64 && owned == OwnedCountTo(mappings, i)
        invariant borrowed == 0 ==> MappedBytesTo(mappings, i) == OwnedBytesTo(mappings, i)
        invariant largest == LargestTo(mappings, i)
      {
        AddWraps(MappedBytesTo(mappings, i), mappings[i].size);
        bytes := Add64(bytes, mappings[i].size);
        if mappings[i].size > largest { largest := mappings[i].size; }
        if mappings[i].owned { owned := owned + 1; } else { borrowed := borrowed + 1; }
        i := i + 1;
      }
    }

    /** One pass over the handle table. */
    method CountActive() returns (n: nat)
      ensures n == |Active(handles)|
    {
      n := 0;
      var left := handles.Keys;
      while left != {}
        invariant left <= handles.Keys && n == |Active(handles) - left|
        decreases |left|
      {
        assert (forall h :: h !in left) ==> left == {};
        var h :| h in left;
        CountOne(handles, left, h);
        if handles[h].active { n := n + 1; }
        left := left - {h};
      }
      assert Active(handles) - left == Active(handles);
    }

    /** The statistics, field by field. */
    method Stats() returns (st: PoolStats)
      ensures Reports(st, Abs(), pid)
    {
      var bytes, largest, owned, borrowed := Tally();
      var active := CountActive();
      st := PoolStats(|mappings|, AsSigned(bytes), AsSigned(counters.bytesPeak), AsSigned(largest),
                      AsSigned(counters.registerCalls), AsSigned(counters.bytesTotal),
                      AsSigned(counters.unregisterCalls), owned, borrowed, AsSigned(counters.borrowedTotal),
                      active, |handles|, AsSigned(counters.explicitRegisters),
                      AsSigned(counters.explicitUnregisters), pid);
    }
  }
}
