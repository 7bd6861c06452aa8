/** The mapped-host registry as a state machine on values.

    A state holds what the process-wide registry holds (the ordered mappings, the handle
    table, the id counters and the usage counters) and the log of the ACL calls that took
    effect.  Every answer of the ACL runtime is an argument. */
module Registry {
  import opened Wrappers
  import opened HostRanges

  datatype Mapping = Mapping(
    id: U64, base: U64, size: U64, deviceBase: U64, device: nat, owned: bool, leases: U64)

  datatype Lease = Lease(
    handle: int, mappingId: U64, addr: U64, bytes: U64, mappedBase: U64, mappedBytes: U64,
    deviceAddr: U64, owned: bool, alreadyMapped: bool, active: bool, ownerPid: nat, device: nat)

  datatype Counters = Counters(
    registerCalls: U64, bytesTotal: U64, bytesCurrent: U64, bytesPeak: U64, unregisterCalls: U64,
    borrowedTotal: U64, explicitRegisters: U64, explicitUnregisters: U64)

  datatype AclCall =
    | HostRegistered(base: U64, size: U64)
    | HostUnregistered(base: U64)
    | Fenced(device: nat)

  datatype State = State(
    pid: nat, mappings: seq<Mapping>, handles: map<int, Lease>, nextId: U64, nextHandle: int,
    counters: Counters, acl: seq<AclCall>)

  /** The first handle carries the process id in its upper half. */
  function FirstHandle(pid: nat): int {
    pid % 0x8000_0000 * 0x1_0000_0000 + 1
  }

  function Init(pid: nat): State {
    State(pid, [], map[], 1, FirstHandle(pid), Counters(0, 0, 0, 0, 0, 0, 0, 0), [])
  }

  // ---------- searches ----------

  /** The index of the first of `n` mappings that satisfies `p`, or `n` when none does. */
  function FirstOf(ms: seq<Mapping>, p: Mapping -> bool, n: nat): (k: nat)
    requires n <= |ms|
    ensures k <= n
    ensures k < n ==> p(ms[k])
    ensures forall j :: 0 <= j < k ==> !p(ms[j])
  {
    if n == 0 then 0
    else
      var k := FirstOf(ms, p, n - 1);
      if k < n - 1 || p(ms[n - 1]) then k else n
  }

  function First(ms: seq<Mapping>, p: Mapping -> bool): (k: nat)
    ensures k <= |ms|
    ensures k < |ms| ==> p(ms[k])
    ensures forall j :: 0 <= j < k ==> !p(ms[j])
  {
    FirstOf(ms, p, |ms|)
  }

  function End64(m: Mapping): U64 {
    Add64(m.base, m.size)
  }

  /** The containment test of a lookup, with the sums the machine computes. */
  predicate Holds(m: Mapping, addr: U64, bytes: U64) {
    m.base <= addr && Add64(addr, bytes) <= End64(m)
  }

  /** The overlap test of a fresh registration; a mapping whose end wrapped always blocks. */
  predicate Blocks(m: Mapping, addr: U64, bytes: U64) {
    End64(m) < m.base || (addr < End64(m) && m.base < Add64(addr, bytes))
  }

  function FirstHolding(ms: seq<Mapping>, addr: U64, bytes: U64): nat {
    First(ms, m => Holds(m, addr, bytes))
  }

  function FirstBlocking(ms: seq<Mapping>, addr: U64, bytes: U64): nat {
    First(ms, m => Blocks(m, addr, bytes))
  }

  function IndexOf(ms: seq<Mapping>, id: U64): nat {
    First(ms, (m: Mapping) => m.id == id)
  }

  function WithoutTo(ms: seq<Mapping>, id: U64, n: nat): seq<Mapping>
    requires n <= |ms|
  {
    if n == 0 then []
    else WithoutTo(ms, id, n - 1) + if ms[n - 1].id == id then [] else [ms[n - 1]]
  }

  function Without(ms: seq<Mapping>, id: U64): seq<Mapping> {
    WithoutTo(ms, id, |ms|)
  }

  function DeviceAddress(m: Mapping, addr: U64): U64 {
    Add64(m.deviceBase, Sub64(addr, m.base))
  }

  // ---------- lookup ----------

  datatype LookupError = BadLookup(error: RangeError) | LookupNoDevice | LookupOtherDevice | NotMapped

  function Find(ms: seq<Mapping>, addr: U64, bytes: U64, device: nat): (r: Result<nat, LookupError>)
    ensures r.Ok? ==> r.value < |ms|
  {
    var k := FirstHolding(ms, addr, bytes);
    if k == |ms| then Err(NotMapped)
    else if ms[k].device != device then Err(LookupOtherDevice)
    else Ok(k)
  }

  /** Resolve a host range to the address the device reads it from. */
  function Resolve(s: State, page: int, ptr: U64, bytes: U64, device: Option<nat>): Result<U64, LookupError> {
    match GetHostRange(page, ptr, bytes)
    case Err(e) => Err(BadLookup(e))
    case Ok(range) =>
      if device.None? then Err(LookupNoDevice)
      else
        match Find(s.mappings, range.addr, bytes, device.value)
        case Err(e) => Err(e)
        case Ok(k) => Ok(DeviceAddress(s.mappings[k], range.addr))
  }

  // ---------- registration ----------

  /** What the ACL runtime answers while a range is registered: the current device, the
      non-null pointer of an allocator-owned mapping, and the base of a new one. */
  datatype RegisterEnv = RegisterEnv(device: Option<nat>, borrowed: Option<U64>, registered: Option<U64>)

  datatype RegisterError =
    | BadRange(error: RangeError)
    | NoDevice
    | OtherDevice
    | CachedOverflow
    | PartialOverlap
    | RegistrationFailed
    | IdsExhausted
    | HandlesExhausted

  datatype RegisterOutcome = Registered(handle: int) | Refused(reason: RegisterError)

  predicate NoIdsLeft(s: State) {
    s.nextId == 0 || s.nextId >= MAX_U64
  }

  predicate NoHandlesLeft(s: State) {
    s.nextHandle <= 0 || s.nextHandle >= MAX_I64
  }

  function Push(s: State, m: Mapping): State
    requires s.nextId < MAX_U64
  {
    s.(mappings := s.mappings + [m], nextId := s.nextId + 1)
  }

  function CountBorrowed(c: Counters): Counters {
    c.(borrowedTotal := Add64(c.borrowedTotal, 1))
  }

  function CountOwned(c: Counters, size: U64): Counters {
    var current := Add64(c.bytesCurrent, size);
    c.(registerCalls := Add64(c.registerCalls, 1),
       bytesTotal := Add64(c.bytesTotal, size),
       bytesCurrent := current,
       bytesPeak := if current > c.bytesPeak then current else c.bytesPeak)
  }

  function MakeLease(s: State, m: Mapping, addr: U64, bytes: U64, device: nat, alreadyMapped: bool): Lease {
    Lease(s.nextHandle, m.id, addr, bytes, m.base, m.size, DeviceAddress(m, addr), m.owned, alreadyMapped,
          true, s.pid, device)
  }

  /** Hand out a handle on mapping `k`.  The handle space is checked only here. */
  function AddLease(s: State, k: nat, addr: U64, bytes: U64, device: nat, alreadyMapped: bool)
    : (State, RegisterOutcome)
    requires k < |s.mappings|
  {
    if NoHandlesLeft(s) then (s, Refused(HandlesExhausted))
    else
      var m := s.mappings[k];
      var lease := MakeLease(s, m, addr, bytes, device, alreadyMapped);
      (s.(mappings := s.mappings[k := m.(leases := Add64(m.leases, 1))],
          handles := if s.nextHandle in s.handles then s.handles else s.handles[s.nextHandle := lease],
          nextHandle := s.nextHandle + 1),
       Registered(s.nextHandle))
  }

  function CreateMapping(s: State, range: HostRange, bytes: U64, device: nat, env: RegisterEnv)
    : (State, RegisterOutcome)
  {
    if env.borrowed.Some? then
      if NoIdsLeft(s) then (s, Refused(IdsExhausted))
      else
        var m := Mapping(s.nextId, range.addr, bytes, env.borrowed.value, device, false, 0);
        var s1 := Push(s, m).(counters := CountBorrowed(s.counters));
        AddLease(s1, |s.mappings|, range.addr, bytes, device, true)
    else if env.registered.None? then (s, Refused(RegistrationFailed))
    else
      var s0 := s.(acl := s.acl + [HostRegistered(range.aligned, range.size)]);
      if NoIdsLeft(s0) then (s0, Refused(IdsExhausted))
      else
        var m := Mapping(s.nextId, range.aligned, range.size, env.registered.value, device, true, 0);
        var s1 := Push(s0, m).(counters := CountOwned(s.counters, range.size));
        AddLease(s1, |s.mappings|, range.addr, bytes, device, false)
  }

  function RegisterRange(s: State, range: HostRange, bytes: U64, device: nat, env: RegisterEnv)
    : (State, RegisterOutcome)
  {
    match Find(s.mappings, range.addr, bytes, device)
    case Ok(k) => AddLease(s, k, range.addr, bytes, device, !s.mappings[k].owned)
    case Err(NotMapped) =>
      var b := FirstBlocking(s.mappings, range.addr, bytes);
      if b == |s.mappings| then CreateMapping(s, range, bytes, device, env)
      else if End64(s.mappings[b]) < s.mappings[b].base then (s, Refused(CachedOverflow))
      else (s, Refused(PartialOverlap))
    case Err(_) => (s, Refused(OtherDevice))
  }

  function CountRegister(s: State): State {
    s.(counters := s.counters.(explicitRegisters := Add64(s.counters.explicitRegisters, 1)))
  }

  function Register(s: State, page: int, ptr: U64, bytes: U64, env: RegisterEnv): (State, RegisterOutcome) {
    match GetHostRange(page, ptr, bytes)
    case Err(e) => (s, Refused(BadRange(e)))
    case Ok(range) =>
      if env.device.None? then (s, Refused(NoDevice))
      else RegisterRange(CountRegister(s), range, bytes, env.device.value, env)
  }

  // ---------- release ----------

  datatype ReleaseEnv = ReleaseEnv(device: Option<nat>, fenceOk: bool, unmapOk: bool)

  datatype ReleaseOutcome = Released | NotActive | Failed(reason: ReleaseError)

  datatype ReleaseError =
    | ReleaseNoDevice
    | DanglingHandle
    | BadLeaseCount
    | ReleaseOtherDevice
    | FenceFailed
    | UnmapFailed

  /** The mapping a release acts on, once every check before the fence has passed. */
  function ReleaseTarget(s: State, handle: int, device: Option<nat>): (r: Result<nat, ReleaseOutcome>)
    ensures r.Ok? ==> handle in s.handles && r.value < |s.mappings|
  {
    if device.None? then Err(Failed(ReleaseNoDevice))
    else if handle !in s.handles || !s.handles[handle].active then Err(NotActive)
    else
      var k := IndexOf(s.mappings, s.handles[handle].mappingId);
      if k == |s.mappings| then Err(Failed(DanglingHandle))
      else if s.mappings[k].leases == 0 then Err(Failed(BadLeaseCount))
      else if s.mappings[k].device != device.value then Err(Failed(ReleaseOtherDevice))
      else Ok(k)
  }

  function CountRelease(c: Counters): Counters {
    c.(explicitUnregisters := Add64(c.explicitUnregisters, 1))
  }

  function CountUnmap(c: Counters, size: U64): Counters {
    c.(unregisterCalls := Add64(c.unregisterCalls, 1), bytesCurrent := Sub64(c.bytesCurrent, size))
  }

  /** Release a lease that is not the last one of its mapping: no fence, no unmap. */
  function DropLease(s: State, k: nat, handle: int): State
    requires k < |s.mappings|
  {
    var m := s.mappings[k];
    s.(mappings := s.mappings[k := m.(leases := Sub64(m.leases, 1))],
       handles := s.handles - {handle},
       counters := CountRelease(s.counters))
  }

  /** The device-wide fence before the last lease of mapping `k` goes away. */
  function Fence(s: State, k: nat): State
    requires k < |s.mappings|
  {
    s.(acl := s.acl + [Fenced(s.mappings[k].device)])
  }

  /** What follows the fence: undo the ACL registration if it is ours, then forget the mapping. */
  function FinishRelease(s: State, k: nat, handle: int, unmapOk: bool): (State, ReleaseOutcome)
    requires k < |s.mappings|
  {
    var m := s.mappings[k];
    if m.owned && !unmapOk then (s, Failed(UnmapFailed))
    else
      var c := CountRelease(s.counters);
      (s.(mappings := Without(s.mappings, m.id),
          handles := s.handles - {handle},
          counters := if m.owned then CountUnmap(c, m.size) else c,
          acl := if m.owned then s.acl + [HostUnregistered(m.base)] else s.acl),
       Released)
  }

  function Unregister(s: State, handle: int, env: ReleaseEnv): (State, ReleaseOutcome) {
    match ReleaseTarget(s, handle, env.device)
    case Err(outcome) => (s, outcome)
    case Ok(k) =>
      if s.mappings[k].leases != 1 then (DropLease(s, k, handle), Released)
      else if !env.fenceOk then (s, Failed(FenceFailed))
      else FinishRelease(Fence(s, k), k, handle, env.unmapOk)
  }
}
