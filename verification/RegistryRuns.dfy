/** What holds after every run of registrations and releases. */
module RegistryRuns {
  import opened Wrappers
  import opened HostRanges
  import opened Registry
  import opened RegistryInvariant
  import opened RegistrySteps
  import opened RegistryRelease

  // ---------- one registration ----------

  /** The registrations that neither are refused at once nor find a mapping to share. */
  predicate Creates(s: State, page: int, ptr: U64, bytes: U64, env: RegisterEnv) {
    && GetHostRange(page, ptr, bytes).Ok? && env.device.Some?
    && FirstHolding(s.mappings, ptr, bytes) == |s.mappings|
    && FirstBlocking(s.mappings, ptr, bytes) == |s.mappings|
  }

  /** The registrations that leave something behind although they fail: the handle space runs out
      after the ACL registration was made and the mapping was pushed. */
  predicate Leaks(s: State, page: int, ptr: U64, bytes: U64, env: RegisterEnv) {
    Creates(s, page, ptr, bytes, env) && NoHandlesLeft(s) && (env.borrowed.Some? || env.registered.Some?)
  }

  /** The registration of the last free pages: the owned mappings then make up the whole address
      space, and the byte counter wraps. */
  predicate FillsSpace(s: State, page: int, ptr: U64, bytes: U64, env: RegisterEnv) {
    && Creates(s, page, ptr, bytes, env) && env.borrowed.None? && env.registered.Some? && !NoIdsLeft(s)
    && OwnedBytes(s.mappings) + GetHostRange(page, ptr, bytes).value.size >= TWO64
  }

  lemma FirstHandleIsPositive(pid: nat)
    ensures 0 < FirstHandle(pid) < MAX_I64
  {
  }

  lemma InitKeepsInv(pid: nat, page: int)
    requires ValidPage(page)
    ensures Inv(Init(pid), page, FirstHandle(pid))
  {
    FirstHandleIsPositive(pid);
    StartKeepsInv(pid, FirstHandle(pid), page);
  }

  lemma StartKeepsInv(pid: nat, first: int, page: int)
    requires ValidPage(page) && 0 < first < MAX_I64
    ensures Inv(State(pid, [], map[], 1, first, Counters(0, 0, 0, 0, 0, 0, 0, 0), []), page, first)
  {
  }

  lemma CountRegisterKeepsInv(s: State, page: int, first: int)
    requires Inv(s, page, first)
    ensures Inv(CountRegister(s), page, first)
  {
  }

  lemma RangeIsExpanded(page: int, ptr: U64, bytes: U64)
    requires ValidPage(page) && GetHostRange(page, ptr, bytes).Ok?
    ensures Expanded(GetHostRange(page, ptr, bytes).value, page, bytes)
    ensures GetHostRange(page, ptr, bytes).value.addr == ptr
  {
    HostRangeIsExact(page, ptr, bytes);
    var r := GetHostRange(page, ptr, bytes).value;
    MultipleIsMod(r.aligned, page);
    MultipleIsMod(r.size, page);
  }

  lemma CreateKeepsInv(s: State, page: int, first: int, range: HostRange, bytes: U64, device: nat, env: RegisterEnv)
    requires Inv(s, page, first)
    requires Expanded(range, page, bytes) && ClearOfOwned(range, s.mappings)
    requires FirstBlocking(s.mappings, range.addr, bytes) == |s.mappings|
    requires env.borrowed.Some? || env.registered.Some? ==> !NoHandlesLeft(s)
    requires env.borrowed.None? && env.registered.Some? ==> OwnedBytes(s.mappings) + range.size < TWO64
    ensures Inv(CreateMapping(s, range, bytes, device, env).0, page, first)
  {
    IdsAreLeft(s, page, first);
    if env.borrowed.Some? {
      CreateBorrowedKeepsInv(s, page, first, range, bytes, device, env);
    } else if env.registered.Some? {
      CreateOwnedKeepsInv(s, page, first, range, bytes, device, env);
    }
  }

  /** Every mapping took an id and a handle, so ids never run out in a consistent registry. */
  lemma IdsAreLeft(s: State, page: int, first: int)
    requires Inv(s, page, first)
    ensures s.nextId - 1 <= s.nextHandle - first && !NoIdsLeft(s)
  {
  }

  /** What a registration without handles leaves behind: a mapping that nobody holds and, when it is
      not borrowed, its ACL registration. */
  lemma LeakLeaves(s: State, page: int, first: int, range: HostRange, bytes: U64, device: nat, env: RegisterEnv)
    requires Inv(s, page, first) && NoHandlesLeft(s) && (env.borrowed.Some? || env.registered.Some?)
    ensures var (s', outcome) := CreateMapping(s, range, bytes, device, env);
            && outcome == Refused(HandlesExhausted) && s'.handles == s.handles
            && |s'.mappings| == |s.mappings| + 1 && s'.mappings[..|s.mappings|] == s.mappings
            && var m := s'.mappings[|s.mappings|];
               && m.id == s.nextId && m.leases == 0 && Holders(s'.handles, m.id) == {}
               && m.owned == env.borrowed.None?
               && s'.acl == if m.owned then s.acl + [HostRegistered(m.base, m.size)] else s.acl
  {
    IdsAreLeft(s, page, first);
    NoHolders(s.mappings, page, s.nextId, s.handles);
  }

  lemma LeakBreaksInv(s: State, page: int, first: int, range: HostRange, bytes: U64, device: nat, env: RegisterEnv)
    requires Inv(s, page, first) && NoHandlesLeft(s) && (env.borrowed.Some? || env.registered.Some?)
    ensures !Inv(CreateMapping(s, range, bytes, device, env).0, page, first)
  {
    LeakLeaves(s, page, first, range, bytes, device, env);
    LastUncounted(CreateMapping(s, range, bytes, device, env).0);
  }

  lemma LastUncounted(s: State)
    requires s.mappings != [] && s.mappings[|s.mappings| - 1].leases == 0
    ensures !Counted(s.mappings, s.handles)
  {
  }

  /** The byte counter cannot hold the size of the whole address space. */
  lemma FillBreaksInv(s: State, page: int, first: int, range: HostRange, bytes: U64, device: nat, env: RegisterEnv)
    requires env.borrowed.None? && env.registered.Some? && !NoIdsLeft(s) && !NoHandlesLeft(s)
    requires s.nextHandle !in s.handles && OwnedBytes(s.mappings) + range.size >= TWO64
    ensures !CountersOk(CreateMapping(s, range, bytes, device, env).0, first)
  {
    OwnShape(s, range, bytes, device, env);
    var s' := CreateMapping(s, range, bytes, device, env).0;
    OwnedAppend(s.mappings, s'.mappings, s'.mappings[|s.mappings|]);
  }

  lemma CreateKeepsInvIff(s: State, page: int, first: int, ptr: U64, bytes: U64, range: HostRange, env: RegisterEnv)
    requires Inv(s, page, first) && Creates(s, page, ptr, bytes, env)
    requires GetHostRange(page, ptr, bytes) == Ok(range) && Expanded(range, page, bytes) && range.addr == ptr
    ensures Inv(RegisterRange(s, range, bytes, env.device.value, env).0, page, first) <==>
            !Leaks(s, page, ptr, bytes, env) && !FillsSpace(s, page, ptr, bytes, env)
  {
    var device := env.device.value;
    IdsAreLeft(s, page, first);
    assert RegisterRange(s, range, bytes, device, env) == CreateMapping(s, range, bytes, device, env);
    if Leaks(s, page, ptr, bytes, env) {
      LeakBreaksInv(s, page, first, range, bytes, device, env);
    } else if FillsSpace(s, page, ptr, bytes, env) {
      FillBreaksInv(s, page, first, range, bytes, device, env);
    } else {
      ExpansionIsClear(s.mappings, page, s.nextId, ptr, bytes);
      CreateKeepsInv(s, page, first, range, bytes, device, env);
    }
  }

  /** What a registration that finds or hits a cached mapping leads to. */
  lemma SharedCases(s: State, range: HostRange, bytes: U64, device: nat, env: RegisterEnv)
    requires FirstHolding(s.mappings, range.addr, bytes) < |s.mappings| ||
             FirstBlocking(s.mappings, range.addr, bytes) < |s.mappings|
    ensures var k := FirstHolding(s.mappings, range.addr, bytes);
            RegisterRange(s, range, bytes, device, env).0 ==
            if k < |s.mappings| && s.mappings[k].device == device && !NoHandlesLeft(s)
            then AddLease(s, k, range.addr, bytes, device, !s.mappings[k].owned).0 else s
  {
  }

  /** A registration that is refused, or that shares a mapping. */
  lemma RegisterRangeKeepsInv(s: State, page: int, first: int, range: HostRange, bytes: U64, device: nat, env: RegisterEnv)
    requires Inv(s, page, first) && Expanded(range, page, bytes)
    requires FirstHolding(s.mappings, range.addr, bytes) < |s.mappings| ||
             FirstBlocking(s.mappings, range.addr, bytes) < |s.mappings|
    ensures Inv(RegisterRange(s, range, bytes, device, env).0, page, first)
  {
    SharedCases(s, range, bytes, device, env);
    var k := FirstHolding(s.mappings, range.addr, bytes);
    if k < |s.mappings| && s.mappings[k].device == device && !NoHandlesLeft(s) {
      ReuseKeepsInv(s, page, first, k, range.addr, bytes, device);
    }
  }

  /** A registration keeps the registry consistent exactly when it neither leaks nor fills the
      address space. */
  lemma RegisterKeepsInv(s: State, page: int, first: int, ptr: U64, bytes: U64, env: RegisterEnv)
    requires Inv(s, page, first)
    ensures Inv(Register(s, page, ptr, bytes, env).0, page, first) <==>
            !Leaks(s, page, ptr, bytes, env) && !FillsSpace(s, page, ptr, bytes, env)
  {
    if GetHostRange(page, ptr, bytes).Ok? && env.device.Some? {
      var range := GetHostRange(page, ptr, bytes).value;
      var s1 := CountRegister(s);
      RangeIsExpanded(page, ptr, bytes);
      CountRegisterKeepsInv(s, page, first);
      SameGuards(s, page, ptr, bytes, env);
      assert Register(s, page, ptr, bytes, env).0 == RegisterRange(s1, range, bytes, env.device.value, env).0;
      if Creates(s1, page, ptr, bytes, env) {
        CreateKeepsInvIff(s1, page, first, ptr, bytes, range, env);
      } else {
        RegisterRangeKeepsInv(s1, page, first, range, bytes, env.device.value, env);
      }
    } else {
      assert Register(s, page, ptr, bytes, env).0 == s;
    }
  }

  lemma SameGuards(s: State, page: int, ptr: U64, bytes: U64, env: RegisterEnv)
    ensures Creates(s, page, ptr, bytes, env) <==> Creates(CountRegister(s), page, ptr, bytes, env)
    ensures Leaks(s, page, ptr, bytes, env) <==> Leaks(CountRegister(s), page, ptr, bytes, env)
    ensures FillsSpace(s, page, ptr, bytes, env) <==> FillsSpace(CountRegister(s), page, ptr, bytes, env)
  {
  }

  // ---------- which registrations need a mapping of their own, and which of these are refused ----------

  /** The request and the mapping share an address. */
  predicate Overlaps(m: Mapping, addr: int, bytes: int) {
    addr < m.base + m.size && m.base < addr + bytes
  }

  /** The machine's overlap test is overlap, except that a wrapped mapping blocks everything. */
  lemma BlocksIsOverlaps(m: Mapping, page: int, addr: U64, bytes: U64)
    requires page > 0 && WfMapping(m, page) && 0 < bytes && addr + bytes < TWO64
    ensures Blocks(m, addr, bytes) <==> Wrapped(m) || Overlaps(m, addr, bytes)
  {
  }

  /** Some mapping that is not wrapped covers the whole request. */
  ghost predicate Shareable(ms: seq<Mapping>, addr: int, bytes: int) {
    exists j :: 0 <= j < |ms| && Covers(ms[j], addr, bytes) && !Wrapped(ms[j])
  }

  lemma HeldIff(ms: seq<Mapping>, page: int, nextId: int, addr: U64, bytes: U64)
    requires page > 0 && WfMappings(ms, page, nextId) && 0 < bytes && addr + bytes < TWO64
    ensures FirstHolding(ms, addr, bytes) < |ms| <==> Shareable(ms, addr, bytes)
  {
    NothingCovers(ms, page, nextId, addr, bytes);
  }

  /** What the overlap search stops at: the first mapping that is wrapped or overlaps the request. */
  lemma BlockedIs(ms: seq<Mapping>, page: int, nextId: int, addr: U64, bytes: U64)
    requires page > 0 && WfMappings(ms, page, nextId) && 0 < bytes && addr + bytes < TWO64
    ensures var b := FirstBlocking(ms, addr, bytes);
            && (forall j :: 0 <= j < b ==> !Wrapped(ms[j]) && !Overlaps(ms[j], addr, bytes))
            && (b < |ms| ==> Wrapped(ms[b]) || Overlaps(ms[b], addr, bytes))
  {
    forall j | 0 <= j < |ms|
      ensures Blocks(ms[j], addr, bytes) <==> Wrapped(ms[j]) || Overlaps(ms[j], addr, bytes)
    {
      BlocksIsOverlaps(ms[j], page, addr, bytes);
    }
  }

  lemma UnblockedIff(ms: seq<Mapping>, page: int, nextId: int, addr: U64, bytes: U64)
    requires page > 0 && WfMappings(ms, page, nextId) && 0 < bytes && addr + bytes < TWO64
    ensures FirstHolding(ms, addr, bytes) == |ms| && FirstBlocking(ms, addr, bytes) == |ms| <==>
            forall j :: 0 <= j < |ms| ==> !Wrapped(ms[j]) && !Overlaps(ms[j], addr, bytes)
  {
    BlockedIs(ms, page, nextId, addr, bytes);
    HeldIff(ms, page, nextId, addr, bytes);
    forall j | 0 <= j < |ms| && Covers(ms[j], addr, bytes) ensures Overlaps(ms[j], addr, bytes) {
      assert WfMapping(ms[j], page);
    }
  }

  /** A registration gets a mapping of its own exactly when its request is accepted, no mapping ends
      with the address space, and none shares an address with it. */
  lemma CreatesIff(s: State, page: int, first: int, ptr: U64, bytes: U64, env: RegisterEnv)
    requires Inv(s, page, first)
    ensures Creates(s, page, ptr, bytes, env) <==>
            && GetHostRange(page, ptr, bytes).Ok? && env.device.Some?
            && forall j :: 0 <= j < |s.mappings| ==> !Wrapped(s.mappings[j]) && !Overlaps(s.mappings[j], ptr, bytes)
  {
    HostRangeIsExact(page, ptr, bytes);
    if GetHostRange(page, ptr, bytes).Ok? { UnblockedIff(s.mappings, page, s.nextId, ptr, bytes); }
  }

  lemma RefusedByBlocker(s: State, range: HostRange, bytes: U64, device: nat, env: RegisterEnv)
    ensures var outcome := RegisterRange(s, range, bytes, device, env).1;
            var b := FirstBlocking(s.mappings, range.addr, bytes);
            var blocked := FirstHolding(s.mappings, range.addr, bytes) == |s.mappings| && b < |s.mappings|;
            && (outcome == Refused(CachedOverflow) <==> blocked && End64(s.mappings[b]) < s.mappings[b].base)
            && (outcome == Refused(PartialOverlap) <==> blocked && End64(s.mappings[b]) >= s.mappings[b].base)
  {
  }

  /** A mapping ends with the address space, and none before it overlaps the request. */
  ghost predicate EndFirst(ms: seq<Mapping>, addr: int, bytes: int) {
    exists k :: 0 <= k < |ms| && Wrapped(ms[k]) && (forall j :: 0 <= j < k ==> !Overlaps(ms[j], addr, bytes))
  }

  /** A mapping overlaps the request, and neither it nor one before it ends with the address space. */
  ghost predicate OverlapFirst(ms: seq<Mapping>, addr: int, bytes: int) {
    exists k :: 0 <= k < |ms| && Overlaps(ms[k], addr, bytes) && (forall j :: 0 <= j <= k ==> !Wrapped(ms[j]))
  }

  /** The two refusals by cached mappings: nothing can be shared, and the first mapping that stands in
      the way ends with the address space, or overlaps the request. */
  lemma RefusalsAre(s: State, page: int, first: int, ptr: U64, bytes: U64, env: RegisterEnv)
    requires Inv(s, page, first) && GetHostRange(page, ptr, bytes).Ok? && env.device.Some?
    ensures var outcome, ms := Register(s, page, ptr, bytes, env).1, s.mappings;
            && (outcome == Refused(CachedOverflow) <==> !Shareable(ms, ptr, bytes) && EndFirst(ms, ptr, bytes))
            && (outcome == Refused(PartialOverlap) <==> !Shareable(ms, ptr, bytes) && OverlapFirst(ms, ptr, bytes))
  {
    HostRangeIsExact(page, ptr, bytes);
    var range, ms := GetHostRange(page, ptr, bytes).value, s.mappings;
    HeldIff(ms, page, s.nextId, ptr, bytes);
    BlockedIs(ms, page, s.nextId, ptr, bytes);
    RefusedByBlocker(CountRegister(s), range, bytes, env.device.value, env);
    var b := FirstBlocking(ms, ptr, bytes);
    if b < |ms| { EndIsWrapped(ms, page, s.nextId, b); }
  }

  lemma EndIsWrapped(ms: seq<Mapping>, page: int, nextId: int, b: nat)
    requires page > 0 && WfMappings(ms, page, nextId) && b < |ms|
    ensures End64(ms[b]) < ms[b].base <==> Wrapped(ms[b])
  {
    assert WfMapping(ms[b], page);
  }

  lemma OneIsFirst(ms: seq<Mapping>, k: nat, addr: U64, bytes: U64)
    requires k < |ms| && Wrapped(ms[k])
    ensures EndFirst(ms, addr, bytes) || OverlapFirst(ms, addr, bytes)
    decreases k
  {
    if j :| 0 <= j < k && Wrapped(ms[j]) {
      OneIsFirst(ms, j, addr, bytes);
    } else if j :| 0 <= j < k && Overlaps(ms[j], addr, bytes) {
      assert OverlapFirst(ms, addr, bytes);
    } else {
      assert EndFirst(ms, addr, bytes);
    }
  }

  /** While a mapping ends with the address space, every registration that cannot share is refused. */
  lemma WrappedBlocksAll(s: State, page: int, first: int, k: nat, ptr: U64, bytes: U64, env: RegisterEnv)
    requires Inv(s, page, first) && k < |s.mappings| && Wrapped(s.mappings[k])
    requires GetHostRange(page, ptr, bytes).Ok? && env.device.Some? && !Shareable(s.mappings, ptr, bytes)
    ensures Register(s, page, ptr, bytes, env).1 in {Refused(CachedOverflow), Refused(PartialOverlap)}
  {
    RefusalsAre(s, page, first, ptr, bytes, env);
    OneIsFirst(s.mappings, k, ptr, bytes);
  }

  // ---------- one release ----------

  /** A lease that a release can act on. */
  ghost predicate Placed(s: State, handle: int)
    requires handle in s.handles
  {
    var l := s.handles[handle];
    var k := IndexOf(s.mappings, l.mappingId);
    && l.active && k < |s.mappings| && s.mappings[k].leases >= 1
    && s.mappings[k].id == l.mappingId && s.mappings[k].device == l.device
  }

  lemma LeaseIsPlaced(s: State, page: int, handle: int)
    requires Structure(s, page) && handle in s.handles
    ensures Placed(s, handle)
  {
    assert WfLease(s.mappings, handle, s.handles[handle]);
    CountedAt(s.mappings, s.handles, |s.mappings|, IndexOf(s.mappings, s.handles[handle].mappingId));
  }

  lemma TargetOfPlaced(s: State, handle: int, device: Option<nat>)
    requires handle in s.handles ==> Placed(s, handle)
    ensures handle in s.handles && device == Some(s.handles[handle].device) ==>
              ReleaseTarget(s, handle, device) == Ok(IndexOf(s.mappings, s.handles[handle].mappingId))
    ensures ReleaseTarget(s, handle, device).Ok? ==> device == Some(s.handles[handle].device)
    ensures ReleaseTarget(s, handle, device) != Err(Failed(DanglingHandle))
    ensures ReleaseTarget(s, handle, device) != Err(Failed(BadLeaseCount))
    ensures ReleaseTarget(s, handle, device) == Err(NotActive) <==> device.Some? && handle !in s.handles
  {
  }

  /** Under the invariant the two internal checks of a release never fire. */
  lemma ReleaseTargetIs(s: State, page: int, first: int, handle: int, device: Option<nat>)
    requires Inv(s, page, first)
    ensures handle in s.handles && device == Some(s.handles[handle].device) ==>
              ReleaseTarget(s, handle, device) == Ok(IndexOf(s.mappings, s.handles[handle].mappingId))
    ensures ReleaseTarget(s, handle, device).Ok? ==> device == Some(s.handles[handle].device)
    ensures ReleaseTarget(s, handle, device) != Err(Failed(DanglingHandle))
    ensures ReleaseTarget(s, handle, device) != Err(Failed(BadLeaseCount))
    ensures ReleaseTarget(s, handle, device) == Err(NotActive) <==> device.Some? && handle !in s.handles
  {
    if handle in s.handles { LeaseIsPlaced(s, page, handle); }
    TargetOfPlaced(s, handle, device);
  }

  lemma ReleaseLastKeepsInv(s: State, page: int, first: int, k: nat, handle: int, unmapOk: bool)
    requires Inv(s, page, first) && handle in s.handles
    requires k < |s.mappings| && s.mappings[k].id == s.handles[handle].mappingId && s.mappings[k].leases == 1
    ensures Inv(FinishRelease(Fence(s, k), k, handle, unmapOk).0, page, first)
  {
    FenceKeepsInv(s, page, first, k);
    EraseKeepsInv(Fence(s, k), page, first, k, handle, unmapOk);
  }

  /** What a release leads to, by what it finds. */
  lemma UnregisterCases(s: State, handle: int, env: ReleaseEnv)
    ensures var target := ReleaseTarget(s, handle, env.device);
            if target.Err? then Unregister(s, handle, env).0 == s
            else
              var k := target.value;
              && handle in s.handles && k < |s.mappings|
              && s.mappings[k].id == s.handles[handle].mappingId && s.mappings[k].leases > 0
              && Unregister(s, handle, env).0 ==
                 if s.mappings[k].leases != 1 then DropLease(s, k, handle)
                 else if env.fenceOk then FinishRelease(Fence(s, k), k, handle, env.unmapOk).0
                 else s
  {
  }

  lemma UnregisterKeepsInv(s: State, page: int, first: int, handle: int, env: ReleaseEnv)
    requires Inv(s, page, first)
    ensures Inv(Unregister(s, handle, env).0, page, first)
  {
    UnregisterCases(s, handle, env);
    var target := ReleaseTarget(s, handle, env.device);
    if target.Ok? {
      var k := target.value;
      if s.mappings[k].leases != 1 {
        DropKeepsInv(s, page, first, k, handle);
      } else if env.fenceOk {
        ReleaseLastKeepsInv(s, page, first, k, handle, env.unmapOk);
      }
    }
  }

  /** A release that does not succeed leaves the registry as it was; at most the fence ran. */
  lemma FailedReleaseChangesNothing(s: State, handle: int, env: ReleaseEnv)
    ensures var (s', outcome) := Unregister(s, handle, env);
            outcome != Released ==>
              s'.(acl := s.acl) == s && (s'.acl == s.acl || (exists d :: s'.acl == s.acl + [Fenced(d)]))
  {
    var target := ReleaseTarget(s, handle, env.device);
    if target.Ok? {
      var d := s.mappings[target.value].device;
      assert Fence(s, target.value).acl == s.acl + [Fenced(d)];
    }
  }

  // ---------- whole runs ----------

  datatype Call =
    | DoRegister(ptr: U64, bytes: U64, renv: RegisterEnv)
    | DoUnregister(handle: int, uenv: ReleaseEnv)

  function Step(s: State, page: int, c: Call): State {
    match c
    case DoRegister(ptr, bytes, env) => Register(s, page, ptr, bytes, env).0
    case DoUnregister(handle, env) => Unregister(s, handle, env).0
  }

  function Run(s: State, page: int, calls: seq<Call>): State {
    if calls == [] then s
    else Step(Run(s, page, calls[..|calls| - 1]), page, calls[|calls| - 1])
  }

  /** The step neither leaks nor fills the address space. */
  predicate Orderly(s: State, page: int, c: Call) {
    c.DoRegister? ==>
      !Leaks(s, page, c.ptr, c.bytes, c.renv) && !FillsSpace(s, page, c.ptr, c.bytes, c.renv)
  }

  predicate OrderlyRun(s: State, page: int, calls: seq<Call>) {
    calls == [] ||
    (var n := |calls| - 1;
     OrderlyRun(s, page, calls[..n]) && Orderly(Run(s, page, calls[..n]), page, calls[n]))
  }

  lemma StepKeepsInv(s: State, page: int, first: int, c: Call)
    requires Inv(s, page, first)
    ensures Inv(Step(s, page, c), page, first) <==> Orderly(s, page, c)
  {
    match c
    case DoRegister(ptr, bytes, env) => RegisterKeepsInv(s, page, first, ptr, bytes, env);
    case DoUnregister(handle, env) => UnregisterKeepsInv(s, page, first, handle, env);
  }

  lemma {:induction false} RunKeepsInv(s: State, page: int, first: int, calls: seq<Call>)
    requires Inv(s, page, first) && OrderlyRun(s, page, calls)
    ensures Inv(Run(s, page, calls), page, first)
  {
    if calls != [] {
      var n := |calls| - 1;
      RunKeepsInv(s, page, first, calls[..n]);
      StepKeepsInv(Run(s, page, calls[..n]), page, first, calls[n]);
    }
  }

  // ---------- stable resolution ----------

  /** A lease on a mapping that ends with the address space. */
  predicate EndsSpace(l: Lease) {
    l.mappedBase + l.mappedBytes >= TWO64
  }

  /** What a lookup of a leased range finds. */
  lemma LeaseFound(ms: seq<Mapping>, page: int, nextId: int, handle: int, l: Lease)
    requires page > 0 && WfMappings(ms, page, nextId) && WfLease(ms, handle, l)
    ensures var k := IndexOf(ms, l.mappingId);
            FirstHolding(ms, l.addr, l.bytes) == if EndsSpace(l) then |ms| else k
  {
    var k := IndexOf(ms, l.mappingId);
    if EndsSpace(l) {
      LastMappingIsMissed(ms, page, nextId, k, l.addr, l.bytes);
    } else {
      FindIs(ms, page, nextId, k, l.addr, l.bytes);
    }
  }

  /** The lookup of an active lease's range on its device finds its own mapping and address, except
      that nothing is found when the mapping ends with the address space. */
  lemma LeaseResolves(s: State, page: int, first: int, handle: int)
    requires Inv(s, page, first) && handle in s.handles
    ensures var l := s.handles[handle];
            var found := Find(s.mappings, l.addr, l.bytes, l.device);
            if EndsSpace(l) then found == Err(NotMapped)
            else
              && found.Ok? && s.mappings[found.value].id == l.mappingId
              && s.mappings[found.value].base == l.mappedBase && s.mappings[found.value].size == l.mappedBytes
    ensures var l := s.handles[handle];
            Resolve(s, page, l.addr, l.bytes, Some(l.device)) ==
            if EndsSpace(l) then Err(NotMapped) else Ok(l.deviceAddr)
  {
    var l := s.handles[handle];
    assert WfLease(s.mappings, handle, l);
    LeaseFound(s.mappings, page, s.nextId, handle, l);
    var k := IndexOf(s.mappings, l.mappingId);
    assert WfMapping(s.mappings[k], page);
    LeaseRange(l, handle, s.mappings[k], page);
  }

  /** A leased range passes the checks of a lookup. */
  lemma LeaseRange(l: Lease, h: int, m: Mapping, page: int)
    requires ValidPage(page) && WfMapping(m, page) && Fits(l, h, m)
    ensures GetHostRange(page, l.addr, l.bytes).Ok? && GetHostRange(page, l.addr, l.bytes).value.addr == l.addr
  {
    HostRangeIsExact(page, l.addr, l.bytes);
    if l.addr < page && m.owned { FirstPageMapping(m, page); }
  }

  /** An owned mapping from the first page on leaves the last page free. */
  lemma FirstPageMapping(m: Mapping, page: int)
    requires ValidPage(page) && WfMapping(m, page) && m.owned && m.base < page
    ensures m.base + m.size <= TWO64 - page
  {
    MultipleIsMod(m.size, page);
    MultipleIsMod(TWO64, page);
    MultiplesApart(m.size, TWO64, page);
  }

  lemma LastMappingIsMissed(ms: seq<Mapping>, page: int, nextId: int, k: nat, addr: U64, bytes: U64)
    requires page > 0 && WfMappings(ms, page, nextId) && k < |ms| && Covers(ms[k], addr, bytes) && Wrapped(ms[k])
    requires 0 < bytes && addr + bytes < TWO64
    requires forall j :: 0 <= j < k ==> !Covers(ms[j], addr, bytes)
    ensures FirstHolding(ms, addr, bytes) == |ms|
  {
    ApartIsPairwise(ms, |ms|);
    forall j | 0 <= j < |ms| ensures !Holds(ms[j], addr, bytes) {
      HoldsIsCovers(ms[j], addr, bytes);
      assert WfMapping(ms[k], page) && (k < j ==> InOrder(ms[k], ms[j]));
    }
    FirstIs(ms, m => Holds(m, addr, bytes), |ms|);
  }

  /** Nothing but its own release touches a lease. */
  lemma StepKeepsLease(s: State, page: int, c: Call, handle: int)
    requires handle in s.handles && !(c.DoUnregister? && c.handle == handle)
    ensures handle in Step(s, page, c).handles && Step(s, page, c).handles[handle] == s.handles[handle]
  {
  }

  lemma {:induction false} RunKeepsLease(s: State, page: int, calls: seq<Call>, handle: int)
    requires handle in s.handles
    requires forall i :: 0 <= i < |calls| ==> !(calls[i].DoUnregister? && calls[i].handle == handle)
    ensures handle in Run(s, page, calls).handles && Run(s, page, calls).handles[handle] == s.handles[handle]
  {
    if calls != [] {
      var n := |calls| - 1;
      RunKeepsLease(s, page, calls[..n], handle);
      StepKeepsLease(Run(s, page, calls[..n]), page, calls[n], handle);
    }
  }

  /** A lookup finds a mapping that covers the range exactly when no older borrowed mapping does and
      the mapping is not wrapped. */
  lemma CoveredFound(ms: seq<Mapping>, page: int, nextId: int, k: nat, addr: U64, bytes: U64)
    requires page > 0 && WfMappings(ms, page, nextId) && k < |ms| && 0 < bytes && addr + bytes < TWO64
    requires Covers(ms[k], addr, bytes)
    ensures FirstHolding(ms, addr, bytes) == k <==>
            !Wrapped(ms[k]) && forall j :: 0 <= j < k && !ms[j].owned ==> !Covers(ms[j], addr, bytes)
    ensures !ms[k].owned ==> FirstHolding(ms, addr, bytes) == k
  {
    assert WfMapping(ms[k], page);
    NothingCovers(ms, page, nextId, addr, bytes);
    forall j | 0 <= j < k && Covers(ms[j], addr, bytes) ensures !ms[j].owned && ms[k].owned {
      PairInOrder(ms, j, k);
    }
    if !Wrapped(ms[k]) && forall j :: 0 <= j < k && !ms[j].owned ==> !Covers(ms[j], addr, bytes) {
      FindIs(ms, page, nextId, k, addr, bytes);
    }
  }

  /** A view into a leased range resolves to the leased mapping exactly when no older borrowed
      mapping covers the view and the mapping does not end with the address space; for borrowed
      leases that is always. */
  lemma ViewResolves(s: State, page: int, first: int, handle: int, addr: U64, bytes: U64)
    requires Inv(s, page, first) && handle in s.handles && bytes > 0
    requires s.handles[handle].addr <= addr && addr + bytes <= s.handles[handle].addr + s.handles[handle].bytes
    ensures var k := IndexOf(s.mappings, s.handles[handle].mappingId);
            && (FirstHolding(s.mappings, addr, bytes) == k <==>
                !EndsSpace(s.handles[handle]) &&
                forall j :: 0 <= j < k && !s.mappings[j].owned ==> !Covers(s.mappings[j], addr, bytes))
            && (!s.handles[handle].owned ==> FirstHolding(s.mappings, addr, bytes) == k)
  {
    var l := s.handles[handle];
    assert WfLease(s.mappings, handle, l);
    CoveredFound(s.mappings, page, s.nextId, IndexOf(s.mappings, l.mappingId), addr, bytes);
  }

  /** A fresh owned mapping can be found again exactly when its request stays below the last
      page: past it the end of the mapping wraps to zero. */
  lemma FreshOwnedResolvesIff(s: State, page: int, ptr: U64, bytes: U64, env: RegisterEnv)
    requires ValidPage(page) && Creates(s, page, ptr, bytes, env) && env.borrowed.None?
    requires Register(s, page, ptr, bytes, env).1.Registered?
    ensures var s' := Register(s, page, ptr, bytes, env).0;
            Find(s'.mappings, ptr, bytes, env.device.value) == Ok(|s.mappings|) <==> Below(page, ptr, bytes)
  {
    HostRangeIsExact(page, ptr, bytes);
    PastLastPage(page, ptr, bytes);
    var range := GetHostRange(page, ptr, bytes).value;
    var s' := Register(s, page, ptr, bytes, env).0;
    var m := Mapping(s.nextId, range.aligned, range.size, env.registered.value, env.device.value, true, 1);
    assert s'.mappings == s.mappings + [m];
    FoundLast(s.mappings, s'.mappings, m, ptr, bytes);
  }

  /** Of a list in which nothing holds the range, extended by one mapping. */
  lemma FoundLast(ms: seq<Mapping>, ms': seq<Mapping>, m: Mapping, addr: U64, bytes: U64)
    requires FirstHolding(ms, addr, bytes) == |ms| && ms' == ms + [m]
    ensures FirstHolding(ms', addr, bytes) == if Holds(m, addr, bytes) then |ms| else |ms| + 1
  {
    assert forall j :: 0 <= j < |ms| ==> ms'[j] == ms[j] && !Holds(ms[j], addr, bytes);
    FirstIs(ms', x => Holds(x, addr, bytes), if Holds(m, addr, bytes) then |ms| else |ms| + 1);
  }

  lemma PastLastPage(page: int, ptr: U64, bytes: U64)
    requires ValidPage(page) && GetHostRange(page, ptr, bytes).Ok?
    ensures var r := GetHostRange(page, ptr, bytes).value;
            !Below(page, ptr, bytes) ==> r.aligned + r.size == TWO64
  {
    HostRangeIsExact(page, ptr, bytes);
    var r := GetHostRange(page, ptr, bytes).value;
    MultipleIsMod(TWO64, page);
    SumOfMultiples(r.aligned, r.size, page);
    SumOfMultiples(TWO64, page, page);
    if r.aligned + r.size < TWO64 { MultiplesApart(r.aligned + r.size, TWO64, page); }
  }

  // ---------- handles and counters over runs ----------

  function OutcomeHandle(s: State, page: int, c: Call): Option<int> {
    if c.DoRegister? && Register(s, page, c.ptr, c.bytes, c.renv).1.Registered?
    then Some(Register(s, page, c.ptr, c.bytes, c.renv).1.handle) else None
  }

  lemma RegisterHandles(s: State, page: int, ptr: U64, bytes: U64, env: RegisterEnv)
    ensures var (s', outcome) := Register(s, page, ptr, bytes, env);
            && s'.nextHandle == s.nextHandle + (if outcome.Registered? then 1 else 0)
            && (outcome.Registered? ==> outcome.handle == s.nextHandle)
  {
  }

  lemma UnregisterHandles(s: State, handle: int, env: ReleaseEnv)
    ensures Unregister(s, handle, env).0.nextHandle == s.nextHandle
  {
  }

  lemma StepHandles(s: State, page: int, c: Call)
    ensures s.nextHandle <= Step(s, page, c).nextHandle
    ensures OutcomeHandle(s, page, c).Some? ==>
              OutcomeHandle(s, page, c).value == s.nextHandle < Step(s, page, c).nextHandle
  {
    match c
    case DoRegister(ptr, bytes, env) => RegisterHandles(s, page, ptr, bytes, env);
    case DoUnregister(handle, env) => UnregisterHandles(s, handle, env);
  }

  lemma {:induction false} NextHandleGrows(s: State, page: int, calls: seq<Call>, i: nat)
    requires i <= |calls|
    ensures Run(s, page, calls[..i]).nextHandle <= Run(s, page, calls).nextHandle
  {
    var n := |calls| - 1;
    if i < |calls| {
      NextHandleGrows(s, page, calls[..n], i);
      assert calls[..n][..i] == calls[..i];
      StepHandles(Run(s, page, calls[..n]), page, calls[n]);
    } else {
      assert calls[..i] == calls;
    }
  }

  /** Handles are handed out in increasing order, so none is ever reused. */
  lemma HandlesNeverReused(s: State, page: int, calls: seq<Call>, i: nat, j: nat)
    requires i < j < |calls|
    requires OutcomeHandle(Run(s, page, calls[..i]), page, calls[i]).Some?
    requires OutcomeHandle(Run(s, page, calls[..j]), page, calls[j]).Some?
    ensures OutcomeHandle(Run(s, page, calls[..i]), page, calls[i]).value
            < OutcomeHandle(Run(s, page, calls[..j]), page, calls[j]).value
  {
    StepHandles(Run(s, page, calls[..i]), page, calls[i]);
    StepHandles(Run(s, page, calls[..j]), page, calls[j]);
    assert Run(s, page, calls[..i + 1]) == Step(Run(s, page, calls[..i]), page, calls[i]) by {
      assert calls[..i + 1][..i] == calls[..i];
    }
    assert calls[..j][..i + 1] == calls[..i + 1];
    NextHandleGrows(s, page, calls[..j], i + 1);
  }

  // ---------- releasing everything ----------

  lemma MappingsAreHeld(ms: seq<Mapping>, handles: map<int, Lease>)
    requires Counted(ms, handles)
    ensures ms != [] ==> handles != map[]
  {
    if ms != [] {
      CountedAt(ms, handles, |ms|, 0);
      HoldersBounded(handles, ms[0].id);
    }
  }

  lemma NoLeaseNoMapping(s: State, page: int, first: int)
    requires Inv(s, page, first) && s.handles == map[]
    ensures s.mappings == [] && s.counters.bytesCurrent == 0
    ensures forall b :: Balance(s.acl, b) == 0
  {
    MappingsAreHeld(s.mappings, s.handles);
  }

  /** The handles to release, each active and named once. */
  ghost predicate Releasable(handles: map<int, Lease>, order: seq<int>) {
    && (forall i :: 0 <= i < |order| ==> order[i] in handles)
    && (forall i, j :: 0 <= i < j < |order| ==> order[i] != order[j])
  }

  function ReleaseNext(s: State, h: int): State
    requires h in s.handles
  {
    Unregister(s, h, ReleaseEnv(Some(s.handles[h].device), true, true)).0
  }

  lemma ReleaseNextDrops(s: State, h: int)
    requires h in s.handles && Placed(s, h)
    ensures ReleaseNext(s, h).handles == s.handles - {h}
  {
    TargetOfPlaced(s, h, Some(s.handles[h].device));
  }

  lemma ReleasableRest(handles: map<int, Lease>, order: seq<int>)
    requires order != [] && Releasable(handles, order)
    ensures Releasable(handles - {order[0]}, order[1..])
  {
  }

  lemma ReleaseNextKeeps(s: State, page: int, first: int, order: seq<int>)
    requires Inv(s, page, first) && order != [] && Releasable(s.handles, order)
    ensures Inv(ReleaseNext(s, order[0]), page, first)
    ensures Releasable(ReleaseNext(s, order[0]).handles, order[1..])
    ensures |ReleaseNext(s, order[0]).handles| == |s.handles| - 1
  {
    var h := order[0];
    LeaseIsPlaced(s, page, h);
    ReleaseNextDrops(s, h);
    ReleasableRest(s.handles, order);
    DropHandleCount(s.handles, h);
    UnregisterKeepsInv(s, page, first, h, ReleaseEnv(Some(s.handles[h].device), true, true));
  }

  /** Release handles one after the other, each on the device of its lease, with the ACL
      calls succeeding; a handle that is no longer active is skipped. */
  function ReleaseAll(s: State, order: seq<int>): State
    decreases |order|
  {
    if order == [] then s
    else if order[0] in s.handles then ReleaseAll(ReleaseNext(s, order[0]), order[1..])
    else ReleaseAll(s, order[1..])
  }

  /** Releasing every active lease, in any order, leaves an empty registry and no open ACL
      registration. */
  lemma {:induction false} ReleaseAllEmptiesRegistry(s: State, page: int, first: int, order: seq<int>)
    requires Inv(s, page, first) && Releasable(s.handles, order) && |order| == |s.handles|
    ensures var s' := ReleaseAll(s, order);
            && s'.handles == map[] && s'.mappings == [] && s'.counters.bytesCurrent == 0
            && forall b :: Balance(s'.acl, b) == 0
    decreases |order|
  {
    if order == [] {
      NoLeaseNoMapping(s, page, first);
    } else {
      ReleaseNextKeeps(s, page, first, order);
      ReleaseAllEmptiesRegistry(ReleaseNext(s, order[0]), page, first, order[1..]);
    }
  }
}
