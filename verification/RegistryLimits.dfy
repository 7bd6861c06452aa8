/** Runs that show what the registry does not promise. */
module RegistryLimits {
  import opened Wrappers
  import opened HostRanges
  import opened Registry
  import opened RegistryInvariant
  import opened RegistryRuns

  const PAGE: int := 4096

  /** An allocator-owned range, a neighbour whose page reaches over it, and a lease across both. */
  function Calls(): seq<Call> {
    [DoRegister(100, 100, RegisterEnv(Some(0), Some(7000), None)),
     DoRegister(300, 100, RegisterEnv(Some(0), None, Some(9000))),
     DoRegister(50, 350, RegisterEnv(Some(0), None, None))]
  }

  function Borrowed(leases: U64): Mapping {
    Mapping(1, 100, 100, 7000, 0, false, leases)
  }

  function Owned(leases: U64): Mapping {
    Mapping(2, 0, 4096, 9000, 0, true, leases)
  }

  lemma PageRanges()
    ensures GetHostRange(PAGE, 100, 100) == Ok(HostRange(100, 0, 100, 4096))
    ensures GetHostRange(PAGE, 300, 100) == Ok(HostRange(300, 0, 300, 4096))
    ensures GetHostRange(PAGE, 50, 350) == Ok(HostRange(50, 0, 50, 4096))
  {
  }

  function Handle(pid: nat, i: nat): int {
    FirstHandle(pid) + i
  }

  lemma FirstCall(pid: nat)
    ensures var s := Step(Init(pid), PAGE, Calls()[0]);
            && s.mappings == [Borrowed(1)] && s.nextId == 2 && s.nextHandle == Handle(pid, 1)
            && s.handles.Keys == {Handle(pid, 0)} && s.handles[Handle(pid, 0)].mappingId == 1 && s.handles[Handle(pid, 0)].active
    ensures Orderly(Init(pid), PAGE, Calls()[0])
  {
    PageRanges();
    FirstHandleIsPositive(pid);
  }

  lemma SecondCall(pid: nat, s: State)
    requires s.mappings == [Borrowed(1)] && s.nextId == 2 && s.nextHandle == Handle(pid, 1)
    requires s.handles.Keys == {Handle(pid, 0)}
    ensures var s' := Step(s, PAGE, Calls()[1]);
            && s'.mappings == [Borrowed(1), Owned(1)] && s'.nextHandle == Handle(pid, 2)
            && s'.handles.Keys == {Handle(pid, 0), Handle(pid, 1)} && s'.handles[Handle(pid, 0)] == s.handles[Handle(pid, 0)]
    ensures Orderly(s, PAGE, Calls()[1])
  {
    PageRanges();
    FirstHandleIsPositive(pid);
    FirstIs(s.mappings, m => Holds(m, 300, 100), 1);
    FirstIs(s.mappings, m => Blocks(m, 300, 100), 1);
    assert OwnedBytesTo(s.mappings, 0) == 0 && OwnedBytesTo(s.mappings, 1) == 0;
  }

  lemma ThirdCall(pid: nat, s: State)
    requires s.mappings == [Borrowed(1), Owned(1)] && s.nextHandle == Handle(pid, 2)
    requires s.handles.Keys == {Handle(pid, 0), Handle(pid, 1)}
    ensures var s' := Step(s, PAGE, Calls()[2]);
            && s'.mappings == [Borrowed(1), Owned(2)] && s'.nextHandle == Handle(pid, 3)
            && s'.handles.Keys == {Handle(pid, 0), Handle(pid, 1), Handle(pid, 2)} && s'.handles[Handle(pid, 0)] == s.handles[Handle(pid, 0)]
            && s'.handles[Handle(pid, 2)].mappingId == 2
            && s'.handles[Handle(pid, 2)].addr == 50 && s'.handles[Handle(pid, 2)].bytes == 350
    ensures Orderly(s, PAGE, Calls()[2])
  {
    PageRanges();
    FirstHandleIsPositive(pid);
    FirstIs(s.mappings, m => Holds(m, 50, 350), 1);
  }

  /** After this run two mappings overlap, and a view inside the last lease resolves to the
      older borrowed mapping instead of the leased one. */
  lemma OverlapAndShadowedView(pid: nat, s1: State, s2: State, s3: State)
    requires s1 == Step(Init(pid), PAGE, Calls()[0])
    requires s2 == Step(s1, PAGE, Calls()[1])
    requires s3 == Step(s2, PAGE, Calls()[2])
    ensures Orderly(Init(pid), PAGE, Calls()[0]) && Orderly(s1, PAGE, Calls()[1]) && Orderly(s2, PAGE, Calls()[2])
    ensures |s3.mappings| == 2 && !Disjoint(s3.mappings[0], s3.mappings[1])
    ensures var h := Handle(pid, 2);
            && h in s3.handles && s3.handles[h].mappingId == s3.mappings[1].id
            && s3.handles[h].addr <= 100 && 200 <= s3.handles[h].addr + s3.handles[h].bytes
    ensures FirstHolding(s3.mappings, 100, 100) == 0
  {
    FirstCall(pid);
    SecondCall(pid, s1);
    ThirdCall(pid, s2);
    FirstIs(s3.mappings, m => Holds(m, 100, 100), 0);
  }

  // ---------- the last page ----------

  function LastPage(): Call {
    DoRegister(TWO64 - 4096, 100, RegisterEnv(Some(0), None, Some(9000)))
  }

  lemma LastPageRange()
    ensures GetHostRange(PAGE, TWO64 - 4096, 100) == Ok(HostRange(TWO64 - 4096, TWO64 - 4096, 0, 4096))
  {
  }

  lemma LastPageState(pid: nat, s: State)
    requires s == Step(Init(pid), PAGE, LastPage())
    ensures s.mappings == [Mapping(1, TWO64 - 4096, 4096, 9000, 0, true, 1)] && s.handles.Keys == {Handle(pid, 0)}
    ensures Orderly(Init(pid), PAGE, LastPage())
  {
    LastPageRange();
    FirstHandleIsPositive(pid);
  }

  lemma NothingHeld(ms: seq<Mapping>, m: Mapping, addr: U64, bytes: U64)
    requires ms == [m] && Wrapped(m) && m.base + m.size == TWO64 && 0 < bytes && addr + bytes < TWO64
    ensures FirstHolding(ms, addr, bytes) == 1 && FirstBlocking(ms, addr, bytes) == 0
  {
    FirstIs(ms, x => Holds(x, addr, bytes), 1);
    FirstIs(ms, x => Blocks(x, addr, bytes), 0);
  }

  /** A pool in the last page is registered, but nothing resolves afterwards, and every request of
      whatever range and environment is refused. */
  lemma LastPageIsNotFound(pid: nat, s: State, ptr: U64, bytes: U64, env: RegisterEnv)
    requires s == Step(Init(pid), PAGE, LastPage()) && env.device.Some? && GetHostRange(PAGE, ptr, bytes).Ok?
    ensures s.handles.Keys == {Handle(pid, 0)} && Orderly(Init(pid), PAGE, LastPage())
    ensures Resolve(s, PAGE, ptr, bytes, env.device) == Err(NotMapped)
    ensures Register(s, PAGE, ptr, bytes, env).1 == Refused(CachedOverflow)
  {
    LastPageState(pid, s);
    AcceptedFits(PAGE, ptr, bytes);
    NothingHeld(s.mappings, s.mappings[0], ptr, bytes);
  }

  lemma AcceptedFits(page: int, ptr: U64, bytes: U64)
    requires GetHostRange(page, ptr, bytes).Ok?
    ensures 0 < bytes && ptr + bytes < TWO64 && GetHostRange(page, ptr, bytes).value.addr == ptr
  {
  }

  /** With an older mapping that the request overlaps, the error is the other one. */
  lemma OlderOverlapComesFirst(pid: nat, s1: State, s2: State, env: RegisterEnv)
    requires s1 == Step(Init(pid), PAGE, DoRegister(8192, 100, RegisterEnv(Some(0), None, Some(5000))))
    requires s2 == Step(s1, PAGE, LastPage()) && env.device.Some?
    ensures |s2.mappings| == 2 && Wrapped(s2.mappings[1])
    ensures Register(s2, PAGE, 8292, 8000, env).1 == Refused(PartialOverlap)
  {
    LastPageRange();
    FirstHandleIsPositive(pid);
    OlderRanges();
    var m := Mapping(1, 8192, 4096, 5000, 0, true, 1);
    assert s1.mappings == [m];
    FirstIs(s1.mappings, x => Holds(x, TWO64 - 4096, 100), 1);
    FirstIs(s1.mappings, x => Blocks(x, TWO64 - 4096, 100), 1);
    assert s2.mappings == [m, Mapping(2, TWO64 - 4096, 4096, 9000, 0, true, 1)];
    FirstIs(s2.mappings, x => Holds(x, 8292, 8000), 2);
    FirstIs(s2.mappings, x => Blocks(x, 8292, 8000), 0);
  }

  lemma OlderRanges()
    ensures GetHostRange(PAGE, 8192, 100) == Ok(HostRange(8192, 8192, 0, 4096))
    ensures GetHostRange(PAGE, 8292, 8000) == Ok(HostRange(8292, 8192, 100, 8192))
  {
  }

  // ---------- the whole address space ----------

  const REST: int := TWO64 - 4096

  function FillCalls(): seq<Call> {
    [DoRegister(1, 1, RegisterEnv(Some(0), None, Some(0))),
     DoRegister(4096, REST - 1, RegisterEnv(Some(0), None, Some(4096))),
     DoUnregister(Handle(1, 0), ReleaseEnv(Some(0), true, true))]
  }

  lemma FillRanges()
    ensures GetHostRange(PAGE, 1, 1) == Ok(HostRange(1, 0, 1, 4096))
    ensures GetHostRange(PAGE, 4096, REST - 1) == Ok(HostRange(4096, 4096, 0, REST))
  {
  }

  lemma FillFirst(s: State)
    requires s == Step(Init(1), PAGE, FillCalls()[0])
    ensures s.mappings == [Mapping(1, 0, 4096, 0, 0, true, 1)] && s.nextId == 2 && s.nextHandle == Handle(1, 1)
    ensures s.handles.Keys == {Handle(1, 0)} && s.handles[Handle(1, 0)].mappingId == 1 && s.handles[Handle(1, 0)].active
    ensures s.counters.bytesCurrent == 4096 == s.counters.bytesPeak
  {
    FillRanges();
  }

  lemma FillSecond(s: State, s': State)
    requires s == Step(Init(1), PAGE, FillCalls()[0]) && s' == Step(s, PAGE, FillCalls()[1])
    ensures s'.mappings == [Mapping(1, 0, 4096, 0, 0, true, 1), Mapping(2, 4096, REST, 4096, 0, true, 1)]
    ensures s'.handles.Keys == {Handle(1, 0), Handle(1, 1)} && s'.handles[Handle(1, 0)] == s.handles[Handle(1, 0)]
    ensures FillsSpace(s, PAGE, 4096, REST - 1, FillCalls()[1].renv)
    ensures s'.counters.bytesCurrent == 0 && s'.counters.bytesPeak == 4096
  {
    FillFirst(s);
    FillRanges();
    FirstIs(s.mappings, x => Holds(x, 4096, REST - 1), 1);
    FirstIs(s.mappings, x => Blocks(x, 4096, REST - 1), 1);
    assert OwnedBytesTo(s.mappings, 0) == 0 && OwnedBytesTo(s.mappings, 1) == 4096;
  }

  /** Two pools can make up the whole address space: the byte counter then reads zero, and after
      the first is released it reads more than the reported peak. */
  lemma FillingWrapsTheCounter(s1: State, s2: State, s3: State)
    requires s1 == Step(Init(1), PAGE, FillCalls()[0])
    requires s2 == Step(s1, PAGE, FillCalls()[1])
    requires s3 == Step(s2, PAGE, FillCalls()[2])
    ensures FillsSpace(s1, PAGE, FillCalls()[1].ptr, FillCalls()[1].bytes, FillCalls()[1].renv)
    ensures s2.counters.bytesCurrent == 0 && OwnedBytes(s2.mappings) == TWO64
    ensures s3.counters.bytesCurrent > s3.counters.bytesPeak
  {
    FillFirst(s1);
    FillSecond(s1, s2);
    assert OwnedBytesTo(s2.mappings, 0) == 0 && OwnedBytesTo(s2.mappings, 1) == 4096;
    FirstIs(s2.mappings, (x: Mapping) => x.id == 1, 0);
  }

  // ---------- out of handles ----------

  /** One page held by one lease, after any number of other leases on it came and went. */
  ghost predicate Churned(s: State) {
    && s.mappings == [Mapping(1, 4096, 4096, 9000, 0, true, 1)] && s.nextId == 2
    && s.handles.Keys == {Handle(1, 0)} && s.handles[Handle(1, 0)].mappingId == 1
    && Handle(1, 1) <= s.nextHandle <= MAX_I64
  }

  function Share(): Call {
    DoRegister(4096, 100, RegisterEnv(Some(0), None, Some(9000)))
  }

  lemma ChurnRanges()
    ensures GetHostRange(PAGE, 4096, 100) == Ok(HostRange(4096, 4096, 0, 4096))
    ensures GetHostRange(PAGE, 8192, 100) == Ok(HostRange(8192, 8192, 0, 4096))
  {
  }

  lemma ChurnStart()
    ensures Churned(Step(Init(1), PAGE, Share())) && Orderly(Init(1), PAGE, Share())
    ensures Step(Init(1), PAGE, Share()).nextHandle == Handle(1, 1)
  {
    ChurnRanges();
  }

  lemma ChurnShare(s: State)
    requires Churned(s) && s.nextHandle < MAX_I64
    ensures var s' := Step(s, PAGE, Share());
            && s'.mappings == [Mapping(1, 4096, 4096, 9000, 0, true, 2)] && s'.nextId == 2
            && s'.handles.Keys == {Handle(1, 0), s.nextHandle} && s'.handles[Handle(1, 0)] == s.handles[Handle(1, 0)]
            && s'.handles[s.nextHandle].mappingId == 1 && s'.handles[s.nextHandle].active
            && s'.nextHandle == s.nextHandle + 1
    ensures Orderly(s, PAGE, Share())
  {
    ChurnRanges();
    FirstIs(s.mappings, x => Holds(x, 4096, 100), 0);
  }

  lemma ChurnOnce(s: State)
    requires Churned(s) && s.nextHandle < MAX_I64
    ensures Churned(Step(Step(s, PAGE, Share()), PAGE, DoUnregister(s.nextHandle, ReleaseEnv(Some(0), true, true))))
    ensures Step(Step(s, PAGE, Share()), PAGE, DoUnregister(s.nextHandle, ReleaseEnv(Some(0), true, true))).nextHandle
            == s.nextHandle + 1
  {
    ChurnShare(s);
    var s1 := Step(s, PAGE, Share());
    FirstIs(s1.mappings, (x: Mapping) => x.id == 1, 0);
  }

  lemma RunOne(s: State, page: int, calls: seq<Call>, c: Call)
    ensures Run(s, page, calls + [c]) == Step(Run(s, page, calls), page, c)
    ensures OrderlyRun(s, page, calls + [c]) <==>
            OrderlyRun(s, page, calls) && Orderly(Run(s, page, calls), page, c)
  {
    assert (calls + [c])[..|calls|] == calls;
  }

  lemma {:induction false} Churn(n: nat) returns (calls: seq<Call>)
    requires Handle(1, 1) + n <= MAX_I64
    ensures OrderlyRun(Init(1), PAGE, calls) && Churned(Run(Init(1), PAGE, calls))
    ensures Run(Init(1), PAGE, calls).nextHandle == Handle(1, 1) + n
  {
    if n == 0 {
      ChurnStart();
      RunOne(Init(1), PAGE, [], Share());
      calls := [] + [Share()];
    } else {
      var before := Churn(n - 1);
      var s := Run(Init(1), PAGE, before);
      var release := DoUnregister(s.nextHandle, ReleaseEnv(Some(0), true, true));
      ChurnShare(s);
      ChurnOnce(s);
      RunOne(Init(1), PAGE, before, Share());
      RunOne(Init(1), PAGE, before + [Share()], release);
      calls := before + [Share()] + [release];
    }
  }

  function Fresh(): RegisterEnv {
    RegisterEnv(Some(0), None, Some(5000))
  }

  /** Once the handles are used up, a failing registration leaves a mapping nobody can release. */
  lemma LeakedMapping(s: State)
    requires Churned(s) && s.nextHandle == MAX_I64
    ensures Leaks(s, PAGE, 8192, 100, Fresh())
    ensures Register(s, PAGE, 8192, 100, Fresh()).1 == Refused(HandlesExhausted)
    ensures Register(s, PAGE, 8192, 100, Fresh()).0.mappings == s.mappings + [Mapping(2, 8192, 4096, 5000, 0, true, 0)]
  {
    ChurnRanges();
    FirstIs(s.mappings, x => Holds(x, 8192, 100), 1);
    FirstIs(s.mappings, x => Blocks(x, 8192, 100), 1);
  }

  /** A run of registrations and releases that ends where the next registration leaks. */
  lemma LeakIsReachable() returns (calls: seq<Call>)
    ensures OrderlyRun(Init(1), PAGE, calls)
    ensures var s := Run(Init(1), PAGE, calls);
            && Leaks(s, PAGE, 8192, 100, Fresh())
            && Register(s, PAGE, 8192, 100, Fresh()).1 == Refused(HandlesExhausted)
            && |Register(s, PAGE, 8192, 100, Fresh()).0.mappings| == |s.mappings| + 1
  {
    calls := Churn(MAX_I64 - Handle(1, 1));
    LeakedMapping(Run(Init(1), PAGE, calls));
  }
}
