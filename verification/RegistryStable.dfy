/** What every run keeps without exception, running out of ids or handles included: lease counts
    are exact, and whatever resolves to a leased mapping keeps resolving to it. */
module RegistryStable {
  import opened Arithmetic
  import opened Wrappers
  import opened HostRanges
  import opened Registry
  import opened RegistryInvariant
  import opened RegistrySteps
  import opened RegistryRuns

  // ---------- the weak invariant ----------

  /** The first n ids increase and stay below a bound. */
  predicate Ascending(ms: seq<Mapping>, n: nat, top: int)
    requires n <= |ms|
  {
    n == 0 || (0 < ms[n - 1].id < top && Ascending(ms, n - 1, ms[n - 1].id))
  }

  ghost predicate Tallied(ms: seq<Mapping>, handles: map<int, Lease>, n: nat)
    requires n <= |ms|
  {
    n == 0 || (Tallied(ms, handles, n - 1) && ms[n - 1].leases == |Holders(handles, ms[n - 1].id)|)
  }

  ghost predicate Known(ms: seq<Mapping>, handles: map<int, Lease>) {
    forall h :: h in handles ==> IndexOf(ms, handles[h].mappingId) < |ms|
  }

  ghost predicate HandlesWithin(handles: map<int, Lease>, first: int, next: int) {
    0 < first <= next <= MAX_I64 && forall h :: h in handles ==> first <= h < next && handles[h].active
  }

  ghost predicate Weak(s: State, first: int) {
    && Ascending(s.mappings, |s.mappings|, s.nextId)
    && Tallied(s.mappings, s.handles, |s.mappings|)
    && Known(s.mappings, s.handles)
    && HandlesWithin(s.handles, first, s.nextHandle)
  }

  lemma {:induction false} AscendingPair(ms: seq<Mapping>, n: nat, top: int, i: nat)
    requires n <= |ms| && Ascending(ms, n, top) && i < n
    ensures 0 < ms[i].id < top
    ensures forall j :: i < j < n ==> ms[i].id < ms[j].id
  {
    if i < n - 1 { AscendingPair(ms, n - 1, ms[n - 1].id, i); }
  }

  lemma {:induction false} AscendingSame(ms: seq<Mapping>, ms': seq<Mapping>, n: nat, top: int, top': int)
    requires n <= |ms| && n <= |ms'| && Ascending(ms, n, top) && top <= top'
    requires forall i :: 0 <= i < n ==> ms'[i].id == ms[i].id
    ensures Ascending(ms', n, top')
  {
    if n > 0 { AscendingSame(ms, ms', n - 1, ms[n - 1].id, ms[n - 1].id); }
  }

  lemma {:induction false} AscendingErased(ms: seq<Mapping>, rest: seq<Mapping>, k: nat, n: nat, top: int)
    requires Erased(ms, rest, k) && k < n <= |ms| && Ascending(ms, n, top)
    ensures Ascending(rest, n - 1, top)
  {
    if n == k + 1 {
      AscendingSame(ms, rest, k, ms[k].id, top);
    } else {
      AscendingErased(ms, rest, k, n - 1, ms[n - 1].id);
    }
  }

  lemma OtherIds(ms: seq<Mapping>, top: int, i: nat, k: nat)
    requires Ascending(ms, |ms|, top) && i < |ms| && k < |ms| && i != k
    ensures ms[i].id != ms[k].id
  {
    AscendingPair(ms, |ms|, top, if i < k then i else k);
  }

  lemma {:induction false} TalliedAt(ms: seq<Mapping>, handles: map<int, Lease>, n: nat, i: nat)
    requires n <= |ms| && Tallied(ms, handles, n) && i < n
    ensures ms[i].leases == |Holders(handles, ms[i].id)|
  {
    if i < n - 1 { TalliedAt(ms, handles, n - 1, i); }
  }

  lemma {:induction false} TalliedIs(ms: seq<Mapping>, handles: map<int, Lease>, n: nat)
    requires n <= |ms| && forall i :: 0 <= i < n ==> ms[i].leases == |Holders(handles, ms[i].id)|
    ensures Tallied(ms, handles, n)
  {
    if n > 0 { TalliedIs(ms, handles, n - 1); }
  }

  lemma HandlesBounded(handles: map<int, Lease>, first: int, next: int)
    requires HandlesWithin(handles, first, next)
    ensures |handles| <= next - first
  {
    assert handles.Keys <= Span(first, next - first);
    SubsetCard(handles.Keys, Span(first, next - first));
  }

  lemma TallySmall(s: State, first: int, k: nat)
    requires Weak(s, first) && k < |s.mappings|
    ensures s.mappings[k].leases < MAX_U64
  {
    TalliedAt(s.mappings, s.handles, |s.mappings|, k);
    HoldersBounded(s.handles, s.mappings[k].id);
    HandlesBounded(s.handles, first, s.nextHandle);
  }

  // ---------- mappings under the steps ----------

  /** All old mappings are still there, in place, up to their lease counts. */
  ghost predicate Extends(ms: seq<Mapping>, ms': seq<Mapping>) {
    |ms| <= |ms'| && forall i :: 0 <= i < |ms| ==> ms'[i] == ms[i].(leases := ms'[i].leases)
  }

  lemma IndexExtends(ms: seq<Mapping>, ms': seq<Mapping>, id: U64)
    requires Extends(ms, ms') && IndexOf(ms, id) < |ms|
    ensures IndexOf(ms', id) == IndexOf(ms, id)
  {
    FirstIs(ms', (m: Mapping) => m.id == id, IndexOf(ms, id));
  }

  lemma IndexErased(ms: seq<Mapping>, rest: seq<Mapping>, k: nat, id: U64)
    requires Erased(ms, rest, k) && IndexOf(ms, id) < |ms| && ms[k].id != id
    ensures var i := IndexOf(ms, id);
            IndexOf(rest, id) == if i < k then i else i - 1
  {
    var i := IndexOf(ms, id);
    var i' := if i < k then i else i - 1;
    forall j | 0 <= j < i' ensures rest[j].id != id {
      assert rest[j] == if j < k then ms[j] else ms[j + 1];
    }
    FirstIs(rest, (m: Mapping) => m.id == id, i');
  }

  lemma KnownExtends(ms: seq<Mapping>, ms': seq<Mapping>, handles: map<int, Lease>)
    requires Extends(ms, ms') && Known(ms, handles)
    ensures Known(ms', handles)
  {
    forall h | h in handles ensures IndexOf(ms', handles[h].mappingId) < |ms'| {
      IndexExtends(ms, ms', handles[h].mappingId);
    }
  }

  // ---------- leases come and go ----------

  lemma TallyLease(ms: seq<Mapping>, ms': seq<Mapping>, handles: map<int, Lease>, top: int, k: nat, h: int, l: Lease)
    requires Ascending(ms, |ms|, top) && Tallied(ms, handles, |ms|)
    requires k < |ms| && ms[k].leases < MAX_U64 && h !in handles && l.mappingId == ms[k].id
    requires ms' == ms[k := ms[k].(leases := ms[k].leases + 1)]
    ensures Tallied(ms', handles[h := l], |ms'|)
  {
    forall i | 0 <= i < |ms| ensures ms'[i].leases == |Holders(handles[h := l], ms'[i].id)| {
      TalliedAt(ms, handles, |ms|, i);
      HoldersAdd(handles, h, l, ms[i].id);
      if i != k { OtherIds(ms, top, i, k); }
    }
    TalliedIs(ms', handles[h := l], |ms'|);
  }

  lemma KnownLease(ms: seq<Mapping>, ms': seq<Mapping>, handles: map<int, Lease>, k: nat, h: int, l: Lease)
    requires Known(ms, handles) && k < |ms| && ms[k].leases < MAX_U64 && l.mappingId == ms[k].id
    requires ms' == ms[k := ms[k].(leases := ms[k].leases + 1)]
    ensures Known(ms', handles[h := l])
  {
    KnownExtends(ms, ms', handles);
    var i := IndexOf(ms', l.mappingId);
    assert ms'[k].id == l.mappingId;
    assert i <= k;
  }

  lemma AddLeaseKeepsWeak(s: State, first: int, k: nat, addr: U64, bytes: U64, device: nat, alreadyMapped: bool)
    requires Weak(s, first) && k < |s.mappings|
    ensures Weak(AddLease(s, k, addr, bytes, device, alreadyMapped).0, first)
  {
    if !NoHandlesLeft(s) {
      var l := MakeLease(s, s.mappings[k], addr, bytes, device, alreadyMapped);
      var s' := AddLease(s, k, addr, bytes, device, alreadyMapped).0;
      TallySmall(s, first, k);
      AddLeaseShape(s, k, addr, bytes, device, alreadyMapped);
      AscendingSame(s.mappings, s'.mappings, |s.mappings|, s.nextId, s.nextId);
      TallyLease(s.mappings, s'.mappings, s.handles, s.nextId, k, s.nextHandle, l);
      KnownLease(s.mappings, s'.mappings, s.handles, k, s.nextHandle, l);
    }
  }

  lemma NobodyHolds(ms: seq<Mapping>, handles: map<int, Lease>, top: int)
    requires Ascending(ms, |ms|, top) && Known(ms, handles)
    ensures Holders(handles, top) == {}
  {
    forall h | h in handles ensures handles[h].mappingId != top {
      AscendingPair(ms, |ms|, top, IndexOf(ms, handles[h].mappingId));
    }
  }

  lemma {:induction false} TalliedSame(ms: seq<Mapping>, ms': seq<Mapping>, handles: map<int, Lease>, n: nat)
    requires n <= |ms| && n <= |ms'| && Tallied(ms, handles, n) && forall i :: 0 <= i < n ==> ms'[i] == ms[i]
    ensures Tallied(ms', handles, n)
  {
    if n > 0 { TalliedSame(ms, ms', handles, n - 1); }
  }

  lemma PushKeepsWeak(s: State, s': State, first: int, m: Mapping)
    requires Weak(s, first) && 0 < s.nextId < MAX_U64 && m.id == s.nextId && m.leases == 0
    requires s'.mappings == s.mappings + [m] && s'.nextId == s.nextId + 1
    requires s'.handles == s.handles && s'.nextHandle == s.nextHandle
    ensures Weak(s', first)
  {
    AscendingSame(s.mappings, s'.mappings, |s.mappings|, s.nextId, s.nextId);
    NobodyHolds(s.mappings, s.handles, s.nextId);
    TalliedSame(s.mappings, s'.mappings, s.handles, |s.mappings|);
    KnownExtends(s.mappings, s'.mappings, s.handles);
  }

  lemma CreateKeepsWeak(s: State, first: int, range: HostRange, bytes: U64, device: nat, env: RegisterEnv)
    requires Weak(s, first)
    ensures Weak(CreateMapping(s, range, bytes, device, env).0, first)
  {
    if !NoIdsLeft(s) && (env.borrowed.Some? || env.registered.Some?) {
      var m := if env.borrowed.Some? then Mapping(s.nextId, range.addr, bytes, env.borrowed.value, device, false, 0)
               else Mapping(s.nextId, range.aligned, range.size, env.registered.value, device, true, 0);
      var s1 := if env.borrowed.Some? then Push(s, m).(counters := CountBorrowed(s.counters))
                else Push(s.(acl := s.acl + [HostRegistered(range.aligned, range.size)]), m)
                     .(counters := CountOwned(s.counters, range.size));
      PushKeepsWeak(s, s1, first, m);
      AddLeaseKeepsWeak(s1, first, |s.mappings|, range.addr, bytes, device, env.borrowed.Some?);
    }
  }

  lemma RegisterKeepsWeak(s: State, page: int, first: int, ptr: U64, bytes: U64, env: RegisterEnv)
    requires Weak(s, first)
    ensures Weak(Register(s, page, ptr, bytes, env).0, first)
  {
    if GetHostRange(page, ptr, bytes).Ok? && env.device.Some? {
      var range := GetHostRange(page, ptr, bytes).value;
      var s1 := CountRegister(s);
      assert Weak(s1, first);
      var k := FirstHolding(s.mappings, range.addr, bytes);
      if k < |s.mappings| {
        AddLeaseKeepsWeak(s1, first, k, range.addr, bytes, env.device.value, !s.mappings[k].owned);
      } else {
        CreateKeepsWeak(s1, first, range, bytes, env.device.value, env);
      }
    }
  }

  lemma TallyDrop(ms: seq<Mapping>, ms': seq<Mapping>, handles: map<int, Lease>, top: int, k: nat, h: int)
    requires Ascending(ms, |ms|, top) && Tallied(ms, handles, |ms|)
    requires k < |ms| && ms[k].leases > 0 && h in handles && handles[h].mappingId == ms[k].id
    requires ms' == ms[k := ms[k].(leases := ms[k].leases - 1)]
    ensures Tallied(ms', handles - {h}, |ms'|)
  {
    forall i | 0 <= i < |ms| ensures ms'[i].leases == |Holders(handles - {h}, ms'[i].id)| {
      TalliedAt(ms, handles, |ms|, i);
      HoldersDrop(handles, h, ms[i].id);
      if i != k { OtherIds(ms, top, i, k); }
    }
    TalliedIs(ms', handles - {h}, |ms'|);
  }

  lemma DropKeepsWeak(s: State, first: int, k: nat, h: int)
    requires Weak(s, first) && h in s.handles && k < |s.mappings|
    requires s.mappings[k].leases > 0 && s.handles[h].mappingId == s.mappings[k].id
    ensures Weak(DropLease(s, k, h), first)
  {
    var s' := DropLease(s, k, h);
    AscendingSame(s.mappings, s'.mappings, |s.mappings|, s.nextId, s.nextId);
    TallyDrop(s.mappings, s'.mappings, s.handles, s.nextId, k, h);
    KnownExtends(s.mappings, s'.mappings, s.handles - {h});
  }

  /** A mapping with one lease is held by that one. */
  lemma OnlyHolder(ms: seq<Mapping>, handles: map<int, Lease>, k: nat, h: int, g: int)
    requires k < |ms| && Tallied(ms, handles, |ms|) && ms[k].leases == 1
    requires h in handles && handles[h].mappingId == ms[k].id
    requires g in handles && handles[g].mappingId == ms[k].id
    ensures g == h
  {
    TalliedAt(ms, handles, |ms|, k);
    var hs := Holders(handles, ms[k].id);
    assert h in hs && g in hs;
    assert |hs - {h}| == 0;
    assert g != h ==> g in hs - {h};
  }

  lemma TallyErase(ms: seq<Mapping>, rest: seq<Mapping>, handles: map<int, Lease>, top: int, k: nat, h: int)
    requires Ascending(ms, |ms|, top) && Tallied(ms, handles, |ms|) && Erased(ms, rest, k)
    requires h in handles && handles[h].mappingId == ms[k].id
    ensures Tallied(rest, handles - {h}, |rest|)
  {
    forall i | 0 <= i < |rest| ensures rest[i].leases == |Holders(handles - {h}, rest[i].id)| {
      var o := if i < k then i else i + 1;
      assert rest[i] == ms[o];
      TalliedAt(ms, handles, |ms|, o);
      HoldersDrop(handles, h, ms[o].id);
      OtherIds(ms, top, o, k);
    }
    TalliedIs(rest, handles - {h}, |rest|);
  }

  lemma KnownErase(ms: seq<Mapping>, rest: seq<Mapping>, handles: map<int, Lease>, k: nat, h: int)
    requires Known(ms, handles) && Tallied(ms, handles, |ms|) && Erased(ms, rest, k) && ms[k].leases == 1
    requires h in handles && handles[h].mappingId == ms[k].id
    ensures Known(rest, handles - {h})
  {
    forall g | g in handles && g != h ensures IndexOf(rest, handles[g].mappingId) < |rest| {
      if handles[g].mappingId == ms[k].id { OnlyHolder(ms, handles, k, h, g); }
      IndexErased(ms, rest, k, handles[g].mappingId);
    }
  }

  lemma ReleaseErases(ms: seq<Mapping>, top: int, k: nat)
    requires k < |ms| && Ascending(ms, |ms|, top)
    ensures Erased(ms, Without(ms, ms[k].id), k)
  {
    forall i | 0 <= i < |ms| && i != k ensures ms[i].id != ms[k].id {
      OtherIds(ms, top, i, k);
    }
    WithoutIsErasedTo(ms, k, |ms|);
  }

  lemma EraseKeepsWeak(s: State, s': State, first: int, k: nat, h: int)
    requires Weak(s, first) && h in s.handles && Erased(s.mappings, s'.mappings, k)
    requires s.mappings[k].leases == 1 && s.handles[h].mappingId == s.mappings[k].id
    requires s'.handles == s.handles - {h} && s'.nextId == s.nextId && s'.nextHandle == s.nextHandle
    ensures Weak(s', first)
  {
    AscendingErased(s.mappings, s'.mappings, k, |s.mappings|, s.nextId);
    TallyErase(s.mappings, s'.mappings, s.handles, s.nextId, k, h);
    KnownErase(s.mappings, s'.mappings, s.handles, k, h);
  }

  lemma FinishKeepsWeak(s: State, first: int, k: nat, h: int, unmapOk: bool)
    requires Weak(s, first) && h in s.handles && k < |s.mappings|
    requires s.mappings[k].leases == 1 && s.handles[h].mappingId == s.mappings[k].id
    ensures Weak(FinishRelease(s, k, h, unmapOk).0, first)
  {
    if !(s.mappings[k].owned && !unmapOk) {
      ReleaseErases(s.mappings, s.nextId, k);
      EraseKeepsWeak(s, FinishRelease(s, k, h, unmapOk).0, first, k, h);
    }
  }

  lemma UnregisterKeepsWeak(s: State, first: int, handle: int, env: ReleaseEnv)
    requires Weak(s, first)
    ensures Weak(Unregister(s, handle, env).0, first)
  {
    UnregisterCases(s, handle, env);
    var target := ReleaseTarget(s, handle, env.device);
    if target.Ok? {
      var k := target.value;
      if s.mappings[k].leases != 1 {
        DropKeepsWeak(s, first, k, handle);
      } else if env.fenceOk {
        assert Weak(Fence(s, k), first);
        FinishKeepsWeak(Fence(s, k), first, k, handle, env.unmapOk);
      }
    }
  }

  lemma StepKeepsWeak(s: State, page: int, first: int, c: Call)
    requires Weak(s, first)
    ensures Weak(Step(s, page, c), first)
  {
    match c
    case DoRegister(ptr, bytes, env) => RegisterKeepsWeak(s, page, first, ptr, bytes, env);
    case DoUnregister(handle, env) => UnregisterKeepsWeak(s, first, handle, env);
  }

  lemma InitIsWeak(pid: nat)
    ensures Weak(Init(pid), FirstHandle(pid))
  {
    FirstHandleIsPositive(pid);
  }

  /** Whatever is asked of the registry, its lease counts stay exact and no handle dangles. */
  lemma {:induction false} RunKeepsWeak(s: State, page: int, first: int, calls: seq<Call>)
    requires Weak(s, first)
    ensures Weak(Run(s, page, calls), first)
  {
    if calls != [] {
      var n := |calls| - 1;
      RunKeepsWeak(s, page, first, calls[..n]);
      StepKeepsWeak(Run(s, page, calls[..n]), page, first, calls[n]);
    }
  }

  // ---------- ids, handles and owners ----------

  /** Mappings without a lease are left only by registrations that found no handle; ids run behind
      handles until then; and every lease belongs to the process of the registry. */
  ghost predicate Tidy(s: State, first: int) {
    && (forall i :: 0 <= i < |s.mappings| && s.mappings[i].leases == 0 ==> NoHandlesLeft(s))
    && 0 < s.nextId && (NoHandlesLeft(s) || s.nextId - 1 <= s.nextHandle - first)
    && (forall h :: h in s.handles ==> s.handles[h].ownerPid == s.pid)
  }

  /** The lease makes up for one mapping without a lease and one id too many. */
  lemma AddLeaseIsTidy(s: State, first: int, k: nat, addr: U64, bytes: U64, device: nat, alreadyMapped: bool)
    requires Weak(s, first) && k < |s.mappings|
    requires forall i :: 0 <= i < |s.mappings| && i != k && s.mappings[i].leases == 0 ==> NoHandlesLeft(s)
    requires 0 < s.nextId && (NoHandlesLeft(s) || s.nextId - 2 <= s.nextHandle - first)
    requires forall h :: h in s.handles ==> s.handles[h].ownerPid == s.pid
    ensures Tidy(AddLease(s, k, addr, bytes, device, alreadyMapped).0, first)
  {
    TallySmall(s, first, k);
    if !NoHandlesLeft(s) { AddLeaseShape(s, k, addr, bytes, device, alreadyMapped); }
  }

  lemma CreateIsTidy(s: State, first: int, range: HostRange, bytes: U64, device: nat, env: RegisterEnv)
    requires Weak(s, first) && Tidy(s, first)
    ensures Tidy(CreateMapping(s, range, bytes, device, env).0, first)
  {
    if !NoIdsLeft(s) && (env.borrowed.Some? || env.registered.Some?) {
      var m := if env.borrowed.Some? then Mapping(s.nextId, range.addr, bytes, env.borrowed.value, device, false, 0)
               else Mapping(s.nextId, range.aligned, range.size, env.registered.value, device, true, 0);
      var s1 := if env.borrowed.Some? then Push(s, m).(counters := CountBorrowed(s.counters))
                else Push(s.(acl := s.acl + [HostRegistered(range.aligned, range.size)]), m)
                     .(counters := CountOwned(s.counters, range.size));
      PushKeepsWeak(s, s1, first, m);
      AddLeaseIsTidy(s1, first, |s.mappings|, range.addr, bytes, device, env.borrowed.Some?);
    }
  }

  lemma RegisterIsTidy(s: State, page: int, first: int, ptr: U64, bytes: U64, env: RegisterEnv)
    requires Weak(s, first) && Tidy(s, first)
    ensures Tidy(Register(s, page, ptr, bytes, env).0, first)
  {
    if GetHostRange(page, ptr, bytes).Ok? && env.device.Some? {
      var range := GetHostRange(page, ptr, bytes).value;
      var s1 := CountRegister(s);
      assert Weak(s1, first) && Tidy(s1, first);
      if Creates(s, page, ptr, bytes, env) {
        CreateIsTidy(s1, first, range, bytes, env.device.value, env);
      } else {
        SharedCases(s1, range, bytes, env.device.value, env);
        var k := FirstHolding(s.mappings, ptr, bytes);
        if k < |s.mappings| {
          AddLeaseIsTidy(s1, first, k, range.addr, bytes, env.device.value, !s.mappings[k].owned);
        }
      }
    }
  }

  lemma FinishIsTidy(s: State, top: int, first: int, k: nat, h: int, unmapOk: bool)
    requires Ascending(s.mappings, |s.mappings|, top) && Tidy(s, first) && k < |s.mappings|
    ensures Tidy(FinishRelease(s, k, h, unmapOk).0, first)
  {
    ReleaseErases(s.mappings, top, k);
  }

  lemma UnregisterIsTidy(s: State, first: int, handle: int, env: ReleaseEnv)
    requires Weak(s, first) && Tidy(s, first)
    ensures Tidy(Unregister(s, handle, env).0, first)
  {
    UnregisterCases(s, handle, env);
    var target := ReleaseTarget(s, handle, env.device);
    if target.Ok? {
      var k := target.value;
      if s.mappings[k].leases == 1 && env.fenceOk {
        FinishIsTidy(Fence(s, k), s.nextId, first, k, handle, env.unmapOk);
      }
    }
  }

  lemma StepIsTidy(s: State, page: int, first: int, c: Call)
    requires Weak(s, first) && Tidy(s, first)
    ensures Tidy(Step(s, page, c), first)
  {
    match c
    case DoRegister(ptr, bytes, env) => RegisterIsTidy(s, page, first, ptr, bytes, env);
    case DoUnregister(handle, env) => UnregisterIsTidy(s, first, handle, env);
  }

  lemma {:induction false} RunIsTidy(s: State, page: int, first: int, calls: seq<Call>)
    requires Weak(s, first) && Tidy(s, first)
    ensures Tidy(Run(s, page, calls), first)
  {
    if calls != [] {
      var n := |calls| - 1;
      RunIsTidy(s, page, first, calls[..n]);
      RunKeepsWeak(s, page, first, calls[..n]);
      StepIsTidy(Run(s, page, calls[..n]), page, first, calls[n]);
    }
  }

  lemma StepKeepsPid(s: State, page: int, c: Call)
    ensures Step(s, page, c).pid == s.pid
  {
  }

  lemma {:induction false} RunKeepsPid(s: State, page: int, calls: seq<Call>)
    ensures Run(s, page, calls).pid == s.pid
  {
    if calls != [] {
      var n := |calls| - 1;
      RunKeepsPid(s, page, calls[..n]);
      StepKeepsPid(Run(s, page, calls[..n]), page, calls[n]);
    }
  }

  /** In every run of a process, whatever is asked: the ids do not run out before the handles do,
      a mapping without a lease means that the handles ran out, and every lease records the process. */
  lemma {:induction false} HandlesRunOutFirst(pid: nat, page: int, calls: seq<Call>)
    ensures var s := Run(Init(pid), page, calls);
            && (NoIdsLeft(s) ==> NoHandlesLeft(s))
            && (forall i :: 0 <= i < |s.mappings| && s.mappings[i].leases == 0 ==> NoHandlesLeft(s))
            && (forall h :: h in s.handles ==> s.handles[h].ownerPid == pid)
  {
    InitIsWeak(pid);
    RunKeepsWeak(Init(pid), page, FirstHandle(pid), calls);
    RunIsTidy(Init(pid), page, FirstHandle(pid), calls);
    RunKeepsPid(Init(pid), page, calls);
  }

  /** In a run that never leaks nor fills the address space the ids do not run out at all. */
  lemma {:induction false} IdsNeverRunOut(pid: nat, page: int, calls: seq<Call>)
    requires ValidPage(page) && OrderlyRun(Init(pid), page, calls)
    ensures var s := Run(Init(pid), page, calls);
            s.nextId - 1 <= s.nextHandle - FirstHandle(pid) && !NoIdsLeft(s)
  {
    InitKeepsInv(pid, page);
    RunKeepsInv(Init(pid), page, FirstHandle(pid), calls);
    IdsAreLeft(Run(Init(pid), page, calls), page, FirstHandle(pid));
  }

  // ---------- stable resolution ----------

  lemma AddLeaseExtends(ms: seq<Mapping>, s: State, k: nat, addr: U64, bytes: U64, device: nat, alreadyMapped: bool)
    requires k < |s.mappings| && Extends(ms, s.mappings)
    ensures Extends(ms, AddLease(s, k, addr, bytes, device, alreadyMapped).0.mappings)
  {
  }

  lemma CreateExtends(s: State, range: HostRange, bytes: U64, device: nat, env: RegisterEnv)
    ensures Extends(s.mappings, CreateMapping(s, range, bytes, device, env).0.mappings)
  {
  }

  lemma RegisterExtends(s: State, page: int, ptr: U64, bytes: U64, env: RegisterEnv)
    ensures Extends(s.mappings, Register(s, page, ptr, bytes, env).0.mappings)
  {
    if GetHostRange(page, ptr, bytes).Ok? && env.device.Some? {
      var range := GetHostRange(page, ptr, bytes).value;
      var k := FirstHolding(s.mappings, range.addr, bytes);
      if k < |s.mappings| {
        AddLeaseExtends(s.mappings, CountRegister(s), k, range.addr, bytes, env.device.value, !s.mappings[k].owned);
      } else {
        CreateExtends(CountRegister(s), range, bytes, env.device.value, env);
      }
    }
  }

  /** A lookup of the range finds mapping `m`, up to its lease count. */
  ghost predicate Finds(ms: seq<Mapping>, addr: U64, bytes: U64, m: Mapping) {
    var k := FirstHolding(ms, addr, bytes);
    k < |ms| && ms[k] == m.(leases := ms[k].leases)
  }

  lemma ExtendsFinds(ms: seq<Mapping>, ms': seq<Mapping>, addr: U64, bytes: U64, m: Mapping)
    requires Extends(ms, ms') && Finds(ms, addr, bytes, m)
    ensures Finds(ms', addr, bytes, m)
  {
    var k := FirstHolding(ms, addr, bytes);
    forall j | 0 <= j <= k ensures Holds(ms'[j], addr, bytes) == Holds(ms[j], addr, bytes) {
      assert ms'[j] == ms[j].(leases := ms'[j].leases);
    }
    FirstIs(ms', x => Holds(x, addr, bytes), k);
  }

  lemma ErasedFinds(ms: seq<Mapping>, rest: seq<Mapping>, k: nat, addr: U64, bytes: U64, m: Mapping)
    requires Erased(ms, rest, k) && Finds(ms, addr, bytes, m) && ms[k].id != m.id
    ensures Finds(rest, addr, bytes, m)
  {
    var f := FirstHolding(ms, addr, bytes);
    var f' := if f < k then f else f - 1;
    forall j | 0 <= j < f' ensures !Holds(rest[j], addr, bytes) {
      assert rest[j] == if j < k then ms[j] else ms[j + 1];
    }
    FirstIs(rest, x => Holds(x, addr, bytes), f');
  }

  lemma UnregisterFinds(s: State, first: int, h: int, env: ReleaseEnv, handle: int, addr: U64, bytes: U64, m: Mapping)
    requires Weak(s, first) && handle in s.handles && h != handle && s.handles[handle].mappingId == m.id
    requires Finds(s.mappings, addr, bytes, m)
    ensures Finds(Unregister(s, h, env).0.mappings, addr, bytes, m)
  {
    UnregisterCases(s, h, env);
    var target := ReleaseTarget(s, h, env.device);
    if target.Ok? {
      var k := target.value;
      if s.mappings[k].leases != 1 {
        ExtendsFinds(s.mappings, DropLease(s, k, h).mappings, addr, bytes, m);
      } else if env.fenceOk {
        if s.mappings[k].id == m.id { OnlyHolder(s.mappings, s.handles, k, h, handle); }
        ReleaseErases(s.mappings, s.nextId, k);
        var rest := FinishRelease(Fence(s, k), k, h, env.unmapOk).0.mappings;
        if rest != s.mappings { ErasedFinds(s.mappings, rest, k, addr, bytes, m); }
      }
    }
  }

  lemma StepFinds(s: State, page: int, first: int, c: Call, handle: int, addr: U64, bytes: U64, m: Mapping)
    requires Weak(s, first) && handle in s.handles && s.handles[handle].mappingId == m.id
    requires Finds(s.mappings, addr, bytes, m) && !(c.DoUnregister? && c.handle == handle)
    ensures Finds(Step(s, page, c).mappings, addr, bytes, m)
  {
    match c
    case DoRegister(ptr, size, env) =>
      RegisterExtends(s, page, ptr, size, env);
      ExtendsFinds(s.mappings, Register(s, page, ptr, size, env).0.mappings, addr, bytes, m);
    case DoUnregister(h, env) => UnregisterFinds(s, first, h, env, handle, addr, bytes, m);
  }

  lemma {:induction false} RunFinds(s: State, page: int, first: int, calls: seq<Call>, handle: int, addr: U64,
                                    bytes: U64, m: Mapping)
    requires Weak(s, first) && handle in s.handles && s.handles[handle].mappingId == m.id
    requires Finds(s.mappings, addr, bytes, m)
    requires forall i :: 0 <= i < |calls| ==> !(calls[i].DoUnregister? && calls[i].handle == handle)
    ensures Finds(Run(s, page, calls).mappings, addr, bytes, m)
  {
    if calls != [] {
      var n := |calls| - 1;
      RunFinds(s, page, first, calls[..n], handle, addr, bytes, m);
      RunKeepsWeak(s, page, first, calls[..n]);
      RunKeepsLease(s, page, calls[..n], handle);
      StepFinds(Run(s, page, calls[..n]), page, first, calls[n], handle, addr, bytes, m);
    }
  }

  /** Stable resolution: while a handle is not released, whatever resolves to its mapping keeps
      resolving to it, and to the same device address, whatever else is registered and released
      and whatever the ACL runtime answers. */
  lemma {:induction false} StableResolution(s: State, page: int, first: int, calls: seq<Call>, handle: int, addr: U64,
                                            bytes: U64, device: Option<nat>)
    requires Weak(s, first) && handle in s.handles
    requires var k := FirstHolding(s.mappings, addr, bytes);
             k < |s.mappings| && s.mappings[k].id == s.handles[handle].mappingId
    requires forall i :: 0 <= i < |calls| ==> !(calls[i].DoUnregister? && calls[i].handle == handle)
    ensures var s' := Run(s, page, calls);
            && handle in s'.handles && s'.handles[handle] == s.handles[handle]
            && Finds(s'.mappings, addr, bytes, s.mappings[FirstHolding(s.mappings, addr, bytes)])
            && Resolve(s', page, addr, bytes, device) == Resolve(s, page, addr, bytes, device)
  {
    RunKeepsLease(s, page, calls, handle);
    RunFinds(s, page, first, calls, handle, addr, bytes, s.mappings[FirstHolding(s.mappings, addr, bytes)]);
  }

  // ---------- ACL registrations ----------

  function OwnersTo(ms: seq<Mapping>, base: int, n: nat): nat
    requires n <= |ms|
  {
    if n == 0 then 0 else OwnersTo(ms, base, n - 1) + if ms[n - 1].owned && ms[n - 1].base == base then 1 else 0
  }

  /** Every owned mapping still has its ACL registration. */
  ghost predicate AclCovers(ms: seq<Mapping>, acl: seq<AclCall>) {
    forall b :: OwnersTo(ms, b, |ms|) <= Balance(acl, b)
  }

  lemma {:induction false} OwnersSame(ms: seq<Mapping>, ms': seq<Mapping>, base: int, n: nat)
    requires n <= |ms| && n <= |ms'|
    requires forall i :: 0 <= i < n ==> ms'[i].owned == ms[i].owned && ms'[i].base == ms[i].base
    ensures OwnersTo(ms', base, n) == OwnersTo(ms, base, n)
  {
    if n > 0 { OwnersSame(ms, ms', base, n - 1); }
  }

  lemma {:induction false} OwnersErased(ms: seq<Mapping>, rest: seq<Mapping>, base: int, k: nat, n: nat)
    requires Erased(ms, rest, k) && k < n <= |ms|
    ensures OwnersTo(ms, base, n) ==
            OwnersTo(rest, base, n - 1) + if ms[k].owned && ms[k].base == base then 1 else 0
  {
    if n == k + 1 { OwnersSame(ms, rest, base, k); } else { OwnersErased(ms, rest, base, k, n - 1); }
  }

  lemma RecountKeepsCover(ms: seq<Mapping>, ms': seq<Mapping>, acl: seq<AclCall>)
    requires AclCovers(ms, acl) && Extends(ms, ms') && |ms'| == |ms|
    ensures AclCovers(ms', acl)
  {
    forall b ensures OwnersTo(ms', b, |ms'|) <= Balance(acl, b) {
      OwnersSame(ms, ms', b, |ms|);
    }
  }

  lemma CallKeepsCover(ms: seq<Mapping>, acl: seq<AclCall>, acl': seq<AclCall>, c: AclCall)
    requires AclCovers(ms, acl) && acl' == acl + [c] && !c.HostUnregistered?
    ensures AclCovers(ms, acl')
  {
    AclAppend(acl, acl', c);
  }

  lemma PushKeepsCover(ms: seq<Mapping>, ms': seq<Mapping>, m: Mapping, acl: seq<AclCall>, acl': seq<AclCall>)
    requires AclCovers(ms, acl) && ms' == ms + [m]
    requires acl' == if m.owned then acl + [HostRegistered(m.base, m.size)] else acl
    ensures AclCovers(ms', acl')
  {
    if m.owned { AclAppend(acl, acl', HostRegistered(m.base, m.size)); }
    forall b ensures OwnersTo(ms', b, |ms'|) <= Balance(acl', b) {
      OwnersSame(ms, ms', b, |ms|);
    }
  }

  lemma EraseKeepsCover(ms: seq<Mapping>, rest: seq<Mapping>, k: nat, acl: seq<AclCall>, acl': seq<AclCall>)
    requires AclCovers(ms, acl) && Erased(ms, rest, k)
    requires acl' == if ms[k].owned then acl + [HostUnregistered(ms[k].base)] else acl
    ensures AclCovers(rest, acl')
  {
    if ms[k].owned { AclAppend(acl, acl', HostUnregistered(ms[k].base)); }
    forall b ensures OwnersTo(rest, b, |rest|) <= Balance(acl', b) {
      OwnersErased(ms, rest, b, k, |ms|);
    }
  }

  lemma AddLeaseKeepsCover(s: State, k: nat, addr: U64, bytes: U64, device: nat, alreadyMapped: bool)
    requires k < |s.mappings| && AclCovers(s.mappings, s.acl)
    ensures var s' := AddLease(s, k, addr, bytes, device, alreadyMapped).0;
            AclCovers(s'.mappings, s'.acl)
  {
    var s' := AddLease(s, k, addr, bytes, device, alreadyMapped).0;
    AddLeaseExtends(s.mappings, s, k, addr, bytes, device, alreadyMapped);
    RecountKeepsCover(s.mappings, s'.mappings, s.acl);
  }

  lemma CreateKeepsCover(s: State, range: HostRange, bytes: U64, device: nat, env: RegisterEnv)
    requires AclCovers(s.mappings, s.acl)
    ensures var s' := CreateMapping(s, range, bytes, device, env).0;
            AclCovers(s'.mappings, s'.acl)
  {
    if NoIdsLeft(s) {
      if env.borrowed.None? && env.registered.Some? {
        CallKeepsCover(s.mappings, s.acl, s.acl + [HostRegistered(range.aligned, range.size)],
                       HostRegistered(range.aligned, range.size));
      }
    } else if env.borrowed.Some? || env.registered.Some? {
      var m := if env.borrowed.Some? then Mapping(s.nextId, range.addr, bytes, env.borrowed.value, device, false, 0)
               else Mapping(s.nextId, range.aligned, range.size, env.registered.value, device, true, 0);
      var s1 := if env.borrowed.Some? then Push(s, m).(counters := CountBorrowed(s.counters))
                else Push(s.(acl := s.acl + [HostRegistered(range.aligned, range.size)]), m)
                     .(counters := CountOwned(s.counters, range.size));
      PushKeepsCover(s.mappings, s1.mappings, m, s.acl, s1.acl);
      AddLeaseKeepsCover(s1, |s.mappings|, range.addr, bytes, device, env.borrowed.Some?);
    }
  }

  lemma RegisterKeepsCover(s: State, page: int, ptr: U64, bytes: U64, env: RegisterEnv)
    requires AclCovers(s.mappings, s.acl)
    ensures var s' := Register(s, page, ptr, bytes, env).0;
            AclCovers(s'.mappings, s'.acl)
  {
    if GetHostRange(page, ptr, bytes).Ok? && env.device.Some? {
      var range := GetHostRange(page, ptr, bytes).value;
      var s1 := CountRegister(s);
      if Creates(s, page, ptr, bytes, env) {
        CreateKeepsCover(s1, range, bytes, env.device.value, env);
      } else {
        SharedCases(s1, range, bytes, env.device.value, env);
        var k := FirstHolding(s.mappings, ptr, bytes);
        if k < |s.mappings| {
          AddLeaseKeepsCover(s1, k, range.addr, bytes, env.device.value, !s.mappings[k].owned);
        }
      }
    }
  }

  lemma {:induction false} OwnerIsCounted(ms: seq<Mapping>, k: nat, n: nat)
    requires k < n <= |ms| && ms[k].owned
    ensures OwnersTo(ms, ms[k].base, n) >= 1
  {
    if k < n - 1 { OwnerIsCounted(ms, k, n - 1); }
  }

  // ---------- the byte counters ----------

  /** The current bytes are the bytes of the owned mappings, and never above the peak. */
  ghost predicate BytesOk(s: State) {
    s.counters.bytesCurrent == OwnedBytes(s.mappings) <= s.counters.bytesPeak
  }

  lemma AddLeaseBytes(s: State, k: nat, addr: U64, bytes: U64, device: nat, alreadyMapped: bool)
    requires k < |s.mappings|
    ensures var s' := AddLease(s, k, addr, bytes, device, alreadyMapped).0;
            OwnedBytes(s'.mappings) == OwnedBytes(s.mappings) && s'.counters == s.counters
  {
    if !NoHandlesLeft(s) {
      OwnedRecount(s.mappings, AddLease(s, k, addr, bytes, device, alreadyMapped).0.mappings, k,
                   Add64(s.mappings[k].leases, 1));
    }
  }

  lemma CreateBytes(s: State, range: HostRange, bytes: U64, device: nat, env: RegisterEnv)
    requires BytesOk(s)
    ensures var s' := CreateMapping(s, range, bytes, device, env).0;
            var owns := env.borrowed.None? && env.registered.Some? && !NoIdsLeft(s);
            && (BytesOk(s') <==> (owns ==> OwnedBytes(s.mappings) + range.size < TWO64))
            && s'.counters.bytesPeak == Max(s.counters.bytesPeak, s'.counters.bytesCurrent)
  {
    if !NoIdsLeft(s) && (env.borrowed.Some? || env.registered.Some?) {
      var m := if env.borrowed.Some? then Mapping(s.nextId, range.addr, bytes, env.borrowed.value, device, false, 0)
               else Mapping(s.nextId, range.aligned, range.size, env.registered.value, device, true, 0);
      var s1 := if env.borrowed.Some? then Push(s, m).(counters := CountBorrowed(s.counters))
                else Push(s.(acl := s.acl + [HostRegistered(range.aligned, range.size)]), m)
                     .(counters := CountOwned(s.counters, range.size));
      OwnedAppend(s.mappings, s1.mappings, m);
      AddLeaseBytes(s1, |s.mappings|, range.addr, bytes, device, env.borrowed.Some?);
    }
  }

  lemma RegisterBytes(s: State, page: int, ptr: U64, bytes: U64, env: RegisterEnv)
    requires BytesOk(s)
    ensures var s' := Register(s, page, ptr, bytes, env).0;
            && (BytesOk(s') <==> !FillsSpace(s, page, ptr, bytes, env))
            && s'.counters.bytesPeak == Max(s.counters.bytesPeak, s'.counters.bytesCurrent)
  {
    if GetHostRange(page, ptr, bytes).Ok? && env.device.Some? {
      var range := GetHostRange(page, ptr, bytes).value;
      var s1 := CountRegister(s);
      if Creates(s, page, ptr, bytes, env) {
        CreateBytes(s1, range, bytes, env.device.value, env);
      } else {
        SharedCases(s1, range, bytes, env.device.value, env);
        var k := FirstHolding(s.mappings, ptr, bytes);
        if k < |s.mappings| {
          AddLeaseBytes(s1, k, range.addr, bytes, env.device.value, !s.mappings[k].owned);
        }
      }
    }
  }

  lemma DropBytes(s: State, k: nat, handle: int)
    requires k < |s.mappings| && BytesOk(s)
    ensures var s' := DropLease(s, k, handle);
            BytesOk(s') && s'.counters.bytesPeak == s.counters.bytesPeak
  {
    OwnedRecount(s.mappings, DropLease(s, k, handle).mappings, k, Sub64(s.mappings[k].leases, 1));
  }

  lemma FinishBytes(s: State, top: int, k: nat, handle: int, unmapOk: bool)
    requires Ascending(s.mappings, |s.mappings|, top) && k < |s.mappings| && BytesOk(s)
    ensures var s' := FinishRelease(s, k, handle, unmapOk).0;
            BytesOk(s') && s'.counters.bytesPeak == s.counters.bytesPeak
  {
    ReleaseErases(s.mappings, top, k);
    OwnedErasedTo(s.mappings, Without(s.mappings, s.mappings[k].id), k, |s.mappings|);
  }

  lemma UnregisterBytes(s: State, first: int, handle: int, env: ReleaseEnv)
    requires Weak(s, first) && BytesOk(s)
    ensures var s' := Unregister(s, handle, env).0;
            BytesOk(s') && s'.counters.bytesPeak == s.counters.bytesPeak
  {
    UnregisterCases(s, handle, env);
    var target := ReleaseTarget(s, handle, env.device);
    if target.Ok? {
      var k := target.value;
      if s.mappings[k].leases != 1 {
        DropBytes(s, k, handle);
      } else if env.fenceOk {
        FinishBytes(Fence(s, k), s.nextId, k, handle, env.unmapOk);
      }
    }
  }

  /** A step keeps the byte counters right exactly when it does not fill the address space. */
  lemma StepBytes(s: State, page: int, first: int, c: Call)
    requires Weak(s, first) && BytesOk(s)
    ensures var s' := Step(s, page, c);
            && (BytesOk(s') <==> (c.DoRegister? ==> !FillsSpace(s, page, c.ptr, c.bytes, c.renv)))
            && s'.counters.bytesPeak == Max(s.counters.bytesPeak, s'.counters.bytesCurrent)
  {
    match c
    case DoRegister(ptr, bytes, env) => RegisterBytes(s, page, ptr, bytes, env);
    case DoUnregister(handle, env) => UnregisterBytes(s, first, handle, env);
  }

  /** No registration of the run fills the address space. */
  predicate NeverFills(s: State, page: int, calls: seq<Call>) {
    calls == [] ||
    (var n := |calls| - 1;
     && NeverFills(s, page, calls[..n])
     && (calls[n].DoRegister? ==>
           !FillsSpace(Run(s, page, calls[..n]), page, calls[n].ptr, calls[n].bytes, calls[n].renv)))
  }

  /** The largest number of registered bytes over all the states a run passes through. */
  function MostBytes(s: State, page: int, calls: seq<Call>): int {
    var here := Run(s, page, calls).counters.bytesCurrent;
    if calls == [] then here else Max(MostBytes(s, page, calls[..|calls| - 1]), here)
  }

  /** The reported peak is the exact historical maximum, of what is really registered. */
  lemma {:induction false} PeakIsHistoricalMaximum(pid: nat, page: int, calls: seq<Call>)
    requires NeverFills(Init(pid), page, calls)
    ensures BytesOk(Run(Init(pid), page, calls))
    ensures Run(Init(pid), page, calls).counters.bytesPeak == MostBytes(Init(pid), page, calls)
  {
    if calls != [] {
      var n := |calls| - 1;
      PeakIsHistoricalMaximum(pid, page, calls[..n]);
      InitIsWeak(pid);
      RunKeepsWeak(Init(pid), page, FirstHandle(pid), calls[..n]);
      StepBytes(Run(Init(pid), page, calls[..n]), page, FirstHandle(pid), calls[n]);
    }
  }
}
