/** Gathers that run beside registrations and releases.

    A gather resolves its source under the registry lock and enqueues the device read later,
    without the lock.  The last release of a mapping holds the lock from its fence to the
    erasure, but reads can still be enqueued and finish in between.  Callers keep one rule:
    the lease a gather resolves under is not released before that gather is enqueued. */
module GatherProtocol {
  import opened Wrappers
  import opened HostRanges
  import opened Registry
  import opened RegistryInvariant
  import opened RegistrySteps
  import opened RegistryRuns
  import opened RegistryStable

  /** A device read of `bytes` bytes at `offset` of a mapping. */
  datatype Read = Read(mappingId: U64, offset: int, bytes: U64, device: nat)

  /** A resolved gather, with the lease it was resolved under and the mapping of that lease. */
  datatype Ticket = Ticket(handle: int, leasedId: U64, read: Read)

  /** A release that passed its fence and still holds the lock. */
  datatype Releasing = Releasing(handle: int, unmapOk: bool)

  /** Tickets are resolved and not enqueued yet; pending ones are being read by a device. */
  datatype Sys = Sys(reg: State, releasing: Option<Releasing>, tickets: map<nat, Ticket>, pending: map<nat, Ticket>)

  datatype Event =
    | RegisterPool(ptr: U64, bytes: U64, renv: RegisterEnv)
    | ResolveSource(client: nat, handle: int, addr: U64, bytes: U64, device: nat)
    | EnqueueGather(client: nat, gather: nat)
    | CompleteGather(gather: nat)
    | BeginRelease(handle: int, uenv: ReleaseEnv)
    | EndRelease

  /** The range lies in an active lease. */
  predicate InLease(s: State, handle: int, addr: U64, bytes: U64) {
    && handle in s.handles
    && s.handles[handle].addr <= addr && addr + bytes <= s.handles[handle].addr + s.handles[handle].bytes
  }

  predicate Enabled(sys: Sys, page: int, e: Event) {
    match e
    case RegisterPool(_, _, _) => sys.releasing.None?
    case ResolveSource(client, handle, addr, bytes, device) =>
      && sys.releasing.None? && client !in sys.tickets && InLease(sys.reg, handle, addr, bytes)
      && Resolve(sys.reg, page, addr, bytes, Some(device)).Ok?
    case EnqueueGather(client, gather) => client in sys.tickets && gather !in sys.pending
    case CompleteGather(gather) => gather in sys.pending
    case BeginRelease(handle, env) =>
      sys.releasing.None? && forall c :: c in sys.tickets ==> sys.tickets[c].handle != handle
    case EndRelease =>
      && sys.releasing.Some? && sys.releasing.value.handle in sys.reg.handles
      && ReleasedIndex(sys) < |sys.reg.mappings|
  }

  function ReleasedIndex(sys: Sys): nat
    requires sys.releasing.Some? && sys.releasing.value.handle in sys.reg.handles
  {
    IndexOf(sys.reg.mappings, sys.reg.handles[sys.releasing.value.handle].mappingId)
  }

  /** The fence waits for every read on its device. */
  function Drain(pending: map<nat, Ticket>, device: nat): map<nat, Ticket> {
    map g | g in pending && pending[g].read.device != device :: pending[g]
  }

  function Begin(sys: Sys, handle: int, env: ReleaseEnv): Sys {
    match ReleaseTarget(sys.reg, handle, env.device)
    case Err(_) => sys
    case Ok(k) =>
      if sys.reg.mappings[k].leases != 1 then sys.(reg := DropLease(sys.reg, k, handle))
      else if !env.fenceOk then sys
      else sys.(reg := Fence(sys.reg, k), releasing := Some(Releasing(handle, env.unmapOk)),
                pending := Drain(sys.pending, sys.reg.mappings[k].device))
  }

  function ResolvedRead(ms: seq<Mapping>, addr: U64, bytes: U64, device: nat): Read
    requires FirstHolding(ms, addr, bytes) < |ms|
  {
    var m := ms[FirstHolding(ms, addr, bytes)];
    Read(m.id, addr - m.base, bytes, device)
  }

  function TicketOf(s: State, handle: int, addr: U64, bytes: U64, device: nat): Ticket
    requires handle in s.handles && FirstHolding(s.mappings, addr, bytes) < |s.mappings|
  {
    Ticket(handle, s.handles[handle].mappingId, ResolvedRead(s.mappings, addr, bytes, device))
  }

  function Next(sys: Sys, page: int, e: Event): Sys
    requires Enabled(sys, page, e)
  {
    match e
    case RegisterPool(ptr, bytes, env) => sys.(reg := Register(sys.reg, page, ptr, bytes, env).0)
    case ResolveSource(client, handle, addr, bytes, device) =>
      ResolvedIsFound(sys.reg, page, addr, bytes, device);
      sys.(tickets := sys.tickets[client := TicketOf(sys.reg, handle, addr, bytes, device)])
    case EnqueueGather(client, gather) =>
      sys.(tickets := sys.tickets - {client}, pending := sys.pending[gather := sys.tickets[client]])
    case CompleteGather(gather) => sys.(pending := sys.pending - {gather})
    case BeginRelease(handle, env) => Begin(sys, handle, env)
    case EndRelease =>
      var r := sys.releasing.value;
      sys.(reg := FinishRelease(sys.reg, ReleasedIndex(sys), r.handle, r.unmapOk).0, releasing := None)
  }

  /** What a successful resolve tells about the mapping it found. */
  lemma ResolvedIsFound(s: State, page: int, addr: U64, bytes: U64, device: nat)
    requires Resolve(s, page, addr, bytes, Some(device)).Ok?
    ensures var k := FirstHolding(s.mappings, addr, bytes);
            && k < |s.mappings| && s.mappings[k].device == device && Holds(s.mappings[k], addr, bytes)
            && 0 < bytes && addr + bytes < TWO64
  {
  }

  /** A begun release followed at once by its end is the whole release of the registry. */
  lemma BeginThenEndIsUnregister(sys: Sys, handle: int, env: ReleaseEnv)
    requires sys.releasing.None?
    ensures var mid := Begin(sys, handle, env);
            if mid.releasing.None? then mid.reg == Unregister(sys.reg, handle, env).0
            else mid.releasing.value.handle in mid.reg.handles && ReleasedIndex(mid) < |mid.reg.mappings| &&
                 FinishRelease(mid.reg, ReleasedIndex(mid), handle, mid.releasing.value.unmapOk).0
                 == Unregister(sys.reg, handle, env).0
  {
  }

  // ---------- the invariant ----------

  /** The mapping a read goes through is registered, on the read's device, and large enough. */
  predicate Present(ms: seq<Mapping>, r: Read) {
    var k := IndexOf(ms, r.mappingId);
    k < |ms| && ms[k].device == r.device && 0 <= r.offset && r.offset + r.bytes <= ms[k].size
  }

  /** The gather reads the mapping it holds a lease on. */
  predicate Own(t: Ticket) {
    t.read.mappingId == t.leasedId
  }

  ghost predicate TicketsOk(sys: Sys) {
    forall c :: c in sys.tickets ==>
      && sys.tickets[c].handle in sys.reg.handles
      && sys.tickets[c].leasedId == sys.reg.handles[sys.tickets[c].handle].mappingId
      && (Own(sys.tickets[c]) ==> Present(sys.reg.mappings, sys.tickets[c].read))
  }

  ghost predicate PendingOk(sys: Sys) {
    forall g :: g in sys.pending && Own(sys.pending[g]) ==> Present(sys.reg.mappings, sys.pending[g].read)
  }

  /** Between fence and erasure nothing reads the mapping through its own lease, and nothing is
      about to. */
  ghost predicate ReleasingOk(sys: Sys) {
    sys.releasing.Some? ==>
      var h := sys.releasing.value.handle;
      && h in sys.reg.handles
      && ReleasedIndex(sys) < |sys.reg.mappings| && sys.reg.mappings[ReleasedIndex(sys)].leases == 1
      && (forall c :: c in sys.tickets ==> sys.tickets[c].handle != h)
      && (forall g :: g in sys.pending && Own(sys.pending[g]) ==>
            sys.pending[g].read.mappingId != sys.reg.handles[h].mappingId)
  }

  ghost predicate SysInv(sys: Sys, first: int) {
    && Weak(sys.reg, first) && AclCovers(sys.reg.mappings, sys.reg.acl)
    && TicketsOk(sys) && PendingOk(sys) && ReleasingOk(sys)
  }

  // ---------- mappings under the steps ----------

  lemma ExtendsKeepsPresent(ms: seq<Mapping>, ms': seq<Mapping>, r: Read)
    requires Extends(ms, ms') && Present(ms, r)
    ensures Present(ms', r)
  {
    IndexExtends(ms, ms', r.mappingId);
  }

  lemma EraseKeepsPresent(ms: seq<Mapping>, rest: seq<Mapping>, k: nat, r: Read)
    requires Erased(ms, rest, k) && Present(ms, r) && r.mappingId != ms[k].id
    ensures Present(rest, r)
  {
    IndexErased(ms, rest, k, r.mappingId);
  }

  lemma ExtendsKeepsReads(sys: Sys, reg: State)
    requires TicketsOk(sys) && PendingOk(sys) && Extends(sys.reg.mappings, reg.mappings)
    requires forall c :: c in sys.tickets ==>
               sys.tickets[c].handle in reg.handles &&
               reg.handles[sys.tickets[c].handle] == sys.reg.handles[sys.tickets[c].handle]
    ensures TicketsOk(sys.(reg := reg)) && PendingOk(sys.(reg := reg))
  {
    forall c | c in sys.tickets && Own(sys.tickets[c]) ensures Present(reg.mappings, sys.tickets[c].read) {
      ExtendsKeepsPresent(sys.reg.mappings, reg.mappings, sys.tickets[c].read);
    }
    forall g | g in sys.pending && Own(sys.pending[g]) ensures Present(reg.mappings, sys.pending[g].read) {
      ExtendsKeepsPresent(sys.reg.mappings, reg.mappings, sys.pending[g].read);
    }
  }

  // ---------- the events ----------

  lemma RegisterPoolIsSafe(sys: Sys, page: int, first: int, e: Event)
    requires e.RegisterPool? && SysInv(sys, first) && Enabled(sys, page, e)
    ensures SysInv(Next(sys, page, e), first)
  {
    var reg := Register(sys.reg, page, e.ptr, e.bytes, e.renv).0;
    RegisterKeepsWeak(sys.reg, page, first, e.ptr, e.bytes, e.renv);
    RegisterKeepsCover(sys.reg, page, e.ptr, e.bytes, e.renv);
    RegisterExtends(sys.reg, page, e.ptr, e.bytes, e.renv);
    forall c | c in sys.tickets
      ensures sys.tickets[c].handle in reg.handles &&
              reg.handles[sys.tickets[c].handle] == sys.reg.handles[sys.tickets[c].handle]
    {
      StepKeepsLease(sys.reg, page, DoRegister(e.ptr, e.bytes, e.renv), sys.tickets[c].handle);
    }
    ExtendsKeepsReads(sys, reg);
  }

  /** What a resolve found is there, whether or not it is the leased mapping. */
  lemma ResolvedReadIsPresent(s: State, page: int, first: int, addr: U64, bytes: U64, device: nat)
    requires Weak(s, first) && Resolve(s, page, addr, bytes, Some(device)).Ok?
    ensures FirstHolding(s.mappings, addr, bytes) < |s.mappings|
    ensures Present(s.mappings, ResolvedRead(s.mappings, addr, bytes, device))
  {
    ResolvedIsFound(s, page, addr, bytes, device);
    IndexIsPosition(s.mappings, s.nextId, FirstHolding(s.mappings, addr, bytes));
  }

  lemma IndexIsPosition(ms: seq<Mapping>, top: int, k: nat)
    requires Ascending(ms, |ms|, top) && k < |ms|
    ensures IndexOf(ms, ms[k].id) == k
  {
    var i := IndexOf(ms, ms[k].id);
    assert i <= k;
    if i != k { OtherIds(ms, top, i, k); }
  }

  lemma ResolveSourceIsSafe(sys: Sys, page: int, first: int, e: Event)
    requires e.ResolveSource? && SysInv(sys, first) && Enabled(sys, page, e)
    ensures SysInv(Next(sys, page, e), first)
  {
    ResolvedReadIsPresent(sys.reg, page, first, e.addr, e.bytes, e.device);
  }

  /** An own read enqueued during a release goes through a different mapping: the lease it was
      resolved under is another one, and the mapping being released has only one. */
  lemma TicketIsElsewhere(sys: Sys, first: int, c: nat)
    requires SysInv(sys, first) && sys.releasing.Some? && c in sys.tickets && Own(sys.tickets[c])
    ensures sys.tickets[c].read.mappingId != sys.reg.handles[sys.releasing.value.handle].mappingId
  {
    var h := sys.releasing.value.handle;
    if sys.tickets[c].read.mappingId == sys.reg.handles[h].mappingId {
      OnlyHolder(sys.reg.mappings, sys.reg.handles, ReleasedIndex(sys), h, sys.tickets[c].handle);
    }
  }

  lemma EnqueueKeepsReads(sys: Sys, sys': Sys, c: nat, g: nat)
    requires TicketsOk(sys) && PendingOk(sys) && ReleasingOk(sys) && c in sys.tickets
    requires sys.releasing.Some? && Own(sys.tickets[c]) ==>
               sys.tickets[c].read.mappingId != sys.reg.handles[sys.releasing.value.handle].mappingId
    requires sys' == sys.(tickets := sys.tickets - {c}, pending := sys.pending[g := sys.tickets[c]])
    ensures TicketsOk(sys') && PendingOk(sys') && ReleasingOk(sys')
  {
  }

  lemma EnqueueIsSafe(sys: Sys, page: int, first: int, e: Event)
    requires e.EnqueueGather? && SysInv(sys, first) && Enabled(sys, page, e)
    ensures SysInv(Next(sys, page, e), first)
  {
    if sys.releasing.Some? && Own(sys.tickets[e.client]) { TicketIsElsewhere(sys, first, e.client); }
    EnqueueKeepsReads(sys, Next(sys, page, e), e.client, e.gather);
  }

  lemma DropExtends(s: State, k: nat, h: int)
    requires k < |s.mappings|
    ensures Extends(s.mappings, DropLease(s, k, h).mappings)
  {
  }

  lemma DropIsSafe(sys: Sys, first: int, k: nat, handle: int)
    requires SysInv(sys, first) && sys.releasing.None?
    requires handle in sys.reg.handles && k < |sys.reg.mappings|
    requires sys.reg.mappings[k].id == sys.reg.handles[handle].mappingId && sys.reg.mappings[k].leases > 0
    requires forall c :: c in sys.tickets ==> sys.tickets[c].handle != handle
    ensures SysInv(sys.(reg := DropLease(sys.reg, k, handle)), first)
  {
    var reg := DropLease(sys.reg, k, handle);
    DropKeepsWeak(sys.reg, first, k, handle);
    DropExtends(sys.reg, k, handle);
    RecountKeepsCover(sys.reg.mappings, reg.mappings, reg.acl);
    ExtendsKeepsReads(sys, reg);
  }

  /** After the fence no own read of the fenced mapping is left. */
  lemma DrainedElsewhere(sys: Sys, k: nat, g: nat)
    requires PendingOk(sys) && k < |sys.reg.mappings| && k == IndexOf(sys.reg.mappings, sys.reg.mappings[k].id)
    requires g in Drain(sys.pending, sys.reg.mappings[k].device) && Own(sys.pending[g])
    ensures sys.pending[g].read.mappingId != sys.reg.mappings[k].id
  {
    assert Present(sys.reg.mappings, sys.pending[g].read);
  }

  lemma FenceIsSafe(sys: Sys, first: int, k: nat, handle: int, unmapOk: bool)
    requires SysInv(sys, first) && sys.releasing.None?
    requires handle in sys.reg.handles && k == IndexOf(sys.reg.mappings, sys.reg.handles[handle].mappingId)
    requires k < |sys.reg.mappings| && sys.reg.mappings[k].leases == 1
    requires forall c :: c in sys.tickets ==> sys.tickets[c].handle != handle
    ensures SysInv(sys.(reg := Fence(sys.reg, k), releasing := Some(Releasing(handle, unmapOk)),
                        pending := Drain(sys.pending, sys.reg.mappings[k].device)), first)
  {
    CallKeepsCover(sys.reg.mappings, sys.reg.acl, Fence(sys.reg, k).acl, Fenced(sys.reg.mappings[k].device));
    forall g | g in Drain(sys.pending, sys.reg.mappings[k].device) && Own(sys.pending[g])
      ensures sys.pending[g].read.mappingId != sys.reg.mappings[k].id
    {
      DrainedElsewhere(sys, k, g);
    }
  }

  /** What the start of a release leads to, by what it finds. */
  lemma BeginCases(sys: Sys, handle: int, env: ReleaseEnv)
    ensures var target := ReleaseTarget(sys.reg, handle, env.device);
            if target.Err? then Begin(sys, handle, env) == sys
            else
              var k := target.value;
              && handle in sys.reg.handles && k < |sys.reg.mappings| && sys.reg.mappings[k].leases > 0
              && sys.reg.mappings[k].id == sys.reg.handles[handle].mappingId
              && k == IndexOf(sys.reg.mappings, sys.reg.handles[handle].mappingId)
              && Begin(sys, handle, env) ==
                 if sys.reg.mappings[k].leases != 1 then sys.(reg := DropLease(sys.reg, k, handle))
                 else if env.fenceOk then
                   sys.(reg := Fence(sys.reg, k), releasing := Some(Releasing(handle, env.unmapOk)),
                        pending := Drain(sys.pending, sys.reg.mappings[k].device))
                 else sys
  {
  }

  lemma BeginReleaseIsSafe(sys: Sys, page: int, first: int, e: Event)
    requires e.BeginRelease? && SysInv(sys, first) && Enabled(sys, page, e)
    ensures SysInv(Next(sys, page, e), first)
  {
    BeginCases(sys, e.handle, e.uenv);
    var target := ReleaseTarget(sys.reg, e.handle, e.uenv.device);
    if target.Ok? {
      if sys.reg.mappings[target.value].leases != 1 {
        DropIsSafe(sys, first, target.value, e.handle);
      } else if e.uenv.fenceOk {
        FenceIsSafe(sys, first, target.value, e.handle, e.uenv.unmapOk);
      }
    }
  }

  /** Nothing resolved or pending through its own lease goes through the erased mapping. */
  lemma EraseKeepsReads(sys: Sys, sys': Sys, k: nat, h: int)
    requires TicketsOk(sys) && PendingOk(sys) && h in sys.reg.handles
    requires Erased(sys.reg.mappings, sys'.reg.mappings, k)
    requires forall c :: c in sys.tickets && Own(sys.tickets[c]) ==>
               sys.tickets[c].read.mappingId != sys.reg.mappings[k].id
    requires forall c :: c in sys.tickets ==> sys.tickets[c].handle != h
    requires forall g :: g in sys.pending && Own(sys.pending[g]) ==>
               sys.pending[g].read.mappingId != sys.reg.mappings[k].id
    requires sys'.tickets == sys.tickets && sys'.pending == sys.pending
    requires sys'.reg.handles == sys.reg.handles - {h}
    ensures TicketsOk(sys') && PendingOk(sys')
  {
    forall c | c in sys.tickets && Own(sys.tickets[c]) ensures Present(sys'.reg.mappings, sys.tickets[c].read) {
      EraseKeepsPresent(sys.reg.mappings, sys'.reg.mappings, k, sys.tickets[c].read);
    }
    forall g | g in sys.pending && Own(sys.pending[g]) ensures Present(sys'.reg.mappings, sys.pending[g].read) {
      EraseKeepsPresent(sys.reg.mappings, sys'.reg.mappings, k, sys.pending[g].read);
    }
  }

  lemma EndReleaseIsSafe(sys: Sys, page: int, first: int)
    requires SysInv(sys, first) && Enabled(sys, page, EndRelease)
    ensures SysInv(Next(sys, page, EndRelease), first)
  {
    var sys' := Next(sys, page, EndRelease);
    var k := ReleasedIndex(sys);
    var r := sys.releasing.value;
    if !(sys.reg.mappings[k].owned && !r.unmapOk) {
      FinishKeepsWeak(sys.reg, first, k, r.handle, r.unmapOk);
      ReleaseErases(sys.reg.mappings, sys.reg.nextId, k);
      EraseKeepsCover(sys.reg.mappings, sys'.reg.mappings, k, sys.reg.acl, sys'.reg.acl);
      forall c | c in sys.tickets && Own(sys.tickets[c])
        ensures sys.tickets[c].read.mappingId != sys.reg.mappings[k].id
      {
        TicketIsElsewhere(sys, first, c);
      }
      EraseKeepsReads(sys, sys', k, r.handle);
    }
  }

  lemma NextIsSafe(sys: Sys, page: int, first: int, e: Event)
    requires SysInv(sys, first) && Enabled(sys, page, e)
    ensures SysInv(Next(sys, page, e), first)
  {
    match e
    case RegisterPool(_, _, _) => RegisterPoolIsSafe(sys, page, first, e);
    case ResolveSource(_, _, _, _, _) => ResolveSourceIsSafe(sys, page, first, e);
    case EnqueueGather(_, _) => EnqueueIsSafe(sys, page, first, e);
    case CompleteGather(_) =>
    case BeginRelease(_, _) => BeginReleaseIsSafe(sys, page, first, e);
    case EndRelease => EndReleaseIsSafe(sys, page, first);
  }

  // ---------- every interleaving ----------

  datatype Trace = Stop | Then(event: Event, rest: Trace)

  predicate Legal(sys: Sys, page: int, t: Trace)
    decreases t
  {
    t.Stop? || (Enabled(sys, page, t.event) && Legal(Next(sys, page, t.event), page, t.rest))
  }

  function After(sys: Sys, page: int, t: Trace): Sys
    requires Legal(sys, page, t)
    decreases t
  {
    if t.Stop? then sys else After(Next(sys, page, t.event), page, t.rest)
  }

  function Start(pid: nat): Sys {
    Sys(Init(pid), None, map[], map[])
  }

  lemma StartIsSafe(pid: nat)
    ensures SysInv(Start(pid), FirstHandle(pid))
  {
    InitIsWeak(pid);
  }

  lemma {:induction false} TraceIsSafe(sys: Sys, page: int, first: int, t: Trace)
    requires SysInv(sys, first) && Legal(sys, page, t)
    ensures SysInv(After(sys, page, t), first)
    decreases t
  {
    if t.Then? {
      NextIsSafe(sys, page, first, t.event);
      TraceIsSafe(Next(sys, page, t.event), page, first, t.rest);
    }
  }

  /** On every interleaving, whatever a device is reading through the mapping its caller leased is
      still in the registry and, when this extension registered it, not yet unregistered from ACL;
      the id and handle spaces may run out and the ACL runtime may answer anything. */
  lemma PendingReadsStayMapped(pid: nat, page: int, t: Trace, g: nat)
    requires Legal(Start(pid), page, t)
    requires g in After(Start(pid), page, t).pending && Own(After(Start(pid), page, t).pending[g])
    ensures var s := After(Start(pid), page, t).reg;
            var r := After(Start(pid), page, t).pending[g].read;
            var k := IndexOf(s.mappings, r.mappingId);
            && k < |s.mappings| && s.mappings[k].device == r.device
            && 0 <= r.offset && r.offset + r.bytes <= s.mappings[k].size
            && (s.mappings[k].owned ==> Balance(s.acl, s.mappings[k].base) >= 1)
  {
    StartIsSafe(pid);
    TraceIsSafe(Start(pid), page, FirstHandle(pid), t);
    var s := After(Start(pid), page, t).reg;
    var k := IndexOf(s.mappings, After(Start(pid), page, t).pending[g].read.mappingId);
    assert Present(s.mappings, After(Start(pid), page, t).pending[g].read);
    if s.mappings[k].owned { OwnerIsCounted(s.mappings, k, |s.mappings|); }
  }
}
