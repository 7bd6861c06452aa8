/** Exactly which resolved sources are safe to read. */
module GatherLimits {
  import opened Wrappers
  import opened HostRanges
  import opened Registry
  import opened RegistryInvariant
  import opened RegistrySteps
  import opened RegistryRuns
  import opened RegistryStable
  import opened RegistryLimits
  import opened GatherProtocol

  /** A continuation at whose end a device reads the ticket's source after its mapping is gone. */
  predicate Lost(sys: Sys, page: int, ticket: Ticket, t: Trace, g: nat) {
    && Legal(sys, page, t) && g in After(sys, page, t).pending && After(sys, page, t).pending[g] == ticket
    && !Present(After(sys, page, t).reg.mappings, ticket.read)
  }

  /** The read of a ticket finds its mapping on every continuation. */
  ghost predicate SafeToRead(sys: Sys, page: int, ticket: Ticket) {
    forall t, g :: !Lost(sys, page, ticket, t, g)
  }

  // ---------- building continuations ----------

  function Join(a: Trace, b: Trace): Trace {
    if a.Stop? then b else Then(a.event, Join(a.rest, b))
  }

  lemma {:induction false} JoinIs(sys: Sys, page: int, a: Trace, b: Trace)
    requires Legal(sys, page, a) && Legal(After(sys, page, a), page, b)
    ensures Legal(sys, page, Join(a, b)) && After(sys, page, Join(a, b)) == After(After(sys, page, a), page, b)
    decreases a
  {
    if a.Then? { JoinIs(Next(sys, page, a.event), page, a.rest, b); }
  }

  lemma {:induction false} BoundOf(s: set<nat>) returns (b: nat)
    ensures forall x :: x in s ==> x < b
  {
    b := 0;
    if s != {} {
      var x :| x in s;
      var rest := BoundOf(s - {x});
      b := if rest <= x then x + 1 else rest;
      assert forall y :: y in s ==> y == x || y in s - {x};
    }
  }

  /** Every ticket but one can be enqueued at once. */
  lemma {:induction false} FlushOthers(sys: Sys, page: int, client: nat) returns (t: Trace)
    requires client in sys.tickets
    ensures Legal(sys, page, t)
    ensures var z := After(sys, page, t);
            z.reg == sys.reg && z.releasing == sys.releasing && z.tickets == map[client := sys.tickets[client]]
    decreases |sys.tickets|
  {
    if sys.tickets.Keys == {client} {
      t := Stop;
    } else {
      var c :| c in sys.tickets && c != client;
      var g := BoundOf(sys.pending.Keys);
      var sys' := Next(sys, page, EnqueueGather(c, g));
      assert sys'.tickets.Keys == sys.tickets.Keys - {c};
      var rest := FlushOthers(sys', page, client);
      t := Then(EnqueueGather(c, g), rest);
    }
  }

  lemma SomeHolder(s: State, first: int, k: nat) returns (h: int)
    requires Weak(s, first) && k < |s.mappings| && s.mappings[k].leases > 0
    ensures h in s.handles && s.handles[h].mappingId == s.mappings[k].id
  {
    TalliedAt(s.mappings, s.handles, |s.mappings|, k);
    var hs := Holders(s.handles, s.mappings[k].id);
    assert (forall g :: g !in hs) ==> hs == {};
    h :| h in hs;
  }

  function FullRelease(m: Mapping): ReleaseEnv {
    ReleaseEnv(Some(m.device), true, true)
  }

  lemma TargetIs(s: State, first: int, k: nat, h: int)
    requires Weak(s, first) && k < |s.mappings| && s.mappings[k].leases > 0
    requires h in s.handles && s.handles[h].mappingId == s.mappings[k].id
    ensures ReleaseTarget(s, h, FullRelease(s.mappings[k]).device) == Ok(k)
  {
    IndexIsPosition(s.mappings, s.nextId, k);
  }

  lemma {:induction false} GoneFrom(ms: seq<Mapping>, rest: seq<Mapping>, top: int, k: nat)
    requires Ascending(ms, |ms|, top) && Erased(ms, rest, k)
    ensures IndexOf(rest, ms[k].id) == |rest|
  {
    forall i | 0 <= i < |rest| ensures rest[i].id != ms[k].id {
      OtherIds(ms, top, if i < k then i else i + 1, k);
    }
    FirstIs(rest, (m: Mapping) => m.id == ms[k].id, |rest|);
  }

  /** The last lease of a mapping is released: fence, then erasure. */
  lemma ReleaseLast(sys: Sys, page: int, first: int, k: nat, h: int)
    requires SysInv(sys, first) && sys.releasing.None? && k < |sys.reg.mappings| && sys.reg.mappings[k].leases == 1
    requires h in sys.reg.handles && sys.reg.handles[h].mappingId == sys.reg.mappings[k].id
    requires forall c :: c in sys.tickets ==> sys.tickets[c].handle != h
    ensures var t := Then(BeginRelease(h, FullRelease(sys.reg.mappings[k])), Then(EndRelease, Stop));
            && Legal(sys, page, t) && After(sys, page, t).tickets == sys.tickets
            && var ms' := After(sys, page, t).reg.mappings;
               IndexOf(ms', sys.reg.mappings[k].id) == |ms'|
  {
    var env := FullRelease(sys.reg.mappings[k]);
    TargetIs(sys.reg, first, k, h);
    BeginCases(sys, h, env);
    ReleaseErases(sys.reg.mappings, sys.reg.nextId, k);
    GoneFrom(sys.reg.mappings, Without(sys.reg.mappings, sys.reg.mappings[k].id), sys.reg.nextId, k);
    var mid := Next(sys, page, BeginRelease(h, env));
    assert Enabled(mid, page, EndRelease) && ReleasedIndex(mid) == k;
    var end := Next(mid, page, EndRelease);
    var t := Then(BeginRelease(h, env), Then(EndRelease, Stop));
    assert After(sys, page, t) == After(mid, page, Then(EndRelease, Stop)) == After(end, page, Stop) == end;
  }

  /** A mapping can be released by all its holders when no ticket is under one of their leases. */
  lemma {:induction false} ReleaseHolders(sys: Sys, page: int, first: int, client: nat, k: nat) returns (t: Trace)
    requires SysInv(sys, first) && sys.releasing.None? && sys.tickets.Keys == {client}
    requires k < |sys.reg.mappings| && sys.reg.mappings[k].leases > 0
    requires sys.tickets[client].leasedId != sys.reg.mappings[k].id
    ensures Legal(sys, page, t) && After(sys, page, t).tickets == sys.tickets
    ensures var ms' := After(sys, page, t).reg.mappings;
            IndexOf(ms', sys.reg.mappings[k].id) == |ms'|
    decreases sys.reg.mappings[k].leases
  {
    var h := SomeHolder(sys.reg, first, k);
    var e := BeginRelease(h, FullRelease(sys.reg.mappings[k]));
    assert Enabled(sys, page, e);
    if sys.reg.mappings[k].leases == 1 {
      ReleaseLast(sys, page, first, k, h);
      t := Then(e, Then(EndRelease, Stop));
    } else {
      TargetIs(sys.reg, first, k, h);
      BeginCases(sys, h, e.uenv);
      NextIsSafe(sys, page, first, e);
      var sys' := Next(sys, page, e);
      assert sys'.reg == DropLease(sys.reg, k, h);
      var rest := ReleaseHolders(sys', page, first, client, k);
      t := Then(e, rest);
    }
  }

  /** Enqueueing a ticket whose mapping is gone. */
  lemma EnqueueLost(sys: Sys, page: int, client: nat) returns (t: Trace, g: nat)
    requires client in sys.tickets && !Present(sys.reg.mappings, sys.tickets[client].read)
    ensures Lost(sys, page, sys.tickets[client], t, g)
  {
    g := BoundOf(sys.pending.Keys);
    var e := EnqueueGather(client, g);
    t := Then(e, Stop);
    assert After(sys, page, t) == After(Next(sys, page, e), page, Stop) == Next(sys, page, e);
  }

  /** What is lost after a continuation is lost. */
  lemma LostLater(sys: Sys, page: int, ticket: Ticket, a: Trace, b: Trace, g: nat)
    requires Legal(sys, page, a) && Lost(After(sys, page, a), page, ticket, b, g)
    ensures Lost(sys, page, ticket, Join(a, b), g)
  {
    JoinIs(sys, page, a, b);
  }

  /** The continuation that loses a source: everyone else enqueues, the holders of the mapping
      release it, and only then the client enqueues. */
  lemma LoseSource(sys: Sys, page: int, first: int, client: nat, k: nat)
    requires SysInv(sys, first) && sys.releasing.None? && client in sys.tickets
    requires k < |sys.reg.mappings| && sys.reg.mappings[k].leases > 0
    requires sys.tickets[client].read.mappingId == sys.reg.mappings[k].id != sys.tickets[client].leasedId
    ensures !SafeToRead(sys, page, sys.tickets[client])
  {
    var ticket := sys.tickets[client];
    var flush := FlushOthers(sys, page, client);
    TraceIsSafe(sys, page, first, flush);
    var alone := After(sys, page, flush);
    var release := ReleaseHolders(alone, page, first, client, k);
    var last, g := EnqueueLost(After(alone, page, release), page, client);
    LostLater(alone, page, ticket, release, last, g);
    LostLater(sys, page, ticket, flush, Join(release, last), g);
  }

  lemma OwnIsSafe(sys: Sys, page: int, first: int, ticket: Ticket)
    requires SysInv(sys, first) && Own(ticket)
    ensures SafeToRead(sys, page, ticket)
  {
    forall t, g ensures !Lost(sys, page, ticket, t, g) {
      if Legal(sys, page, t) { TraceIsSafe(sys, page, first, t); }
    }
  }

  // ---------- mappings that nobody can release ----------

  lemma BeginIsTidy(sys: Sys, first: int, handle: int, env: ReleaseEnv)
    requires Tidy(sys.reg, first)
    ensures Tidy(Begin(sys, handle, env).reg, first)
  {
    BeginCases(sys, handle, env);
  }

  lemma NextIsTidy(sys: Sys, page: int, first: int, e: Event)
    requires SysInv(sys, first) && Tidy(sys.reg, first) && Enabled(sys, page, e)
    ensures Tidy(Next(sys, page, e).reg, first)
  {
    match e
    case RegisterPool(ptr, bytes, env) => RegisterIsTidy(sys.reg, page, first, ptr, bytes, env);
    case BeginRelease(handle, env) => BeginIsTidy(sys, first, handle, env);
    case EndRelease =>
      var r := sys.releasing.value;
      FinishIsTidy(sys.reg, sys.reg.nextId, first, ReleasedIndex(sys), r.handle, r.unmapOk);
    case _ =>
  }

  lemma {:induction false} TraceIsTidy(sys: Sys, page: int, first: int, t: Trace)
    requires SysInv(sys, first) && Tidy(sys.reg, first) && Legal(sys, page, t)
    ensures Tidy(After(sys, page, t).reg, first)
    decreases t
  {
    if t.Then? {
      NextIsSafe(sys, page, first, t.event);
      NextIsTidy(sys, page, first, t.event);
      TraceIsTidy(Next(sys, page, t.event), page, first, t.rest);
    }
  }

  /** The mapping of a read has no lease and, without handles, never gets one. */
  predicate Stuck(s: State, r: Read) {
    Present(s.mappings, r) && s.mappings[IndexOf(s.mappings, r.mappingId)].leases == 0 && NoHandlesLeft(s)
  }

  lemma RegisterAppends(s: State, page: int, ptr: U64, bytes: U64, env: RegisterEnv)
    requires NoHandlesLeft(s)
    ensures var s' := Register(s, page, ptr, bytes, env).0;
            && s'.nextHandle == s.nextHandle && |s.mappings| <= |s'.mappings|
            && forall i :: 0 <= i < |s.mappings| ==> s'.mappings[i] == s.mappings[i]
  {
  }

  lemma SameKeepsStuck(s: State, s': State, r: Read)
    requires Stuck(s, r) && s'.nextHandle == s.nextHandle && Extends(s.mappings, s'.mappings)
    requires var i := IndexOf(s.mappings, r.mappingId); s'.mappings[i] == s.mappings[i]
    ensures Stuck(s', r)
  {
    IndexExtends(s.mappings, s'.mappings, r.mappingId);
  }

  lemma BeginKeepsStuck(sys: Sys, handle: int, env: ReleaseEnv, r: Read)
    requires Stuck(sys.reg, r)
    ensures Stuck(Begin(sys, handle, env).reg, r)
  {
    BeginCases(sys, handle, env);
    var target := ReleaseTarget(sys.reg, handle, env.device);
    if target.Ok? {
      DropExtends(sys.reg, target.value, handle);
      SameKeepsStuck(sys.reg, Begin(sys, handle, env).reg, r);
    }
  }

  lemma FinishKeepsStuck(s: State, top: int, k: nat, h: int, unmapOk: bool, r: Read)
    requires Stuck(s, r) && Ascending(s.mappings, |s.mappings|, top) && k < |s.mappings| && s.mappings[k].leases == 1
    ensures Stuck(FinishRelease(s, k, h, unmapOk).0, r)
  {
    ReleaseErases(s.mappings, top, k);
    OtherIds(s.mappings, top, IndexOf(s.mappings, r.mappingId), k);
    IndexErased(s.mappings, Without(s.mappings, s.mappings[k].id), k, r.mappingId);
  }

  lemma NextKeepsStuck(sys: Sys, page: int, first: int, e: Event, r: Read)
    requires SysInv(sys, first) && Enabled(sys, page, e) && Stuck(sys.reg, r)
    ensures Stuck(Next(sys, page, e).reg, r)
  {
    match e
    case RegisterPool(ptr, bytes, env) =>
      RegisterAppends(sys.reg, page, ptr, bytes, env);
      SameKeepsStuck(sys.reg, Register(sys.reg, page, ptr, bytes, env).0, r);
    case BeginRelease(handle, env) => BeginKeepsStuck(sys, handle, env, r);
    case EndRelease =>
      var rel := sys.releasing.value;
      FinishKeepsStuck(sys.reg, sys.reg.nextId, ReleasedIndex(sys), rel.handle, rel.unmapOk, r);
    case _ =>
  }

  lemma {:induction false} TraceKeepsStuck(sys: Sys, page: int, first: int, t: Trace, r: Read)
    requires SysInv(sys, first) && Legal(sys, page, t) && Stuck(sys.reg, r)
    ensures Stuck(After(sys, page, t).reg, r)
    decreases t
  {
    if t.Then? {
      NextIsSafe(sys, page, first, t.event);
      NextKeepsStuck(sys, page, first, t.event, r);
      TraceKeepsStuck(Next(sys, page, t.event), page, first, t.rest, r);
    }
  }

  lemma StuckIsSafe(sys: Sys, page: int, first: int, ticket: Ticket)
    requires SysInv(sys, first) && Stuck(sys.reg, ticket.read)
    ensures SafeToRead(sys, page, ticket)
  {
    forall t, g ensures !Lost(sys, page, ticket, t, g) {
      if Legal(sys, page, t) { TraceKeepsStuck(sys, page, first, t, ticket.read); }
    }
  }

  lemma UnleasedIsStuck(s: State, page: int, first: int, addr: U64, bytes: U64, device: nat)
    requires Weak(s, first) && Tidy(s, first) && Resolve(s, page, addr, bytes, Some(device)).Ok?
    requires FirstHolding(s.mappings, addr, bytes) < |s.mappings|
    requires s.mappings[FirstHolding(s.mappings, addr, bytes)].leases == 0
    ensures Stuck(s, ResolvedRead(s.mappings, addr, bytes, device))
  {
    ResolvedReadIsPresent(s, page, first, addr, bytes, device);
    IndexIsPosition(s.mappings, s.nextId, FirstHolding(s.mappings, addr, bytes));
  }

  /** A resolved source can be read safely on every continuation exactly when the lookup found the
      mapping of the caller's own lease, or one that nobody leases. */
  lemma SafeIffOwn(sys: Sys, page: int, first: int, e: Event)
    requires SysInv(sys, first) && Tidy(sys.reg, first) && e.ResolveSource? && Enabled(sys, page, e)
    ensures FirstHolding(sys.reg.mappings, e.addr, e.bytes) < |sys.reg.mappings|
    ensures var found := sys.reg.mappings[FirstHolding(sys.reg.mappings, e.addr, e.bytes)];
            SafeToRead(Next(sys, page, e), page, TicketOf(sys.reg, e.handle, e.addr, e.bytes, e.device)) <==>
            found.id == sys.reg.handles[e.handle].mappingId || found.leases == 0
  {
    ResolvedIsFound(sys.reg, page, e.addr, e.bytes, e.device);
    var k := FirstHolding(sys.reg.mappings, e.addr, e.bytes);
    if sys.reg.mappings[k].leases == 0 {
      NextIsSafe(sys, page, first, e);
      UnleasedIsStuck(sys.reg, page, first, e.addr, e.bytes, e.device);
      StuckIsSafe(Next(sys, page, e), page, first, TicketOf(sys.reg, e.handle, e.addr, e.bytes, e.device));
    } else {
      LeasedIsSafeIff(sys, page, first, e, k);
    }
  }

  lemma LeasedIsSafeIff(sys: Sys, page: int, first: int, e: Event, k: nat)
    requires SysInv(sys, first) && e.ResolveSource? && Enabled(sys, page, e)
    requires k == FirstHolding(sys.reg.mappings, e.addr, e.bytes) < |sys.reg.mappings|
    requires sys.reg.mappings[k].leases > 0
    ensures SafeToRead(Next(sys, page, e), page, TicketOf(sys.reg, e.handle, e.addr, e.bytes, e.device)) <==>
            sys.reg.mappings[k].id == sys.reg.handles[e.handle].mappingId
  {
    var ticket := TicketOf(sys.reg, e.handle, e.addr, e.bytes, e.device);
    NextIsSafe(sys, page, first, e);
    if Own(ticket) {
      OwnIsSafe(Next(sys, page, e), page, first, ticket);
    } else {
      LoseSource(Next(sys, page, e), page, first, e.client, k);
    }
  }

  /** The same of every resolve that any interleaving of a process can reach. */
  lemma {:induction false} ResolvedIsSafeIff(pid: nat, page: int, t: Trace, sys: Sys, e: Event)
    requires Legal(Start(pid), page, t) && sys == After(Start(pid), page, t)
    requires e.ResolveSource? && Enabled(sys, page, e)
    ensures FirstHolding(sys.reg.mappings, e.addr, e.bytes) < |sys.reg.mappings|
    ensures var found := sys.reg.mappings[FirstHolding(sys.reg.mappings, e.addr, e.bytes)];
            SafeToRead(Next(sys, page, e), page, TicketOf(sys.reg, e.handle, e.addr, e.bytes, e.device)) <==>
            found.id == sys.reg.handles[e.handle].mappingId || found.leases == 0
  {
    StartIsSafe(pid);
    TraceIsSafe(Start(pid), page, FirstHandle(pid), t);
    TraceIsTidy(Start(pid), page, FirstHandle(pid), t);
    SafeIffOwn(sys, page, FirstHandle(pid), e);
  }

  // ---------- in a consistent registry ----------

  /** No older borrowed mapping covers the view. */
  ghost predicate OwnView(s: State, handle: int, addr: U64, bytes: U64)
    requires handle in s.handles
  {
    var k := IndexOf(s.mappings, s.handles[handle].mappingId);
    k <= |s.mappings| && forall j :: 0 <= j < k && !s.mappings[j].owned ==> !Covers(s.mappings[j], addr, bytes)
  }

  /** Among resolved views, the own ones are those no older borrowed mapping covers. */
  lemma OwnViewIs(s: State, page: int, first: int, handle: int, addr: U64, bytes: U64, device: nat)
    requires Inv(s, page, first) && InLease(s, handle, addr, bytes)
    requires Resolve(s, page, addr, bytes, Some(device)).Ok?
    ensures FirstHolding(s.mappings, addr, bytes) < |s.mappings|
    ensures s.mappings[FirstHolding(s.mappings, addr, bytes)].id == s.handles[handle].mappingId <==>
            OwnView(s, handle, addr, bytes)
  {
    ResolvedIsFound(s, page, addr, bytes, device);
    ViewResolves(s, page, first, handle, addr, bytes);
    var f := FirstHolding(s.mappings, addr, bytes);
    var k := IndexOf(s.mappings, s.handles[handle].mappingId);
    assert WfLease(s.mappings, handle, s.handles[handle]);
    IndexIs(s.mappings, f);
    if f != k { FoundInstead(s.mappings, page, s.nextId, f, k, addr, bytes); }
  }

  /** A mapping found instead of the leased one is older and borrowed. */
  lemma FoundInstead(ms: seq<Mapping>, page: int, nextId: int, f: nat, k: nat, addr: U64, bytes: U64)
    requires page > 0 && WfMappings(ms, page, nextId) && f < |ms| && k < |ms| && f != k
    requires 0 < bytes && addr + bytes < TWO64 && f == FirstHolding(ms, addr, bytes) && Covers(ms[k], addr, bytes)
    ensures f < k && !ms[f].owned && Covers(ms[f], addr, bytes)
  {
    NothingCovers(ms, page, nextId, addr, bytes);
    assert WfMapping(ms[k], page);
    HoldsIsCovers(ms[k], addr, bytes);
    if f < k { PairInOrder(ms, f, k); } else { PairInOrder(ms, k, f); }
  }

  lemma FoundIsLeased(s: State, page: int, first: int, k: nat)
    requires Inv(s, page, first) && k < |s.mappings|
    ensures s.mappings[k].leases > 0
  {
    CountedAt(s.mappings, s.handles, |s.mappings|, k);
  }

  /** In a consistent registry a view into the caller's lease can be read safely on every
      continuation exactly when no older borrowed mapping covers it at the resolve. */
  lemma ViewIsSafeIff(sys: Sys, page: int, first: int, e: Event)
    requires SysInv(sys, first) && Inv(sys.reg, page, first) && e.ResolveSource? && Enabled(sys, page, e)
    ensures FirstHolding(sys.reg.mappings, e.addr, e.bytes) < |sys.reg.mappings|
    ensures SafeToRead(Next(sys, page, e), page, TicketOf(sys.reg, e.handle, e.addr, e.bytes, e.device)) <==>
            OwnView(sys.reg, e.handle, e.addr, e.bytes)
  {
    var k := FirstHolding(sys.reg.mappings, e.addr, e.bytes);
    OwnViewIs(sys.reg, page, first, e.handle, e.addr, e.bytes, e.device);
    FoundIsLeased(sys.reg, page, first, k);
    LeasedIsSafeIff(sys, page, first, e, k);
  }

  // ---------- a run that loses a source ----------

  function ShadowedEvents(pid: nat): seq<Event> {
    [RegisterPool(100, 100, Calls()[0].renv), RegisterPool(300, 100, Calls()[1].renv),
     RegisterPool(50, 350, Calls()[2].renv), ResolveSource(0, Handle(pid, 2), 100, 100, 0),
     BeginRelease(Handle(pid, 0), ReleaseEnv(Some(0), true, true)), EndRelease, EnqueueGather(0, 0)]
  }

  function TraceOf(events: seq<Event>, i: nat): Trace
    requires i <= |events|
    decreases |events| - i
  {
    if i == |events| then Stop else Then(events[i], TraceOf(events, i + 1))
  }

  lemma ShadowedResolve(pid: nat, sys: Sys, s: State)
    requires sys == Sys(s, None, map[], map[])
    requires s.mappings == [Borrowed(1), Owned(2)] && Handle(pid, 2) in s.handles && s.handles[Handle(pid, 2)].mappingId == 2
    requires s.handles[Handle(pid, 2)].addr == 50 && s.handles[Handle(pid, 2)].bytes == 350
    ensures var e := ShadowedEvents(pid)[3];
            Enabled(sys, PAGE, e) &&
            Next(sys, PAGE, e) == sys.(tickets := map[0 := Ticket(Handle(pid, 2), 2, Read(1, 0, 100, 0))])
  {
    PageRanges();
    FirstIs(s.mappings, m => Holds(m, 100, 100), 0);
  }

  /** The registry after the three registrations. */
  predicate Shadowed(pid: nat, s: State) {
    && s.mappings == [Borrowed(1), Owned(2)] && s.handles.Keys == {Handle(pid, 0), Handle(pid, 1), Handle(pid, 2)}
    && s.handles[Handle(pid, 0)].mappingId == 1 && s.handles[Handle(pid, 0)].active
    && s.handles[Handle(pid, 2)].mappingId == 2
    && s.handles[Handle(pid, 2)].addr == 50 && s.handles[Handle(pid, 2)].bytes == 350
  }

  lemma ShadowRegistered(pid: nat, s1: State, s2: State, s3: State)
    requires s1 == Step(Init(pid), PAGE, Calls()[0])
    requires s2 == Step(s1, PAGE, Calls()[1])
    requires s3 == Step(s2, PAGE, Calls()[2])
    ensures Shadowed(pid, s3)
  {
    FirstCall(pid);
    SecondCall(pid, s1);
    ThirdCall(pid, s2);
  }

  /** The older mapping is released between the resolve and the enqueue. */
  lemma ShadowReleased(pid: nat, d: Sys)
    requires d.releasing == None && d.tickets == map[0 := Ticket(Handle(pid, 2), 2, Read(1, 0, 100, 0))]
    requires d.pending == map[] && d.reg.mappings == [Borrowed(1), Owned(2)]
    requires d.reg.handles.Keys == {Handle(pid, 0), Handle(pid, 1), Handle(pid, 2)}
    requires d.reg.handles[Handle(pid, 0)].mappingId == 1 && d.reg.handles[Handle(pid, 0)].active
    ensures Enabled(d, PAGE, ShadowedEvents(pid)[4])
    ensures var e := Next(d, PAGE, ShadowedEvents(pid)[4]);
            && Enabled(e, PAGE, EndRelease)
            && var f := Next(e, PAGE, EndRelease);
               && f.reg.mappings == [Owned(2)] && f.tickets == d.tickets && f.pending == map[]
               && f.reg.handles.Keys == {Handle(pid, 1), Handle(pid, 2)}
  {
    FirstIs(d.reg.mappings, (m: Mapping) => m.id == 1, 0);
    var e := Next(d, PAGE, ShadowedEvents(pid)[4]);
    var ms := e.reg.mappings;
    assert WithoutTo(ms, 1, 0) == [] && WithoutTo(ms, 1, 1) == [] && WithoutTo(ms, 1, 2) == [Owned(2)];
  }

  lemma OneStep(sys: Sys, events: seq<Event>, i: nat)
    requires i <= |events|
    requires i < |events| ==>
               Enabled(sys, PAGE, events[i]) && Legal(Next(sys, PAGE, events[i]), PAGE, TraceOf(events, i + 1))
    ensures Legal(sys, PAGE, TraceOf(events, i))
    ensures After(sys, PAGE, TraceOf(events, i)) ==
            if i == |events| then sys else After(Next(sys, PAGE, events[i]), PAGE, TraceOf(events, i + 1))
  {
  }

  /** Gather 0 reads a mapping that is gone, while the lease it was resolved under is active. */
  predicate ReadsGone(z: Sys) {
    && 0 in z.pending && z.pending[0].handle in z.reg.handles
    && !Present(z.reg.mappings, z.pending[0].read)
  }

  predicate LosesFrom(pid: nat, sys: Sys, i: nat)
    requires i <= 7
  {
    var t := TraceOf(ShadowedEvents(pid), i);
    Legal(sys, PAGE, t) && ReadsGone(After(sys, PAGE, t))
  }

  lemma ShadowEnqueued(pid: nat, f: Sys)
    requires f.tickets == map[0 := Ticket(Handle(pid, 2), 2, Read(1, 0, 100, 0))] && f.pending == map[]
    requires f.reg.mappings == [Owned(2)] && Handle(pid, 2) in f.reg.handles
    ensures LosesFrom(pid, f, 6)
  {
    var g := Next(f, PAGE, ShadowedEvents(pid)[6]);
    FirstIs(g.reg.mappings, (m: Mapping) => m.id == 1, 1);
    OneStep(g, ShadowedEvents(pid), 7);
    OneStep(f, ShadowedEvents(pid), 6);
  }

  lemma ShadowTail(pid: nat, d: Sys)
    requires d.releasing == None && d.tickets == map[0 := Ticket(Handle(pid, 2), 2, Read(1, 0, 100, 0))]
    requires d.pending == map[] && d.reg.mappings == [Borrowed(1), Owned(2)]
    requires d.reg.handles.Keys == {Handle(pid, 0), Handle(pid, 1), Handle(pid, 2)}
    requires d.reg.handles[Handle(pid, 0)].mappingId == 1 && d.reg.handles[Handle(pid, 0)].active
    ensures LosesFrom(pid, d, 4)
  {
    ShadowReleased(pid, d);
    var e := Next(d, PAGE, ShadowedEvents(pid)[4]);
    ShadowEnqueued(pid, Next(e, PAGE, EndRelease));
    OneStep(e, ShadowedEvents(pid), 5);
    OneStep(d, ShadowedEvents(pid), 4);
  }

  function Idle(s: State): Sys {
    Sys(s, None, map[], map[])
  }

  lemma ShadowMiddle(pid: nat, s: State)
    requires Shadowed(pid, s)
    ensures LosesFrom(pid, Idle(s), 3)
  {
    ShadowedResolve(pid, Idle(s), s);
    ShadowTail(pid, Next(Idle(s), PAGE, ShadowedEvents(pid)[3]));
    OneStep(Idle(s), ShadowedEvents(pid), 3);
  }

  lemma RegisterBack(pid: nat, s: State, s': State, i: nat)
    requires i < 3 && s' == Step(s, PAGE, Calls()[i]) && LosesFrom(pid, Idle(s'), i + 1)
    ensures LosesFrom(pid, Idle(s), i)
  {
    OneStep(Idle(s), ShadowedEvents(pid), i);
  }

  lemma ShadowThird(pid: nat, s: State)
    requires Shadowed(pid, Step(s, PAGE, Calls()[2]))
    ensures LosesFrom(pid, Idle(s), 2)
  {
    ShadowMiddle(pid, Step(s, PAGE, Calls()[2]));
    RegisterBack(pid, s, Step(s, PAGE, Calls()[2]), 2);
  }

  lemma ShadowSecond(pid: nat, s: State)
    requires Shadowed(pid, Step(Step(s, PAGE, Calls()[1]), PAGE, Calls()[2]))
    ensures LosesFrom(pid, Idle(s), 1)
  {
    ShadowThird(pid, Step(s, PAGE, Calls()[1]));
    RegisterBack(pid, s, Step(s, PAGE, Calls()[1]), 1);
  }

  lemma ShadowFirst(pid: nat, s: State)
    requires Shadowed(pid, Step(Step(Step(s, PAGE, Calls()[0]), PAGE, Calls()[1]), PAGE, Calls()[2]))
    ensures LosesFrom(pid, Idle(s), 0)
  {
    ShadowSecond(pid, Step(s, PAGE, Calls()[0]));
    RegisterBack(pid, s, Step(s, PAGE, Calls()[0]), 0);
  }

  /** A caller that keeps its lease until it has enqueued can still read a mapping that is gone. */
  lemma ShadowedReadIsLost(pid: nat)
    ensures LosesFrom(pid, Start(pid), 0)
  {
    var s := Step(Init(pid), PAGE, Calls()[0]);
    ShadowRegistered(pid, s, Step(s, PAGE, Calls()[1]), Step(Step(s, PAGE, Calls()[1]), PAGE, Calls()[2]));
    ShadowFirst(pid, Init(pid));
  }
}
