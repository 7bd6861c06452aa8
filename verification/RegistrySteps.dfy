/** Every registration and every release keeps the registry invariant. */
module RegistrySteps {
  import opened HostRanges
  import opened Registry
  import opened RegistryInvariant

  // ---------- leases survive what happens to other mappings ----------

  lemma RecountKeepsLease(ms: seq<Mapping>, k: nat, x: U64, h: int, l: Lease)
    requires k < |ms| && WfLease(ms, h, l)
    ensures WfLease(ms[k := ms[k].(leases := x)], h, l)
  {
    var ms' := ms[k := ms[k].(leases := x)];
    FirstIs(ms', (m: Mapping) => m.id == l.mappingId, IndexOf(ms, l.mappingId));
  }

  lemma AppendKeepsLease(ms: seq<Mapping>, m: Mapping, h: int, l: Lease)
    requires WfLease(ms, h, l)
    ensures WfLease(ms + [m], h, l)
  {
    FirstIs(ms + [m], (n: Mapping) => n.id == l.mappingId, IndexOf(ms, l.mappingId));
  }

  /** Erasing a mapping keeps the order of the others, so it uncovers nothing. */
  lemma EraseKeepsLease(ms: seq<Mapping>, page: int, nextId: int, k: nat, h: int, l: Lease)
    requires page > 0 && WfMappings(ms, page, nextId)
    requires k < |ms| && WfLease(ms, h, l) && l.mappingId != ms[k].id
    ensures WfLease(ms[..k] + ms[k + 1..], h, l)
  {
    var i := IndexOf(ms, l.mappingId);
    var i' := if i < k then i else i - 1;
    var ms' := ms[..k] + ms[k + 1..];
    assert ms'[i'] == ms[i];
    forall j | 0 <= j < i'
      ensures ms'[j].id != l.mappingId && !Covers(ms'[j], l.addr, l.bytes)
    {
      assert ms'[j] == if j < k then ms[j] else ms[j + 1];
    }
    FirstIs(ms', (m: Mapping) => m.id == l.mappingId, i');
  }

  /** The list without its k-th mapping, element by element. */
  ghost predicate Erased(ms: seq<Mapping>, rest: seq<Mapping>, k: nat) {
    && k < |ms| && |rest| == |ms| - 1
    && (forall i :: 0 <= i < k ==> rest[i] == ms[i])
    && (forall i :: k <= i < |rest| ==> rest[i] == ms[i + 1])
  }

  ghost predicate OnlyId(ms: seq<Mapping>, k: nat)
    requires k < |ms|
  {
    forall i :: 0 <= i < |ms| && i != k ==> ms[i].id != ms[k].id
  }

  lemma {:induction false} WithoutIsErasedTo(ms: seq<Mapping>, k: nat, n: nat)
    requires k < |ms| && n <= |ms| && OnlyId(ms, k)
    ensures WithoutTo(ms, ms[k].id, n) == if n <= k then ms[..n] else ms[..k] + ms[k + 1..n]
  {
    if n > 0 { WithoutIsErasedTo(ms, k, n - 1); }
  }

  lemma WithoutIsErase(ms: seq<Mapping>, k: nat)
    requires k < |ms| && Apart(ms, |ms|)
    ensures Without(ms, ms[k].id) == ms[..k] + ms[k + 1..]
  {
    ApartIsPairwise(ms, |ms|);
    forall i | 0 <= i < |ms| && i != k ensures ms[i].id != ms[k].id {
      assert if i < k then InOrder(ms[i], ms[k]) else InOrder(ms[k], ms[i]);
    }
    WithoutIsErasedTo(ms, k, |ms|);
  }

  // ---------- holders ----------

  lemma HoldersAdd(handles: map<int, Lease>, h: int, l: Lease, id: int)
    requires h !in handles
    ensures Holders(handles[h := l], id) == Holders(handles, id) + if l.mappingId == id then {h} else {}
  {
  }

  lemma HoldersDrop(handles: map<int, Lease>, h: int, id: int)
    requires h in handles
    ensures Holders(handles - {h}, id) == Holders(handles, id) - {h}
    ensures h in Holders(handles, id) <==> handles[h].mappingId == id
  {
  }

  lemma HoldersBounded(handles: map<int, Lease>, id: int)
    ensures |Holders(handles, id)| <= |handles|
  {
    assert Holders(handles, id) <= handles.Keys;
    SubsetCard(Holders(handles, id), handles.Keys);
  }

  lemma SubsetCard<T>(a: set<T>, b: set<T>)
    requires a <= b
    ensures |a| <= |b|
  {
    assert b == a + (b - a);
  }

  // ---------- sums over the mappings ----------

  /** Sums and bases look at ownership, base and size only. */
  lemma {:induction false} OwnedSame(ms: seq<Mapping>, ms': seq<Mapping>, n: nat)
    requires n <= |ms| && n <= |ms'|
    requires forall i :: 0 <= i < n ==>
               ms[i].owned == ms'[i].owned && ms[i].size == ms'[i].size && ms[i].base == ms'[i].base
    ensures OwnedBytesTo(ms, n) == OwnedBytesTo(ms', n)
    ensures OwnedCountTo(ms, n) == OwnedCountTo(ms', n)
    ensures OwnedBasesTo(ms, n) == OwnedBasesTo(ms', n)
  {
    if n > 0 { OwnedSame(ms, ms', n - 1); }
  }

  lemma OwnedRecount(ms: seq<Mapping>, ms': seq<Mapping>, k: nat, x: U64)
    requires k < |ms| && ms' == ms[k := ms[k].(leases := x)]
    ensures OwnedBytes(ms') == OwnedBytes(ms) && OwnedCount(ms') == OwnedCount(ms)
    ensures OwnedBases(ms') == OwnedBases(ms)
  {
    OwnedSame(ms, ms', |ms|);
  }

  lemma OwnedAppend(ms: seq<Mapping>, ms': seq<Mapping>, m: Mapping)
    requires ms' == ms + [m]
    ensures OwnedBytes(ms') == OwnedBytes(ms) + if m.owned then m.size else 0
    ensures OwnedCount(ms') == OwnedCount(ms) + if m.owned then 1 else 0
    ensures OwnedBases(ms') == OwnedBases(ms) + if m.owned then {m.base} else {}
  {
    OwnedSame(ms, ms', |ms|);
  }

  lemma {:induction false} OwnedErasedTo(ms: seq<Mapping>, rest: seq<Mapping>, k: nat, n: nat)
    requires Erased(ms, rest, k) && k < n <= |ms|
    ensures OwnedBytesTo(ms, n) == OwnedBytesTo(rest, n - 1) + if ms[k].owned then ms[k].size else 0
    ensures OwnedCountTo(ms, n) == OwnedCountTo(rest, n - 1) + if ms[k].owned then 1 else 0
    ensures OwnedBasesTo(ms, n) == OwnedBasesTo(rest, n - 1) + if ms[k].owned then {ms[k].base} else {}
  {
    if n == k + 1 { OwnedSame(ms, rest, k); } else { OwnedErasedTo(ms, rest, k, n - 1); }
  }

  // ---------- owned bytes fit in 64 bits ----------

  function Span(lo: int, n: nat): (r: set<int>)
    ensures forall x :: x in r <==> lo <= x < lo + n
    ensures |r| == n
  {
    if n == 0 then {} else Span(lo, n - 1) + {lo + n - 1}
  }

  function Cells(ms: seq<Mapping>, n: nat): set<int>
    requires n <= |ms|
  {
    if n == 0 then {}
    else Cells(ms, n - 1) + if ms[n - 1].owned then Span(ms[n - 1].base, ms[n - 1].size) else {}
  }

  lemma {:induction false} CellsBounded(ms: seq<Mapping>, n: nat, limit: nat)
    requires n <= |ms| && forall i :: 0 <= i < n ==> ms[i].base + ms[i].size <= limit
    ensures forall x :: x in Cells(ms, n) ==> 0 <= x < limit
  {
    if n > 0 { CellsBounded(ms, n - 1, limit); }
  }

  lemma BoundedCard(cells: set<int>, limit: nat)
    requires forall x :: x in cells ==> 0 <= x < limit
    ensures |cells| <= limit
  {
    SubsetCard(cells, Span(0, limit));
  }

  lemma {:induction false} CellsDisjoint(ms: seq<Mapping>, m: Mapping, n: nat)
    requires n <= |ms| && forall i :: 0 <= i < n && ms[i].owned ==> Disjoint(ms[i], m)
    ensures Cells(ms, n) !! Span(m.base, m.size)
  {
    if n > 0 { CellsDisjoint(ms, m, n - 1); }
  }

  lemma DisjointCard<T>(a: set<T>, b: set<T>)
    requires a !! b
    ensures |a + b| == |a| + |b|
  {
  }

  lemma AddSpan(cells: set<int>, m: Mapping)
    requires cells !! Span(m.base, m.size)
    ensures |cells + Span(m.base, m.size)| == |cells| + m.size
  {
    DisjointCard(cells, Span(m.base, m.size));
  }

  lemma CellsApart(ms: seq<Mapping>, n: nat)
    requires 0 < n <= |ms| && Pairwise(ms, n) && ms[n - 1].owned
    ensures Cells(ms, n - 1) !! Span(ms[n - 1].base, ms[n - 1].size)
  {
    forall i | 0 <= i < n - 1 && ms[i].owned ensures Disjoint(ms[i], ms[n - 1]) {
      assert InOrder(ms[i], ms[n - 1]);
    }
    CellsDisjoint(ms, ms[n - 1], n - 1);
  }

  lemma {:induction false} CellsCard(ms: seq<Mapping>, n: nat)
    requires n <= |ms| && Pairwise(ms, n)
    ensures |Cells(ms, n)| == OwnedBytesTo(ms, n)
  {
    if n > 0 {
      CellsCard(ms, n - 1);
      if ms[n - 1].owned {
        CellsApart(ms, n);
        AddSpan(Cells(ms, n - 1), ms[n - 1]);
      }
    }
  }

  /** Disjoint owned ranges cannot add up to more than the address space. */
  lemma OwnedBytesFit(ms: seq<Mapping>, page: int, nextId: int)
    requires page > 0 && WfMappings(ms, page, nextId)
    ensures OwnedBytes(ms) <= TWO64
  {
    ApartIsPairwise(ms, |ms|);
    CellsCard(ms, |ms|);
    CellsBounded(ms, |ms|, TWO64);
    BoundedCard(Cells(ms, |ms|), TWO64);
  }

  // ---------- reuse of a mapping ----------

  lemma RecountKeepsMappings(ms: seq<Mapping>, page: int, nextId: int, k: nat, x: U64)
    requires page > 0 && k < |ms| && WfMappings(ms, page, nextId)
    ensures WfMappings(ms[k := ms[k].(leases := x)], page, nextId)
  {
    var ms' := ms[k := ms[k].(leases := x)];
    ApartIsPairwise(ms, |ms|);
    forall i, j | 0 <= i < j < |ms| ensures InOrder(ms'[i], ms'[j]) {
      assert InOrder(ms[i], ms[j]);
    }
    ApartIsPairwise(ms', |ms|);
  }

  /** A new lease on the first mapping that covers its range is well placed, and stays
      apart from the others. */
  lemma NewLeaseFits(ms: seq<Mapping>, page: int, nextId: int, handles: map<int, Lease>, k: nat, h: int, l: Lease)
    requires page > 0 && WfMappings(ms, page, nextId) && WfLeases(ms, handles)
    requires k < |ms| && Fits(l, h, ms[k]) && h !in handles
    requires forall j :: 0 <= j < k ==> !Covers(ms[j], l.addr, l.bytes)
    ensures WfLeases(ms, handles[h := l])
  {
    IndexIs(ms, k);
  }

  lemma RecountKeepsLeases(ms: seq<Mapping>, handles: map<int, Lease>, k: nat, x: U64)
    requires k < |ms| && WfLeases(ms, handles)
    ensures WfLeases(ms[k := ms[k].(leases := x)], handles)
  {
    forall h | h in handles ensures WfLease(ms[k := ms[k].(leases := x)], h, handles[h]) {
      RecountKeepsLease(ms, k, x, h, handles[h]);
    }
  }

  lemma ReuseKeepsCounted(ms: seq<Mapping>, handles: map<int, Lease>, k: nat, h: int, l: Lease)
    requires k < |ms| && Counted(ms, handles) && ms[k].leases < MAX_U64
    requires Apart(ms, |ms|)
    requires h !in handles && l.mappingId == ms[k].id
    ensures Counted(ms[k := ms[k].(leases := ms[k].leases + 1)], handles[h := l])
  {
    var ms' := ms[k := ms[k].(leases := ms[k].leases + 1)];
    ApartIsPairwise(ms, |ms|);
    forall i | 0 <= i < |ms| ensures CountOk(ms'[i], handles[h := l]) {
      CountedAt(ms, handles, |ms|, i);
      assert i < k ==> InOrder(ms[i], ms[k]);
      assert k < i ==> InOrder(ms[k], ms[i]);
      HoldersAdd(handles, h, l, ms[i].id);
    }
    CountedIs(ms', handles[h := l], |ms'|);
  }

  lemma LeasesSmall(s: State, page: int, first: int, k: nat)
    requires Inv(s, page, first) && k < |s.mappings|
    ensures s.mappings[k].leases <= |s.handles| < MAX_I64
  {
    CountedAt(s.mappings, s.handles, |s.mappings|, k);
    HoldersBounded(s.handles, s.mappings[k].id);
  }

  lemma {:induction false} AclSame(a: seq<AclCall>, b: seq<AclCall>, n: nat, base: int)
    requires n <= |a| && n <= |b| && forall i :: 0 <= i < n ==> a[i] == b[i]
    ensures BalanceTo(a, base, n) == BalanceTo(b, base, n)
    ensures RegistrationsTo(a, n) == RegistrationsTo(b, n)
    ensures RegisteredBytesTo(a, n) == RegisteredBytesTo(b, n)
  {
    if n > 0 { AclSame(a, b, n - 1, base); }
  }

  lemma {:induction false} BracketedSame(a: seq<AclCall>, b: seq<AclCall>, n: nat)
    requires n <= |a| && n <= |b| && forall i :: 0 <= i < n ==> a[i] == b[i]
    ensures BracketedTo(a, n) == BracketedTo(b, n)
  {
    if n > 0 {
      BracketedSame(a, b, n - 1);
      if !a[n - 1].Fenced? { AclSame(a, b, n - 1, a[n - 1].base); }
    }
  }

  /** One more ACL call at the end of the log. */
  lemma AclAppend(acl: seq<AclCall>, acl': seq<AclCall>, c: AclCall)
    requires acl' == acl + [c]
    ensures forall b :: Balance(acl', b) == Balance(acl, b) + Weight(c, b)
    ensures RegistrationsTo(acl', |acl'|) == RegistrationsTo(acl, |acl|) + if c.HostRegistered? then 1 else 0
    ensures RegisteredBytesTo(acl', |acl'|) == RegisteredBytesTo(acl, |acl|) + if c.HostRegistered? then c.size else 0
    ensures BracketedTo(acl', |acl|) == BracketedTo(acl, |acl|)
  {
    forall b ensures Balance(acl', b) == Balance(acl, b) + Weight(c, b) {
      AclSame(acl, acl', |acl|, b);
    }
    AclSame(acl, acl', |acl|, 0);
    BracketedSame(acl, acl', |acl|);
  }

  /** Recounting a mapping leaves the ACL side as it was. */
  lemma RecountKeepsAcl(s: State, s': State, k: nat, x: U64)
    requires AclOk(s) && k < |s.mappings| && s'.mappings == s.mappings[k := s.mappings[k].(leases := x)]
    requires s'.acl == s.acl
    requires s'.counters.registerCalls == s.counters.registerCalls
    requires s'.counters.bytesTotal == s.counters.bytesTotal
    ensures AclOk(s')
  {
    OwnedRecount(s.mappings, s'.mappings, k, x);
  }

  lemma AddLeaseShape(s: State, k: nat, addr: U64, bytes: U64, device: nat, alreadyMapped: bool)
    requires k < |s.mappings| && s.mappings[k].leases < MAX_U64
    requires !NoHandlesLeft(s) && s.nextHandle !in s.handles
    ensures var m := s.mappings[k];
            AddLease(s, k, addr, bytes, device, alreadyMapped) ==
            (s.(mappings := s.mappings[k := m.(leases := m.leases + 1)],
                handles := s.handles[s.nextHandle := MakeLease(s, m, addr, bytes, device, alreadyMapped)],
                nextHandle := s.nextHandle + 1),
             Registered(s.nextHandle))
  {
    assert Add64(s.mappings[k].leases, 1) == s.mappings[k].leases + 1;
  }

  /** A fresh handle on mappings whose owned sums are unchanged. */
  lemma NewHandleKeepsCounters(s: State, s': State, first: int, l: Lease)
    requires CountersOk(s, first) && s.nextHandle < MAX_I64
    requires s'.handles == s.handles[s.nextHandle := l] && s'.nextHandle == s.nextHandle + 1
    requires s'.nextId == s.nextId && s'.counters == s.counters
    requires OwnedBytes(s'.mappings) == OwnedBytes(s.mappings)
    requires OwnedCount(s'.mappings) == OwnedCount(s.mappings)
    ensures CountersOk(s', first)
  {
    assert s'.handles.Keys == s.handles.Keys + {s.nextHandle};
  }

  lemma ReuseKeepsLeases(ms: seq<Mapping>, page: int, nextId: int, handles: map<int, Lease>, k: nat, h: int, l: Lease,
                         ms': seq<Mapping>, handles': map<int, Lease>)
    requires page > 0 && WfMappings(ms, page, nextId) && WfLeases(ms, handles)
    requires h !in handles && k < |ms| && ms[k].leases < MAX_U64 && Fits(l, h, ms[k])
    requires forall j :: 0 <= j < k ==> !Covers(ms[j], l.addr, l.bytes)
    requires ms' == ms[k := ms[k].(leases := ms[k].leases + 1)] && handles' == handles[h := l]
    ensures WfLeases(ms', handles')
  {
    NewLeaseFits(ms, page, nextId, handles, k, h, l);
    RecountKeepsLeases(ms, handles', k, ms[k].leases + 1);
  }

  /** The state after a lease `l` was added on mapping `k`. */
  ghost predicate Leased(s: State, s': State, k: nat, l: Lease)
    requires k < |s.mappings| && s.mappings[k].leases < MAX_U64
  {
    && s'.mappings == s.mappings[k := s.mappings[k].(leases := s.mappings[k].leases + 1)]
    && s'.handles == s.handles[s.nextHandle := l]
    && s'.nextHandle == s.nextHandle + 1
    && s'.nextId == s.nextId && s'.counters == s.counters && s'.acl == s.acl
  }

  lemma LeaseKeepsMappings(ms: seq<Mapping>, ms': seq<Mapping>, page: int, nextId: int, k: nat)
    requires page > 0 && WfMappings(ms, page, nextId) && k < |ms| && ms[k].leases < MAX_U64
    requires ms' == ms[k := ms[k].(leases := ms[k].leases + 1)]
    ensures WfMappings(ms', page, nextId)
  {
    RecountKeepsMappings(ms, page, nextId, k, ms[k].leases + 1);
  }

  lemma LeaseKeepsCounted(ms: seq<Mapping>, ms': seq<Mapping>, handles: map<int, Lease>, handles': map<int, Lease>,
                          k: nat, h: int, l: Lease)
    requires k < |ms| && Counted(ms, handles) && ms[k].leases < MAX_U64 && Apart(ms, |ms|)
    requires h !in handles && l.mappingId == ms[k].id
    requires ms' == ms[k := ms[k].(leases := ms[k].leases + 1)] && handles' == handles[h := l]
    ensures Counted(ms', handles')
  {
    ReuseKeepsCounted(ms, handles, k, h, l);
  }

  lemma LeaseKeepsStructure(s: State, s': State, page: int, k: nat, l: Lease)
    requires Structure(s, page) && s.nextHandle !in s.handles
    requires k < |s.mappings| && s.mappings[k].leases < MAX_U64 && Fits(l, s.nextHandle, s.mappings[k])
    requires forall j :: 0 <= j < k ==> !Covers(s.mappings[j], l.addr, l.bytes)
    requires Leased(s, s', k, l)
    ensures Structure(s', page)
  {
    LeaseKeepsMappings(s.mappings, s'.mappings, page, s'.nextId, k);
    ReuseKeepsLeases(s.mappings, page, s.nextId, s.handles, k, s.nextHandle, l, s'.mappings, s'.handles);
    LeaseKeepsCounted(s.mappings, s'.mappings, s.handles, s'.handles, k, s.nextHandle, l);
  }

  lemma LeaseKeepsCounters(s: State, s': State, page: int, first: int, k: nat, l: Lease)
    requires Inv(s, page, first) && s.nextHandle < MAX_I64
    requires k < |s.mappings| && s.mappings[k].leases < MAX_U64 && Leased(s, s', k, l)
    ensures CountersOk(s', first)
  {
    OwnedRecount(s.mappings, s'.mappings, k, s.mappings[k].leases + 1);
    NewHandleKeepsCounters(s, s', first, l);
  }

  lemma LeaseKeepsAcl(s: State, s': State, k: nat, l: Lease)
    requires AclOk(s)
    requires k < |s.mappings| && s.mappings[k].leases < MAX_U64 && Leased(s, s', k, l)
    ensures AclOk(s')
  {
    RecountKeepsAcl(s, s', k, s.mappings[k].leases + 1);
  }

  lemma LeaseKeepsInv(s: State, s': State, page: int, first: int, k: nat, l: Lease)
    requires Inv(s, page, first) && s.nextHandle < MAX_I64
    requires k < |s.mappings| && s.mappings[k].leases < MAX_U64 && Fits(l, s.nextHandle, s.mappings[k])
    requires forall j :: 0 <= j < k ==> !Covers(s.mappings[j], l.addr, l.bytes)
    requires Leased(s, s', k, l)
    ensures Inv(s', page, first)
  {
    LeaseKeepsStructure(s, s', page, k, l);
    LeaseKeepsCounters(s, s', page, first, k, l);
    LeaseKeepsAcl(s, s', k, l);
  }

  lemma ReuseKeepsInv(s: State, page: int, first: int, k: nat, addr: U64, bytes: U64, device: nat)
    requires Inv(s, page, first) && !NoHandlesLeft(s)
    requires addr > 0 && bytes > 0 && addr + bytes < TWO64
    requires k < |s.mappings| && k == FirstHolding(s.mappings, addr, bytes) && s.mappings[k].device == device
    ensures Inv(AddLease(s, k, addr, bytes, device, !s.mappings[k].owned).0, page, first)
  {
    var m := s.mappings[k];
    NothingCovers(s.mappings, page, s.nextId, addr, bytes);
    LeasesSmall(s, page, first, k);
    AddLeaseShape(s, k, addr, bytes, device, !m.owned);
    var s' := AddLease(s, k, addr, bytes, device, !m.owned).0;
    LeaseKeepsInv(s, s', page, first, k, MakeLease(s, m, addr, bytes, device, !m.owned));
  }

  // ---------- a fresh mapping ----------

  lemma AppendKeepsMappings(ms: seq<Mapping>, page: int, nextId: int, m: Mapping)
    requires page > 0 && WfMappings(ms, page, nextId)
    requires WfMapping(m, page) && m.id == nextId > 0
    requires forall i :: 0 <= i < |ms| ==> Compatible(ms[i], m)
    ensures WfMappings(ms + [m], page, nextId + 1)
  {
    AppendKeepsApart(ms, m, |ms|);
  }

  lemma {:induction false} AppendKeepsApart(ms: seq<Mapping>, m: Mapping, n: nat)
    requires n <= |ms| && Apart(ms, n)
    ensures Apart(ms + [m], n)
  {
    if n > 0 { AppendKeepsApart(ms, m, n - 1); }
  }

  lemma FreshKeepsLeases(ms: seq<Mapping>, page: int, nextId: int, handles: map<int, Lease>, m: Mapping,
                         h: int, l: Lease)
    requires page > 0 && WfMappings(ms + [m], page, nextId) && WfLeases(ms, handles)
    requires Fits(l, h, m) && h !in handles
    requires forall j :: 0 <= j < |ms| ==> !Covers(ms[j], l.addr, l.bytes)
    ensures WfLeases(ms + [m], handles[h := l])
  {
    forall g | g in handles ensures WfLease(ms + [m], g, handles[g]) {
      AppendKeepsLease(ms, m, g, handles[g]);
    }
    NewLeaseFits(ms + [m], page, nextId, handles, |ms|, h, l);
  }

  lemma NoHolders(ms: seq<Mapping>, page: int, nextId: int, handles: map<int, Lease>)
    requires page > 0 && WfMappings(ms, page, nextId) && WfLeases(ms, handles)
    ensures Holders(handles, nextId) == {}
  {
    forall g | g in handles ensures handles[g].mappingId != nextId {
      assert WfLease(ms, g, handles[g]);
    }
  }

  lemma FreshKeepsCounted(ms: seq<Mapping>, page: int, nextId: int, handles: map<int, Lease>, m: Mapping,
                          h: int, l: Lease)
    requires page > 0 && WfMappings(ms, page, nextId) && WfLeases(ms, handles) && Counted(ms, handles)
    requires m.id == nextId && m.leases == 1 && l.mappingId == m.id && h !in handles
    ensures Counted(ms + [m], handles[h := l])
  {
    NoHolders(ms, page, nextId, handles);
    HoldersAdd(handles, h, l, m.id);
    forall i | 0 <= i < |ms| ensures CountOk((ms + [m])[i], handles[h := l]) {
      CountedAt(ms, handles, |ms|, i);
      HoldersAdd(handles, h, l, ms[i].id);
    }
    CountedIs(ms + [m], handles[h := l], |ms| + 1);
  }

  lemma BorrowKeepsCounters(s: State, s': State, first: int, m: Mapping, l: Lease)
    requires CountersOk(s, first) && s.nextHandle < MAX_I64 && s.nextId < MAX_U64 && !m.owned
    requires s'.handles == s.handles[s.nextHandle := l] && s'.nextHandle == s.nextHandle + 1
    requires s'.nextId == s.nextId + 1 && s'.mappings == s.mappings + [m]
    requires s'.counters == CountBorrowed(s.counters)
    ensures CountersOk(s', first)
  {
    assert s'.handles.Keys == s.handles.Keys + {s.nextHandle};
    OwnedAppend(s.mappings, s'.mappings, m);
  }

  lemma OwnKeepsCounters(s: State, s': State, first: int, m: Mapping, l: Lease)
    requires CountersOk(s, first) && s.nextHandle < MAX_I64 && s.nextId < MAX_U64 && m.owned
    requires s'.handles == s.handles[s.nextHandle := l] && s'.nextHandle == s.nextHandle + 1
    requires s'.nextId == s.nextId + 1 && s'.mappings == s.mappings + [m]
    requires s'.counters == CountOwned(s.counters, m.size)
    requires OwnedBytes(s'.mappings) < TWO64
    ensures CountersOk(s', first)
  {
    assert s'.handles.Keys == s.handles.Keys + {s.nextHandle};
    OwnedAppend(s.mappings, s'.mappings, m);
  }

  lemma BorrowKeepsAcl(s: State, s': State, m: Mapping)
    requires AclOk(s) && !m.owned && s'.mappings == s.mappings + [m] && s'.acl == s.acl
    requires s'.counters == CountBorrowed(s.counters)
    ensures AclOk(s')
  {
    OwnedAppend(s.mappings, s'.mappings, m);
  }

  lemma OwnKeepsAcl(s: State, s': State, m: Mapping)
    requires AclOk(s) && m.owned && m.base !in OwnedBases(s.mappings)
    requires s.counters.registerCalls < MAX_U64
    requires s'.mappings == s.mappings + [m] && s'.acl == s.acl + [HostRegistered(m.base, m.size)]
    requires s'.counters == CountOwned(s.counters, m.size)
    ensures AclOk(s')
  {
    OwnedAppend(s.mappings, s'.mappings, m);
    AclAppend(s.acl, s'.acl, HostRegistered(m.base, m.size));
    assert s'.counters.bytesTotal == Add64(s.counters.bytesTotal, m.size);
  }

  /** The heart of the registration check: only the unexpanded request is compared with the
      cached mappings, yet its page expansion stays clear of every owned one. */
  lemma ExpansionAvoidsOwned(n: Mapping, page: int, ptr: U64, bytes: U64)
    requires ValidPage(page) && GetHostRange(page, ptr, bytes).Ok?
    requires WfMapping(n, page) && n.owned
    requires ptr + bytes <= n.base || n.base + n.size <= ptr
    ensures var r := GetHostRange(page, ptr, bytes).value;
            r.aligned + r.size <= n.base || n.base + n.size <= r.aligned
  {
    HostRangeIsExact(page, ptr, bytes);
    var r := GetHostRange(page, ptr, bytes).value;
    MultipleIsMod(n.base, page);
    MultipleIsMod(n.size, page);
    SumOfMultiples(r.aligned, r.size, page);
    SumOfMultiples(n.base, n.size, page);
    if ptr + bytes <= n.base {
      HostRangeIsLeast(page, ptr, bytes, r.aligned, n.base);
    } else {
      HostRangeIsLeast(page, ptr, bytes, n.base + n.size, r.aligned + r.size);
    }
  }

  /** What passing the two searches tells about every cached mapping. */
  lemma UnblockedIsApart(ms: seq<Mapping>, page: int, nextId: int, addr: U64, bytes: U64)
    requires page > 0 && WfMappings(ms, page, nextId) && addr + bytes < TWO64 && bytes > 0
    requires FirstBlocking(ms, addr, bytes) == |ms|
    ensures forall i :: 0 <= i < |ms| ==> addr + bytes <= ms[i].base || ms[i].base + ms[i].size <= addr
    ensures forall i :: 0 <= i < |ms| ==> !Covers(ms[i], addr, bytes)
  {
    forall i | 0 <= i < |ms| ensures addr + bytes <= ms[i].base || ms[i].base + ms[i].size <= addr {
      assert !Blocks(ms[i], addr, bytes);
      assert WfMapping(ms[i], page) && !Wrapped(ms[i]);
    }
  }

  predicate Below(page: int, ptr: U64, bytes: U64) {
    ptr + bytes <= TWO64 - page
  }

  /** The two states a fresh registration can lead to: mapping `m` with its first lease `l`. */
  function WithBorrowed(s: State, m: Mapping, l: Lease): State
    requires s.nextId < MAX_U64
  {
    s.(mappings := s.mappings + [m], handles := s.handles[s.nextHandle := l],
       nextId := s.nextId + 1, nextHandle := s.nextHandle + 1,
       counters := CountBorrowed(s.counters))
  }

  function WithOwned(s: State, m: Mapping, l: Lease): State
    requires s.nextId < MAX_U64
  {
    s.(mappings := s.mappings + [m], handles := s.handles[s.nextHandle := l],
       nextId := s.nextId + 1, nextHandle := s.nextHandle + 1,
       counters := CountOwned(s.counters, m.size),
       acl := s.acl + [HostRegistered(m.base, m.size)])
  }

  /** The structural half of the invariant after a fresh mapping with its first lease. */
  lemma FreshKeepsStructure(s: State, page: int, first: int, m: Mapping, l: Lease)
    requires Inv(s, page, first)
    requires m.id == s.nextId && m.leases == 1 && Fits(l, s.nextHandle, m)
    requires WfMappings(s.mappings + [m], page, s.nextId + 1)
    requires forall j :: 0 <= j < |s.mappings| ==> !Covers(s.mappings[j], l.addr, l.bytes)
    ensures WfLeases(s.mappings + [m], s.handles[s.nextHandle := l])
    ensures Counted(s.mappings + [m], s.handles[s.nextHandle := l])
  {
    FreshKeepsLeases(s.mappings, page, s.nextId + 1, s.handles, m, s.nextHandle, l);
    FreshKeepsCounted(s.mappings, page, s.nextId, s.handles, m, s.nextHandle, l);
  }

  lemma BorrowShape(s: State, range: HostRange, bytes: U64, device: nat, env: RegisterEnv)
    requires env.borrowed.Some? && !NoIdsLeft(s) && !NoHandlesLeft(s) && s.nextHandle !in s.handles
    ensures var m := Mapping(s.nextId, range.addr, bytes, env.borrowed.value, device, false, 1);
            CreateMapping(s, range, bytes, device, env) ==
            (WithBorrowed(s, m, MakeLease(s, m, range.addr, bytes, device, true)), Registered(s.nextHandle))
  {
    var m0 := Mapping(s.nextId, range.addr, bytes, env.borrowed.value, device, false, 0);
    var s1 := Push(s, m0).(counters := CountBorrowed(s.counters));
    AddLeaseShape(s1, |s.mappings|, range.addr, bytes, device, true);
    assert (s.mappings + [m0])[|s.mappings| := m0.(leases := 1)] == s.mappings + [m0.(leases := 1)];
  }

  lemma OwnShape(s: State, range: HostRange, bytes: U64, device: nat, env: RegisterEnv)
    requires env.borrowed.None? && env.registered.Some?
    requires !NoIdsLeft(s) && !NoHandlesLeft(s) && s.nextHandle !in s.handles
    ensures var m := Mapping(s.nextId, range.aligned, range.size, env.registered.value, device, true, 1);
            CreateMapping(s, range, bytes, device, env) ==
            (WithOwned(s, m, MakeLease(s, m, range.addr, bytes, device, false)), Registered(s.nextHandle))
  {
    var m0 := Mapping(s.nextId, range.aligned, range.size, env.registered.value, device, true, 0);
    var s0 := s.(acl := s.acl + [HostRegistered(range.aligned, range.size)]);
    var s1 := Push(s0, m0).(counters := CountOwned(s.counters, range.size));
    AddLeaseShape(s1, |s.mappings|, range.addr, bytes, device, false);
    assert (s.mappings + [m0])[|s.mappings| := m0.(leases := 1)] == s.mappings + [m0.(leases := 1)];
  }

  lemma BorrowKeepsInv(s: State, page: int, first: int, m: Mapping, l: Lease)
    requires Inv(s, page, first) && s.nextHandle < MAX_I64 && s.nextId < MAX_U64
    requires m.id == s.nextId && m.leases == 1 && !m.owned && Fits(l, s.nextHandle, m)
    requires WfMappings(s.mappings + [m], page, s.nextId + 1)
    requires forall j :: 0 <= j < |s.mappings| ==> !Covers(s.mappings[j], l.addr, l.bytes)
    ensures Inv(WithBorrowed(s, m, l), page, first)
  {
    FreshKeepsStructure(s, page, first, m, l);
    assert CountersOk(WithBorrowed(s, m, l), first) by {
      BorrowKeepsCounters(s, WithBorrowed(s, m, l), first, m, l);
    }
    assert AclOk(WithBorrowed(s, m, l)) by {
      BorrowKeepsAcl(s, WithBorrowed(s, m, l), m);
    }
  }

  lemma {:induction false} NotABase(ms: seq<Mapping>, b: int, n: nat)
    requires n <= |ms| && forall i :: 0 <= i < n && ms[i].owned ==> ms[i].base != b
    ensures b !in OwnedBasesTo(ms, n)
  {
    if n > 0 { NotABase(ms, b, n - 1); }
  }

  lemma FreshBase(ms: seq<Mapping>, page: int, nextId: int, m: Mapping)
    requires page > 0 && WfMappings(ms, page, nextId) && m.owned && m.size > 0
    requires forall i :: 0 <= i < |ms| ==> Compatible(ms[i], m)
    ensures m.base !in OwnedBases(ms)
  {
    assert forall i :: 0 <= i < |ms| && ms[i].owned ==> WfMapping(ms[i], page) && Compatible(ms[i], m);
    NotABase(ms, m.base, |ms|);
  }

  /** An accepted range: whole pages around the request, clear of every owned mapping. */
  predicate Expanded(range: HostRange, page: int, bytes: U64)
    requires page > 0
  {
    && IsMultiple(range.aligned, page) && IsMultiple(range.size, page)
    && bytes > 0 && range.addr > 0 && range.aligned <= range.addr
    && range.addr + bytes <= MAX_U64 && range.addr + bytes <= range.aligned + range.size <= TWO64
    && (range.addr < page ==> range.addr + bytes <= TWO64 - page)
  }

  ghost predicate ClearOfOwned(range: HostRange, ms: seq<Mapping>) {
    forall i :: 0 <= i < |ms| && ms[i].owned ==>
      range.aligned + range.size <= ms[i].base || ms[i].base + ms[i].size <= range.aligned
  }

  lemma ExpansionIsClear(ms: seq<Mapping>, page: int, nextId: int, ptr: U64, bytes: U64)
    requires ValidPage(page) && WfMappings(ms, page, nextId)
    requires GetHostRange(page, ptr, bytes).Ok? && FirstBlocking(ms, ptr, bytes) == |ms|
    ensures ClearOfOwned(GetHostRange(page, ptr, bytes).value, ms)
  {
    HostRangeIsExact(page, ptr, bytes);
    UnblockedIsApart(ms, page, nextId, ptr, bytes);
    forall i | 0 <= i < |ms| && ms[i].owned
      ensures var r := GetHostRange(page, ptr, bytes).value;
              r.aligned + r.size <= ms[i].base || ms[i].base + ms[i].size <= r.aligned
    {
      ExpansionAvoidsOwned(ms[i], page, ptr, bytes);
    }
  }

  lemma ExpansionFits(ms: seq<Mapping>, page: int, nextId: int, range: HostRange, bytes: U64, m: Mapping)
    requires page > 0 && WfMappings(ms, page, nextId) && m.id == nextId > 0
    requires Expanded(range, page, bytes) && ClearOfOwned(range, ms)
    requires m.base == range.aligned && m.size == range.size && m.owned
    ensures WfMappings(ms + [m], page, nextId + 1) && m.base !in OwnedBases(ms)
    ensures OwnedBytes(ms + [m]) == OwnedBytes(ms) + m.size <= TWO64
    ensures Covers(m, range.addr, bytes)
  {
    assert forall i :: 0 <= i < |ms| ==> Compatible(ms[i], m);
    AppendKeepsMappings(ms, page, nextId, m);
    FreshBase(ms, page, nextId, m);
    OwnedBytesFit(ms + [m], page, nextId + 1);
    OwnedAppend(ms, ms + [m], m);
  }

  lemma OwnKeepsInv(s: State, page: int, first: int, m: Mapping, l: Lease)
    requires Inv(s, page, first) && s.nextHandle < MAX_I64 && s.nextId < MAX_U64
    requires m.id == s.nextId && m.leases == 1 && m.owned && Fits(l, s.nextHandle, m)
    requires WfMappings(s.mappings + [m], page, s.nextId + 1)
    requires OwnedBytes(s.mappings + [m]) < TWO64 && m.base !in OwnedBases(s.mappings)
    requires forall j :: 0 <= j < |s.mappings| ==> !Covers(s.mappings[j], l.addr, l.bytes)
    ensures Inv(WithOwned(s, m, l), page, first)
  {
    FreshKeepsStructure(s, page, first, m, l);
    assert CountersOk(WithOwned(s, m, l), first) by {
      OwnKeepsCounters(s, WithOwned(s, m, l), first, m, l);
    }
    assert AclOk(WithOwned(s, m, l)) by {
      OwnKeepsAcl(s, WithOwned(s, m, l), m);
    }
  }

  // ---------- a whole registration ----------

  lemma BorrowedFits(ms: seq<Mapping>, page: int, nextId: int, range: HostRange, bytes: U64, m: Mapping)
    requires page > 0 && WfMappings(ms, page, nextId) && m.id == nextId > 0
    requires Expanded(range, page, bytes) && FirstBlocking(ms, range.addr, bytes) == |ms|
    requires m.base == range.addr && m.size == bytes && !m.owned
    ensures WfMappings(ms + [m], page, nextId + 1)
    ensures forall j :: 0 <= j < |ms| ==> !Covers(ms[j], range.addr, bytes)
  {
    UnblockedIsApart(ms, page, nextId, range.addr, bytes);
    AppendKeepsMappings(ms, page, nextId, m);
  }

  lemma CreateBorrowedKeepsInv(s: State, page: int, first: int, range: HostRange, bytes: U64, device: nat,
                               env: RegisterEnv)
    requires Inv(s, page, first) && !NoHandlesLeft(s) && !NoIdsLeft(s) && env.borrowed.Some?
    requires Expanded(range, page, bytes)
    requires FirstBlocking(s.mappings, range.addr, bytes) == |s.mappings|
    ensures Inv(CreateMapping(s, range, bytes, device, env).0, page, first)
  {
    var m := Mapping(s.nextId, range.addr, bytes, env.borrowed.value, device, false, 1);
    BorrowShape(s, range, bytes, device, env);
    BorrowedFits(s.mappings, page, s.nextId, range, bytes, m);
    BorrowKeepsInv(s, page, first, m, MakeLease(s, m, range.addr, bytes, device, true));
  }

  lemma OwnExpandedKeepsInv(s: State, page: int, first: int, range: HostRange, bytes: U64, m: Mapping, l: Lease)
    requires Inv(s, page, first) && s.nextHandle < MAX_I64 && s.nextId < MAX_U64
    requires Expanded(range, page, bytes) && ClearOfOwned(range, s.mappings)
    requires FirstBlocking(s.mappings, range.addr, bytes) == |s.mappings|
    requires OwnedBytes(s.mappings) + range.size < TWO64
    requires m.id == s.nextId && m.leases == 1 && m.owned && m.base == range.aligned && m.size == range.size
    requires l.addr == range.addr && l.bytes == bytes && (Covers(m, l.addr, l.bytes) ==> Fits(l, s.nextHandle, m))
    ensures Inv(WithOwned(s, m, l), page, first)
  {
    ExpansionFits(s.mappings, page, s.nextId, range, bytes, m);
    UnblockedIsApart(s.mappings, page, s.nextId, range.addr, bytes);
    OwnKeepsInv(s, page, first, m, l);
  }

  lemma CreateOwnedKeepsInv(s: State, page: int, first: int, range: HostRange, bytes: U64, device: nat,
                            env: RegisterEnv)
    requires Inv(s, page, first) && !NoHandlesLeft(s) && !NoIdsLeft(s)
    requires env.borrowed.None? && env.registered.Some?
    requires Expanded(range, page, bytes) && ClearOfOwned(range, s.mappings)
    requires FirstBlocking(s.mappings, range.addr, bytes) == |s.mappings|
    requires OwnedBytes(s.mappings) + range.size < TWO64
    ensures Inv(CreateMapping(s, range, bytes, device, env).0, page, first)
  {
    var m := Mapping(s.nextId, range.aligned, range.size, env.registered.value, device, true, 1);
    OwnShape(s, range, bytes, device, env);
    OwnExpandedKeepsInv(s, page, first, range, bytes, m, MakeLease(s, m, range.addr, bytes, device, false));
  }
}
