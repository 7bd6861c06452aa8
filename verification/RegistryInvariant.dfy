/** The invariant of the mapped-host registry, piece by piece. */
module RegistryInvariant {
  import opened HostRanges
  import opened Registry

  // ---------- address ranges ----------

  predicate Covers(m: Mapping, addr: int, bytes: int) {
    m.base <= addr && addr + bytes <= m.base + m.size
  }

  predicate Disjoint(m: Mapping, n: Mapping) {
    m.base + m.size <= n.base || n.base + n.size <= m.base
  }

  /** Two mappings can share addresses in one way only: an owned mapping whose page
      expansion reaches over an older borrowed one. */
  predicate Compatible(earlier: Mapping, later: Mapping) {
    Disjoint(earlier, later) || (!earlier.owned && later.owned)
  }

  /** An owned mapping may end with the address space; the machine then computes 0 as its end. */
  predicate Wrapped(m: Mapping) {
    m.base + m.size >= TWO64
  }

  predicate WfMapping(m: Mapping, page: int)
    requires page > 0
  {
    && m.size > 0 && m.base + m.size <= TWO64
    && if m.owned then IsMultiple(m.base, page) && IsMultiple(m.size, page)
       else !Wrapped(m) && (m.base < page ==> m.base + m.size <= TWO64 - page)
  }

  predicate InOrder(earlier: Mapping, later: Mapping) {
    earlier.id < later.id && Compatible(earlier, later)
  }

  /** The first n mappings are pairwise in order, built up one mapping at a time. */
  ghost predicate Apart(ms: seq<Mapping>, n: nat)
    requires n <= |ms|
  {
    n == 0 || (Apart(ms, n - 1) && forall i :: 0 <= i < n - 1 ==> InOrder(ms[i], ms[n - 1]))
  }

  /** The same, said of all pairs at once. */
  ghost predicate Pairwise(ms: seq<Mapping>, n: nat)
    requires n <= |ms|
  {
    forall i, j :: 0 <= i < j < n ==> InOrder(ms[i], ms[j])
  }

  lemma {:induction false} ApartIsPairwise(ms: seq<Mapping>, n: nat)
    requires n <= |ms|
    ensures Apart(ms, n) <==> Pairwise(ms, n)
  {
    if n > 0 { ApartIsPairwise(ms, n - 1); }
  }

  lemma PairInOrder(ms: seq<Mapping>, i: nat, j: nat)
    requires Apart(ms, |ms|) && i < j < |ms|
    ensures InOrder(ms[i], ms[j])
  {
    ApartIsPairwise(ms, |ms|);
  }

  ghost predicate WfMappings(ms: seq<Mapping>, page: int, nextId: int)
    requires page > 0
  {
    && (forall i :: 0 <= i < |ms| ==> WfMapping(ms[i], page) && 0 < ms[i].id < nextId)
    && Apart(ms, |ms|)
  }

  // ---------- leases ----------

  /** Everything a lease records agrees with its mapping. */
  predicate Fits(l: Lease, handle: int, m: Mapping) {
    && l.handle == handle && l.active && l.mappingId == m.id
    && l.addr > 0 && l.bytes > 0 && l.addr + l.bytes < TWO64 && Covers(m, l.addr, l.bytes)
    && l.mappedBase == m.base && l.mappedBytes == m.size
    && l.deviceAddr == DeviceAddress(m, l.addr)
    && l.device == m.device && l.owned == m.owned && l.alreadyMapped == !m.owned
  }

  ghost predicate WfLease(ms: seq<Mapping>, handle: int, l: Lease) {
    var k := IndexOf(ms, l.mappingId);
    && k < |ms| && Fits(l, handle, ms[k])
    && (forall j :: 0 <= j < k ==> !Covers(ms[j], l.addr, l.bytes))
  }

  ghost predicate WfLeases(ms: seq<Mapping>, handles: map<int, Lease>) {
    forall h :: h in handles ==> WfLease(ms, h, handles[h])
  }

  function Holders(handles: map<int, Lease>, id: int): set<int> {
    set h | h in handles && handles[h].mappingId == id
  }

  /** A mapping counts its holders and has at least one. */
  ghost predicate CountOk(m: Mapping, handles: map<int, Lease>) {
    m.leases >= 1 && m.leases == |Holders(handles, m.id)|
  }

  ghost predicate CountedTo(ms: seq<Mapping>, handles: map<int, Lease>, n: nat)
    requires n <= |ms|
  {
    n == 0 || (CountedTo(ms, handles, n - 1) && CountOk(ms[n - 1], handles))
  }

  ghost predicate Counted(ms: seq<Mapping>, handles: map<int, Lease>) {
    CountedTo(ms, handles, |ms|)
  }

  lemma {:induction false} CountedIs(ms: seq<Mapping>, handles: map<int, Lease>, n: nat)
    requires n <= |ms|
    ensures CountedTo(ms, handles, n) <==> forall i :: 0 <= i < n ==> CountOk(ms[i], handles)
  {
    if n > 0 { CountedIs(ms, handles, n - 1); }
  }

  lemma {:induction false} CountedAt(ms: seq<Mapping>, handles: map<int, Lease>, n: nat, i: nat)
    requires n <= |ms| && CountedTo(ms, handles, n) && i < n
    ensures CountOk(ms[i], handles)
  {
    if i < n - 1 { CountedAt(ms, handles, n - 1, i); }
  }

  // ---------- counters ----------

  function OwnedBytesTo(ms: seq<Mapping>, n: nat): nat
    requires n <= |ms|
  {
    if n == 0 then 0 else OwnedBytesTo(ms, n - 1) + if ms[n - 1].owned then ms[n - 1].size else 0
  }

  function OwnedBytes(ms: seq<Mapping>): nat {
    OwnedBytesTo(ms, |ms|)
  }

  function OwnedCountTo(ms: seq<Mapping>, n: nat): nat
    requires n <= |ms|
  {
    if n == 0 then 0 else OwnedCountTo(ms, n - 1) + if ms[n - 1].owned then 1 else 0
  }

  function OwnedCount(ms: seq<Mapping>): nat {
    OwnedCountTo(ms, |ms|)
  }

  ghost predicate CountersOk(s: State, first: int) {
    var c := s.counters;
    && 0 < first <= s.nextHandle <= MAX_I64 && 1 <= s.nextId
    && (forall h :: h in s.handles ==> first <= h < s.nextHandle)
    && s.nextId - 1 <= s.nextHandle - first
    && s.nextHandle - first == c.explicitUnregisters + |s.handles|
    && c.registerCalls + c.borrowedTotal == s.nextId - 1
    && c.registerCalls == c.unregisterCalls + OwnedCount(s.mappings)
    && c.bytesCurrent == OwnedBytes(s.mappings) <= c.bytesPeak
  }

  // ---------- ACL log ----------

  function Weight(c: AclCall, base: int): int {
    match c
    case HostRegistered(b, _) => if b == base then 1 else 0
    case HostUnregistered(b) => if b == base then -1 else 0
    case Fenced(_) => 0
  }

  function BalanceTo(acl: seq<AclCall>, base: int, n: nat): int
    requires n <= |acl|
  {
    if n == 0 then 0 else BalanceTo(acl, base, n - 1) + Weight(acl[n - 1], base)
  }

  /** Registrations of `base` minus undone ones. */
  function Balance(acl: seq<AclCall>, base: int): int {
    BalanceTo(acl, base, |acl|)
  }

  function RegistrationsTo(acl: seq<AclCall>, n: nat): nat
    requires n <= |acl|
  {
    if n == 0 then 0 else RegistrationsTo(acl, n - 1) + if acl[n - 1].HostRegistered? then 1 else 0
  }

  function RegisteredBytesTo(acl: seq<AclCall>, n: nat): nat
    requires n <= |acl|
  {
    if n == 0 then 0
    else RegisteredBytesTo(acl, n - 1) + if acl[n - 1].HostRegistered? then acl[n - 1].size else 0
  }

  /** No base is registered twice at once, and each undo matches one registration and
      directly follows a fence. */
  ghost predicate BracketedTo(acl: seq<AclCall>, n: nat)
    requires n <= |acl|
  {
    n == 0 ||
    (&& BracketedTo(acl, n - 1)
     && (acl[n - 1].HostRegistered? ==> BalanceTo(acl, acl[n - 1].base, n - 1) == 0)
     && (acl[n - 1].HostUnregistered? ==>
           BalanceTo(acl, acl[n - 1].base, n - 1) == 1 && n > 1 && acl[n - 2].Fenced?))
  }

  function OwnedBasesTo(ms: seq<Mapping>, n: nat): set<int>
    requires n <= |ms|
  {
    if n == 0 then {} else OwnedBasesTo(ms, n - 1) + if ms[n - 1].owned then {ms[n - 1].base} else {}
  }

  function OwnedBases(ms: seq<Mapping>): set<int> {
    OwnedBasesTo(ms, |ms|)
  }

  ghost predicate AclOk(s: State) {
    && BracketedTo(s.acl, |s.acl|)
    && (forall b :: Balance(s.acl, b) == if b in OwnedBases(s.mappings) then 1 else 0)
    && s.counters.registerCalls == RegistrationsTo(s.acl, |s.acl|)
    && s.counters.bytesTotal == RegisteredBytesTo(s.acl, |s.acl|) % TWO64
  }

  /** Mappings and leases fit together. */
  ghost predicate Structure(s: State, page: int) {
    && ValidPage(page)
    && WfMappings(s.mappings, page, s.nextId)
    && WfLeases(s.mappings, s.handles)
    && Counted(s.mappings, s.handles)
  }

  ghost predicate Inv(s: State, page: int, first: int) {
    Structure(s, page) && CountersOk(s, first) && AclOk(s)
  }

  // ---------- searches under the invariant ----------

  lemma FirstIs(ms: seq<Mapping>, p: Mapping -> bool, k: nat)
    requires k <= |ms| && (k < |ms| ==> p(ms[k]))
    requires forall j :: 0 <= j < k ==> !p(ms[j])
    ensures First(ms, p) == k
  {
  }

  lemma IndexIs(ms: seq<Mapping>, k: nat)
    requires k < |ms| && Apart(ms, |ms|)
    ensures IndexOf(ms, ms[k].id) == k
  {
    ApartIsPairwise(ms, |ms|);
    var i := IndexOf(ms, ms[k].id);
    assert i < k ==> InOrder(ms[i], ms[k]);
    assert i <= k;
  }

  /** The machine's containment test is containment, except that a wrapped mapping holds nothing. */
  lemma HoldsIsCovers(m: Mapping, addr: U64, bytes: U64)
    requires m.base + m.size <= TWO64 && 0 < bytes && addr + bytes < TWO64
    ensures Holds(m, addr, bytes) <==> Covers(m, addr, bytes) && !Wrapped(m)
  {
  }

  /** The lookup of a range finds mapping `k` when it covers the range and no earlier one does. */
  lemma FindIs(ms: seq<Mapping>, page: int, nextId: int, k: nat, addr: U64, bytes: U64)
    requires page > 0 && WfMappings(ms, page, nextId) && k < |ms| && 0 < bytes && addr + bytes < TWO64
    requires Covers(ms[k], addr, bytes) && !Wrapped(ms[k])
    requires forall j :: 0 <= j < k ==> !Covers(ms[j], addr, bytes)
    ensures FirstHolding(ms, addr, bytes) == k
  {
    forall j | 0 <= j <= k ensures Holds(ms[j], addr, bytes) <==> Covers(ms[j], addr, bytes) && !Wrapped(ms[j]) {
      HoldsIsCovers(ms[j], addr, bytes);
    }
  }

  /** What a lookup passes over does not cover the range, unless it is wrapped; and if anything is
      found, nothing before it covers the range at all. */
  lemma NothingCovers(ms: seq<Mapping>, page: int, nextId: int, addr: U64, bytes: U64)
    requires page > 0 && WfMappings(ms, page, nextId) && 0 < bytes && addr + bytes < TWO64
    ensures var k := FirstHolding(ms, addr, bytes);
            && (forall j :: 0 <= j < k ==> Covers(ms[j], addr, bytes) ==> Wrapped(ms[j]))
            && (k < |ms| ==> Covers(ms[k], addr, bytes) && !Wrapped(ms[k]))
            && (k < |ms| ==> forall j :: 0 <= j < k ==> !Covers(ms[j], addr, bytes))
  {
    var k := FirstHolding(ms, addr, bytes);
    forall j | 0 <= j < |ms| ensures Holds(ms[j], addr, bytes) <==> Covers(ms[j], addr, bytes) && !Wrapped(ms[j]) {
      HoldsIsCovers(ms[j], addr, bytes);
    }
    if k < |ms| {
      ApartIsPairwise(ms, |ms|);
      forall j | 0 <= j < k ensures !Covers(ms[j], addr, bytes) {
        assert InOrder(ms[j], ms[k]) && WfMapping(ms[j], page);
      }
    }
  }
}
