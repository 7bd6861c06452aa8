/** Releasing a lease keeps the registry invariant, whatever the ACL runtime answers. */
module RegistryRelease {
  import opened Registry
  import opened RegistryInvariant
  import opened RegistrySteps

  // ---------- not the last lease ----------

  lemma DropKeepsCounted(ms: seq<Mapping>, handles: map<int, Lease>, k: nat, h: int)
    requires k < |ms| && Counted(ms, handles) && h in handles && handles[h].mappingId == ms[k].id
    requires ms[k].leases >= 2
    requires Apart(ms, |ms|)
    ensures Counted(ms[k := ms[k].(leases := ms[k].leases - 1)], handles - {h})
  {
    var ms' := ms[k := ms[k].(leases := ms[k].leases - 1)];
    ApartIsPairwise(ms, |ms|);
    forall i | 0 <= i < |ms| ensures CountOk(ms'[i], handles - {h}) {
      CountedAt(ms, handles, |ms|, i);
      assert i < k ==> InOrder(ms[i], ms[k]);
      assert k < i ==> InOrder(ms[k], ms[i]);
      HoldersDrop(handles, h, ms[i].id);
    }
    CountedIs(ms', handles - {h}, |ms'|);
  }

  lemma DropHandleCount(handles: map<int, Lease>, h: int)
    requires h in handles
    ensures |handles - {h}| == |handles| - 1
  {
    assert (handles - {h}).Keys == handles.Keys - {h};
  }

  lemma DropKeepsCounters(s: State, s': State, first: int, h: int)
    requires CountersOk(s, first) && h in s.handles
    requires s'.handles == s.handles - {h} && s'.nextHandle == s.nextHandle && s'.nextId == s.nextId
    requires s'.counters == CountRelease(s.counters)
    requires OwnedBytes(s'.mappings) == OwnedBytes(s.mappings)
    requires OwnedCount(s'.mappings) == OwnedCount(s.mappings)
    ensures CountersOk(s', first)
  {
    DropHandleCount(s.handles, h);
  }

  lemma DropKeepsStructure(ms: seq<Mapping>, page: int, nextId: int, handles: map<int, Lease>, k: nat, h: int)
    requires page > 0 && WfMappings(ms, page, nextId) && WfLeases(ms, handles) && Counted(ms, handles)
    requires h in handles && k < |ms| && ms[k].id == handles[h].mappingId && ms[k].leases >= 2
    ensures var ms' := ms[k := ms[k].(leases := ms[k].leases - 1)];
            && WfMappings(ms', page, nextId)
            && WfLeases(ms', handles - {h})
            && Counted(ms', handles - {h})
  {
    RecountKeepsMappings(ms, page, nextId, k, ms[k].leases - 1);
    RecountKeepsLeases(ms, handles - {h}, k, ms[k].leases - 1);
    DropKeepsCounted(ms, handles, k, h);
  }

  lemma DropKeepsInv(s: State, page: int, first: int, k: nat, h: int)
    requires Inv(s, page, first) && h in s.handles
    requires k < |s.mappings| && s.mappings[k].id == s.handles[h].mappingId && s.mappings[k].leases >= 2
    ensures Inv(DropLease(s, k, h), page, first)
  {
    var s' := DropLease(s, k, h);
    var x := s.mappings[k].leases - 1;
    DropKeepsStructure(s.mappings, page, s.nextId, s.handles, k, h);
    assert CountersOk(s', first) by {
      OwnedRecount(s.mappings, s'.mappings, k, x);
      DropKeepsCounters(s, s', first, h);
    }
    assert AclOk(s') by {
      RecountKeepsAcl(s, s', k, x);
    }
  }

  // ---------- the fence and the last lease ----------

  lemma FenceKeepsAcl(s: State, k: nat)
    requires AclOk(s) && k < |s.mappings|
    ensures AclOk(Fence(s, k))
  {
    AclAppend(s.acl, Fence(s, k).acl, Fenced(s.mappings[k].device));
  }

  lemma FenceKeepsInv(s: State, page: int, first: int, k: nat)
    requires Inv(s, page, first) && k < |s.mappings|
    ensures Inv(Fence(s, k), page, first)
  {
    assert AclOk(Fence(s, k)) by { FenceKeepsAcl(s, k); }
    assert CountersOk(Fence(s, k), first);
  }

  lemma EraseKeepsMappings(ms: seq<Mapping>, page: int, nextId: int, k: nat)
    requires page > 0 && k < |ms| && WfMappings(ms, page, nextId)
    ensures WfMappings(ms[..k] + ms[k + 1..], page, nextId)
  {
    var ms' := ms[..k] + ms[k + 1..];
    ApartIsPairwise(ms, |ms|);
    forall i, j | 0 <= i < j < |ms'| ensures InOrder(ms'[i], ms'[j]) {
      assert InOrder(ms[if i < k then i else i + 1], ms[if j < k then j else j + 1]);
    }
    ApartIsPairwise(ms', |ms'|);
  }

  /** A mapping with one lease has exactly one holder. */
  lemma SoleHolder(ms: seq<Mapping>, handles: map<int, Lease>, k: nat, h: int)
    requires k < |ms| && Counted(ms, handles) && ms[k].leases == 1
    requires h in handles && handles[h].mappingId == ms[k].id
    ensures forall g :: g in handles && handles[g].mappingId == ms[k].id ==> g == h
  {
    CountedAt(ms, handles, |ms|, k);
    var hs := Holders(handles, ms[k].id);
    assert h in hs && |hs| == 1;
    assert |hs - {h}| == 0;
    forall g | g in handles && handles[g].mappingId == ms[k].id ensures g == h {
      assert g in hs;
      assert g != h ==> g in hs - {h};
    }
  }

  lemma EraseKeepsLeases(ms: seq<Mapping>, page: int, nextId: int, handles: map<int, Lease>, k: nat, h: int)
    requires page > 0 && WfMappings(ms, page, nextId) && k < |ms| && WfLeases(ms, handles)
    requires forall g :: g in handles && handles[g].mappingId == ms[k].id ==> g == h
    ensures WfLeases(ms[..k] + ms[k + 1..], handles - {h})
  {
    forall g | g in handles && g != h ensures WfLease(ms[..k] + ms[k + 1..], g, handles[g]) {
      EraseKeepsLease(ms, page, nextId, k, g, handles[g]);
    }
  }

  lemma EraseKeepsCounted(ms: seq<Mapping>, handles: map<int, Lease>, k: nat, h: int)
    requires k < |ms| && Counted(ms, handles) && h in handles && handles[h].mappingId == ms[k].id
    requires Apart(ms, |ms|)
    ensures Counted(ms[..k] + ms[k + 1..], handles - {h})
  {
    var ms' := ms[..k] + ms[k + 1..];
    ApartIsPairwise(ms, |ms|);
    forall i | 0 <= i < |ms'| ensures CountOk(ms'[i], handles - {h}) {
      var o := if i < k then i else i + 1;
      assert ms'[i] == ms[o];
      CountedAt(ms, handles, |ms|, o);
      assert if i < k then InOrder(ms[i], ms[k]) else InOrder(ms[k], ms[o]);
      HoldersDrop(handles, h, ms'[i].id);
    }
    CountedIs(ms', handles - {h}, |ms'|);
  }

  function BaseOf(m: Mapping): set<int> {
    if m.owned then {m.base} else {}
  }

  lemma EraseKeepsSums(ms: seq<Mapping>, rest: seq<Mapping>, k: nat)
    requires k < |ms| && rest == ms[..k] + ms[k + 1..]
    ensures OwnedBytes(ms) == OwnedBytes(rest) + if ms[k].owned then ms[k].size else 0
    ensures OwnedCount(ms) == OwnedCount(rest) + if ms[k].owned then 1 else 0
    ensures OwnedBases(ms) == OwnedBases(rest) + BaseOf(ms[k])
  {
    assert Erased(ms, rest, k);
    OwnedErasedTo(ms, rest, k, |ms|);
  }

  lemma EraseKeepsCounters(s: State, s': State, first: int, k: nat, h: int)
    requires CountersOk(s, first) && h in s.handles && k < |s.mappings|
    requires s'.mappings == s.mappings[..k] + s.mappings[k + 1..]
    requires s'.handles == s.handles - {h} && s'.nextHandle == s.nextHandle && s'.nextId == s.nextId
    requires s'.counters == if s.mappings[k].owned then CountUnmap(CountRelease(s.counters), s.mappings[k].size)
                            else CountRelease(s.counters)
    ensures CountersOk(s', first)
  {
    DropHandleCount(s.handles, h);
    EraseKeepsSums(s.mappings, s'.mappings, k);
  }

  lemma BasesDiffer(ms: seq<Mapping>, page: int, nextId: int, j: nat, k: nat)
    requires page > 0 && WfMappings(ms, page, nextId)
    requires j < |ms| && k < |ms| && j != k && ms[j].owned && ms[k].owned
    ensures ms[j].base != ms[k].base
  {
    ApartIsPairwise(ms, |ms|);
    assert if j < k then InOrder(ms[j], ms[k]) else InOrder(ms[k], ms[j]);
    assert WfMapping(ms[j], page) && WfMapping(ms[k], page);
  }

  lemma OtherBases(ms: seq<Mapping>, page: int, nextId: int, k: nat, rest: seq<Mapping>)
    requires page > 0 && WfMappings(ms, page, nextId)
    requires k < |ms| && ms[k].owned && rest == ms[..k] + ms[k + 1..]
    ensures forall i :: 0 <= i < |rest| && rest[i].owned ==> rest[i].base != ms[k].base
  {
    forall i | 0 <= i < |rest| && rest[i].owned ensures rest[i].base != ms[k].base {
      BasesDiffer(ms, page, nextId, if i < k then i else i + 1, k);
    }
  }

  lemma EraseKeepsBases(ms: seq<Mapping>, page: int, nextId: int, k: nat, rest: seq<Mapping>)
    requires page > 0 && WfMappings(ms, page, nextId)
    requires k < |ms| && rest == ms[..k] + ms[k + 1..]
    ensures OwnedBases(rest) == OwnedBases(ms) - BaseOf(ms[k])
    ensures ms[k].owned ==> ms[k].base in OwnedBases(ms)
  {
    EraseKeepsSums(ms, rest, k);
    assert ms[k].owned ==> ms[k].base !in OwnedBases(rest) by {
      if ms[k].owned {
        OtherBases(ms, page, nextId, k, rest);
        NotABase(rest, ms[k].base, |rest|);
      }
    }
  }

  /** Undoing the registration right after the fence keeps the log bracketed. */
  lemma EraseKeepsAcl(s: State, s': State, k: nat)
    requires AclOk(s) && k < |s.mappings| && |s.acl| > 0 && s.acl[|s.acl| - 1].Fenced?
    requires s.mappings[k].owned ==> s.mappings[k].base in OwnedBases(s.mappings)
    requires OwnedBases(s'.mappings) ==
             OwnedBases(s.mappings) - BaseOf(s.mappings[k])
    requires s'.acl == if s.mappings[k].owned then s.acl + [HostUnregistered(s.mappings[k].base)] else s.acl
    requires s'.counters.registerCalls == s.counters.registerCalls
    requires s'.counters.bytesTotal == s.counters.bytesTotal
    ensures AclOk(s')
  {
    if s.mappings[k].owned { AclAppend(s.acl, s'.acl, HostUnregistered(s.mappings[k].base)); }
  }

  lemma EraseKeepsStructure(ms: seq<Mapping>, page: int, nextId: int, handles: map<int, Lease>, k: nat, h: int)
    requires page > 0 && WfMappings(ms, page, nextId) && WfLeases(ms, handles) && Counted(ms, handles)
    requires h in handles && k < |ms| && ms[k].id == handles[h].mappingId && ms[k].leases == 1
    ensures var ms' := ms[..k] + ms[k + 1..];
            && WfMappings(ms', page, nextId)
            && WfLeases(ms', handles - {h})
            && Counted(ms', handles - {h})
  {
    EraseKeepsMappings(ms, page, nextId, k);
    SoleHolder(ms, handles, k, h);
    EraseKeepsLeases(ms, page, nextId, handles, k, h);
    EraseKeepsCounted(ms, handles, k, h);
  }

  lemma EraseKeepsInv(s: State, page: int, first: int, k: nat, h: int, unmapOk: bool)
    requires Inv(s, page, first) && h in s.handles
    requires |s.acl| > 0 && s.acl[|s.acl| - 1].Fenced?
    requires k < |s.mappings| && s.mappings[k].id == s.handles[h].mappingId && s.mappings[k].leases == 1
    ensures Inv(FinishRelease(s, k, h, unmapOk).0, page, first)
  {
    var s' := FinishRelease(s, k, h, unmapOk).0;
    if !(s.mappings[k].owned && !unmapOk) {
      WithoutIsErase(s.mappings, k);
      EraseKeepsStructure(s.mappings, page, s.nextId, s.handles, k, h);
      assert CountersOk(s', first) by {
        EraseKeepsCounters(s, s', first, k, h);
      }
      assert AclOk(s') by {
        EraseKeepsBases(s.mappings, page, s.nextId, k, s'.mappings);
        EraseKeepsAcl(s, s', k);
      }
    }
  }
}
