/** Global slicing of a cpuset over the logical NPUs, and the split of each slice into roles. */
module CpuSlices {

  // ---------- sorted lists ----------

  predicate Increasing(s: seq<int>) {
    forall i, j :: 0 <= i < j < |s| ==> s[i] < s[j]
  }

  /** How many elements of an increasing list are less than x. */
  function Position(s: seq<int>, x: int, n: nat): (p: nat)
    requires Increasing(s) && n <= |s|
    ensures p <= n && (forall i :: 0 <= i < p ==> s[i] < x) && (forall i :: p <= i < n ==> s[i] >= x)
  {
    if n == 0 then 0 else if s[n - 1] < x then n else Position(s, x, n - 1)
  }

  function InsertUnique(s: seq<int>, x: int): (r: seq<int>)
    requires Increasing(s)
    ensures Increasing(r) && forall y :: y in r <==> y in s || y == x
  {
    var p := Position(s, x, |s|);
    if p < |s| && s[p] == x then s
    else
      assert s == s[..p] + s[p..];
      s[..p] + [x] + s[p..]
  }

  /** The distinct elements of a list in increasing order. */
  function SortDedup(s: seq<int>): (r: seq<int>)
    ensures Increasing(r) && forall y :: y in r <==> y in s
  {
    var n := |s| - 1;
    if s == [] then []
    else
      assert s == s[..n] + [s[n]];
      InsertUnique(SortDedup(s[..n]), s[n])
  }

  lemma NextIsLeast(a: seq<int>, b: seq<int>, k: nat)
    requires Increasing(a) && Increasing(b) && k < |a|
    requires a[k] in b && forall i :: 0 <= i < k ==> i < |b| && a[i] == b[i]
    ensures k < |b| && b[k] <= a[k]
  {
    var j :| 0 <= j < |b| && b[j] == a[k];
  }

  lemma {:induction false} SamePrefix(a: seq<int>, b: seq<int>, k: nat)
    requires Increasing(a) && Increasing(b) && forall y :: y in a <==> y in b
    requires k <= |a|
    ensures k <= |b| && forall i :: 0 <= i < k ==> a[i] == b[i]
  {
    if k > 0 {
      SamePrefix(a, b, k - 1);
      assert a[k - 1] in b;
      NextIsLeast(a, b, k - 1);
      assert b[k - 1] in a;
      NextIsLeast(b, a, k - 1);
    }
  }

  /** An increasing list is determined by its elements, whatever order they were read in. */
  lemma IncreasingIsUnique(a: seq<int>, b: seq<int>)
    requires Increasing(a) && Increasing(b) && forall y :: y in a <==> y in b
    ensures a == b
  {
    SamePrefix(a, b, |a|);
    SamePrefix(b, a, |b|);
  }

  // ---------- slices ----------

  function Start(id: nat, base: nat, extra: nat): nat {
    id * base + if id < extra then id else extra
  }

  function Take(id: nat, base: nat, extra: nat): nat {
    base + if id < extra then 1 else 0
  }

  lemma {:induction false} StartsAreOrdered(i: nat, j: nat, base: nat, extra: nat)
    requires i <= j
    ensures i < j ==> Start(i, base, extra) + Take(i, base, extra) <= Start(j, base, extra)
    ensures Start(i, base, extra) <= Start(j, base, extra)
    decreases j - i
  {
    if i < j {
      assert (i + 1) * base == i * base + base;
      StartsAreOrdered(i + 1, j, base, extra);
    }
  }

  lemma StartOfEnd(total: nat, n: nat)
    requires n > 0
    ensures Start(n, total / n, total % n) == total
  {
    assert total == n * (total / n) + total % n;
  }

  /** Slices are dealt out in the order of the NPU ids, the first ones getting one CPU more when
      the CPUs do not divide evenly. */
  function Slice(allowed: seq<int>, n: nat, base: nat, extra: nat, id: nat): seq<int>
    requires id < n && Start(n, base, extra) == |allowed|
  {
    StartsAreOrdered(id, n, base, extra);
    allowed[Start(id, base, extra)..Start(id, base, extra) + Take(id, base, extra)]
  }

  /** The pool of one NPU. */
  function GlobalPool(allowed: seq<int>, n: nat, id: nat): seq<int>
    requires id < n
  {
    StartOfEnd(|allowed|, n);
    Slice(allowed, n, |allowed| / n, |allowed| % n, id)
  }

  function Owner(k: nat, n: nat, base: nat, extra: nat): (id: nat)
    requires k < Start(n, base, extra)
    ensures id < n && Start(id, base, extra) <= k < Start(id, base, extra) + Take(id, base, extra)
  {
    assert n > 0 by { assert 0 * base == 0; }
    assert n * base == (n - 1) * base + base;
    if Start(n - 1, base, extra) <= k then n - 1 else Owner(k, n - 1, base, extra)
  }

  // ---------- roles ----------

  datatype Role = Irq | Main | Acl | Release

  function MinCpus(reserveIrq: bool): nat {
    if reserveIrq then 5 else 3
  }

  function RoleStart(size: nat, reserveIrq: bool, role: Role): nat
    requires size >= MinCpus(reserveIrq)
  {
    match role
    case Irq => 0
    case Main => if reserveIrq then 2 else 0
    case Acl => size - 2
    case Release => size - 1
  }

  function RoleEnd(size: nat, reserveIrq: bool, role: Role): nat
    requires size >= MinCpus(reserveIrq)
  {
    match role
    case Irq => if reserveIrq then 2 else 0
    case Main => size - 2
    case Acl => size - 1
    case Release => size
  }

  function RoleCpus(pool: seq<int>, reserveIrq: bool, role: Role): seq<int>
    requires |pool| >= MinCpus(reserveIrq)
  {
    pool[RoleStart(|pool|, reserveIrq, role)..RoleEnd(|pool|, reserveIrq, role)]
  }

  function RoleAt(size: nat, reserveIrq: bool, k: nat): (role: Role)
    requires size >= MinCpus(reserveIrq) && k < size
    ensures RoleStart(size, reserveIrq, role) <= k < RoleEnd(size, reserveIrq, role)
  {
    if reserveIrq && k < 2 then Irq
    else if k < size - 2 then Main
    else if k == size - 2 then Acl else Release
  }

  lemma RolesShareNoIndex(size: nat, reserveIrq: bool, k: nat, role: Role)
    requires size >= MinCpus(reserveIrq) && k < size
    ensures RoleStart(size, reserveIrq, role) <= k < RoleEnd(size, reserveIrq, role) <==>
            role == RoleAt(size, reserveIrq, k)
  {
  }

  lemma MemberIsAt(s: seq<int>, lo: nat, hi: nat, k: nat)
    requires Increasing(s) && lo <= hi <= |s| && k < |s|
    ensures s[k] in s[lo..hi] <==> lo <= k < hi
  {
    if s[k] in s[lo..hi] {
      var j :| 0 <= j < hi - lo && s[lo..hi][j] == s[k];
      assert s[lo + j] == s[k];
    }
    assert lo <= k < hi ==> s[lo..hi][k - lo] == s[k];
  }

  lemma SliceHolds(allowed: seq<int>, n: nat, base: nat, extra: nat, id: nat, k: nat)
    requires Increasing(allowed) && id < n && Start(n, base, extra) == |allowed| && k < |allowed|
    ensures allowed[k] in Slice(allowed, n, base, extra, id) <==> id == Owner(k, n, base, extra)
  {
    StartsAreOrdered(id, n, base, extra);
    MemberIsAt(allowed, Start(id, base, extra), Start(id, base, extra) + Take(id, base, extra), k);
    var owner := Owner(k, n, base, extra);
    if id < owner {
      StartsAreOrdered(id, owner, base, extra);
    } else if owner < id {
      StartsAreOrdered(owner, id, base, extra);
    }
  }

  lemma SliceIncreases(allowed: seq<int>, n: nat, base: nat, extra: nat, id: nat)
    requires Increasing(allowed) && id < n && Start(n, base, extra) == |allowed|
    ensures Increasing(Slice(allowed, n, base, extra, id))
    ensures forall cpu :: cpu in Slice(allowed, n, base, extra, id) ==> cpu in allowed
    ensures |Slice(allowed, n, base, extra, id)| == Take(id, base, extra)
  {
    StartsAreOrdered(id, n, base, extra);
  }

  lemma RoleOf(pool: seq<int>, reserveIrq: bool, role: Role, k: nat)
    requires Increasing(pool) && |pool| >= MinCpus(reserveIrq) && k < |pool|
    ensures pool[k] in RoleCpus(pool, reserveIrq, role) <==> role == RoleAt(|pool|, reserveIrq, k)
  {
    MemberIsAt(pool, RoleStart(|pool|, reserveIrq, role), RoleEnd(|pool|, reserveIrq, role), k);
    RolesShareNoIndex(|pool|, reserveIrq, k, role);
  }

  /** The device and the role that the CPU at position k of the cpuset is given to. */
  function Holder(n: nat, base: nat, extra: nat, reserveIrq: bool, k: nat): (h: (nat, Role))
    requires base >= MinCpus(reserveIrq) && k < Start(n, base, extra)
    ensures h.0 < n
  {
    var id := Owner(k, n, base, extra);
    (id, RoleAt(Take(id, base, extra), reserveIrq, k - Start(id, base, extra)))
  }

  lemma SliceHolder(allowed: seq<int>, n: nat, base: nat, extra: nat, reserveIrq: bool, k: nat, id: nat, role: Role)
    requires Increasing(allowed) && id < n && Start(n, base, extra) == |allowed| && k < |allowed|
    requires base >= MinCpus(reserveIrq)
    ensures |Slice(allowed, n, base, extra, id)| >= MinCpus(reserveIrq)
    ensures allowed[k] in RoleCpus(Slice(allowed, n, base, extra, id), reserveIrq, role) <==>
            (id, role) == Holder(n, base, extra, reserveIrq, k)
  {
    var pool := Slice(allowed, n, base, extra, id);
    SliceHolds(allowed, n, base, extra, id, k);
    SliceIncreases(allowed, n, base, extra, id);
    if allowed[k] in pool {
      var j := k - Start(id, base, extra);
      assert pool[j] == allowed[k];
      RoleOf(pool, reserveIrq, role, j);
    } else {
      RoleCpusAreInPool(pool, reserveIrq, role);
    }
  }

  /** Every allowed CPU is in the pool of exactly one NPU id, pools hold nothing else, and their
      sizes differ by at most one. */
  lemma PoolsPartitionTheCpuset(allowed: seq<int>, n: nat, k: nat, id: nat, other: nat)
    requires Increasing(allowed) && id < n && other < n && k < |allowed|
    ensures k < Start(n, |allowed| / n, |allowed| % n)
    ensures allowed[k] in GlobalPool(allowed, n, id) <==> id == Owner(k, n, |allowed| / n, |allowed| % n)
    ensures forall cpu :: cpu in GlobalPool(allowed, n, id) ==> cpu in allowed
    ensures |GlobalPool(allowed, n, id)| <= |GlobalPool(allowed, n, other)| + 1
  {
    var base, extra := |allowed| / n, |allowed| % n;
    StartOfEnd(|allowed|, n);
    SliceHolds(allowed, n, base, extra, id, k);
    SliceIncreases(allowed, n, base, extra, id);
    SliceIncreases(allowed, n, base, extra, other);
  }

  /** Every allowed CPU is given to exactly one device in exactly one role. */
  lemma EveryCpuHasOneHolder(allowed: seq<int>, n: nat, reserveIrq: bool, k: nat, id: nat, role: Role)
    requires Increasing(allowed) && id < n && k < |allowed|
    requires |allowed| / n >= MinCpus(reserveIrq)
    ensures |GlobalPool(allowed, n, id)| >= MinCpus(reserveIrq)
    ensures k < Start(n, |allowed| / n, |allowed| % n)
    ensures allowed[k] in RoleCpus(GlobalPool(allowed, n, id), reserveIrq, role) <==>
            (id, role) == Holder(n, |allowed| / n, |allowed| % n, reserveIrq, k)
  {
    StartOfEnd(|allowed|, n);
    SliceHolder(allowed, n, |allowed| / n, |allowed| % n, reserveIrq, k, id, role);
  }

  lemma RoleCpusAreInPool(pool: seq<int>, reserveIrq: bool, role: Role)
    requires |pool| >= MinCpus(reserveIrq)
    ensures forall cpu :: cpu in RoleCpus(pool, reserveIrq, role) ==> cpu in pool
    ensures |RoleCpus(pool, reserveIrq, Main)| >= 1
    ensures |RoleCpus(pool, reserveIrq, Acl)| == 1 && |RoleCpus(pool, reserveIrq, Release)| == 1
  {
  }
}
