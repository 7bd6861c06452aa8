/** Baseline tables: capturing devices, merging new captures, and restoring from a table. */
module QosTables {
  import opened Wrappers
  import opened QosState
  import opened QosHardware

  type Hardware = map<int, Regs>
  type Save = Regs -> Option<Json>

  const NO_REGS := Regs(map[], map[], None)

  function At(hw: Hardware, d: int): Regs {
    if d in hw then hw[d] else NO_REGS
  }

  function Update(hw: Hardware, d: int, r: Regs): Hardware {
    if d in hw then hw[d := r] else hw
  }

  // ---------- dictionary facts ----------

  function Lookup<V>(t: Dict<V>, key: string): Option<V> {
    var i := Find(t, key, |t|);
    if i < |t| then Some(t[i].1) else None
  }

  lemma LookupPut<V>(t: Dict<V>, key: string, value: V, k: string)
    requires Distinct(t)
    ensures Lookup(Put(t, key, value), k) == if k == key then Some(value) else Lookup(t, k)
  {
    var p := Put(t, key, value);
    PutKeepsDistinct(t, key, value);
    var i := Find(t, key, |t|);
    if k == key {
      FindIs(p, i);
    } else {
      var j := Find(t, k, |t|);
      if j < |t| {
        assert p[j] == t[j];
        FindIs(p, j);
      } else {
        assert forall x :: 0 <= x < |p| ==> p[x].0 != k;
      }
    }
  }

  // ---------- capture and merge ----------

  /** One table of a baseline, for the first n listed devices, under the text of their numbers. */
  function Capture(hw: Hardware, devices: seq<nat>, save: Save, text: int -> string, n: nat): Dict<Json>
    requires n <= |devices|
  {
    if n == 0 then []
    else
      var before, v := Capture(hw, devices, save, text, n - 1), save(At(hw, devices[n - 1]));
      if v.Some? then Put(before, text(devices[n - 1]), v.value) else before
  }

  function Merge(saved: Dict<Json>, recent: Dict<Json>, n: nat): Dict<Json>
    requires n <= |recent|
  {
    if n == 0 then saved else Put(Merge(saved, recent, n - 1), recent[n - 1].0, recent[n - 1].1)
  }

  /** All keys are distinct and in normal form. */
  predicate NormalKeys<V>(t: Dict<V>, key: string -> Option<string>) {
    Distinct(t) && forall i :: 0 <= i < |t| ==> key(t[i].0) == Some(t[i].0)
  }

  lemma PutKeepsNormal(t: Dict<Json>, name: string, value: Json, key: string -> Option<string>)
    requires NormalKeys(t, key) && key(name) == Some(name)
    ensures NormalKeys(Put(t, name, value), key)
  {
    PutKeepsDistinct(t, name, value);
  }

  lemma {:induction false} CaptureIsNormal(
    hw: Hardware, devices: seq<nat>, save: Save, text: int -> string, key: string -> Option<string>, n: nat)
    requires n <= |devices| && forall d: int :: key(text(d)) == Some(text(d))
    ensures NormalKeys(Capture(hw, devices, save, text, n), key)
  {
    if n > 0 {
      CaptureIsNormal(hw, devices, save, text, key, n - 1);
      var v := save(At(hw, devices[n - 1]));
      if v.Some? {
        PutKeepsNormal(Capture(hw, devices, save, text, n - 1), text(devices[n - 1]), v.value, key);
      }
    }
  }

  lemma {:induction false} CaptureIsDistinct(hw: Hardware, devices: seq<nat>, save: Save, text: int -> string, n: nat)
    requires n <= |devices|
    ensures Distinct(Capture(hw, devices, save, text, n))
  {
    if n > 0 {
      CaptureIsDistinct(hw, devices, save, text, n - 1);
      var v := save(At(hw, devices[n - 1]));
      if v.Some? {
        PutKeepsDistinct(Capture(hw, devices, save, text, n - 1), text(devices[n - 1]), v.value);
      }
    }
  }

  /** A capture holds the listed devices that could be read. */
  lemma {:induction false} CaptureHolds(
    hw: Hardware, devices: seq<nat>, save: Save, text: int -> string, n: nat, d: int)
    requires n <= |devices| && forall x: int :: text(x) == text(d) ==> x == d
    ensures Lookup(Capture(hw, devices, save, text, n), text(d)) == if d in devices[..n] then save(At(hw, d)) else None
  {
    if n > 0 {
      CaptureHolds(hw, devices, save, text, n - 1, d);
      CaptureIsDistinct(hw, devices, save, text, n - 1);
      assert devices[..n] == devices[..n - 1] + [devices[n - 1]];
      var v := save(At(hw, devices[n - 1]));
      if v.Some? {
        LookupPut(Capture(hw, devices, save, text, n - 1), text(devices[n - 1]), v.value, text(d));
      }
    }
  }

  lemma {:induction false} MergeIsNormal(saved: Dict<Json>, recent: Dict<Json>, key: string -> Option<string>, n: nat)
    requires n <= |recent| && NormalKeys(saved, key) && NormalKeys(recent, key)
    ensures NormalKeys(Merge(saved, recent, n), key)
  {
    if n > 0 {
      MergeIsNormal(saved, recent, key, n - 1);
      PutKeepsNormal(Merge(saved, recent, n - 1), recent[n - 1].0, recent[n - 1].1, key);
    }
  }

  lemma {:induction false} MergeIsDistinct(saved: Dict<Json>, recent: Dict<Json>, n: nat)
    requires n <= |recent| && Distinct(saved)
    ensures Distinct(Merge(saved, recent, n))
  {
    if n > 0 {
      MergeIsDistinct(saved, recent, n - 1);
      PutKeepsDistinct(Merge(saved, recent, n - 1), recent[n - 1].0, recent[n - 1].1);
    }
  }

  lemma {:induction false} MergedSoFar(saved: Dict<Json>, recent: Dict<Json>, n: nat, i: nat, name: string)
    requires n <= |recent| && Distinct(saved) && i <= |recent|
    requires i < |recent| ==> recent[i].0 == name
    requires forall j :: 0 <= j < |recent| && recent[j].0 == name ==> j == i
    ensures Lookup(Merge(saved, recent, n), name) == if i < n then Some(recent[i].1) else Lookup(saved, name)
  {
    if n > 0 {
      MergedSoFar(saved, recent, n - 1, i, name);
      MergeIsDistinct(saved, recent, n - 1);
      LookupPut(Merge(saved, recent, n - 1), recent[n - 1].0, recent[n - 1].1, name);
    }
  }

  /** New entries win over saved ones. */
  lemma MergeHolds(saved: Dict<Json>, recent: Dict<Json>, name: string)
    requires Distinct(saved) && Distinct(recent)
    ensures Lookup(Merge(saved, recent, |recent|), name) ==
            if Lookup(recent, name).Some? then Lookup(recent, name) else Lookup(saved, name)
  {
    var i := Find(recent, name, |recent|);
    forall j | 0 <= j < |recent| && recent[j].0 == name
      ensures j == i
    {
      FindIs(recent, j);
    }
    MergedSoFar(saved, recent, |recent|, i, name);
  }

  // ---------- restore ----------

  /** Go through a table and write each entry to its device. */
  function RestoreAll<V>(hw: Hardware, t: Dict<V>, device: string -> Option<int>, write: (Regs, V) -> Regs, n: nat): Hardware
    requires n <= |t|
  {
    if n == 0 then hw
    else
      var h, d := RestoreAll(hw, t, device, write, n - 1), device(t[n - 1].0);
      if d.Some? then Update(h, d.value, write(At(h, d.value), t[n - 1].1)) else h
  }

  lemma {:induction false} RestoredSoFar<V>(
    hw: Hardware, t: Dict<V>, device: string -> Option<int>, write: (Regs, V) -> Regs, n: nat, d: int, i: nat)
    requires n <= |t| && i <= |t| && (i < |t| ==> device(t[i].0) == Some(d))
    requires forall j :: 0 <= j < |t| && device(t[j].0) == Some(d) ==> j == i
    ensures var h := RestoreAll(hw, t, device, write, n);
            && h.Keys == hw.Keys
            && (d in hw ==> h[d] == if i < n then write(hw[d], t[i].1) else hw[d])
  {
    if n > 0 {
      RestoredSoFar(hw, t, device, write, n - 1, d, i);
    }
  }

  /** Each device is written once, from its own entry. */
  lemma RestoreWrites<V>(
    hw: Hardware, t: Dict<V>, device: string -> Option<int>, write: (Regs, V) -> Regs, d: int, name: string)
    requires Distinct(t) && forall j :: 0 <= j < |t| ==> (device(t[j].0) == Some(d) <==> t[j].0 == name)
    ensures var h := RestoreAll(hw, t, device, write, |t|);
            && h.Keys == hw.Keys
            && (d in hw ==> h[d] == if Lookup(t, name).Some? then write(hw[d], Lookup(t, name).value) else hw[d])
  {
    var i := Find(t, name, |t|);
    forall j | 0 <= j < |t| && t[j].0 == name
      ensures j == i
    {
      FindIs(t, j);
    }
    RestoredSoFar(hw, t, device, write, |t|, d, i);
  }
}
