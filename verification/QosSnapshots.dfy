/** What the three baseline tables mean: the registers of each device at the time it was saved. */
module QosSnapshots {
  import opened Wrappers
  import opened QosState
  import opened QosHardware
  import opened QosTables

  type Bases = map<int, Regs>

  datatype Tables = Tables(qos: Dict<Json>, bw: Dict<Json>, fuse: Dict<Json>)

  function Expect(bases: Bases, d: int, save: Save): Option<Json> {
    if d in bases then save(bases[d]) else None
  }

  /** A table holds what can be saved of the devices, under plain decimal keys. */
  ghost predicate Holds(t: Dict<Json>, bases: Bases, save: Save) {
    NormalKeys(t, DeviceKey) && forall d: int :: Lookup(t, IntText(d)) == Expect(bases, d, save)
  }

  ghost predicate Held(t: Tables, bases: Bases) {
    Holds(t.qos, bases, SaveQos) && Holds(t.bw, bases, SaveBw) && Holds(t.fuse, bases, SaveFuse)
  }

  lemma TextIsNormal()
    ensures forall d: int :: DeviceKey(IntText(d)) == Some(IntText(d))
  {
    forall d: int
      ensures DeviceKey(IntText(d)) == Some(IntText(d))
    {
      PlainDeviceKey(d);
    }
  }

  lemma TextIsInjective(d: int)
    ensures forall x: int :: IntText(x) == IntText(d) ==> x == d
  {
    IntRoundTrip(d);
    forall x: int | IntText(x) == IntText(d)
      ensures x == d
    {
      IntRoundTrip(x);
    }
  }

  // ---------- capture ----------

  function Now(hw: Hardware, devices: seq<nat>): Bases {
    map d: int | d in devices :: At(hw, d)
  }

  lemma CaptureIsHeld(hw: Hardware, devices: seq<nat>, save: Save)
    ensures Holds(Capture(hw, devices, save, IntText, |devices|), Now(hw, devices), save)
  {
    TextIsNormal();
    CaptureIsNormal(hw, devices, save, IntText, DeviceKey, |devices|);
    assert devices[..|devices|] == devices;
    forall d: int
      ensures Lookup(Capture(hw, devices, save, IntText, |devices|), IntText(d)) == Expect(Now(hw, devices), d, save)
    {
      TextIsInjective(d);
      CaptureHolds(hw, devices, save, IntText, |devices|, d);
    }
  }

  function CaptureTables(hw: Hardware, devices: seq<nat>): Tables {
    Tables(
      Capture(hw, devices, SaveQos, IntText, |devices|),
      Capture(hw, devices, SaveBw, IntText, |devices|),
      Capture(hw, devices, SaveFuse, IntText, |devices|))
  }

  lemma CapturedTablesAreHeld(hw: Hardware, devices: seq<nat>)
    ensures Held(CaptureTables(hw, devices), Now(hw, devices))
  {
    CaptureIsHeld(hw, devices, SaveQos);
    CaptureIsHeld(hw, devices, SaveBw);
    CaptureIsHeld(hw, devices, SaveFuse);
  }

  // ---------- merge ----------

  lemma MergeIsHeld(saved: Dict<Json>, bases: Bases, recent: Dict<Json>, newer: Bases, save: Save)
    requires Holds(saved, bases, save) && Holds(recent, newer, save)
    requires forall d :: d in bases && d in newer && save(newer[d]).None? ==> save(bases[d]).None?
    ensures Holds(Merge(saved, recent, |recent|), bases + newer, save)
  {
    MergeIsNormal(saved, recent, DeviceKey, |recent|);
    forall d: int
      ensures Lookup(Merge(saved, recent, |recent|), IntText(d)) == Expect(bases + newer, d, save)
    {
      MergeHolds(saved, recent, IntText(d));
    }
  }

  function MergeTables(t: Tables, c: Tables): Tables {
    Tables(Merge(t.qos, c.qos, |c.qos|), Merge(t.bw, c.bw, |c.bw|), Merge(t.fuse, c.fuse, |c.fuse|))
  }

  lemma MergedTablesAreHeld(t: Tables, bases: Bases, c: Tables, newer: Bases)
    requires Held(t, bases) && Held(c, newer)
    requires forall d :: d in bases && d in newer ==> Touched(bases[d], newer[d])
    ensures Held(MergeTables(t, c), bases + newer)
  {
    forall d | d in bases && d in newer
      ensures SaveBw(newer[d]).None? ==> SaveBw(bases[d]).None?
      ensures SaveFuse(newer[d]).None? ==> SaveFuse(bases[d]).None?
    {
      SameShape(bases[d], newer[d]);
    }
    MergeIsHeld(t.qos, bases, c.qos, newer, SaveQos);
    MergeIsHeld(t.bw, bases, c.bw, newer, SaveBw);
    MergeIsHeld(t.fuse, bases, c.fuse, newer, SaveFuse);
  }

  /** A device all of whose tables can be saved. */
  predicate Complete(r: Regs) {
    SaveBw(r).Some? && SaveFuse(r).Some?
  }

  lemma SameShape(r: Regs, t: Regs)
    requires Touched(r, t)
    ensures (SaveBw(r).Some? <==> SaveBw(t).Some?) && (SaveFuse(r).Some? <==> SaveFuse(t).Some?)
  {
    assert SDMA in r.qos ==> t.qos[SDMA].mpamid == r.qos[SDMA].mpamid by { assert MASTERS[2] == SDMA; }
  }

  // ---------- the baseline of an apply ----------

  function Missing(devices: seq<nat>, t: Tables, n: nat): (r: seq<nat>)
    requires n <= |devices|
    ensures forall d :: d in r <==>
              d in devices[..n] && !(Has(t.qos, IntText(d)) && Has(t.bw, IntText(d)) && Has(t.fuse, IntText(d)))
  {
    if n == 0 then []
    else
      assert devices[..n] == devices[..n - 1] + [devices[n - 1]];
      var before, key := Missing(devices, t, n - 1), IntText(devices[n - 1]);
      if Has(t.qos, key) && Has(t.bw, key) && Has(t.fuse, key) then before else before + [devices[n - 1]]
  }

  /** Keep a loaded baseline, and capture the devices that lack an entry in any table. */
  function Extended(hw: Hardware, t: Tables, devices: seq<nat>): Tables {
    var missing := Missing(devices, t, |devices|);
    if missing == [] then t else MergeTables(t, CaptureTables(hw, missing))
  }

  /** What the extended baseline stands for: devices saved completely keep their first values. */
  function NextBases(hw: Hardware, bases: Bases, devices: seq<nat>): Bases {
    bases + map d: int | d in devices && (d !in bases || !Complete(bases[d])) :: At(hw, d)
  }

  lemma MissingAre(t: Tables, bases: Bases, devices: seq<nat>, d: nat)
    requires Held(t, bases)
    ensures d in Missing(devices, t, |devices|) <==> d in devices && (d !in bases || !Complete(bases[d]))
  {
    assert devices[..|devices|] == devices;
    var key := IntText(d);
    assert Has(t.qos, key) <==> Lookup(t.qos, key).Some?;
    assert Has(t.bw, key) <==> Lookup(t.bw, key).Some?;
    assert Has(t.fuse, key) <==> Lookup(t.fuse, key).Some?;
    assert Lookup(t.qos, key) == Expect(bases, d, SaveQos);
    assert Lookup(t.bw, key) == Expect(bases, d, SaveBw);
    assert Lookup(t.fuse, key) == Expect(bases, d, SaveFuse);
  }

  lemma BasesFrom(hw: Hardware, bases: Bases, devices: seq<nat>, missing: seq<nat>)
    requires forall d: nat :: d in missing <==> d in devices && (d !in bases || !Complete(bases[d]))
    ensures NextBases(hw, bases, devices) == bases + Now(hw, missing)
  {
    var chosen := map d: int | d in devices && (d !in bases || !Complete(bases[d])) :: At(hw, d);
    assert chosen.Keys == Now(hw, missing).Keys;
    assert chosen == Now(hw, missing);
  }

  lemma NextBasesAre(hw: Hardware, t: Tables, bases: Bases, devices: seq<nat>)
    requires Held(t, bases)
    ensures NextBases(hw, bases, devices) == bases + Now(hw, Missing(devices, t, |devices|))
  {
    var missing := Missing(devices, t, |devices|);
    forall d: nat
      ensures d in missing <==> d in devices && (d !in bases || !Complete(bases[d]))
    {
      MissingAre(t, bases, devices, d);
    }
    BasesFrom(hw, bases, devices, missing);
  }

  lemma CaptureIsMerged(hw: Hardware, t: Tables, bases: Bases, missing: seq<nat>)
    requires Held(t, bases) && forall d :: d in bases ==> Touched(bases[d], At(hw, d))
    ensures Held(MergeTables(t, CaptureTables(hw, missing)), bases + Now(hw, missing))
  {
    CapturedTablesAreHeld(hw, missing);
    MergedTablesAreHeld(t, bases, CaptureTables(hw, missing), Now(hw, missing));
  }

  lemma ExtendedIsHeld(hw: Hardware, t: Tables, bases: Bases, devices: seq<nat>)
    requires Held(t, bases) && forall d :: d in bases ==> Touched(bases[d], At(hw, d))
    ensures Held(Extended(hw, t, devices), NextBases(hw, bases, devices))
  {
    var missing := Missing(devices, t, |devices|);
    NextBasesAre(hw, t, bases, devices);
    if missing == [] {
      assert bases + Now(hw, missing) == bases;
    } else {
      CaptureIsMerged(hw, t, bases, missing);
    }
  }
}
