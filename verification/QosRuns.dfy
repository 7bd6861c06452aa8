/** Runs of the QoS tool: applies over any devices and priorities, and the undo that follows. */
module QosRuns {
  import opened Wrappers
  import opened QosState
  import opened QosHardware
  import opened QosTables
  import opened QosSnapshots

  // ---------- the two commands ----------

  datatype StateFile = NoFile | Garbled | Written(data: Json)

  datatype Machine = Machine(hw: Hardware, file: StateFile)

  datatype Loaded = Baseline(tables: Tables) | NoBaseline | BadRoot

  function FieldsOf(j: Json): Dict<Json> {
    if j.JObj? then j.fields else []
  }

  /** The baseline of an earlier apply. A file that does not parse, or that has no QoS table, counts
      as none; a root that is not an object is an error. */
  function Load(file: StateFile): Loaded {
    if !file.Written? then NoBaseline
    else if !file.data.JObj? then BadRoot
    else
      var qos := Get(file.data.fields, "original_qos", JNull);
      if !qos.JObj? then NoBaseline
      else
        Baseline(Tables(
          qos.fields,
          FieldsOf(Get(file.data.fields, "original_sdma_mata", EMPTY)),
          FieldsOf(Get(file.data.fields, "original_fuse", EMPTY))))
  }

  /** Files that count as none: nothing was applied yet, as far as the tool can tell. */
  predicate Fresh(file: StateFile) {
    Load(file).NoBaseline?
  }

  function ApplyAll(hw: Hardware, devices: seq<nat>, l: Levels, n: nat): Hardware
    requires n <= |devices|
  {
    if n == 0 then hw
    else
      var h := ApplyAll(hw, devices, l, n - 1);
      Update(h, devices[n - 1], ApplyRegs(At(h, devices[n - 1]), l))
  }

  datatype Request = Request(devices: seq<nat>, priorities: Priorities, commands: seq<string>)

  function WriteState(t: Tables, commands: seq<string>): StateFile {
    Written(StateJson(t.qos, t.bw, t.fuse, commands))
  }

  function ApplyHw(hw: Hardware, q: Request): Hardware {
    ApplyAll(hw, q.devices, LevelsOf(q.priorities), |q.devices|)
  }

  /** An apply saves what it is about to change and then changes it; no result is an error. */
  function Apply(m: Machine, q: Request): Option<Machine> {
    var loaded := Load(m.file);
    if loaded.BadRoot? then None
    else
      var t := if loaded.Baseline? then Extended(m.hw, loaded.tables, q.devices) else CaptureTables(m.hw, q.devices);
      Some(Machine(ApplyHw(m.hw, q), WriteState(t, q.commands)))
  }

  datatype Undo = NothingToUndo | ParseFailed | Undone(commands: seq<string>)

  function RestoreHw(hw: Hardware, s: Saved): Hardware {
    var a := RestoreAll(hw, s.bw, ParseInt, WriteBw, |s.bw|);
    var b := RestoreAll(a, s.qos, ParseInt, WriteMasters, |s.qos|);
    RestoreAll(b, s.fuse, ParseInt, WriteFuse, |s.fuse|)
  }

  /** An undo restores all saved registers and removes the file; a file that fails validation is
      removed without touching a device. */
  function Unset(m: Machine): (Machine, Undo) {
    match m.file
    case NoFile => (m, NothingToUndo)
    case Garbled => (m.(file := NoFile), ParseFailed)
    case Written(data) =>
      var s := Validate(data);
      if s.None? then (m.(file := NoFile), ParseFailed)
      else (Machine(RestoreHw(m.hw, s.value), NoFile), Undone(s.value.commands))
  }

  /** A file that counts as none is removed without touching a device. */
  lemma FreshFileIsDropped(hw: Hardware, file: StateFile)
    requires Fresh(file)
    ensures Unset(Machine(hw, file)).0 == Machine(hw, NoFile)
  {
  }

  // ---------- an apply and its baseline ----------

  lemma TouchedSelf(r: Regs)
    ensures Touched(r, r)
  {
  }

  /** An apply changes only the registers of listed devices that a snapshot restores. */
  lemma {:induction false} ApplyAllTouches(hw: Hardware, devices: seq<nat>, l: Levels, n: nat, d: int)
    requires n <= |devices|
    ensures var h := ApplyAll(hw, devices, l, n);
            && h.Keys == hw.Keys && Touched(At(hw, d), At(h, d))
            && (d !in devices[..n] ==> At(h, d) == At(hw, d))
  {
    if n == 0 {
      TouchedSelf(At(hw, d));
    } else {
      ApplyAllTouches(hw, devices, l, n - 1, d);
      assert devices[..n] == devices[..n - 1] + [devices[n - 1]];
      var before := ApplyAll(hw, devices, l, n - 1);
      if d == devices[n - 1] && d in hw {
        ApplyTouches(At(before, d), l);
        TouchedAgain(At(hw, d), At(before, d), ApplyRegs(At(before, d), l));
      }
    }
  }

  /** The file holds the baseline of the devices, and each device differs from its baseline only in
      registers that the baseline restores. */
  ghost predicate Tracks(m: Machine, t: Tables, commands: seq<string>, bases: Bases) {
    && m.file == WriteState(t, commands)
    && Held(t, bases)
    && forall d :: d in bases ==> Touched(bases[d], At(m.hw, d))
  }

  lemma LoadsWhatWasWritten(t: Tables, commands: seq<string>)
    ensures Load(WriteState(t, commands)) == Baseline(t)
  {
    StateFields(t.qos, t.bw, t.fuse, commands);
  }

  lemma NextBasesTouch(hw: Hardware, bases: Bases, q: Request, d: int)
    requires d in NextBases(hw, bases, q.devices)
    requires d in bases ==> Touched(bases[d], At(hw, d))
    ensures Touched(NextBases(hw, bases, q.devices)[d], At(ApplyHw(hw, q), d))
  {
    ApplyAllTouches(hw, q.devices, LevelsOf(q.priorities), |q.devices|, d);
    if d in bases {
      TouchedAgain(bases[d], At(hw, d), At(ApplyHw(hw, q), d));
    }
  }

  /** The first apply saves the listed devices as they are. */
  lemma FirstApplyTracks(hw: Hardware, file: StateFile, q: Request)
    requires Fresh(file)
    ensures var m := Apply(Machine(hw, file), q);
            m.Some? && m.value.hw == ApplyHw(hw, q)
            && Tracks(m.value, CaptureTables(hw, q.devices), q.commands, NextBases(hw, map[], q.devices))
  {
    CapturedTablesAreHeld(hw, q.devices);
    assert NextBases(hw, map[], q.devices) == Now(hw, q.devices);
    forall d | d in NextBases(hw, map[], q.devices)
      ensures Touched(NextBases(hw, map[], q.devices)[d], At(ApplyHw(hw, q), d))
    {
      NextBasesTouch(hw, map[], q, d);
    }
  }

  /** A later apply keeps the baseline of every device that was saved completely. */
  lemma NextApplyTracks(m: Machine, t: Tables, commands: seq<string>, bases: Bases, q: Request)
    requires Tracks(m, t, commands, bases)
    ensures var r := Apply(m, q);
            r.Some? && r.value.hw == ApplyHw(m.hw, q)
            && Tracks(r.value, Extended(m.hw, t, q.devices), q.commands, NextBases(m.hw, bases, q.devices))
  {
    LoadsWhatWasWritten(t, commands);
    ExtendedIsHeld(m.hw, t, bases, q.devices);
    forall d | d in NextBases(m.hw, bases, q.devices)
      ensures Touched(NextBases(m.hw, bases, q.devices)[d], At(ApplyHw(m.hw, q), d))
    {
      NextBasesTouch(m.hw, bases, q, d);
    }
  }

  // ---------- an undo ----------

  lemma {:induction false} EntriesMatch(r: Regs, n: nat)
    requires n <= |MASTERS|
    ensures var e, t := MasterEntries(r, n), MasterTuples(r, n);
            && |e| == |t|
            && (forall i :: 0 <= i < |e| ==> e[i].0 == t[i].0 && QosTuple(e[i].1) == Some(t[i].1))
            && forall i :: 0 <= i < |e| ==> ParseInt(e[i].0).Some? && ParseInt(e[i].0).value in MASTERS[..n]
  {
    if n > 0 {
      EntriesMatch(r, n - 1);
      assert MASTERS[..n] == MASTERS[..n - 1] + [MASTERS[n - 1]];
      IntRoundTrip(MASTERS[n - 1]);
      if MASTERS[n - 1] in r.qos {
        TuplePasses(MasterTuple(r, MASTERS[n - 1]));
      }
    }
  }

  lemma {:induction false} EntriesAreDistinct(r: Regs, n: nat)
    requires n <= |MASTERS|
    ensures Distinct(MasterEntries(r, n))
  {
    if n > 0 {
      EntriesAreDistinct(r, n - 1);
      EntriesMatch(r, n - 1);
      IntRoundTrip(MASTERS[n - 1]);
      assert MASTERS[n - 1] !in MASTERS[..n - 1];
    }
  }

  lemma MastersPass(r: Regs)
    ensures QosMasters(SaveQos(r).value) == Some(MasterTuples(r, |MASTERS|))
  {
    var e := MasterEntries(r, |MASTERS|);
    EntriesMatch(r, |MASTERS|);
    EntriesAreDistinct(r, |MASTERS|);
    PlainTablesPass(e, MasterKey, QosTuple, |e|);
    assert Checked(e, MasterKey, QosTuple, |e|).value == MasterTuples(r, |MASTERS|);
  }

  ghost predicate Accepts<V(!new)>(save: Save, check: Json -> Option<V>) {
    forall r: Regs :: save(r).Some? ==> check(save(r).value).Some?
  }

  lemma SavesReadBack(r: Regs)
    ensures QosMasters(SaveQos(r).value) == Some(MasterTuples(r, |MASTERS|))
    ensures SaveBw(r).Some? ==> BwTuple(SaveBw(r).value) == BwTupleOf(r)
    ensures SaveFuse(r).Some? ==> FuseTuple(SaveFuse(r).value) == FuseTupleOf(r)
  {
    MastersPass(r);
    if SaveBw(r).Some? { TuplePasses(BwTupleOf(r).value); }
    if SaveFuse(r).Some? { TuplePasses(FuseTupleOf(r).value); }
  }

  lemma AllSavesPass()
    ensures Accepts(SaveQos, QosMasters) && Accepts(SaveBw, BwTuple) && Accepts(SaveFuse, FuseTuple)
  {
    forall r: Regs
      ensures QosMasters(SaveQos(r).value).Some?
      ensures SaveBw(r).Some? ==> BwTuple(SaveBw(r).value).Some?
      ensures SaveFuse(r).Some? ==> FuseTuple(SaveFuse(r).value).Some?
    {
      SavesReadBack(r);
    }
  }

  lemma EntryOf(t: Dict<Json>, bases: Bases, save: Save, i: nat)
    requires Holds(t, bases, save) && i < |t|
    ensures ParseInt(t[i].0).Some?
    ensures var d := ParseInt(t[i].0).value;
            IntText(d) == t[i].0 && d in bases && save(bases[d]) == Some(t[i].1)
  {
    var d := ParseInt(t[i].0).value;
    FindIs(t, i);
    assert Lookup(t, IntText(d)) == Expect(bases, d, save);
  }

  lemma HeldTablesArePlain<V(!new)>(t: Dict<Json>, bases: Bases, save: Save, check: Json -> Option<V>)
    requires Holds(t, bases, save) && Accepts(save, check)
    ensures Plain(t, DeviceKey, check)
  {
    forall i | 0 <= i < |t|
      ensures check(t[i].1).Some?
    {
      EntryOf(t, bases, save, i);
    }
  }

  /** A validated table has the keys of the table it was read from. */
  lemma ValidatedLookup<V(!new)>(t: Dict<Json>, check: Json -> Option<V>, name: string)
    requires Plain(t, DeviceKey, check)
    ensures Devices(t, check).Some?
    ensures var v := Devices(t, check).value;
            && Distinct(v) && |v| == |t| && (forall i :: 0 <= i < |t| ==> v[i].0 == t[i].0)
            && Lookup(v, name) == if Lookup(t, name).Some? then check(Lookup(t, name).value) else None
  {
    PlainTablesPass(t, DeviceKey, check, |t|);
    var v := Devices(t, check).value;
    assert Distinct(v);
    var i := Find(t, name, |t|);
    if i < |t| {
      assert v[i].0 == name;
      FindIs(v, i);
    } else {
      assert forall j :: 0 <= j < |v| ==> v[j].0 != name;
    }
  }

  /** Restoring from a held table writes each device from its own base. */
  lemma RestoreTable<V(!new)>(
    hw: Hardware, t: Dict<Json>, bases: Bases, save: Save, check: Json -> Option<V>, write: (Regs, V) -> Regs, d: int)
    requires Holds(t, bases, save) && Accepts(save, check)
    ensures Plain(t, DeviceKey, check) && Devices(t, check).Some?
    ensures var v := Devices(t, check).value;
            var h := RestoreAll(hw, v, ParseInt, write, |v|);
            var saved := Expect(bases, d, save);
            && h.Keys == hw.Keys
            && (d in hw ==> h[d] == if saved.Some? then write(hw[d], check(saved.value).value) else hw[d])
  {
    HeldTablesArePlain(t, bases, save, check);
    ValidatedLookup(t, check, IntText(d));
    var v := Devices(t, check).value;
    IntRoundTrip(d);
    forall j | 0 <= j < |v|
      ensures ParseInt(v[j].0) == Some(d) <==> v[j].0 == IntText(d)
    {
      EntryOf(t, bases, save, j);
    }
    RestoreWrites(hw, v, ParseInt, write, d, IntText(d));
    assert Lookup(t, IntText(d)) == Expect(bases, d, save);
  }

  function Restored(hw: Hardware, bases: Bases): Hardware {
    map d | d in hw :: if d in bases then bases[d] else hw[d]
  }

  function SavedIn(t: Tables, commands: seq<string>): Saved
    requires Devices(t.qos, QosMasters).Some? && Devices(t.bw, BwTuple).Some? && Devices(t.fuse, FuseTuple).Some?
  {
    Saved(Devices(t.qos, QosMasters).value, Devices(t.bw, BwTuple).value, Devices(t.fuse, FuseTuple).value, commands)
  }

  /** What is restored to one device: its base. */
  lemma DeviceComesBack(hw: Hardware, t: Tables, commands: seq<string>, bases: Bases, d: int)
    requires Held(t, bases) && d in hw && (d in bases ==> Touched(bases[d], hw[d]))
    ensures Devices(t.qos, QosMasters).Some? && Devices(t.bw, BwTuple).Some? && Devices(t.fuse, FuseTuple).Some?
    ensures var h := RestoreHw(hw, SavedIn(t, commands));
            h.Keys == hw.Keys && h[d] == if d in bases then bases[d] else hw[d]
  {
    AllSavesPass();
    RestoreTable(hw, t.bw, bases, SaveBw, BwTuple, WriteBw, d);
    var b := Devices(t.bw, BwTuple).value;
    var h1 := RestoreAll(hw, b, ParseInt, WriteBw, |b|);
    RestoreTable(h1, t.qos, bases, SaveQos, QosMasters, WriteMasters, d);
    var q := Devices(t.qos, QosMasters).value;
    var h2 := RestoreAll(h1, q, ParseInt, WriteMasters, |q|);
    RestoreTable(h2, t.fuse, bases, SaveFuse, FuseTuple, WriteFuse, d);
    if d in bases {
      SavesReadBack(bases[d]);
      RegsComeBack(bases[d], hw[d]);
    }
  }

  lemma HeldIsPlain(t: Tables, bases: Bases)
    requires Held(t, bases)
    ensures Plain(t.qos, DeviceKey, QosMasters) && Plain(t.bw, DeviceKey, BwTuple) && Plain(t.fuse, DeviceKey, FuseTuple)
  {
    AllSavesPass();
    HeldTablesArePlain(t.qos, bases, SaveQos, QosMasters);
    HeldTablesArePlain(t.bw, bases, SaveBw, BwTuple);
    HeldTablesArePlain(t.fuse, bases, SaveFuse, FuseTuple);
  }

  /** The validator accepts every file an apply writes, and the undo gives every saved device its
      base back and leaves the others alone. */
  lemma UndoRestores(m: Machine, t: Tables, commands: seq<string>, bases: Bases)
    requires Tracks(m, t, commands, bases)
    ensures Unset(m) == (Machine(Restored(m.hw, bases), NoFile), Undone(commands))
  {
    HeldIsPlain(t, bases);
    StateFilesPass(t.qos, t.bw, t.fuse, commands);
    HardwareComesBack(m.hw, t, commands, bases);
  }

  lemma HardwareComesBack(hw: Hardware, t: Tables, commands: seq<string>, bases: Bases)
    requires Held(t, bases) && forall d :: d in bases ==> Touched(bases[d], At(hw, d))
    requires Devices(t.qos, QosMasters).Some? && Devices(t.bw, BwTuple).Some? && Devices(t.fuse, FuseTuple).Some?
    ensures RestoreHw(hw, SavedIn(t, commands)) == Restored(hw, bases)
  {
    var h := RestoreHw(hw, SavedIn(t, commands));
    RestoreKeepsKeys(hw, SavedIn(t, commands));
    forall d | d in hw
      ensures h[d] == if d in bases then bases[d] else hw[d]
    {
      DeviceComesBack(hw, t, commands, bases, d);
    }
    RestoredIs(h, hw, bases);
  }

  lemma RestoredIs(h: Hardware, hw: Hardware, bases: Bases)
    requires h.Keys == hw.Keys && forall d :: d in hw ==> h[d] == if d in bases then bases[d] else hw[d]
    ensures h == Restored(hw, bases)
  {
    assert Restored(hw, bases).Keys == hw.Keys;
    SameHardware(h, Restored(hw, bases));
  }

  lemma {:induction false} RestoreAllKeepsKeys<V>(
    hw: Hardware, t: Dict<V>, device: string -> Option<int>, write: (Regs, V) -> Regs, n: nat)
    requires n <= |t|
    ensures RestoreAll(hw, t, device, write, n).Keys == hw.Keys
  {
    if n > 0 { RestoreAllKeepsKeys(hw, t, device, write, n - 1); }
  }

  lemma RestoreKeepsKeys(hw: Hardware, s: Saved)
    ensures RestoreHw(hw, s).Keys == hw.Keys
  {
    var a := RestoreAll(hw, s.bw, ParseInt, WriteBw, |s.bw|);
    var b := RestoreAll(a, s.qos, ParseInt, WriteMasters, |s.qos|);
    RestoreAllKeepsKeys(hw, s.bw, ParseInt, WriteBw, |s.bw|);
    RestoreAllKeepsKeys(a, s.qos, ParseInt, WriteMasters, |s.qos|);
    RestoreAllKeepsKeys(b, s.fuse, ParseInt, WriteFuse, |s.fuse|);
  }

  // ---------- runs of applies ----------

  function Applies(hw: Hardware, file: StateFile, qs: seq<Request>, n: nat): Option<Machine>
    requires n <= |qs|
  {
    if n == 0 then Some(Machine(hw, file))
    else
      var before := Applies(hw, file, qs, n - 1);
      if before.Some? then Apply(before.value, qs[n - 1]) else None
  }

  function HwAfter(hw: Hardware, qs: seq<Request>, n: nat): Hardware
    requires n <= |qs|
  {
    if n == 0 then hw else ApplyHw(HwAfter(hw, qs, n - 1), qs[n - 1])
  }

  function BasesAfter(hw: Hardware, qs: seq<Request>, n: nat): Bases
    requires n <= |qs|
  {
    if n == 0 then map[]
    else NextBases(HwAfter(hw, qs, n - 1), BasesAfter(hw, qs, n - 1), qs[n - 1].devices)
  }

  lemma {:induction false} AppliesTrack(hw: Hardware, file: StateFile, qs: seq<Request>, n: nat) returns (t: Tables)
    requires 0 < n <= |qs| && Fresh(file)
    ensures Applies(hw, file, qs, n).Some?
    ensures var m := Applies(hw, file, qs, n).value;
            m.hw == HwAfter(hw, qs, n) && Tracks(m, t, qs[n - 1].commands, BasesAfter(hw, qs, n))
  {
    if n == 1 {
      assert Applies(hw, file, qs, 0) == Some(Machine(hw, file));
      assert HwAfter(hw, qs, 0) == hw && BasesAfter(hw, qs, 0) == map[];
      t := CaptureTables(hw, qs[0].devices);
      FirstApplyTracks(hw, file, qs[0]);
    } else {
      var u := AppliesTrack(hw, file, qs, n - 1);
      var m := Applies(hw, file, qs, n - 1).value;
      t := Extended(m.hw, u, qs[n - 1].devices);
      NextApplyTracks(m, u, qs[n - 2].commands, BasesAfter(hw, qs, n - 1), qs[n - 1]);
    }
  }

  /** The registers of a device just before the last of the first n applies that lists it. */
  function LastBefore(hw: Hardware, qs: seq<Request>, n: nat, d: int): Regs
    requires n <= |qs|
  {
    if n == 0 then At(hw, d)
    else if d in qs[n - 1].devices then At(HwAfter(hw, qs, n - 1), d)
    else LastBefore(hw, qs, n - 1, d)
  }

  predicate Listed(qs: seq<Request>, n: nat, d: int)
    requires n <= |qs|
  {
    exists i :: 0 <= i < n && d in qs[i].devices
  }

  lemma {:induction false} HwAfterTouches(hw: Hardware, qs: seq<Request>, n: nat, d: int)
    requires n <= |qs|
    ensures HwAfter(hw, qs, n).Keys == hw.Keys && Touched(At(hw, d), At(HwAfter(hw, qs, n), d))
    ensures !Listed(qs, n, d) ==> At(HwAfter(hw, qs, n), d) == At(hw, d)
  {
    if n == 0 {
      TouchedSelf(At(hw, d));
    } else {
      HwAfterTouches(hw, qs, n - 1, d);
      var h, q := HwAfter(hw, qs, n - 1), qs[n - 1];
      ApplyAllTouches(h, q.devices, LevelsOf(q.priorities), |q.devices|, d);
      assert q.devices[..|q.devices|] == q.devices;
      TouchedAgain(At(hw, d), At(h, d), At(HwAfter(hw, qs, n), d));
    }
  }

  /** The baseline of a device: its first registers if they could be saved completely, and else
      those before the last apply that listed it. */
  lemma {:induction false} BasesAre(hw: Hardware, qs: seq<Request>, n: nat, d: int)
    requires n <= |qs|
    ensures d in BasesAfter(hw, qs, n) <==> Listed(qs, n, d)
    ensures d in BasesAfter(hw, qs, n) ==>
              BasesAfter(hw, qs, n)[d] == if Complete(At(hw, d)) then At(hw, d) else LastBefore(hw, qs, n, d)
  {
    if n > 0 {
      BasesAre(hw, qs, n - 1, d);
      HwAfterTouches(hw, qs, n - 1, d);
      LastBeforeTouched(hw, qs, n - 1, d);
      SameShape(At(hw, d), LastBefore(hw, qs, n - 1, d));
      ListedNow(qs, n, d);
      NextBaseIs(HwAfter(hw, qs, n - 1), BasesAfter(hw, qs, n - 1), qs[n - 1].devices, d);
    }
  }

  lemma ListedNow(qs: seq<Request>, n: nat, d: int)
    requires 0 < n <= |qs|
    ensures Listed(qs, n, d) <==> Listed(qs, n - 1, d) || d in qs[n - 1].devices
  {
  }

  lemma NextBaseIs(hw: Hardware, bases: Bases, devices: seq<nat>, d: int)
    ensures d in NextBases(hw, bases, devices) <==> d in bases || d in devices
    ensures d in NextBases(hw, bases, devices) ==>
              NextBases(hw, bases, devices)[d] ==
              if d in devices && (d !in bases || !Complete(bases[d])) then At(hw, d) else bases[d]
  {
  }

  lemma {:induction false} LastBeforeTouched(hw: Hardware, qs: seq<Request>, n: nat, d: int)
    requires n <= |qs|
    ensures Touched(At(hw, d), LastBefore(hw, qs, n, d))
  {
    if n == 0 {
      TouchedSelf(At(hw, d));
    } else {
      LastBeforeTouched(hw, qs, n - 1, d);
      HwAfterTouches(hw, qs, n - 1, d);
    }
  }

  // ---------- what a listing leaves behind ----------

  lemma {:induction false} ApplyAllAt(hw: Hardware, devices: seq<nat>, l: Levels, n: nat, d: int)
    requires n <= |devices| && d in hw
    ensures d in ApplyAll(hw, devices, l, n)
    ensures ApplyAll(hw, devices, l, n)[d] == if d in devices[..n] then ApplyRegs(hw[d], l) else hw[d]
  {
    if n > 0 {
      ApplyAllAt(hw, devices, l, n - 1, d);
      assert devices[..n] == devices[..n - 1] + [devices[n - 1]];
      LastApplyWins(hw[d], l, l);
    }
  }

  /** The levels of the last of the first n requests that lists a device. */
  function LastLevels(qs: seq<Request>, n: nat, d: int): Option<Levels>
    requires n <= |qs|
  {
    if n == 0 then None
    else if d in qs[n - 1].devices then Some(LevelsOf(qs[n - 1].priorities))
    else LastLevels(qs, n - 1, d)
  }

  /** The levels of the request that lists it before that one; none when it is listed once. */
  function LevelsBefore(qs: seq<Request>, n: nat, d: int): Option<Levels>
    requires n <= |qs|
  {
    if n == 0 then None
    else if d in qs[n - 1].devices then LastLevels(qs, n - 1, d)
    else LevelsBefore(qs, n - 1, d)
  }

  function Leaves(r: Regs, l: Option<Levels>): Regs {
    if l.Some? then ApplyRegs(r, l.value) else r
  }

  lemma {:induction false} HwAfterIs(hw: Hardware, qs: seq<Request>, n: nat, d: int)
    requires n <= |qs| && d in hw
    ensures d in HwAfter(hw, qs, n) && HwAfter(hw, qs, n)[d] == Leaves(hw[d], LastLevels(qs, n, d))
  {
    if n > 0 {
      HwAfterIs(hw, qs, n - 1, d);
      var q := qs[n - 1];
      ApplyAllAt(HwAfter(hw, qs, n - 1), q.devices, LevelsOf(q.priorities), |q.devices|, d);
      assert q.devices[..|q.devices|] == q.devices;
      if LastLevels(qs, n - 1, d).Some? {
        LastApplyWins(hw[d], LastLevels(qs, n - 1, d).value, LevelsOf(q.priorities));
      }
    }
  }

  lemma {:induction false} LastBeforeIs(hw: Hardware, qs: seq<Request>, n: nat, d: int)
    requires n <= |qs| && d in hw
    ensures LastBefore(hw, qs, n, d) == Leaves(hw[d], LevelsBefore(qs, n, d))
  {
    if n > 0 {
      LastBeforeIs(hw, qs, n - 1, d);
      HwAfterIs(hw, qs, n - 1, d);
    }
  }

  /** The device survives the applies: it reads completely, or is listed once, or already had what
      the listing before the last one writes. */
  predicate Survives(r: Regs, before: Option<Levels>) {
    Complete(r) || before.None? || AlreadySet(r, before.value)
  }

  lemma SurvivesIff(hw: Hardware, qs: seq<Request>, n: nat, d: int)
    requires n <= |qs| && d in hw
    ensures Complete(hw[d]) || LastBefore(hw, qs, n, d) == hw[d] <==> Survives(hw[d], LevelsBefore(qs, n, d))
  {
    LastBeforeIs(hw, qs, n, d);
    if LevelsBefore(qs, n, d).Some? { ApplyChangesNothingIff(hw[d], LevelsBefore(qs, n, d).value); }
  }

  lemma UndoAfterApplies(hw: Hardware, file: StateFile, qs: seq<Request>)
    requires Fresh(file) && qs != []
    ensures Applies(hw, file, qs, |qs|).Some?
    ensures Unset(Applies(hw, file, qs, |qs|).value) ==
            (Machine(Restored(HwAfter(hw, qs, |qs|), BasesAfter(hw, qs, |qs|)), NoFile), Undone(qs[|qs| - 1].commands))
  {
    var t := AppliesTrack(hw, file, qs, |qs|);
    UndoRestores(Applies(hw, file, qs, |qs|).value, t, qs[|qs| - 1].commands, BasesAfter(hw, qs, |qs|));
  }

  lemma SameHardware(a: Hardware, b: Hardware)
    requires a.Keys == b.Keys
    ensures a == b <==> forall d :: d in b ==> a[d] == b[d]
  {
    if forall d :: d in b ==> a[d] == b[d] {
      assert forall d :: d in a ==> a[d] == b[d];
    }
  }

  lemma DeviceIsRestoredIff(hw: Hardware, qs: seq<Request>, n: nat, d: int)
    requires n <= |qs| && d in hw
    ensures d in HwAfter(hw, qs, n)
    ensures Restored(HwAfter(hw, qs, n), BasesAfter(hw, qs, n))[d] == hw[d] <==>
            (Listed(qs, n, d) ==> Survives(hw[d], LevelsBefore(qs, n, d)))
  {
    BasesAre(hw, qs, n, d);
    HwAfterTouches(hw, qs, n, d);
    SurvivesIff(hw, qs, n, d);
  }

  lemma RestoredIff(hw: Hardware, qs: seq<Request>, n: nat)
    requires n <= |qs|
    ensures Restored(HwAfter(hw, qs, n), BasesAfter(hw, qs, n)) == hw <==>
            forall d :: d in hw && Listed(qs, n, d) ==> Survives(hw[d], LevelsBefore(qs, n, d))
  {
    var r := Restored(HwAfter(hw, qs, n), BasesAfter(hw, qs, n));
    HwAfterTouches(hw, qs, n, 0);
    SameHardware(r, hw);
    forall d | d in hw
      ensures r[d] == hw[d] <==> (Listed(qs, n, d) ==> Survives(hw[d], LevelsBefore(qs, n, d)))
    {
      DeviceIsRestoredIff(hw, qs, n, d);
    }
  }

  /** Any applies from a file that counts as none, then one undo: the hardware is back as it was exactly when every listed device
      could be saved completely, or is listed once, or already had what the listing before the last
      one writes. */
  lemma UndoRestoresIff(hw: Hardware, file: StateFile, qs: seq<Request>)
    requires Fresh(file) && qs != []
    ensures Applies(hw, file, qs, |qs|).Some?
    ensures var (m, undo) := Unset(Applies(hw, file, qs, |qs|).value);
            && m.file == NoFile && undo == Undone(qs[|qs| - 1].commands)
            && (m.hw == hw <==>
                forall d :: d in hw && Listed(qs, |qs|, d) ==> Survives(hw[d], LevelsBefore(qs, |qs|, d)))
  {
    UndoAfterApplies(hw, file, qs);
    RestoredIff(hw, qs, |qs|);
  }

  /** With devices whose registers all read, the undo restores everything, whatever was applied. */
  lemma RoundTrip(hw: Hardware, file: StateFile, qs: seq<Request>)
    requires Fresh(file) && qs != [] && forall d :: d in hw && Listed(qs, |qs|, d) ==> Complete(hw[d])
    ensures Applies(hw, file, qs, |qs|).Some?
    ensures Unset(Applies(hw, file, qs, |qs|).value) == (Machine(hw, NoFile), Undone(qs[|qs| - 1].commands))
  {
    UndoRestoresIff(hw, file, qs);
  }
}
