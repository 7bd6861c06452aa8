/** The QoS tool as an object: device registers and the state file, changed in place. */
module AiQos {
  import opened Wrappers
  import opened QosState
  import opened QosHardware
  import opened QosTables
  import opened QosSnapshots
  import opened QosRuns

  class QosTool {
    var hw: Hardware
    var file: StateFile

    constructor (hw: Hardware, file: StateFile)
      ensures this.hw == hw && this.file == file
    {
      this.hw := hw;
      this.file := file;
    }

    method CaptureMasters(d: int) returns (entries: Dict<Json>)
      ensures entries == MasterEntries(At(hw, d), |MASTERS|)
    {
      entries := [];
      for k := 0 to |MASTERS|
        invariant entries == MasterEntries(At(hw, d), k)
      {
        var master := MASTERS[k];
        if master in At(hw, d).qos {
          entries := entries + [(IntText(master), Ints(MasterTuple(At(hw, d), master)))];
        }
      }
    }

    method CaptureQos(devices: seq<nat>) returns (table: Dict<Json>)
      ensures table == Capture(hw, devices, SaveQos, IntText, |devices|)
    {
      table := [];
      for i := 0 to |devices|
        invariant table == Capture(hw, devices, SaveQos, IntText, i)
      {
        var entries := CaptureMasters(devices[i]);
        table := Put(table, IntText(devices[i]), JObj(entries));
      }
    }

    method CaptureBw(devices: seq<nat>) returns (table: Dict<Json>)
      ensures table == Capture(hw, devices, SaveBw, IntText, |devices|)
    {
      table := [];
      for i := 0 to |devices|
        invariant table == Capture(hw, devices, SaveBw, IntText, i)
      {
        var regs := At(hw, devices[i]);
        if SDMA in regs.qos && regs.qos[SDMA].mpamid in regs.bw {
          var id := regs.qos[SDMA].mpamid;
          table := Put(table, IntText(devices[i]), Ints([id, regs.bw[id].low, regs.bw[id].high, regs.bw[id].hard]));
        }
      }
    }

    method CaptureFuse(devices: seq<nat>) returns (table: Dict<Json>)
      ensures table == Capture(hw, devices, SaveFuse, IntText, |devices|)
    {
      table := [];
      for i := 0 to |devices|
        invariant table == Capture(hw, devices, SaveFuse, IntText, i)
      {
        var fuse := At(hw, devices[i]).fuse;
        if fuse.Some? {
          table := Put(table, IntText(devices[i]), Ints([fuse.value.enable, fuse.value.autoQos, fuse.value.mode]));
        }
      }
    }

    method CaptureAll(devices: seq<nat>) returns (t: Tables)
      ensures t == CaptureTables(hw, devices)
    {
      var qos := CaptureQos(devices);
      var bw := CaptureBw(devices);
      var fuse := CaptureFuse(devices);
      t := Tables(qos, bw, fuse);
    }

    static method MergeInto(saved: Dict<Json>, recent: Dict<Json>) returns (merged: Dict<Json>)
      ensures merged == Merge(saved, recent, |recent|)
    {
      merged := saved;
      for i := 0 to |recent|
        invariant merged == Merge(saved, recent, i)
      {
        merged := Put(merged, recent[i].0, recent[i].1);
      }
    }

    method FindMissing(devices: seq<nat>, t: Tables) returns (missing: seq<nat>)
      ensures missing == Missing(devices, t, |devices|)
    {
      missing := [];
      for i := 0 to |devices|
        invariant missing == Missing(devices, t, i)
      {
        var key := IntText(devices[i]);
        if !Has(t.qos, key) || !Has(t.bw, key) || !Has(t.fuse, key) {
          missing := missing + [devices[i]];
        }
      }
    }

    /** Capture the devices that a loaded baseline does not cover. */
    method MergeBaseline(devices: seq<nat>, t: Tables) returns (r: Tables)
      ensures r == Extended(hw, t, devices)
    {
      var missing := FindMissing(devices, t);
      if missing == [] {
        return t;
      }
      var c := CaptureAll(missing);
      var qos := MergeInto(t.qos, c.qos);
      var bw := MergeInto(t.bw, c.bw);
      var fuse := MergeInto(t.fuse, c.fuse);
      r := Tables(qos, bw, fuse);
    }

    method WriteMaster(d: int, l: Levels, master: int)
      modifies this`hw
      ensures hw == old(Update(hw, d, ApplyMaster(At(hw, d), l, master)))
    {
      if d in hw && master in hw[d].qos {
        var q := hw[d].qos[master];
        if master == SDMA {
          hw := hw[d := SetBw(hw[d], q.mpamid, Bw(0, 1, 0))];
        }
        hw := hw[d := SetQos(hw[d], master, q.(qos := LevelFor(l, master)))];
      }
    }

    method WriteDevice(d: int, l: Levels)
      modifies this`hw
      ensures hw == old(Update(hw, d, ApplyRegs(At(hw, d), l)))
    {
      ghost var fused := SetFuse(At(hw, d), Fuse(1, 1, 1));
      ghost var start := hw;
      hw := Update(hw, d, SetFuse(At(hw, d), Fuse(1, 1, 1)));
      for k := 0 to |MASTERS|
        invariant hw == Update(start, d, ApplyMasters(fused, l, k))
      {
        WriteMaster(d, l, MASTERS[k]);
      }
    }

    method WriteDevices(devices: seq<nat>, l: Levels)
      modifies this`hw
      ensures hw == old(ApplyAll(hw, devices, l, |devices|))
    {
      ghost var start := hw;
      for i := 0 to |devices|
        invariant hw == ApplyAll(start, devices, l, i)
      {
        WriteDevice(devices[i], l);
      }
    }

    /** Save what is about to change, change it, and write the state file. */
    method ApplyPriorities(q: Request) returns (ok: bool)
      modifies this
      ensures ok <==> old(Apply(Machine(hw, file), q)).Some?
      ensures ok ==> Machine(hw, file) == old(Apply(Machine(hw, file), q)).value
      ensures !ok ==> hw == old(hw) && file == old(file)
    {
      var loaded := Load(file);
      if loaded.BadRoot? {
        return false;
      }
      var t: Tables;
      if loaded.Baseline? {
        t := MergeBaseline(q.devices, loaded.tables);
      } else {
        t := CaptureAll(q.devices);
      }
      WriteDevices(q.devices, LevelsOf(q.priorities));
      file := WriteState(t, q.commands);
      ok := true;
    }

    /** Check a table entry by entry and collect it under normal keys. */
    static method ParseTable<V>(fields: Dict<Json>, key: string -> Option<string>, check: Json -> Option<V>)
      returns (r: Option<Dict<V>>)
      ensures r == Checked(fields, key, check, |fields|)
    {
      r := Some([]);
      for i := 0 to |fields|
        invariant r == Checked(fields, key, check, i)
      {
        var k, v := key(fields[i].0), check(fields[i].1);
        r := if r.Some? && k.Some? && v.Some? then Some(Put(r.value, k.value, v.value)) else None;
      }
    }

    static method ParseStrings(items: seq<Json>) returns (r: Option<seq<string>>)
      ensures r == Strings(items, |items|)
    {
      r := Some([]);
      for i := 0 to |items|
        invariant r == Strings(items, i)
      {
        r := if r.Some? && items[i].JStr? then Some(r.value + [items[i].s]) else None;
      }
    }

    static method ParseState(data: Json) returns (s: Option<Saved>)
      ensures s == Validate(data)
    {
      if !data.JObj? {
        return None;
      }
      var qos := Get(data.fields, "original_qos", JNull);
      var commands := Get(data.fields, "printed_commands", JNull);
      var bw := Get(data.fields, "original_sdma_mata", EMPTY);
      var fuse := Get(data.fields, "original_fuse", EMPTY);
      if !qos.JObj? || !commands.JArr? || !bw.JObj? || !fuse.JObj? {
        return None;
      }
      var c := ParseStrings(commands.items);
      var q := ParseTable(qos.fields, DeviceKey, QosMasters);
      var b := ParseTable(bw.fields, DeviceKey, BwTuple);
      var f := ParseTable(fuse.fields, DeviceKey, FuseTuple);
      if c.None? || q.None? || b.None? || f.None? {
        return None;
      }
      s := Some(Saved(q.value, b.value, f.value, c.value));
    }

    method RestoreBw(table: Dict<seq<int>>)
      modifies this`hw
      ensures hw == old(RestoreAll(hw, table, ParseInt, WriteBw, |table|))
    {
      ghost var start := hw;
      for i := 0 to |table|
        invariant hw == RestoreAll(start, table, ParseInt, WriteBw, i)
      {
        var d := ParseInt(table[i].0);
        if d.Some? {
          hw := Update(hw, d.value, WriteBw(At(hw, d.value), table[i].1));
        }
      }
    }

    method RestoreMasters(table: Dict<Dict<seq<int>>>)
      modifies this`hw
      ensures hw == old(RestoreAll(hw, table, ParseInt, WriteMasters, |table|))
    {
      ghost var start := hw;
      for i := 0 to |table|
        invariant hw == RestoreAll(start, table, ParseInt, WriteMasters, i)
      {
        var d := ParseInt(table[i].0);
        if d.Some? {
          RestoreDevice(d.value, table[i].1);
        }
      }
    }

    method RestoreDevice(d: int, masters: Dict<seq<int>>)
      modifies this`hw
      ensures hw == old(Update(hw, d, WriteMasters(At(hw, d), masters)))
    {
      ghost var start := hw;
      for k := 0 to |masters|
        invariant hw == Update(start, d, WriteFirstMasters(At(start, d), masters, k))
      {
        hw := Update(hw, d, QosHardware.WriteMaster(At(hw, d), masters[k].0, masters[k].1));
      }
    }

    method RestoreFuse(table: Dict<seq<int>>)
      modifies this`hw
      ensures hw == old(RestoreAll(hw, table, ParseInt, WriteFuse, |table|))
    {
      ghost var start := hw;
      for i := 0 to |table|
        invariant hw == RestoreAll(start, table, ParseInt, WriteFuse, i)
      {
        var d := ParseInt(table[i].0);
        if d.Some? {
          hw := Update(hw, d.value, WriteFuse(At(hw, d.value), table[i].1));
        }
      }
    }

    /** Restore the saved registers and remove the state file. */
    method RunUnset() returns (undo: Undo)
      modifies this
      ensures (Machine(hw, file), undo) == old(Unset(Machine(hw, file)))
    {
      if file.NoFile? {
        return NothingToUndo;
      }
      if file.Garbled? {
        file := NoFile;
        return ParseFailed;
      }
      var s := ParseState(file.data);
      file := NoFile;
      if s.None? {
        return ParseFailed;
      }
      RestoreBw(s.value.bw);
      RestoreMasters(s.value.qos);
      RestoreFuse(s.value.fuse);
      undo := Undone(s.value.commands);
    }
  }
}
