/** The QoS registers of a device, what an apply writes to them, and what a snapshot of them
    restores. A register that a device does not have fails to read and ignores writes. */
module QosHardware {
  import opened Arithmetic
  import opened Wrappers
  import opened QosState

  const AIV_DATA := 11
  const AIV_INS := 12
  const SDMA := 13
  const PCIE_DMA := 7
  const MASTERS := [AIV_DATA, AIV_INS, SDMA, PCIE_DMA]

  datatype Qos = Qos(mpamid: int, qos: int, pmg: int, mode: int)
  datatype Bw = Bw(low: int, high: int, hard: int)
  datatype Fuse = Fuse(enable: int, autoQos: int, mode: int)

  datatype Regs = Regs(qos: map<int, Qos>, bw: map<int, Bw>, fuse: Option<Fuse>)

  function SetQos(r: Regs, master: int, q: Qos): Regs {
    if master in r.qos then r.(qos := r.qos[master := q]) else r
  }

  function SetBw(r: Regs, mpamid: int, b: Bw): Regs {
    if mpamid in r.bw then r.(bw := r.bw[mpamid := b]) else r
  }

  function SetFuse(r: Regs, f: Fuse): Regs {
    if r.fuse.Some? then r.(fuse := Some(f)) else r
  }

  // ---------- apply ----------

  datatype Level = Low | Middle | High

  datatype Priorities = Priorities(aivD2d: Level, aivH2d: Level, sdmaD2d: Level, sdmaH2d: Level, pcieHigh: bool)

  datatype Levels = Levels(aiv: int, sdma: int, pcie: int)

  function AivLevel(l: Level): int {
    match l case Low => 1 case Middle => 3 case High => 5
  }

  function SdmaLevel(l: Level): int {
    match l case Low => 2 case Middle => 4 case High => 6
  }

  function LevelsOf(p: Priorities): Levels {
    Levels(
      Min(AivLevel(p.aivD2d), AivLevel(p.aivH2d)),
      Min(SdmaLevel(p.sdmaD2d), SdmaLevel(p.sdmaH2d)),
      if p.pcieHigh then 7 else 0)
  }

  function LevelFor(l: Levels, master: int): int {
    if master == AIV_DATA || master == AIV_INS then l.aiv
    else if master == SDMA then l.sdma
    else l.pcie
  }

  /** Read a master, and write its new level back beside the values just read. */
  function ApplyMaster(r: Regs, l: Levels, master: int): Regs {
    if master !in r.qos then r
    else
      var q := r.qos[master];
      var limited := if master == SDMA then SetBw(r, q.mpamid, Bw(0, 1, 0)) else r;
      SetQos(limited, master, q.(qos := LevelFor(l, master)))
  }

  function ApplyMasters(r: Regs, l: Levels, n: nat): Regs
    requires n <= |MASTERS|
  {
    if n == 0 then r else ApplyMaster(ApplyMasters(r, l, n - 1), l, MASTERS[n - 1])
  }

  function ApplyRegs(r: Regs, l: Levels): Regs {
    ApplyMasters(SetFuse(r, Fuse(1, 1, 1)), l, |MASTERS|)
  }

  /** The registers an apply leaves alone: nothing is added, and all that can change is the level
      of the four masters, the bandwidth under the SDMA id and the fuse. */
  ghost predicate Touched(r: Regs, t: Regs) {
    && t.qos.Keys == r.qos.Keys
    && (forall m :: m in r.qos ==>
          if m in MASTERS then t.qos[m] == r.qos[m].(qos := t.qos[m].qos) else t.qos[m] == r.qos[m])
    && t.bw.Keys == r.bw.Keys
    && (forall i :: i in r.bw ==> (SDMA in r.qos && i == r.qos[SDMA].mpamid) || t.bw[i] == r.bw[i])
    && (t.fuse.Some? <==> r.fuse.Some?)
  }

  lemma TouchedAgain(r: Regs, s: Regs, t: Regs)
    requires Touched(r, s) && Touched(s, t)
    ensures Touched(r, t)
  {
    assert SDMA in r.qos ==> s.qos[SDMA].mpamid == r.qos[SDMA].mpamid by { assert MASTERS[2] == SDMA; }
    forall m | m in r.qos && m in MASTERS
      ensures t.qos[m] == r.qos[m].(qos := t.qos[m].qos)
    {
      assert m in s.qos;
    }
    forall m | m in r.qos && m !in MASTERS
      ensures t.qos[m] == r.qos[m]
    {
      assert m in s.qos;
    }
    forall i | i in r.bw
      ensures (SDMA in r.qos && i == r.qos[SDMA].mpamid) || t.bw[i] == r.bw[i]
    {
      assert i in s.bw;
    }
  }

  lemma ApplyMasterTouches(r: Regs, l: Levels, master: int)
    requires master in MASTERS
    ensures Touched(r, ApplyMaster(r, l, master))
  {
  }

  lemma {:induction false} ApplyMastersTouch(r: Regs, l: Levels, n: nat)
    requires n <= |MASTERS|
    ensures Touched(r, ApplyMasters(r, l, n))
  {
    if n > 0 {
      ApplyMastersTouch(r, l, n - 1);
      ApplyMasterTouches(ApplyMasters(r, l, n - 1), l, MASTERS[n - 1]);
      TouchedAgain(r, ApplyMasters(r, l, n - 1), ApplyMasters(r, l, n));
    }
  }

  lemma ApplyTouches(r: Regs, l: Levels)
    ensures Touched(r, ApplyRegs(r, l))
  {
    var f := SetFuse(r, Fuse(1, 1, 1));
    ApplyMastersTouch(f, l, |MASTERS|);
    TouchedAgain(r, f, ApplyRegs(r, l));
  }

  lemma MasterIsWritten(r: Regs, l: Levels, n: nat)
    requires n < |MASTERS| && MASTERS[n] in r.qos
    ensures ApplyMaster(r, l, MASTERS[n]).qos == r.qos[MASTERS[n] := r.qos[MASTERS[n]].(qos := LevelFor(l, MASTERS[n]))]
  {
  }

  /** After the first n masters have been written, those have their level and the others theirs. */
  lemma {:induction false} LevelsSoFar(r: Regs, l: Levels, n: nat, m: int)
    requires n <= |MASTERS| && m in r.qos
    ensures m in ApplyMasters(r, l, n).qos
    ensures ApplyMasters(r, l, n).qos[m] == if m in MASTERS[..n] then r.qos[m].(qos := LevelFor(l, m)) else r.qos[m]
  {
    if n > 0 {
      LevelsSoFar(r, l, n - 1, m);
      assert MASTERS[..n] == MASTERS[..n - 1] + [MASTERS[n - 1]];
      var before := ApplyMasters(r, l, n - 1);
      if MASTERS[n - 1] in before.qos {
        MasterIsWritten(before, l, n - 1);
      }
    }
  }

  /** The bandwidth limits with the one under the SDMA id released. */
  function Released(r: Regs): map<int, Bw> {
    if SDMA in r.qos && r.qos[SDMA].mpamid in r.bw then r.bw[r.qos[SDMA].mpamid := Bw(0, 1, 0)] else r.bw
  }

  /** An apply gives each master that reads the level of its kind beside its other values, switches
      the fuse on, and releases the bandwidth limit under the SDMA id. */
  lemma ApplyWrites(r: Regs, l: Levels)
    ensures ApplyRegs(r, l).qos.Keys == r.qos.Keys
    ensures forall m :: m in r.qos ==>
              && m in ApplyRegs(r, l).qos
              && ApplyRegs(r, l).qos[m] == if m in MASTERS then r.qos[m].(qos := LevelFor(l, m)) else r.qos[m]
    ensures ApplyRegs(r, l).fuse == if r.fuse.Some? then Some(Fuse(1, 1, 1)) else None
    ensures ApplyRegs(r, l).bw == Released(r)
  {
    var f, n := SetFuse(r, Fuse(1, 1, 1)), |MASTERS|;
    assert MASTERS[..n] == MASTERS;
    ApplyTouches(r, l);
    forall m | m in r.qos
      ensures m in ApplyRegs(r, l).qos
      ensures ApplyRegs(r, l).qos[m] == if m in MASTERS then r.qos[m].(qos := LevelFor(l, m)) else r.qos[m]
    {
      LevelsSoFar(f, l, n, m);
    }
    OtherRegs(f, l);
  }

  lemma OtherRegs(r: Regs, l: Levels)
    ensures var a := ApplyMasters(r, l, |MASTERS|);
            a.fuse == r.fuse && a.bw == Released(r)
  {
    var a := ApplyMasters(r, l, 2);
    assert a == ApplyMaster(ApplyMasters(r, l, 1), l, AIV_INS);
    assert ApplyMasters(r, l, 1) == ApplyMaster(ApplyMasters(r, l, 0), l, AIV_DATA);
    assert a.fuse == r.fuse && a.bw == r.bw;
    ApplyMastersTouch(r, l, 2);
    if SDMA in r.qos {
      LevelsSoFar(r, l, 2, SDMA);
    }
    assert ApplyMasters(r, l, 4) == ApplyMaster(ApplyMasters(r, l, 3), l, PCIE_DMA);
    assert ApplyMasters(r, l, 3) == ApplyMaster(a, l, SDMA);
  }

  lemma SameMasters(a: map<int, Qos>, b: map<int, Qos>)
    requires a.Keys == b.Keys && forall m :: m in b ==> a[m] == b[m]
    ensures a == b
  {
    assert forall m :: m in a ==> m in b && a[m] == b[m];
  }

  /** An apply overwrites everything an earlier one wrote. */
  lemma LastApplyWins(r: Regs, earlier: Levels, l: Levels)
    ensures ApplyRegs(ApplyRegs(r, earlier), l) == ApplyRegs(r, l)
  {
    var e := ApplyRegs(r, earlier);
    ApplyWrites(r, earlier);
    ApplyWrites(e, l);
    ApplyWrites(r, l);
    SameMasters(ApplyRegs(e, l).qos, ApplyRegs(r, l).qos);
    assert SDMA in r.qos ==> e.qos[SDMA].mpamid == r.qos[SDMA].mpamid;
  }

  /** The device already has what an apply with these levels would write. */
  predicate AlreadySet(r: Regs, l: Levels) {
    && (forall m :: m in r.qos && m in MASTERS ==> r.qos[m].qos == LevelFor(l, m))
    && (r.fuse.Some? ==> r.fuse.value == Fuse(1, 1, 1))
    && (SDMA in r.qos && r.qos[SDMA].mpamid in r.bw ==> r.bw[r.qos[SDMA].mpamid] == Bw(0, 1, 0))
  }

  lemma ApplyChangesNothingIff(r: Regs, l: Levels)
    ensures ApplyRegs(r, l) == r <==> AlreadySet(r, l)
  {
    ApplyWrites(r, l);
    var a := ApplyRegs(r, l);
    if AlreadySet(r, l) {
      SameMasters(a.qos, r.qos);
    }
    if a == r {
      forall m | m in r.qos && m in MASTERS ensures r.qos[m].qos == LevelFor(l, m) {
        assert a.qos[m] == r.qos[m];
      }
    }
  }

  predicate AtMost(a: Level, b: Level) {
    a == b || a == Low || b == High
  }

  /** A master that serves two directions gets the level of the lower priority; raising a priority
      never lowers a level, and SDMA stays above AIV at equal priorities. */
  lemma LevelsFollow(p: Priorities, q: Priorities)
    ensures LevelsOf(p).aiv == if AtMost(p.aivD2d, p.aivH2d) then AivLevel(p.aivD2d) else AivLevel(p.aivH2d)
    ensures LevelsOf(p).sdma == if AtMost(p.sdmaD2d, p.sdmaH2d) then SdmaLevel(p.sdmaD2d) else SdmaLevel(p.sdmaH2d)
    ensures AtMost(p.aivD2d, q.aivD2d) && AtMost(p.aivH2d, q.aivH2d) ==> LevelsOf(p).aiv <= LevelsOf(q).aiv
    ensures AtMost(p.sdmaD2d, q.sdmaD2d) && AtMost(p.sdmaH2d, q.sdmaH2d) ==> LevelsOf(p).sdma <= LevelsOf(q).sdma
    ensures p.sdmaD2d == p.aivD2d && p.sdmaH2d == p.aivH2d ==> LevelsOf(p).sdma == LevelsOf(p).aiv + 1
  {
  }

  // ---------- snapshots ----------

  function Ints(xs: seq<int>): Json {
    JArr(seq(|xs|, i requires 0 <= i < |xs| => JInt(xs[i])))
  }

  lemma {:induction false} IntsPass(xs: seq<int>, n: nat)
    requires n <= |xs|
    ensures AsInts(Ints(xs).items, n) == Some(xs[..n])
  {
    if n > 0 {
      IntsPass(xs, n - 1);
      assert xs[..n] == xs[..n - 1] + [xs[n - 1]];
    }
  }

  lemma TuplePasses(xs: seq<int>)
    ensures Tuple(Ints(xs), |xs|) == Some(xs)
  {
    IntsPass(xs, |xs|);
    assert xs[..|xs|] == xs;
  }

  function MasterTuple(r: Regs, m: int): seq<int>
    requires m in r.qos
  {
    [m, r.qos[m].mpamid, r.qos[m].qos, r.qos[m].pmg, r.qos[m].mode]
  }

  /** The saved tuples of the first n masters; a master that does not read is left out. */
  function MasterTuples(r: Regs, n: nat): Dict<seq<int>>
    requires n <= |MASTERS|
  {
    if n == 0 then []
    else
      var before, m := MasterTuples(r, n - 1), MASTERS[n - 1];
      if m in r.qos then before + [(IntText(m), MasterTuple(r, m))] else before
  }

  function MasterEntries(r: Regs, n: nat): Dict<Json>
    requires n <= |MASTERS|
  {
    if n == 0 then []
    else
      var before, m := MasterEntries(r, n - 1), MASTERS[n - 1];
      if m in r.qos then before + [(IntText(m), Ints(MasterTuple(r, m)))] else before
  }

  function SaveQos(r: Regs): Option<Json> {
    Some(JObj(MasterEntries(r, |MASTERS|)))
  }

  function BwTupleOf(r: Regs): (t: Option<seq<int>>)
    ensures t.Some? ==> |t.value| == 4
  {
    if SDMA !in r.qos || r.qos[SDMA].mpamid !in r.bw then None
    else
      var id := r.qos[SDMA].mpamid;
      Some([id, r.bw[id].low, r.bw[id].high, r.bw[id].hard])
  }

  function FuseTupleOf(r: Regs): (t: Option<seq<int>>)
    ensures t.Some? ==> |t.value| == 3
  {
    if r.fuse.None? then None else Some([r.fuse.value.enable, r.fuse.value.autoQos, r.fuse.value.mode])
  }

  function SaveBw(r: Regs): Option<Json> {
    var t := BwTupleOf(r);
    if t.Some? then Some(Ints(t.value)) else None
  }

  function SaveFuse(r: Regs): Option<Json> {
    var t := FuseTupleOf(r);
    if t.Some? then Some(Ints(t.value)) else None
  }

  // ---------- restore ----------

  function WriteBw(r: Regs, t: seq<int>): Regs {
    if |t| == 4 then SetBw(r, t[0], Bw(t[1], t[2], t[3])) else r
  }

  function WriteFuse(r: Regs, t: seq<int>): Regs {
    if |t| == 3 then SetFuse(r, Fuse(t[0], t[1], t[2])) else r
  }

  function WriteMaster(r: Regs, key: string, t: seq<int>): Regs {
    var master := ParseInt(key);
    if master.Some? && |t| == 5 then SetQos(r, master.value, Qos(t[1], t[2], t[3], t[4])) else r
  }

  function WriteFirstMasters(r: Regs, ms: Dict<seq<int>>, n: nat): Regs
    requires n <= |ms|
  {
    if n == 0 then r else WriteMaster(WriteFirstMasters(r, ms, n - 1), ms[n - 1].0, ms[n - 1].1)
  }

  function WriteMasters(r: Regs, ms: Dict<seq<int>>): Regs {
    WriteFirstMasters(r, ms, |ms|)
  }

  lemma {:induction false} WriteSame(r: Regs, ms: Dict<seq<int>>, more: Dict<seq<int>>, n: nat)
    requires n <= |ms| <= |more| && forall i :: 0 <= i < |ms| ==> ms[i] == more[i]
    ensures WriteFirstMasters(r, ms, n) == WriteFirstMasters(r, more, n)
  {
    if n > 0 { WriteSame(r, ms, more, n - 1); }
  }

  /** Writing back the tuples of the first n masters restores them and nothing else. */
  lemma {:induction false} MastersComeBack(r: Regs, t: Regs, n: nat)
    requires n <= |MASTERS| && t.qos.Keys == r.qos.Keys
    ensures var w := WriteMasters(t, MasterTuples(r, n));
            && w.bw == t.bw && w.fuse == t.fuse && w.qos.Keys == t.qos.Keys
            && forall m :: m in t.qos ==> w.qos[m] == if m in MASTERS[..n] then r.qos[m] else t.qos[m]
  {
    if n > 0 {
      MastersComeBack(r, t, n - 1);
      assert MASTERS[..n] == MASTERS[..n - 1] + [MASTERS[n - 1]];
      var m, before, tuples := MASTERS[n - 1], MasterTuples(r, n - 1), MasterTuples(r, n);
      if m in r.qos {
        IntRoundTrip(m);
        WriteSame(t, before, tuples, |before|);
        assert WriteMasters(t, tuples) == SetQos(WriteMasters(t, before), m, r.qos[m]);
      }
    }
  }

  /** All of a device's registers come back from its snapshot. */
  lemma RegsComeBack(r: Regs, t: Regs)
    requires Touched(r, t)
    ensures var a := if BwTupleOf(r).Some? then WriteBw(t, BwTupleOf(r).value) else t;
            var b := WriteMasters(a, MasterTuples(r, |MASTERS|));
            var c := if FuseTupleOf(r).Some? then WriteFuse(b, FuseTupleOf(r).value) else b;
            c == r
  {
    var a := if BwTupleOf(r).Some? then WriteBw(t, BwTupleOf(r).value) else t;
    assert a.bw == r.bw by { BwComesBack(r, t); }
    MastersComeBack(r, a, |MASTERS|);
    assert MASTERS[..|MASTERS|] == MASTERS;
    var b := WriteMasters(a, MasterTuples(r, |MASTERS|));
    forall m | m in r.qos
      ensures b.qos[m] == r.qos[m]
    {
      assert m in t.qos;
    }
    assert b.qos == r.qos;
  }

  lemma BwComesBack(r: Regs, t: Regs)
    requires Touched(r, t)
    ensures (if BwTupleOf(r).Some? then WriteBw(t, BwTupleOf(r).value) else t).bw == r.bw
  {
    var w := if BwTupleOf(r).Some? then WriteBw(t, BwTupleOf(r).value) else t;
    forall i | i in r.bw
      ensures i in w.bw && w.bw[i] == r.bw[i]
    {
      assert i in t.bw;
    }
    assert w.bw.Keys == r.bw.Keys;
    assert w.bw == r.bw;
  }
}
