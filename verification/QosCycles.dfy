/** Runs that mix applies and undos, and a device that the tool cannot restore. */
module QosCycles {
  import opened Wrappers
  import opened QosHardware
  import opened QosTables
  import opened QosSnapshots
  import opened QosRuns

  datatype Command = DoApply(q: Request) | DoUnset

  function Step(m: Machine, c: Command): Option<Machine> {
    match c
    case DoUnset => Some(Unset(m).0)
    case DoApply(q) => Apply(m, q)
  }

  function Run(m: Machine, cs: seq<Command>, n: nat): Option<Machine>
    requires n <= |cs|
  {
    if n == 0 then Some(m)
    else
      var before := Run(m, cs, n - 1);
      if before.Some? then Step(before.value, cs[n - 1]) else None
  }

  /** Saved devices have their first registers in the baseline, and others have them still. */
  predicate FromStart(now: Hardware, bases: Bases, hw: Hardware) {
    && now.Keys == hw.Keys
    && forall d :: d in hw ==> if d in bases then bases[d] == hw[d] && Complete(hw[d]) else now[d] == hw[d]
  }

  ghost predicate Good(m: Machine, hw: Hardware) {
    || (m.hw == hw && Fresh(m.file))
    || exists t, commands, bases :: Tracks(m, t, commands, bases) && FromStart(m.hw, bases, hw)
  }

  lemma NextFromStart(now: Hardware, bases: Bases, hw: Hardware, q: Request)
    requires FromStart(now, bases, hw) && forall d :: d in hw && d in q.devices ==> Complete(hw[d])
    ensures FromStart(ApplyHw(now, q), NextBases(now, bases, q.devices), hw)
  {
    var l, n := LevelsOf(q.priorities), |q.devices|;
    ApplyAllTouches(now, q.devices, l, n, 0);
    assert q.devices[..n] == q.devices;
    forall d | d in hw && d !in NextBases(now, bases, q.devices)
      ensures ApplyHw(now, q)[d] == hw[d]
    {
      ApplyAllTouches(now, q.devices, l, n, d);
    }
  }

  lemma UndoGivesStart(m: Machine, t: Tables, commands: seq<string>, bases: Bases, hw: Hardware)
    requires Tracks(m, t, commands, bases) && FromStart(m.hw, bases, hw)
    ensures Unset(m).0 == Machine(hw, NoFile)
  {
    UndoRestores(m, t, commands, bases);
    SameHardware(Restored(m.hw, bases), hw);
  }

  lemma ApplyIsGood(m: Machine, hw: Hardware, q: Request)
    requires Good(m, hw) && forall d :: d in hw && d in q.devices ==> Complete(hw[d])
    ensures Apply(m, q).Some? && Good(Apply(m, q).value, hw)
  {
    if m.hw == hw && Fresh(m.file) {
      FirstApplyTracks(hw, m.file, q);
      NextFromStart(hw, map[], hw, q);
    } else {
      var t, commands, bases :| Tracks(m, t, commands, bases) && FromStart(m.hw, bases, hw);
      NextApplyTracks(m, t, commands, bases, q);
      NextFromStart(m.hw, bases, hw, q);
    }
  }

  lemma UndoIsGood(m: Machine, hw: Hardware)
    requires Good(m, hw)
    ensures Unset(m).0 == Machine(hw, NoFile)
  {
    if m.hw == hw && Fresh(m.file) {
      FreshFileIsDropped(hw, m.file);
    } else {
      var t, commands, bases :| Tracks(m, t, commands, bases) && FromStart(m.hw, bases, hw);
      UndoGivesStart(m, t, commands, bases, hw);
    }
  }

  /** Every device the command lists reads completely. */
  predicate Readable(hw: Hardware, c: Command) {
    c.DoApply? ==> forall d :: d in hw && d in c.q.devices ==> Complete(hw[d])
  }

  lemma StepIsGood(m: Machine, hw: Hardware, c: Command)
    requires Good(m, hw) && Readable(hw, c)
    ensures Step(m, c).Some? && Good(Step(m, c).value, hw)
    ensures c.DoUnset? ==> Step(m, c) == Some(Machine(hw, NoFile))
  {
    match c
    case DoUnset => UndoIsGood(m, hw);
    case DoApply(q) => ApplyIsGood(m, hw, q);
  }

  lemma RunOne(m: Machine, cs: seq<Command>, n: nat, before: Machine)
    requires 0 < n <= |cs| && Run(m, cs, n - 1) == Some(before)
    ensures Run(m, cs, n) == Step(before, cs[n - 1])
  {
  }

  ghost predicate GoodRun(m: Machine, hw: Hardware, cs: seq<Command>, n: nat)
    requires n <= |cs|
  {
    Run(m, cs, n).Some? && Good(Run(m, cs, n).value, hw)
  }

  lemma NextIsGood(m: Machine, hw: Hardware, cs: seq<Command>, n: nat)
    requires 0 < n <= |cs| && GoodRun(m, hw, cs, n - 1) && Readable(hw, cs[n - 1])
    ensures GoodRun(m, hw, cs, n)
    ensures cs[n - 1].DoUnset? ==> Run(m, cs, n) == Some(Machine(hw, NoFile))
  {
    var before := Run(m, cs, n - 1).value;
    RunOne(m, cs, n, before);
    StepIsGood(before, hw, cs[n - 1]);
  }

  lemma {:induction false} RunIsGood(m: Machine, hw: Hardware, cs: seq<Command>, n: nat)
    requires Good(m, hw) && n <= |cs| && forall i :: 0 <= i < n ==> Readable(hw, cs[i])
    ensures GoodRun(m, hw, cs, n)
  {
    if n > 0 {
      RunIsGood(m, hw, cs, n - 1);
      NextIsGood(m, hw, cs, n);
    }
  }

  /** Through any mix of applies and undos, over devices whose registers all read, every undo
      leaves the hardware as it was at the start, and no file. */
  lemma EveryUndoRestores(hw: Hardware, file: StateFile, cs: seq<Command>, n: nat)
    requires Fresh(file) && 0 < n <= |cs| && (forall i :: 0 <= i < n ==> Readable(hw, cs[i])) && cs[n - 1].DoUnset?
    ensures Run(Machine(hw, file), cs, n) == Some(Machine(hw, NoFile))
  {
    UndoFrom(Machine(hw, file), hw, cs, n);
  }

  lemma UndoFrom(m: Machine, hw: Hardware, cs: seq<Command>, n: nat)
    requires Good(m, hw) && 0 < n <= |cs| && (forall i :: 0 <= i < n ==> Readable(hw, cs[i])) && cs[n - 1].DoUnset?
    ensures Run(m, cs, n) == Some(Machine(hw, NoFile))
  {
    RunIsGood(m, hw, cs, n - 1);
    NextIsGood(m, hw, cs, n);
  }

  // ---------- a device that does not come back ----------

  function OnlyAiv(level: int): Regs {
    Regs(map[AIV_DATA := Qos(1, level, 0, 0)], map[], None)
  }

  lemma ListedTwice(q: Request, d: nat)
    requires d in q.devices
    ensures LevelsBefore([q, q], 2, d) == Some(LevelsOf(q.priorities)) && Listed([q, q], 2, d)
  {
    var qs := [q, q];
    assert LastLevels(qs, 1, d) == Some(LevelsOf(q.priorities));
    assert d in qs[1].devices;
  }

  /** A device without an SDMA master is saved again at every apply, so that after two applies the
      undo brings back what the first one wrote. */
  lemma PartialDeviceIsLost(p: Priorities, commands: seq<string>, file: StateFile)
    requires Fresh(file)
    ensures var hw: Hardware := map[0 := OnlyAiv(2)];
            var qs := [Request([0], p, commands), Request([0], p, commands)];
            && Applies(hw, file, qs, |qs|).Some?
            && Unset(Applies(hw, file, qs, |qs|).value).0.hw != hw
  {
    var q := Request([0], p, commands);
    ListedTwice(q, 0);
    LevelIsOdd(p);
    LostAgain(map[0 := OnlyAiv(2)], file, [q, q], 0, LevelsOf(p));
  }

  lemma LevelIsOdd(p: Priorities)
    ensures !Survives(OnlyAiv(2), Some(LevelsOf(p)))
  {
    assert MASTERS[0] == AIV_DATA && OnlyAiv(2).qos[AIV_DATA].qos != LevelsOf(p).aiv;
  }

  lemma LostAgain(hw: Hardware, file: StateFile, qs: seq<Request>, d: int, l: Levels)
    requires Fresh(file) && qs != [] && d in hw && Listed(qs, |qs|, d) && LevelsBefore(qs, |qs|, d) == Some(l) && !Survives(hw[d], Some(l))
    ensures Applies(hw, file, qs, |qs|).Some? && Unset(Applies(hw, file, qs, |qs|).value).0.hw != hw
  {
    UndoRestoresIff(hw, file, qs);
  }
}
