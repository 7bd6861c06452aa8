/** The affinity mask text of one CPU: groups of eight hexadecimal digits, separated by commas,
    the most significant group first. */
module CpuMask {
  import opened Arithmetic
  import opened Wrappers

  const GROUP_BITS := 32
  const GROUP_VALUES := 0x1_0000_0000

  function Pow2(n: nat): (r: nat)
    ensures r > 0
  {
    if n == 0 then 1 else 2 * Pow2(n - 1)
  }

  lemma {:induction false} Pow2Add(m: nat, n: nat)
    ensures Pow2(m + n) == Pow2(m) * Pow2(n)
  {
    if n > 0 {
      Pow2Add(m, n - 1);
      assert Pow2(m + n) == 2 * Pow2(m + n - 1);
      assert Pow2(m) * Pow2(n) == 2 * (Pow2(m) * Pow2(n - 1));
    }
  }

  lemma Pow2Of32()
    ensures Pow2(GROUP_BITS) == GROUP_VALUES
  {
    assert Pow2(8) == 256;
    Pow2Add(8, 8);
    Pow2Add(16, 16);
  }

  lemma Pow2Below(bit: nat)
    requires bit < GROUP_BITS
    ensures Pow2(bit) < GROUP_VALUES
  {
    Pow2Of32();
    Pow2Add(bit, GROUP_BITS - bit);
    assert Pow2(GROUP_BITS - bit) >= 2;
    assert Pow2(bit) * Pow2(GROUP_BITS - bit) >= Pow2(bit) * 2;
  }

  // ---------- hexadecimal text ----------

  const HEX := "0123456789abcdef"

  function DigitValue(c: char): (r: Option<nat>)
    ensures r.Some? ==> r.value < 16
  {
    if '0' <= c <= '9' then Some(c as int - '0' as int)
    else if 'a' <= c <= 'f' then Some(c as int - 'a' as int + 10)
    else None
  }

  /** The last n hexadecimal digits of a number. */
  function HexText(v: nat, n: nat): (s: string)
    ensures |s| == n
  {
    if n == 0 then "" else HexText(v / 16, n - 1) + [HEX[v % 16]]
  }

  function HexValue(s: string): Option<nat> {
    if s == "" then Some(0)
    else
      var high, low := HexValue(s[..|s| - 1]), DigitValue(s[|s| - 1]);
      if high.Some? && low.Some? then Some(high.value * 16 + low.value) else None
  }

  function Pow16(n: nat): nat {
    if n == 0 then 1 else 16 * Pow16(n - 1)
  }

  lemma HexDigitReads(d: nat)
    requires d < 16
    ensures DigitValue(HEX[d]) == Some(d)
  {
  }

  lemma AppendHex(s: string, high: nat, low: nat)
    requires HexValue(s) == Some(high) && low < 16
    ensures HexValue(s + [HEX[low]]) == Some(high * 16 + low)
  {
    var t := s + [HEX[low]];
    assert t[..|t| - 1] == s;
    HexDigitReads(low);
  }

  lemma {:induction false} HexRoundTrip(v: nat, n: nat)
    requires v < Pow16(n)
    ensures HexValue(HexText(v, n)) == Some(v)
  {
    if n > 0 {
      HexRoundTrip(v / 16, n - 1);
      AppendHex(HexText(v / 16, n - 1), v / 16, v % 16);
    }
  }

  // ---------- mask text ----------

  function Combine(high: Option<nat>, low: Option<nat>): Option<nat> {
    if high.Some? && low.Some? then Some(high.value * GROUP_VALUES + low.value) else None
  }

  /** The number a mask text stands for, or nothing for a text of another shape. */
  function ParseMask(text: string): Option<nat> {
    var n := |text|;
    if n < 8 then None
    else if n == 8 then HexValue(text)
    else if n < 17 || text[n - 9] != ',' then None
    else Combine(ParseMask(text[..n - 9]), HexValue(text[n - 8..]))
  }

  lemma Parts(text: string, group: string)
    requires |text| >= 8 && |group| == 8
    ensures var longer := text + "," + group;
            var n := |longer|;
            n >= 17 && longer[n - 9] == ',' && longer[..n - 9] == text && longer[n - 8..] == group
  {
  }

  lemma AppendGroup(text: string, group: string)
    requires |text| >= 8 && |group| == 8
    ensures ParseMask(text + "," + group) == Combine(ParseMask(text), HexValue(group))
  {
    Parts(text, group);
  }

  function Zeros(n: nat): string {
    seq(n, i => '0')
  }

  lemma {:induction false} ZerosAreZero(n: nat)
    ensures HexValue(Zeros(n)) == Some(0)
  {
    if n > 0 {
      ZerosAreZero(n - 1);
      assert Zeros(n)[..n - 1] == Zeros(n - 1);
    }
  }

  lemma ShiftGroup(n: nat)
    ensures Pow2(n + GROUP_BITS) == Pow2(n) * GROUP_VALUES
  {
    Pow2Add(n, GROUP_BITS);
    Pow2Of32();
  }

  /** One more group of zeros moves the bit up by a whole group. */
  lemma NextGroup(mask: string, zeros: string, n: nat)
    requires |mask| >= 8 && ParseMask(mask) == Some(Pow2(n)) && |zeros| == 8 && HexValue(zeros) == Some(0)
    ensures ParseMask(mask + "," + zeros) == Some(Pow2(n + GROUP_BITS))
  {
    AppendGroup(mask, zeros);
    ShiftGroup(n);
  }

  lemma OneGroup(value: nat)
    requires value < GROUP_VALUES
    ensures ParseMask(HexText(value, 8)) == Some(value)
  {
    assert Pow16(4) == 0x1_0000;
    assert Pow16(8) == 16 * 16 * 16 * 16 * Pow16(4);
    HexRoundTrip(value, 8);
  }

  lemma FirstMask(bit: nat)
    requires bit < GROUP_BITS
    ensures |HexText(Pow2(bit), 8)| == 8 && ParseMask(HexText(Pow2(bit), 8)) == Some(Pow2(bit))
  {
    Pow2Below(bit);
    OneGroup(Pow2(bit));
  }

  lemma ZeroGroup(n: nat)
    ensures |Zeros(n)| == n && HexValue(Zeros(n)) == Some(0)
  {
    ZerosAreZero(n);
  }

  /** The mask of a CPU stands for the number with that one bit set. */
  method CpuToMask(cpu: nat) returns (mask: string)
    ensures ParseMask(mask) == Some(Pow2(cpu))
  {
    var group, bit := cpu / GROUP_BITS, cpu % GROUP_BITS;
    var value := Pow2(bit);
    mask := HexText(value, 8);
    FirstMask(bit);
    var zeros := Zeros(8);
    ZeroGroup(8);
    ghost var at := bit;
    for i := 0 to group
      invariant at == bit + GROUP_BITS * i
      invariant |mask| >= 8 && ParseMask(mask) == Some(Pow2(at))
    {
      NextGroup(mask, zeros, at);
      mask, at := mask + "," + zeros, at + GROUP_BITS;
    }
  }

  predicate HasBit(v: nat, k: nat) {
    v / Pow2(k) % 2 == 1
  }

  lemma BitAbove(cpu: nat, k: nat)
    requires cpu < k
    ensures Pow2(cpu) / Pow2(k) == 0
  {
    Pow2Add(cpu, k - cpu);
    assert Pow2(k - cpu) >= 2;
    assert Pow2(cpu) * Pow2(k - cpu) >= Pow2(cpu) * 2;
    DivModIs(Pow2(cpu), Pow2(k), 0, Pow2(cpu));
  }

  lemma BitBelow(cpu: nat, k: nat)
    requires k <= cpu
    ensures Pow2(cpu) / Pow2(k) == Pow2(cpu - k)
  {
    Pow2Add(cpu - k, k);
    MultipleMod(Pow2(cpu - k), Pow2(k));
  }

  /** So the mask selects that CPU and no other. */
  lemma OneBit(cpu: nat, k: nat)
    ensures HasBit(Pow2(cpu), k) <==> k == cpu
  {
    if k <= cpu {
      BitBelow(cpu, k);
    } else {
      BitAbove(cpu, k);
    }
  }
}
