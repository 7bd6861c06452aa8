/** The saved state of the QoS tool: JSON values, dictionaries in insertion order, and the
    validator that the undo command runs before it touches a device. */
module QosState {
  import opened Wrappers

  // ---------- decimal keys ----------

  const DIGITS := "0123456789"

  /** Decimal text of a number. */
  function NatText(n: nat): (s: string)
    ensures s != ""
  {
    if n < 10 then [DIGITS[n]] else NatText(n / 10) + [DIGITS[n % 10]]
  }

  function IntText(n: int): string {
    if n < 0 then "-" + NatText(-n) else NatText(n)
  }

  function ParseDigit(c: char): (r: Option<nat>) {
    if '0' <= c <= '9' then Some(c as int - '0' as int) else None
  }

  /** Decimal digits; single underscores may stand between them. */
  function ParseNat(s: string): Option<nat> {
    if s == "" then None
    else
      var n := |s| - 1;
      var low := ParseDigit(s[n]);
      if n == 0 then low
      else
        var high := if s[n - 1] == '_' then ParseNat(s[..n - 1]) else ParseNat(s[..n]);
        if high.Some? && low.Some? then Some(high.value * 10 + low.value) else None
  }

  function Signed(n: Option<nat>, sign: int): Option<int> {
    if n.Some? then Some(sign * n.value) else None
  }

  predicate IsSpace(c: char) {
    c in " \t\n\r\U{B}\U{C}\U{1C}\U{1D}\U{1E}\U{1F}"
  }

  function StripLeft(s: string): string {
    if s != "" && IsSpace(s[0]) then StripLeft(s[1..]) else s
  }

  function StripRight(s: string): string {
    if s != "" && IsSpace(s[|s| - 1]) then StripRight(s[..|s| - 1]) else s
  }

  /** Digits after an optional sign. */
  function ParseSigned(s: string): Option<int> {
    if s == "" then None
    else if s[0] == '-' then Signed(ParseNat(s[1..]), -1)
    else if s[0] == '+' then Signed(ParseNat(s[1..]), 1)
    else Signed(ParseNat(s), 1)
  }

  /** A number with spaces around it. */
  function ParseInt(s: string): Option<int> {
    ParseSigned(StripRight(StripLeft(s)))
  }

  lemma DigitReads(n: nat)
    requires n < 10
    ensures ParseDigit(DIGITS[n]) == Some(n)
  {
  }

  lemma AppendDigit(s: string, high: nat, low: nat)
    requires s != "" && s[|s| - 1] != '_' && ParseNat(s) == Some(high) && low < 10
    ensures ParseNat(s + [DIGITS[low]]) == Some(high * 10 + low)
  {
    var t := s + [DIGITS[low]];
    assert t[..|t| - 1] == s && t[|t| - 2] == s[|s| - 1];
    DigitReads(low);
  }

  lemma {:induction false} NatRoundTrip(n: nat)
    ensures ParseNat(NatText(n)) == Some(n)
    ensures '0' <= NatText(n)[0] <= '9' && '0' <= NatText(n)[|NatText(n)| - 1] <= '9'
  {
    if n >= 10 {
      NatRoundTrip(n / 10);
      AppendDigit(NatText(n / 10), n / 10, n % 10);
    }
  }

  lemma NothingToStrip(s: string)
    requires s != "" && !IsSpace(s[0]) && !IsSpace(s[|s| - 1])
    ensures StripRight(StripLeft(s)) == s
  {
  }

  lemma DigitIsNoSpace(c: char)
    requires '0' <= c <= '9' || c == '-'
    ensures !IsSpace(c)
  {
  }

  lemma SignOfDigits(s: string)
    requires s != "" && '0' <= s[0] <= '9' && '0' <= s[|s| - 1] <= '9'
    ensures ParseInt(s) == Signed(ParseNat(s), 1)
    ensures ParseInt("-" + s) == Signed(ParseNat(s), -1)
  {
    var t := "-" + s;
    assert t[0] == '-' && t[1..] == s && t[|t| - 1] == s[|s| - 1];
    DigitIsNoSpace(s[0]);
    DigitIsNoSpace(t[0]);
    DigitIsNoSpace(s[|s| - 1]);
    NothingToStrip(s);
    NothingToStrip(t);
  }

  lemma IntRoundTrip(n: int)
    ensures ParseInt(IntText(n)) == Some(n)
  {
    var m := if n < 0 then -n else n;
    NatRoundTrip(m);
    SignOfDigits(NatText(m));
  }

  /** Towards zero, as numbers with a fraction are read. */
  function Truncate(x: real): int {
    if x >= 0.0 then x.Floor else -(-x).Floor
  }

  lemma TruncateIsNearest(x: real)
    ensures x >= 0.0 ==> 0 <= Truncate(x) && Truncate(x) as real <= x < Truncate(x) as real + 1.0
    ensures x <= 0.0 ==> Truncate(x) <= 0 && Truncate(x) as real - 1.0 < x <= Truncate(x) as real
  {
  }

  // ---------- JSON and dictionaries ----------

  datatype Json =
    | JNull
    | JBool(b: bool)
    | JInt(n: int)
    | JReal(x: real)
    | JStr(s: string)
    | JArr(items: seq<Json>)
    | JObj(fields: Dict<Json>)

  /** A dictionary as its entries in insertion order. */
  type Dict<V> = seq<(string, V)>

  predicate Distinct<V>(d: Dict<V>) {
    forall i, j :: 0 <= i < j < |d| ==> d[i].0 != d[j].0
  }

  /** The position of a key among the first n entries, or n. */
  function Find<V>(d: Dict<V>, key: string, n: nat): (i: nat)
    requires n <= |d|
    ensures i <= n && (i < n ==> d[i].0 == key) && forall j :: 0 <= j < i ==> d[j].0 != key
  {
    if n == 0 then 0
    else
      var i := Find(d, key, n - 1);
      if i < n - 1 || d[n - 1].0 == key then i else n
  }

  predicate Has<V>(d: Dict<V>, key: string) {
    Find(d, key, |d|) < |d|
  }

  /** The value of a key, or a default. */
  function Get<V>(d: Dict<V>, key: string, default: V): V {
    var i := Find(d, key, |d|);
    if i < |d| then d[i].1 else default
  }

  /** Assign to a key: in place when it is there, at the end when it is new. */
  function Put<V>(d: Dict<V>, key: string, value: V): (r: Dict<V>) {
    var i := Find(d, key, |d|);
    if i < |d| then d[i := (key, value)] else d + [(key, value)]
  }

  lemma PutKeepsDistinct<V>(d: Dict<V>, key: string, value: V)
    requires Distinct(d)
    ensures Distinct(Put(d, key, value))
  {
  }

  lemma NotFound<V>(d: Dict<V>, key: string, value: V)
    requires forall i :: 0 <= i < |d| ==> d[i].0 != key
    ensures Put(d, key, value) == d + [(key, value)]
  {
  }

  // ---------- the validator ----------

  function AsInt(j: Json): Option<int> {
    match j
    case JInt(n) => Some(n)
    case JReal(x) => Some(Truncate(x))
    case JBool(b) => Some(if b then 1 else 0)
    case JStr(s) => ParseInt(s)
    case _ => None
  }

  function AsInts(items: seq<Json>, n: nat): (r: Option<seq<int>>)
    requires n <= |items|
    ensures r.Some? ==> |r.value| == n
  {
    if n == 0 then Some([])
    else
      var before, last := AsInts(items, n - 1), AsInt(items[n - 1]);
      if before.Some? && last.Some? then Some(before.value + [last.value]) else None
  }

  function Tuple(j: Json, size: nat): (r: Option<seq<int>>)
    ensures r.Some? ==> |r.value| == size
  {
    if j.JArr? && |j.items| == size then AsInts(j.items, size) else None
  }

  function BwTuple(j: Json): Option<seq<int>> {
    Tuple(j, 4)
  }

  function FuseTuple(j: Json): Option<seq<int>> {
    Tuple(j, 3)
  }

  function QosTuple(j: Json): Option<seq<int>> {
    Tuple(j, 5)
  }

  /** Master keys must be numbers and stay as they are. */
  function MasterKey(key: string): Option<string> {
    if ParseInt(key).Some? then Some(key) else None
  }

  function QosMasters(j: Json): Option<Dict<seq<int>>> {
    if j.JObj? then Checked(j.fields, MasterKey, QosTuple, |j.fields|) else None
  }

  /** The plain decimal form of a device key. */
  function DeviceKey(key: string): Option<string> {
    var device := ParseInt(key);
    if device.Some? then Some(IntText(device.value)) else None
  }

  lemma PlainDeviceKey(device: int)
    ensures DeviceKey(IntText(device)) == Some(IntText(device))
  {
    IntRoundTrip(device);
  }

  /** The entries of a table under normal keys, provided every key and value is good. */
  function Checked<V>(fields: Dict<Json>, key: string -> Option<string>, check: Json -> Option<V>, n: nat): Option<Dict<V>>
    requires n <= |fields|
  {
    if n == 0 then Some([])
    else
      var before := Checked(fields, key, check, n - 1);
      var k, v := key(fields[n - 1].0), check(fields[n - 1].1);
      if before.Some? && k.Some? && v.Some? then Some(Put(before.value, k.value, v.value)) else None
  }

  function Devices<V>(fields: Dict<Json>, check: Json -> Option<V>): Option<Dict<V>> {
    Checked(fields, DeviceKey, check, |fields|)
  }

  function Strings(items: seq<Json>, n: nat): Option<seq<string>>
    requires n <= |items|
  {
    if n == 0 then Some([])
    else
      var before := Strings(items, n - 1);
      if before.Some? && items[n - 1].JStr? then Some(before.value + [items[n - 1].s]) else None
  }

  datatype Saved = Saved(
    qos: Dict<Dict<seq<int>>>, bw: Dict<seq<int>>, fuse: Dict<seq<int>>, commands: seq<string>)

  const EMPTY := JObj([])

  /** What the undo command restores from, or nothing for data of another shape. */
  function Validate(data: Json): Option<Saved> {
    if !data.JObj? then None
    else
      var qos := Get(data.fields, "original_qos", JNull);
      var commands := Get(data.fields, "printed_commands", JNull);
      var bw := Get(data.fields, "original_sdma_mata", EMPTY);
      var fuse := Get(data.fields, "original_fuse", EMPTY);
      if !qos.JObj? || !commands.JArr? || !bw.JObj? || !fuse.JObj? then None
      else
        var q := Devices(qos.fields, QosMasters);
        var c := Strings(commands.items, |commands.items|);
        var b := Devices(bw.fields, BwTuple);
        var f := Devices(fuse.fields, FuseTuple);
        if q.Some? && c.Some? && b.Some? && f.Some? then Some(Saved(q.value, b.value, f.value, c.value)) else None
  }

  // ---------- what the tool writes is accepted ----------

  /** A table with distinct normal keys and good values. */
  predicate Plain<V>(fields: Dict<Json>, key: string -> Option<string>, check: Json -> Option<V>) {
    && Distinct(fields)
    && forall i :: 0 <= i < |fields| ==> key(fields[i].0) == Some(fields[i].0) && check(fields[i].1).Some?
  }

  /** Such a table passes the validator entry by entry. */
  lemma {:induction false} PlainTablesPass<V>(fields: Dict<Json>, key: string -> Option<string>, check: Json -> Option<V>, n: nat)
    requires n <= |fields| && Plain(fields, key, check)
    ensures Checked(fields, key, check, n).Some?
    ensures var r := Checked(fields, key, check, n).value;
            |r| == n && forall i :: 0 <= i < n ==> r[i].0 == fields[i].0 && Some(r[i].1) == check(fields[i].1)
  {
    if n > 0 {
      PlainTablesPass(fields, key, check, n - 1);
      var before := Checked(fields, key, check, n - 1).value;
      forall i | 0 <= i < n - 1
        ensures before[i].0 != fields[n - 1].0
      {
        assert before[i].0 == fields[i].0;
      }
      NotFound(before, fields[n - 1].0, check(fields[n - 1].1).value);
    }
  }

  lemma {:induction false} StringsPass(commands: seq<string>, n: nat)
    requires n <= |commands|
    ensures Strings(Texts(commands), n) == Some(commands[..n])
  {
    if n > 0 {
      StringsPass(commands, n - 1);
      assert commands[..n] == commands[..n - 1] + [commands[n - 1]];
    }
  }

  function Texts(commands: seq<string>): (r: seq<Json>)
    ensures |r| == |commands|
  {
    seq(|commands|, i requires 0 <= i < |commands| => JStr(commands[i]))
  }

  /** The state file that an apply writes. */
  function StateJson(qos: Dict<Json>, bw: Dict<Json>, fuse: Dict<Json>, commands: seq<string>): Json {
    JObj([
      ("original_qos", JObj(qos)), ("original_sdma_mata", JObj(bw)), ("original_fuse", JObj(fuse)),
      ("printed_commands", JArr(Texts(commands)))])
  }

  lemma StateFields(qos: Dict<Json>, bw: Dict<Json>, fuse: Dict<Json>, commands: seq<string>)
    ensures var d := StateJson(qos, bw, fuse, commands).fields;
            && Get(d, "original_qos", JNull) == JObj(qos)
            && Get(d, "original_sdma_mata", EMPTY) == JObj(bw)
            && Get(d, "original_fuse", EMPTY) == JObj(fuse)
            && Get(d, "printed_commands", JNull) == JArr(Texts(commands))
  {
    var d := StateJson(qos, bw, fuse, commands).fields;
    assert |d[0].0| == 12 && |d[1].0| == 18 && |d[2].0| == 13 && |d[3].0| == 16;
    assert Distinct(d);
    FindIs(d, 0);
    FindIs(d, 1);
    FindIs(d, 2);
    FindIs(d, 3);
  }

  lemma FindIs<V>(d: Dict<V>, i: nat)
    requires Distinct(d) && i < |d|
    ensures Find(d, d[i].0, |d|) == i
  {
    var j := Find(d, d[i].0, |d|);
    assert j <= i;
  }

  /** A state file of plain tables is accepted, and read back entry by entry. */
  lemma StateFilesPass(qos: Dict<Json>, bw: Dict<Json>, fuse: Dict<Json>, commands: seq<string>)
    requires Plain(qos, DeviceKey, QosMasters) && Plain(bw, DeviceKey, BwTuple) && Plain(fuse, DeviceKey, FuseTuple)
    ensures Devices(qos, QosMasters).Some? && Devices(bw, BwTuple).Some? && Devices(fuse, FuseTuple).Some?
    ensures Validate(StateJson(qos, bw, fuse, commands)) ==
            Some(Saved(
              Devices(qos, QosMasters).value, Devices(bw, BwTuple).value, Devices(fuse, FuseTuple).value, commands))
  {
    StateFields(qos, bw, fuse, commands);
    PlainTablesPass(qos, DeviceKey, QosMasters, |qos|);
    PlainTablesPass(bw, DeviceKey, BwTuple, |bw|);
    PlainTablesPass(fuse, DeviceKey, FuseTuple, |fuse|);
    StringsPass(commands, |commands|);
    assert commands[..|commands|] == commands;
  }
}
