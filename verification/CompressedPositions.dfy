/** Compressed position ids for batches of requests. */
module CompressedPositions {
  import opened Arithmetic
  import opened Wrappers

  // ---------- array expressions ----------

  /** The sum of the first `n` entries. */
  function SumTo(a: seq<nat>, n: nat): nat
    requires n <= |a|
  {
    if n == 0 then 0 else SumTo(a, n - 1) + a[n - 1]
  }

  function Cumsum(a: seq<nat>): (r: seq<nat>)
    ensures |r| == |a|
  {
    seq(|a|, i requires 0 <= i < |a| => SumTo(a, i + 1))
  }

  function Arange(n: nat): (r: seq<int>)
    ensures |r| == n
  {
    seq(n, i => i)
  }

  function Copies<T>(x: T, n: nat): (r: seq<T>)
    ensures |r| == n
  {
    seq(n, _ => x)
  }

  /** The first `n` values, each repeated as often as its count says. */
  function RepeatTo<T>(values: seq<T>, counts: seq<nat>, n: nat): (r: seq<T>)
    requires n <= |values| == |counts|
    ensures |r| == SumTo(counts, n)
  {
    if n == 0 then [] else RepeatTo(values, counts, n - 1) + Copies(values[n - 1], counts[n - 1])
  }

  /** Elementwise difference; a second operand of one element is broadcast. */
  function Minus(a: seq<int>, b: seq<int>): (r: seq<int>)
    requires |a| == |b| || |b| == 1
    ensures |r| == |a|
  {
    seq(|a|, i requires 0 <= i < |a| => a[i] - if |a| == |b| then b[i] else b[0])
  }

  function Plus(a: seq<int>, b: seq<int>): (r: seq<int>)
    requires |a| == |b|
    ensures |r| == |a|
  {
    seq(|a|, i requires 0 <= i < |a| => a[i] + b[i])
  }

  /** Repeat as the array library does it: one count per value, or one count for all. */
  function Repeat<T>(values: seq<T>, counts: seq<nat>): Option<seq<T>> {
    if |values| == |counts| then Some(RepeatTo(values, counts, |counts|))
    else if |counts| == 1 then
      Some(RepeatTo(values, Copies(counts[0], |values|), |values|))
    else None
  }

  // ---------- the vectorised computation ----------

  /** Token counts in compressed units; ratios up to 1 mean no compression. */
  function Compress(tokens: nat, ratio: int): nat {
    if ratio > 1 then Quotient(tokens, ratio) else tokens
  }

  lemma CompressIs(tokens: nat, ratio: int)
    ensures Compress(tokens, ratio) == if ratio > 1 then tokens / ratio else tokens
  {
    if ratio > 1 { QuotientIs(tokens, ratio); }
  }

  function Historical(computed: seq<nat>, ratio: int): (r: seq<nat>)
    ensures |r| == |computed|
  {
    seq(|computed|, i requires 0 <= i < |computed| => Compress(computed[i], ratio))
  }

  lemma CompressGrows(a: nat, b: nat, ratio: int)
    ensures Compress(a, ratio) <= Compress(a + b, ratio)
  {
    if ratio > 1 { QuotientGrows(a, a + b, ratio); }
  }

  function NewCount(computed: nat, scheduled: nat, ratio: int): (n: nat)
    ensures Compress(computed, ratio) + n == Compress(computed + scheduled, ratio)
  {
    CompressGrows(computed, scheduled, ratio);
    Compress(computed + scheduled, ratio) - Compress(computed, ratio)
  }

  /** The number of new compressed positions of each request. */
  function NewCounts(computed: seq<nat>, scheduled: seq<nat>, ratio: int): (r: seq<nat>)
    requires |computed| == |scheduled|
    ensures |r| == |computed|
  {
    seq(|computed|, i requires 0 <= i < |computed| => NewCount(computed[i], scheduled[i], ratio))
  }

  function AllButLast<T>(a: seq<T>): seq<T> {
    if a == [] then [] else a[..|a| - 1]
  }

  function PrefixOffsets(counts: seq<nat>): (r: seq<int>)
    ensures |r| == if counts == [] then 1 else |counts|
  {
    [0] + Cumsum(AllButLast(counts))
  }

  /** One array expression for all requests: a running index plus, per request, the distance
      between where its positions start and where its segment starts. */
  function VectorPositions(starts: seq<nat>, counts: seq<nat>): seq<int>
    requires |starts| == |counts|
  {
    var shifts := Minus(starts, PrefixOffsets(counts));
    Plus(Arange(SumTo(counts, |counts|)), RepeatTo(shifts, counts, |counts|))
  }

  // ---------- the per-request reference ----------

  function Range(lo: int, hi: int): (r: seq<int>)
    requires lo <= hi
    ensures |r| == hi - lo
    ensures forall i :: 0 <= i < |r| ==> r[i] == lo + i
  {
    seq(hi - lo, i => lo + i)
  }

  /** The positions of the first `n` requests, request by request. */
  function Positions(starts: seq<nat>, counts: seq<nat>, n: nat): (r: seq<int>)
    requires n <= |starts| == |counts|
    ensures |r| == SumTo(counts, n)
  {
    if n == 0 then []
    else Positions(starts, counts, n - 1) + Range(starts[n - 1], starts[n - 1] + counts[n - 1])
  }

  lemma {:induction false} SumToPrefix(a: seq<nat>, b: seq<nat>, n: nat)
    requires n <= |a| && n <= |b| && forall i :: 0 <= i < n ==> a[i] == b[i]
    ensures SumTo(a, n) == SumTo(b, n)
  {
    if n > 0 { SumToPrefix(a, b, n - 1); }
  }

  lemma PrefixOffsetAt(counts: seq<nat>, k: nat)
    requires k < |counts|
    ensures PrefixOffsets(counts)[k] == SumTo(counts, k)
  {
    SumToPrefix(AllButLast(counts), counts, k);
  }

  lemma {:induction false} ShiftedAt(starts: seq<nat>, counts: seq<nat>, shifts: seq<int>, n: nat, i: nat)
    requires n <= |starts| == |counts| == |shifts| && i < SumTo(counts, n)
    requires forall k :: 0 <= k < n ==> shifts[k] == starts[k] - SumTo(counts, k)
    ensures i + RepeatTo(shifts, counts, n)[i] == Positions(starts, counts, n)[i]
  {
    if i < SumTo(counts, n - 1) {
      ShiftedAt(starts, counts, shifts, n - 1, i);
    } else {
      assert shifts[n - 1] == starts[n - 1] - SumTo(counts, n - 1);
    }
  }

  /** The vectorised form is the per-request form, also for requests that add nothing and for
      an empty batch. */
  lemma VectorIsPerRequest(starts: seq<nat>, counts: seq<nat>)
    requires |starts| == |counts|
    ensures VectorPositions(starts, counts) == Positions(starts, counts, |counts|)
  {
    var shifts := Minus(starts, PrefixOffsets(counts));
    forall k | 0 <= k < |counts| ensures shifts[k] == starts[k] - SumTo(counts, k) {
      PrefixOffsetAt(counts, k);
    }
    var n := |counts|;
    forall i | 0 <= i < SumTo(counts, n)
      ensures VectorPositions(starts, counts)[i] == Positions(starts, counts, n)[i]
    {
      ShiftedAt(starts, counts, shifts, n, i);
    }
  }

  // ---------- the batch operation ----------

  datatype Failure = ShapeMismatch | NegativeCount | RepeatMismatch

  datatype Batch = Batch(positions: seq<seq<int>>, requests: seq<seq<int>>, lengths: seq<seq<nat>>)

  predicate AllNonNegative(a: seq<int>) {
    forall i :: 0 <= i < |a| ==> a[i] >= 0
  }

  function AsNats(a: seq<int>): (r: seq<nat>)
    requires AllNonNegative(a)
    ensures |r| == |a| && forall i :: 0 <= i < |a| ==> r[i] == a[i]
  {
    seq(|a|, i requires 0 <= i < |a| => a[i])
  }

  /** How often each id is repeated: its own count, or the only one there is. */
  function CountsOf(ids: seq<int>, counts: seq<nat>): (r: seq<nat>)
    requires |ids| == |counts| || |counts| == 1
    ensures |r| == |ids|
  {
    if |ids| == |counts| then counts else Copies(counts[0], |ids|)
  }

  /** The results of one cache group: the per-request concatenation for the group's ratio. */
  ghost predicate GroupIs(positions: seq<int>, requests: seq<int>, lengths: seq<nat>, computed: seq<nat>,
                          scheduled: seq<nat>, ids: seq<int>, ratio: int)
  {
    && |computed| == |scheduled| == |lengths| && (|ids| == |computed| || |computed| == 1)
    && lengths == NewCounts(computed, scheduled, ratio)
    && positions == Positions(Historical(computed, ratio), lengths, |lengths|)
    && requests == RepeatTo(ids, CountsOf(ids, lengths), |ids|)
  }

  /** One result per cache group. */
  ghost predicate GroupsOk(b: Batch, computed: seq<nat>, scheduled: seq<nat>, ids: seq<int>, ratios: seq<int>, n: nat) {
    && n <= |ratios| && |b.positions| == |b.requests| == |b.lengths| == n
    && forall g :: 0 <= g < n ==>
         GroupIs(b.positions[g], b.requests[g], b.lengths[g], computed, scheduled, ids, ratios[g])
  }

  method OneGroup(computed: seq<nat>, scheduled: seq<nat>, ids: seq<int>, ratio: int)
    returns (positions: seq<int>, requests: Option<seq<int>>, lengths: seq<nat>)
    requires |computed| == |scheduled|
    ensures requests.None? <==> |ids| != |computed| && |computed| != 1
    ensures requests.Some? ==> GroupIs(positions, requests.value, lengths, computed, scheduled, ids, ratio)
  {
    var starts := Historical(computed, ratio);
    lengths := NewCounts(computed, scheduled, ratio);
    positions := VectorPositions(starts, lengths);
    VectorIsPerRequest(starts, lengths);
    requests := Repeat(ids, lengths);
  }

  lemma AddGroup(b: Batch, b': Batch, computed: seq<nat>, scheduled: seq<nat>, ids: seq<int>, ratios: seq<int>, n: nat,
                 positions: seq<int>, requests: seq<int>, lengths: seq<nat>)
    requires GroupsOk(b, computed, scheduled, ids, ratios, n) && n < |ratios|
    requires GroupIs(positions, requests, lengths, computed, scheduled, ids, ratios[n])
    requires b' == Batch(b.positions + [positions], b.requests + [requests], b.lengths + [lengths])
    ensures GroupsOk(b', computed, scheduled, ids, ratios, n + 1)
  {
  }

  method GetCompressedPositions(computed: seq<int>, scheduled: seq<int>, ids: seq<int>, useCompress: bool,
                                ratios: seq<int>)
    returns (r: Result<Option<Batch>, Failure>)
    ensures !useCompress ==> r == Ok(None)
    ensures useCompress && |computed| != |scheduled| ==> r == Err(ShapeMismatch)
    ensures useCompress && |computed| == |scheduled| && !(AllNonNegative(computed) && AllNonNegative(scheduled)) ==>
              r == Err(NegativeCount)
    ensures useCompress && |computed| == |scheduled| && AllNonNegative(computed) && AllNonNegative(scheduled) ==>
              if ratios != [] && |ids| != |computed| && |computed| != 1 then r == Err(RepeatMismatch)
              else r.Ok? && r.value.Some? &&
                   GroupsOk(r.value.value, AsNats(computed), AsNats(scheduled), ids, ratios, |ratios|)
  {
    if !useCompress {
      return Ok(None);
    }
    if |computed| != |scheduled| {
      return Err(ShapeMismatch);
    }
    if !(AllNonNegative(computed) && AllNonNegative(scheduled)) {
      return Err(NegativeCount);
    }
    var done, step := AsNats(computed), AsNats(scheduled);
    var b := Batch([], [], []);
    for g := 0 to |ratios|
      invariant g > 0 ==> |ids| == |done| || |done| == 1
      invariant GroupsOk(b, done, step, ids, ratios, g)
    {
      var positions, requests, lengths := OneGroup(done, step, ids, ratios[g]);
      if requests.None? {
        return Err(RepeatMismatch);
      }
      ghost var before := b;
      b := Batch(b.positions + [positions], b.requests + [requests.value], b.lengths + [lengths]);
      AddGroup(before, b, done, step, ids, ratios, g, positions, requests.value, lengths);
    }
    r := Ok(Some(b));
  }

  // ---------- scheduling histories ----------

  /** Among the first `n` positions, those whose request id is `id`, in order. */
  function SelectTo(positions: seq<int>, requests: seq<int>, id: int, n: nat): seq<int>
    requires n <= |positions| == |requests|
  {
    if n == 0 then []
    else SelectTo(positions, requests, id, n - 1) + if requests[n - 1] == id then [positions[n - 1]] else []
  }

  /** From index `m` on, `len` positions counting up from `start`, all of request `x`. */
  predicate SegmentAt(positions: seq<int>, requests: seq<int>, m: nat, start: int, len: nat, x: int) {
    && m + len <= |positions| == |requests|
    && forall i :: m <= i < m + len ==> positions[i] == start + i - m && requests[i] == x
  }

  lemma {:induction false} SelectSegment(positions: seq<int>, requests: seq<int>, id: int, m: nat, start: int,
                                         len: nat, x: int)
    requires SegmentAt(positions, requests, m, start, len, x)
    ensures SelectTo(positions, requests, id, m + len)
            == SelectTo(positions, requests, id, m) + if x == id then Range(start, start + len) else []
  {
    if len > 0 {
      SelectSegment(positions, requests, id, m, start, len - 1, x);
      assert Range(start, start + len) == Range(start, start + len - 1) + [start + len - 1];
    }
  }

  lemma {:induction false} SegmentOf(starts: seq<nat>, counts: seq<nat>, ids: seq<int>, k: nat, n: nat)
    requires k < n <= |starts| == |counts| == |ids|
    ensures SegmentAt(Positions(starts, counts, n), RepeatTo(ids, counts, n), SumTo(counts, k), starts[k], counts[k],
                      ids[k])
  {
    if k + 1 < n {
      SegmentOf(starts, counts, ids, k, n - 1);
    }
  }

  /** `offs` are the segment boundaries of `counts`. */
  ghost predicate Boundaries(offs: seq<nat>, counts: seq<nat>) {
    && |offs| == |counts| + 1 && offs[0] == 0
    && forall i, j :: 0 <= i < |counts| && j == i + 1 ==> offs[j] == offs[i] + counts[i]
  }

  /** The share of request `q` in a batch: nothing before its segment, its own range after it. */
  lemma {:induction false} SelectRequest(starts: seq<nat>, counts: seq<nat>, offs: seq<nat>, positions: seq<int>,
                                         requests: seq<int>, q: nat, k: nat)
    requires k <= |starts| == |counts| && q < |counts| && Boundaries(offs, counts)
    requires forall i :: 0 <= i < |counts| ==> SegmentAt(positions, requests, offs[i], starts[i], counts[i], i)
    requires offs[k] <= |positions| == |requests|
    ensures SelectTo(positions, requests, q, offs[k])
            == if q < k then Range(starts[q], starts[q] + counts[q]) else []
  {
    if k > 0 {
      assert SegmentAt(positions, requests, offs[k - 1], starts[k - 1], counts[k - 1], k - 1);
      SelectRequest(starts, counts, offs, positions, requests, q, k - 1);
      SelectSegment(positions, requests, q, offs[k - 1], starts[k - 1], counts[k - 1], k - 1);
    }
  }

  function Offsets(counts: seq<nat>): (offs: seq<nat>)
    ensures |offs| == |counts| + 1
  {
    seq(|counts| + 1, i requires 0 <= i <= |counts| => SumTo(counts, i))
  }

  lemma OffsetsAreBoundaries(counts: seq<nat>)
    ensures Boundaries(Offsets(counts), counts)
  {
    var offs := Offsets(counts);
    forall i, j | 0 <= i < |counts| && j == i + 1 ensures offs[j] == offs[i] + counts[i] {
      assert offs[j] == SumTo(counts, j) && offs[i] == SumTo(counts, i);
    }
  }

  lemma SegmentsOf(starts: seq<nat>, counts: seq<nat>, ids: seq<int>, offs: seq<nat>)
    requires |starts| == |counts| == |ids| && offs == Offsets(counts)
    requires forall i :: 0 <= i < |ids| ==> ids[i] == i
    ensures forall i :: 0 <= i < |counts| ==>
              SegmentAt(Positions(starts, counts, |counts|), RepeatTo(ids, counts, |counts|), offs[i], starts[i],
                        counts[i], i)
  {
    forall i | 0 <= i < |counts|
      ensures SegmentAt(Positions(starts, counts, |counts|), RepeatTo(ids, counts, |counts|), offs[i], starts[i],
                        counts[i], i)
    {
      SegmentOf(starts, counts, ids, i, |counts|);
    }
  }

  /** Selecting one request from a whole batch gives exactly its own range. */
  lemma SelectFromBatch(starts: seq<nat>, counts: seq<nat>, ids: seq<int>, q: nat)
    requires |starts| == |counts| == |ids| && q < |counts| && forall i :: 0 <= i < |ids| ==> ids[i] == i
    ensures SelectTo(Positions(starts, counts, |counts|), RepeatTo(ids, counts, |counts|), q, SumTo(counts, |counts|))
            == Range(starts[q], starts[q] + counts[q])
  {
    var n := |counts|;
    SegmentsOf(starts, counts, ids, Offsets(counts));
    OffsetsAreBoundaries(counts);
    SelectRequest(starts, counts, Offsets(counts), Positions(starts, counts, n), RepeatTo(ids, counts, n), q, n);
  }

  /** What one step emits for the request in row `q`: the batch computation, then its share of it. */
  function EmittedInStep(computed: seq<nat>, scheduled: seq<nat>, ratio: int, q: nat): seq<int>
    requires |computed| == |scheduled|
  {
    var counts := NewCounts(computed, scheduled, ratio);
    SelectTo(VectorPositions(Historical(computed, ratio), counts), RepeatTo(Arange(|counts|), counts, |counts|), q,
             SumTo(counts, |counts|))
  }

  lemma StepEmitsRange(computed: seq<nat>, scheduled: seq<nat>, ratio: int, q: nat)
    requires |computed| == |scheduled| && q < |computed|
    ensures Compress(computed[q], ratio) <= Compress(computed[q] + scheduled[q], ratio)
    ensures EmittedInStep(computed, scheduled, ratio, q) ==
            Range(Compress(computed[q], ratio), Compress(computed[q] + scheduled[q], ratio))
  {
    var starts, counts := Historical(computed, ratio), NewCounts(computed, scheduled, ratio);
    var ids := Arange(|counts|);
    CompressGrows(computed[q], scheduled[q], ratio);
    VectorIsPerRequest(starts, counts);
    SelectFromBatch(starts, counts, ids, q);
  }

  /** One row of a step's batch: a request and the tokens scheduled for it, possibly none. */
  datatype Row = Row(id: int, tokens: nat)

  /** A step's batch: any requests in any rows, each at most once. */
  predicate WfStep(step: seq<Row>) {
    forall i, j :: 0 <= i < j < |step| ==> step[i].id != step[j].id
  }

  /** The row of a request among the first n, or n when it is in none of them. */
  function RowOf(step: seq<Row>, id: int, n: nat): (q: nat)
    requires n <= |step|
    ensures q <= n && (q < n ==> step[q].id == id) && forall i :: 0 <= i < q ==> step[i].id != id
  {
    if n == 0 then 0
    else
      var q := RowOf(step, id, n - 1);
      if q < n - 1 || step[n - 1].id == id then q else n
  }

  function ScheduledIn(step: seq<Row>, id: int): nat {
    var q := RowOf(step, id, |step|);
    if q < |step| then step[q].tokens else 0
  }

  /** The computed tokens of a request before step `t`: what was scheduled became computed. */
  function TokensAt(initial: int -> nat, steps: seq<seq<Row>>, id: int, t: nat): nat
    requires t <= |steps|
  {
    if t == 0 then initial(id) else TokensAt(initial, steps, id, t - 1) + ScheduledIn(steps[t - 1], id)
  }

  function ComputedAt(initial: int -> nat, steps: seq<seq<Row>>, t: nat): (r: seq<nat>)
    requires t < |steps|
    ensures |r| == |steps[t]|
  {
    seq(|steps[t]|, i requires 0 <= i < |steps[t]| => TokensAt(initial, steps, steps[t][i].id, t))
  }

  function ScheduledAt(step: seq<Row>): (r: seq<nat>)
    ensures |r| == |step|
  {
    seq(|step|, i requires 0 <= i < |step| => step[i].tokens)
  }

  /** What step `t` emits for a request, wherever it sits in the batch; nothing when it is not there. */
  function EmittedAt(initial: int -> nat, steps: seq<seq<Row>>, ratio: int, id: int, t: nat): seq<int>
    requires t < |steps|
  {
    var q := RowOf(steps[t], id, |steps[t]|);
    if q < |steps[t]| then EmittedInStep(ComputedAt(initial, steps, t), ScheduledAt(steps[t]), ratio, q) else []
  }

  function Concat(parts: seq<seq<int>>, t: nat): seq<int>
    requires t <= |parts|
  {
    if t == 0 then [] else Concat(parts, t - 1) + parts[t - 1]
  }

  function EachStep(initial: int -> nat, steps: seq<seq<Row>>, ratio: int, id: int): (r: seq<seq<int>>)
    ensures |r| == |steps|
  {
    seq(|steps|, t requires 0 <= t < |steps| => EmittedAt(initial, steps, ratio, id, t))
  }

  /** Everything a request is given in the steps of a history, one step after the other. */
  function Emitted(initial: int -> nat, steps: seq<seq<Row>>, ratio: int, id: int): seq<int> {
    Concat(EachStep(initial, steps, ratio, id), |steps|)
  }

  /** The compressed length of a request before step `t`. */
  function Level(initial: int -> nat, steps: seq<seq<Row>>, ratio: int, id: int, t: nat): nat
    requires t <= |steps|
  {
    Compress(TokensAt(initial, steps, id, t), ratio)
  }

  lemma InBatch(initial: int -> nat, steps: seq<seq<Row>>, id: int, t: nat, q: nat)
    requires t < |steps| && q == RowOf(steps[t], id, |steps[t]|) < |steps[t]|
    ensures ComputedAt(initial, steps, t)[q] == TokensAt(initial, steps, id, t)
    ensures TokensAt(initial, steps, id, t) + ScheduledAt(steps[t])[q] == TokensAt(initial, steps, id, t + 1)
  {
  }

  /** The list counts up from one number to before another. */
  ghost predicate CountsUp(s: seq<int>, lo: int, hi: int) {
    lo <= hi && |s| == hi - lo && forall i :: 0 <= i < |s| ==> s[i] == lo + i
  }

  lemma CountsUpIsRange(s: seq<int>, lo: int, hi: int)
    requires CountsUp(s, lo, hi)
    ensures lo <= hi && s == Range(lo, hi)
  {
  }

  lemma CountsOn(s: seq<int>, more: seq<int>, a: int, b: int, c: int)
    requires CountsUp(s, a, b) && CountsUp(more, b, c)
    ensures CountsUp(s + more, a, c)
  {
  }

  lemma StepCounts(computed: seq<nat>, scheduled: seq<nat>, ratio: int, q: nat, before: nat, after: nat)
    requires |computed| == |scheduled| && q < |computed| && computed[q] == before && before + scheduled[q] == after
    ensures CountsUp(EmittedInStep(computed, scheduled, ratio, q), Compress(before, ratio), Compress(after, ratio))
  {
    StepEmitsRange(computed, scheduled, ratio, q);
  }

  lemma StepOfHistory(initial: int -> nat, steps: seq<seq<Row>>, ratio: int, id: int, t: nat)
    requires t < |steps|
    ensures CountsUp(EmittedAt(initial, steps, ratio, id, t),
                     Level(initial, steps, ratio, id, t), Level(initial, steps, ratio, id, t + 1))
  {
    var q := RowOf(steps[t], id, |steps[t]|);
    if q < |steps[t]| {
      InBatch(initial, steps, id, t, q);
      StepCounts(ComputedAt(initial, steps, t), ScheduledAt(steps[t]), ratio, q,
                 TokensAt(initial, steps, id, t), TokensAt(initial, steps, id, t + 1));
    } else {
      assert TokensAt(initial, steps, id, t + 1) == TokensAt(initial, steps, id, t);
    }
  }

  lemma {:induction false} ConcatCounts(parts: seq<seq<int>>, levels: seq<int>, t: nat)
    requires |levels| == |parts| + 1 && t <= |parts|
    requires forall u :: 0 <= u < |parts| ==> CountsUp(parts[u], levels[u], levels[u + 1])
    ensures CountsUp(Concat(parts, t), levels[0], levels[t])
  {
    if t > 0 {
      ConcatCounts(parts, levels, t - 1);
      CountsOn(Concat(parts, t - 1), parts[t - 1], levels[0], levels[t - 1], levels[t]);
    }
  }

  lemma StepBetweenLevels(initial: int -> nat, steps: seq<seq<Row>>, ratio: int, id: int, t: nat,
                          part: seq<int>, lo: int, hi: int)
    requires t < |steps| && part == EmittedAt(initial, steps, ratio, id, t)
    requires lo == Level(initial, steps, ratio, id, t) && hi == Level(initial, steps, ratio, id, t + 1)
    ensures CountsUp(part, lo, hi)
  {
    StepOfHistory(initial, steps, ratio, id, t);
  }

  function Levels(initial: int -> nat, steps: seq<seq<Row>>, ratio: int, id: int): (r: seq<int>)
    ensures |r| == |steps| + 1
  {
    seq(|steps| + 1, t requires 0 <= t <= |steps| => Level(initial, steps, ratio, id, t))
  }

  /** However its tokens were chunked into steps, whichever requests shared its batches and in
      whichever row it sat, a request emits each compressed position from its start to its end once
      and in order. */
  lemma HistoryEmitsEveryPositionOnce(initial: int -> nat, steps: seq<seq<Row>>, ratio: int, id: int)
    ensures var lo, hi := Compress(initial(id), ratio), Compress(TokensAt(initial, steps, id, |steps|), ratio);
            lo <= hi && Emitted(initial, steps, ratio, id) == Range(lo, hi)
  {
    var parts, levels := EachStep(initial, steps, ratio, id), Levels(initial, steps, ratio, id);
    forall t | 0 <= t < |steps| ensures CountsUp(parts[t], levels[t], levels[t + 1]) {
      StepBetweenLevels(initial, steps, ratio, id, t, parts[t], levels[t], levels[t + 1]);
    }
    ConcatCounts(parts, levels, |steps|);
    CountsUpIsRange(Concat(parts, |steps|), levels[0], levels[|steps|]);
  }

  /** Where every request is in a batch at most once, its tokens grow by those of its row. */
  lemma RowIsItsRequest(step: seq<Row>, q: nat)
    requires WfStep(step) && q < |step|
    ensures RowOf(step, step[q].id, |step|) == q && ScheduledIn(step, step[q].id) == step[q].tokens
  {
  }
}
