/** Benchmark mappings built from runs of a requested length that never touch each other. */
module FragmentedMappings {
  import opened Arithmetic
  import opened Wrappers
  import opened BlockSpans

  datatype BuildError = BadSelection | BadSpanLength | NotEnoughBlocks

  function RunLengths(remaining: nat, spanLen: nat): seq<nat>
    requires spanLen > 0
  {
    if remaining == 0 then []
    else
      var n := if remaining < spanLen then remaining else spanLen;
      [n] + RunLengths(remaining - n, spanLen)
  }

  function Sum(lengths: seq<nat>): nat {
    if lengths == [] then 0 else lengths[0] + Sum(lengths[1..])
  }

  /** Full runs and at most one shorter run at the end, ceil(selected / spanLen) in all. */
  lemma {:induction false} RunLengthsShape(selected: nat, spanLen: nat)
    requires spanLen > 0
    ensures var ls := RunLengths(selected, spanLen);
            && |ls| == CeilDiv(selected, spanLen)
            && Sum(ls) == selected
            && (forall i :: 0 <= i < |ls| ==> 1 <= ls[i] <= spanLen)
            && (forall i :: 0 <= i < |ls| - 1 ==> ls[i] == spanLen)
  {
    if selected != 0 {
      var n := if selected < spanLen then selected else spanLen;
      RunLengthsShape(selected - n, spanLen);
      if selected >= spanLen {
        CeilDivStep(selected, spanLen);
      } else {
        CeilDivIs(selected, spanLen, 1);
        CeilDivIs(0, spanLen, 0);
      }
    }
  }

  /** What a shuffle of the slots 0 .. n-1 returns. */
  ghost predicate Shuffle(order: seq<nat>, n: nat) {
    && |order| == n
    && (forall i :: 0 <= i < n ==> order[i] < n)
    && (forall i, j :: 0 <= i < j < n ==> order[i] != order[j])
  }

  function Run(srcSlot: nat, dstSlot: nat, width: nat, len: nat): Span {
    Span(srcSlot * width, dstSlot * width, len)
  }

  function Runs(srcOrder: seq<nat>, dstOrder: seq<nat>, width: nat, lengths: seq<nat>): seq<Span>
    requires |srcOrder| == |dstOrder| == |lengths|
  {
    seq(|lengths|, i requires 0 <= i < |lengths| => Run(srcOrder[i], dstOrder[i], width, lengths[i]))
  }

  // ---------- slots ----------

  lemma SlotsApart(a: nat, b: nat, width: nat, i: nat, j: nat)
    requires a != b && i < width && j < width
    ensures a * width + i != b * width + j
  {
    if a < b {
      assert (a + 1) * width <= b * width;
    } else {
      assert (b + 1) * width <= a * width;
    }
  }

  lemma SlotBound(a: nat, n: nat, width: nat, i: nat)
    requires a < n && i < width
    ensures a * width + i < n * width
  {
    assert (a + 1) * width <= n * width;
  }

  lemma {:induction false} Locate(spans: seq<Span>, t: nat, n: nat) returns (k: nat, i: nat)
    requires n <= |spans| && t < Offset(spans, n)
    ensures k < n && i < spans[k].len && Offset(spans, k) + i == t
  {
    if t < Offset(spans, n - 1) {
      k, i := Locate(spans, t, n - 1);
    } else {
      k, i := n - 1, t - Offset(spans, n - 1);
    }
  }

  /** The runs of a mapping: one slot each, shorter than the slot. */
  ghost predicate WfRuns(runs: seq<Span>, srcOrder: seq<nat>, dstOrder: seq<nat>, width: nat) {
    && Shuffle(srcOrder, |runs|) && Shuffle(dstOrder, |runs|)
    && forall k :: 0 <= k < |runs| ==>
         1 <= runs[k].len < width && runs[k] == Run(srcOrder[k], dstOrder[k], width, runs[k].len)
  }

  /** No run can continue another, since each leaves the last block of its slot free. */
  lemma RunsAreCanonical(runs: seq<Span>, srcOrder: seq<nat>, dstOrder: seq<nat>, width: nat)
    requires WfRuns(runs, srcOrder, dstOrder, width)
    ensures Canonical(runs)
  {
    forall k, j | 0 <= k < |runs| && j == k + 1 < |runs|
      ensures !Follows(runs[k], Pair(runs[j].src, runs[j].dst))
    {
      SlotsApart(srcOrder[j], srcOrder[k], width, 0, runs[k].len);
    }
  }

  lemma PairSlot(pairs: seq<Pair>, runs: seq<Span>, srcOrder: seq<nat>, dstOrder: seq<nat>, width: nat, t: nat)
    returns (k: nat, i: nat)
    requires WfRuns(runs, srcOrder, dstOrder, width) && pairs == Expand(runs) && t < |pairs|
    ensures k < |runs| && i < width && Offset(runs, k) + i == t && i < runs[k].len
    ensures pairs[t] == Pair(srcOrder[k] * width + i, dstOrder[k] * width + i)
  {
    ExpandLength(runs, |runs|);
    k, i := Locate(runs, t, |runs|);
    RunInExpansion(pairs, runs, k);
  }

  lemma RunsAreDistinct(pairs: seq<Pair>, runs: seq<Span>, srcOrder: seq<nat>, dstOrder: seq<nat>, width: nat,
                        t: nat, u: nat)
    requires WfRuns(runs, srcOrder, dstOrder, width) && pairs == Expand(runs) && t < u < |pairs|
    ensures pairs[t].src != pairs[u].src && pairs[t].dst != pairs[u].dst
  {
    var k, i := PairSlot(pairs, runs, srcOrder, dstOrder, width, t);
    var l, j := PairSlot(pairs, runs, srcOrder, dstOrder, width, u);
    if k != l {
      assert srcOrder[k] != srcOrder[l] && dstOrder[k] != dstOrder[l];
      SlotsApart(srcOrder[k], srcOrder[l], width, i, j);
      SlotsApart(dstOrder[k], dstOrder[l], width, i, j);
    }
  }

  lemma AllDistinct(pairs: seq<Pair>, runs: seq<Span>, srcOrder: seq<nat>, dstOrder: seq<nat>, width: nat)
    requires WfRuns(runs, srcOrder, dstOrder, width) && pairs == Expand(runs)
    ensures forall t, u :: 0 <= t < u < |pairs| ==> pairs[t].src != pairs[u].src && pairs[t].dst != pairs[u].dst
  {
    forall t, u | 0 <= t < u < |pairs| ensures pairs[t].src != pairs[u].src && pairs[t].dst != pairs[u].dst {
      RunsAreDistinct(pairs, runs, srcOrder, dstOrder, width, t, u);
    }
  }

  lemma SlotFits(x: int, a: nat, n: nat, width: nat, i: nat, limit: nat)
    requires a < n && i < width && x == a * width + i && n * width <= limit
    ensures 0 <= x < limit
  {
    SlotBound(a, n, width, i);
  }

  lemma RunFits(pairs: seq<Pair>, runs: seq<Span>, srcOrder: seq<nat>, dstOrder: seq<nat>, width: nat,
                srcLen: nat, dstLen: nat, t: nat)
    requires WfRuns(runs, srcOrder, dstOrder, width) && pairs == Expand(runs) && t < |pairs|
    requires |runs| * width <= srcLen && |runs| * width <= dstLen
    ensures PairFits(pairs[t], srcLen, dstLen)
  {
    var k, i := PairSlot(pairs, runs, srcOrder, dstOrder, width, t);
    SlotFits(pairs[t].src, srcOrder[k], |runs|, width, i, srcLen);
    SlotFits(pairs[t].dst, dstOrder[k], |runs|, width, i, dstLen);
  }

  lemma RunsFit(pairs: seq<Pair>, runs: seq<Span>, srcOrder: seq<nat>, dstOrder: seq<nat>, width: nat,
                srcLen: nat, dstLen: nat)
    requires WfRuns(runs, srcOrder, dstOrder, width) && pairs == Expand(runs)
    requires |runs| * width <= srcLen && |runs| * width <= dstLen
    ensures PairsFit(pairs, srcLen, dstLen)
  {
    forall t | 0 <= t < |pairs| ensures PairFits(pairs[t], srcLen, dstLen) {
      RunFits(pairs, runs, srcOrder, dstOrder, width, srcLen, dstLen, t);
    }
  }

  lemma {:induction false} OffsetIsSum(runs: seq<Span>, lengths: seq<nat>, k: nat)
    requires k <= |runs| == |lengths| && forall i :: 0 <= i < |runs| ==> runs[i].len == lengths[i]
    ensures Offset(runs, k) + Sum(lengths[k..]) == Sum(lengths)
  {
    if k > 0 {
      OffsetIsSum(runs, lengths, k - 1);
      assert lengths[k - 1..][1..] == lengths[k..];
    } else {
      assert lengths[0..] == lengths;
    }
  }

  // ---------- the builder ----------

  /** What every fragmented mapping satisfies, whatever the two shuffles were. */
  ghost predicate Fragmented(pairs: seq<Pair>, selected: nat, spanLen: nat, srcLen: nat, dstLen: nat)
    requires spanLen > 0
  {
    && |pairs| == selected && PairsFit(pairs, srcLen, dstLen)
    && (forall t, u :: 0 <= t < u < |pairs| ==> pairs[t].src != pairs[u].src && pairs[t].dst != pairs[u].dst)
    && |Coalesced(pairs)| == CeilDiv(selected, spanLen)
    && HasRunLengths(Coalesced(pairs), spanLen)
  }

  /** Every span has the requested length, except that the last may be shorter. */
  predicate HasRunLengths(spans: seq<Span>, spanLen: nat) {
    && (forall k :: 0 <= k < |spans| ==> 1 <= spans[k].len <= spanLen)
    && (forall k :: 0 <= k < |spans| - 1 ==> spans[k].len == spanLen)
  }

  lemma RunsAreFragmented(pairs: seq<Pair>, runs: seq<Span>, srcOrder: seq<nat>, dstOrder: seq<nat>,
                          selected: nat, spanLen: nat, srcLen: nat, dstLen: nat)
    requires spanLen > 0 && |runs| == |RunLengths(selected, spanLen)|
    requires forall k :: 0 <= k < |runs| ==> runs[k].len == RunLengths(selected, spanLen)[k]
    requires WfRuns(runs, srcOrder, dstOrder, spanLen + 1) && pairs == Expand(runs)
    requires |runs| * (spanLen + 1) <= srcLen && |runs| * (spanLen + 1) <= dstLen
    ensures Fragmented(pairs, selected, spanLen, srcLen, dstLen)
  {
    RunLengthsShape(selected, spanLen);
    assert |pairs| == selected by {
      ExpandLength(runs, |runs|);
      OffsetIsSum(runs, RunLengths(selected, spanLen), |runs|);
    }
    RunsFit(pairs, runs, srcOrder, dstOrder, spanLen + 1, srcLen, dstLen);
    AllDistinct(pairs, runs, srcOrder, dstOrder, spanLen + 1);
    assert Coalesced(pairs) == runs by {
      RunsAreCanonical(runs, srcOrder, dstOrder, spanLen + 1);
      CoalesceIsInverseIff(runs);
    }
  }

  lemma NextLength(lengths: seq<nat>, remaining: nat, n: nat, spanLen: nat)
    requires spanLen > 0 && remaining > 0 && n == if remaining < spanLen then remaining else spanLen
    ensures lengths + [n] + RunLengths(remaining - n, spanLen) == lengths + RunLengths(remaining, spanLen)
  {
    assert RunLengths(remaining, spanLen) == [n] + RunLengths(remaining - n, spanLen);
  }

  method BuildRunLengths(selected: nat, spanLen: nat) returns (lengths: seq<nat>)
    requires spanLen > 0
    ensures lengths == RunLengths(selected, spanLen)
  {
    lengths := [];
    var remaining: nat := selected;
    while remaining != 0
      invariant lengths + RunLengths(remaining, spanLen) == RunLengths(selected, spanLen)
      decreases remaining
    {
      var n := if remaining < spanLen then remaining else spanLen;
      NextLength(lengths, remaining, n, spanLen);
      lengths := lengths + [n];
      remaining := remaining - n;
    }
  }

  /** Build a mapping; the two orders are the shuffles of the slots. */
  method BuildFragmentedMapping(selected: int, spanLen: int, srcLen: nat, dstLen: nat,
                                srcOrder: seq<nat>, dstOrder: seq<nat>)
    returns (r: Result<seq<Pair>, BuildError>)
    requires selected > 0 && spanLen > 0 ==>
               Shuffle(srcOrder, CeilDiv(selected, spanLen)) && Shuffle(dstOrder, CeilDiv(selected, spanLen))
    ensures r == Err(BadSelection) <==> selected <= 0
    ensures r == Err(BadSpanLength) <==> selected > 0 && spanLen <= 0
    ensures r == Err(NotEnoughBlocks) <==>
              selected > 0 && spanLen > 0 &&
              (CeilDiv(selected, spanLen) * (spanLen + 1) > srcLen ||
               CeilDiv(selected, spanLen) * (spanLen + 1) > dstLen)
    ensures r.Ok? ==> Fragmented(r.value, selected, spanLen, srcLen, dstLen)
  {
    if selected <= 0 {
      return Err(BadSelection);
    }
    if spanLen <= 0 {
      return Err(BadSpanLength);
    }
    var lengths := BuildRunLengths(selected, spanLen);
    RunLengthsShape(selected, spanLen);
    var width := spanLen + 1;
    if |lengths| * width > srcLen || |lengths| * width > dstLen {
      return Err(NotEnoughBlocks);
    }
    var pairs: seq<Pair> := [];
    ghost var runs := Runs(srcOrder, dstOrder, width, lengths);
    for k := 0 to |lengths|
      invariant pairs == ExpandTo(runs, k)
    {
      pairs := pairs + SpanPairs(Span(srcOrder[k] * width, dstOrder[k] * width, lengths[k]));
    }
    RunsAreFragmented(pairs, runs, srcOrder, dstOrder, selected, spanLen, srcLen, dstLen);
    r := Ok(pairs);
  }
}
