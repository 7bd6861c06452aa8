/** Token capacity, padding and token mask of the MC2 communication path. */
module Mc2Padding {
  import opened Arithmetic
  import opened Wrappers

  // ---------- rounding up to the tensor-parallel size ----------

  /** Padding is the least multiple of the tensor-parallel size that is large enough. */
  lemma RoundUpIsLeast(x: nat, tp: nat, k: nat)
    requires tp > 0 && x <= k * tp
    ensures CeilDiv(x, tp) <= k && RoundUp(x, tp) <= k * tp
  {
    CeilDivBounds(x, tp);
    FewerSteps(CeilDiv(x, tp), k, tp);
  }

  lemma FewerSteps(q: nat, k: nat, tp: nat)
    requires tp > 0 && q * tp < k * tp + tp
    ensures q <= k && q * tp <= k * tp
  {
    assert (k + 1) * tp == k * tp + tp;
    assert q >= k + 1 ==> q * tp >= (k + 1) * tp;
    assert q <= k ==> q * tp <= k * tp;
  }

  lemma RoundUpIsMultiple(x: nat, tp: nat)
    requires tp > 0
    ensures RoundUp(x, tp) % tp == 0
  {
    MultipleMod(CeilDiv(x, tp), tp);
  }

  /** The only multiple of the tensor-parallel size less than one step above. */
  lemma RoundUpIsUnique(x: nat, tp: nat, k: nat)
    requires tp > 0 && x <= k * tp < x + tp
    ensures k * tp == RoundUp(x, tp)
  {
    CeilDivIs(x, tp, k);
  }

  // ---------- capacity ----------

  datatype CapacityConfig = CapacityConfig(
    prefillMc2: bool, maxBatchedTokens: nat, captureSizes: bool, maxCaptureSize: nat, tpSize: nat)

  function MaxMc2Tokens(c: CapacityConfig, maxNumReqs: nat, decodeQueryLen: nat): nat {
    if c.prefillMc2 then c.maxBatchedTokens
    else if c.captureSizes then c.maxCaptureSize
    else maxNumReqs * decodeQueryLen
  }

  /** At most 512 tokens for each tensor-parallel rank. */
  function Capacity(c: CapacityConfig, maxNumReqs: nat, decodeQueryLen: nat): nat
    requires c.tpSize > 0
  {
    var perRank := CeilDiv(MaxMc2Tokens(c, maxNumReqs, decodeQueryLen), c.tpSize);
    (if perRank < 512 then perRank else 512) * c.tpSize
  }

  /** The capacity is the padded largest batch, cut off at 512 tokens for each rank. */
  lemma CapacityIsCapped(c: CapacityConfig, maxNumReqs: nat, decodeQueryLen: nat)
    requires c.tpSize > 0
    ensures var padded := RoundUp(MaxMc2Tokens(c, maxNumReqs, decodeQueryLen), c.tpSize);
            Capacity(c, maxNumReqs, decodeQueryLen) == if padded <= 512 * c.tpSize then padded else 512 * c.tpSize
  {
    CappedProduct(CeilDiv(MaxMc2Tokens(c, maxNumReqs, decodeQueryLen), c.tpSize), c.tpSize);
  }

  lemma CappedProduct(k: nat, tp: nat)
    requires tp > 0
    ensures (if k < 512 then k else 512) * tp == if k * tp <= 512 * tp then k * tp else 512 * tp
  {
    var d := 512 - k;
    assert 512 * tp == k * tp + d * tp;
    assert d >= 0 ==> d * tp >= 0;
    assert d < 0 ==> d * tp < 0;
  }

  /** Whatever fits the capacity still fits after padding. */
  lemma PaddedBatchFits(c: CapacityConfig, maxNumReqs: nat, decodeQueryLen: nat, tokens: nat)
    requires c.tpSize > 0
    ensures tokens <= Capacity(c, maxNumReqs, decodeQueryLen) <==>
            RoundUp(tokens, c.tpSize) <= Capacity(c, maxNumReqs, decodeQueryLen)
  {
    var perRank := CeilDiv(MaxMc2Tokens(c, maxNumReqs, decodeQueryLen), c.tpSize);
    var k := if perRank < 512 then perRank else 512;
    CeilDivBounds(tokens, c.tpSize);
    if tokens <= k * c.tpSize { RoundUpIsLeast(tokens, c.tpSize, k); }
  }

  // ---------- padding of a forward pass ----------

  datatype Padding = Padding(maxTokens: nat, padSize: int, paddedTokens: nat)

  function MaxOf(counts: seq<nat>): (m: nat)
    requires counts != []
    ensures m in counts && forall i :: 0 <= i < |counts| ==> counts[i] <= m
  {
    var n := |counts| - 1;
    if n == 0 then counts[0]
    else
      var rest := MaxOf(counts[..n]);
      assert forall i :: 0 <= i < n ==> counts[i] == counts[..n][i];
      if counts[n] > rest then counts[n] else rest
  }

  datatype PadConfig = PadConfig(
    isMoe: bool, isDraft: bool, sequenceParallel: bool, flashComm2: bool, tp: nat)

  /** Whether a rank pads at all: expert models follow the sequence-parallel switch, dense drafts
      never do, other models only from 1000 tokens on; FlashComm2 pads on its own. */
  predicate PadsTokens(c: PadConfig, tokens: nat) {
    || (if c.isMoe then c.sequenceParallel
        else !c.isDraft && c.sequenceParallel && tokens > 1000)
    || (c.flashComm2 && c.tp > 1)
  }

  /** The padding one rank computes, from its own count and, with several data-parallel ranks,
      the counts of all of them. */
  function ForwardPadding(c: PadConfig, tokens: nat, acrossDp: Option<seq<nat>>, dpSize: nat): Padding
    requires c.tp > 0 && (acrossDp.Some? ==> acrossDp.value != [])
  {
    var own := if PadsTokens(c, tokens) then (c.tp - tokens % c.tp) % c.tp else 0;
    if dpSize > 1 && acrossDp.Some? then
      var most := MaxOf(acrossDp.value);
      Padding(most, if PadsTokens(c, tokens) then RoundUp(most, c.tp) - tokens else own, RoundUp(most, c.tp))
    else Padding(tokens, own, RoundUp(tokens, c.tp))
  }

  /** What a pass leaves in its context; a pass without any token count leaves no padded count. */
  datatype Forward = Forward(maxTokens: Option<nat>, padSize: int, paddedTokens: Option<nat>)

  /** The count of a pass: its own, or the one of the attention metadata. */
  function CountOf(tokens: Option<nat>, attention: Option<nat>): Option<nat> {
    if tokens.Some? then tokens else attention
  }

  /** Only a pass that is given its own count pads; a count taken from the attention metadata still
      leads to the padded count. */
  function PassPadding(c: PadConfig, tokens: Option<nat>, attention: Option<nat>, acrossDp: Option<seq<nat>>, dpSize: nat)
    : Forward
    requires c.tp > 0 && (acrossDp.Some? ==> acrossDp.value != [])
  {
    if tokens.Some? then
      var p := ForwardPadding(c, tokens.value, acrossDp, dpSize);
      Forward(Some(p.maxTokens), p.padSize, Some(p.paddedTokens))
    else
      var most := if dpSize > 1 && acrossDp.Some? then Some(MaxOf(acrossDp.value)) else attention;
      Forward(most, 0, if attention.Some? then Some(RoundUp(most.value, c.tp)) else None)
  }

  /** A rank's own padding is what is missing to the next multiple. */
  lemma OwnPadding(x: nat, tp: nat)
    requires tp > 0
    ensures x + (tp - x % tp) % tp == RoundUp(x, tp)
  {
    var q, r := x / tp, x % tp;
    assert x == q * tp + r;
    var k := if r == 0 then q else q + 1;
    assert (q + 1) * tp == q * tp + tp;
    RoundUpIsUnique(x, tp, k);
    Missing(r, tp);
  }

  lemma Missing(r: nat, tp: nat)
    requires r < tp
    ensures (tp - r) % tp == if r == 0 then 0 else tp - r
  {
  }

  function Padded(c: PadConfig, counts: seq<nat>, r: nat): int
    requires c.tp > 0 && r < |counts|
  {
    counts[r] + ForwardPadding(c, counts[r], Some(counts), |counts|).padSize
  }

  /** A rank that pads ends at the least multiple of the tensor-parallel size that holds the
      largest batch of its data-parallel group; a rank that does not pad stays at its own count. */
  lemma RankIsPadded(c: PadConfig, counts: seq<nat>, r: nat)
    requires c.tp > 0 && r < |counts|
    ensures Padded(c, counts, r) >= counts[r]
    ensures PadsTokens(c, counts[r]) ==> Padded(c, counts, r) == RoundUp(MaxOf(counts), c.tp)
    ensures !PadsTokens(c, counts[r]) ==> Padded(c, counts, r) == counts[r]
    ensures ForwardPadding(c, counts[r], Some(counts), |counts|).paddedTokens == RoundUp(MaxOf(counts), c.tp)
  {
    CeilDivBounds(MaxOf(counts), c.tp);
    OwnPadding(counts[r], c.tp);
    if |counts| == 1 { assert MaxOf(counts) == counts[0]; }
  }

  /** All ranks end at that common length exactly when each of them pads or already has it. In a
      dense model the switch looks at a rank's own count, so a group with counts on both sides of
      1000 does not end at one length. */
  lemma GroupIsPaddedAlikeIff(c: PadConfig, counts: seq<nat>)
    requires c.tp > 0 && counts != []
    ensures var common := RoundUp(MaxOf(counts), c.tp);
            (forall r :: 0 <= r < |counts| ==> Padded(c, counts, r) == common) <==>
            (forall r :: 0 <= r < |counts| ==> PadsTokens(c, counts[r]) || counts[r] == common)
    ensures RoundUp(MaxOf(counts), c.tp) % c.tp == 0
  {
    RoundUpIsMultiple(MaxOf(counts), c.tp);
    forall r | 0 <= r < |counts|
      ensures Padded(c, counts, r) == RoundUp(MaxOf(counts), c.tp) <==>
              PadsTokens(c, counts[r]) || counts[r] == RoundUp(MaxOf(counts), c.tp)
    {
      RankIsPadded(c, counts, r);
    }
  }

  lemma DenseGroupSplits()
    ensures var c := PadConfig(false, false, true, false, 2);
            Padded(c, [900, 1101], 0) == 900 && Padded(c, [900, 1101], 1) == 1102
  {
    var c, counts := PadConfig(false, false, true, false, 2), [900, 1101];
    assert MaxOf(counts) == 1101 by { assert counts[1] == 1101; }
    RankIsPadded(c, counts, 0);
    RankIsPadded(c, counts, 1);
    assert RoundUp(1101, 2) == 1102;
  }

  // ---------- set-once globals and the shared mask ----------

  class Mc2State {
    var capacity: Option<nat>
    var mask: array?<bool>
    var forward: Forward

    constructor ()
      ensures capacity == None && mask == null && forward == Forward(None, 0, None)
    {
      capacity := None;
      mask := null;
      forward := Forward(None, 0, None);
    }

    /** The first call decides the capacity; later calls change nothing. */
    method SetCapacity(c: CapacityConfig, maxNumReqs: nat, decodeQueryLen: nat)
      requires c.tpSize > 0
      modifies this`capacity
      ensures old(capacity).Some? ==> capacity == old(capacity)
      ensures old(capacity).None? ==> capacity == Some(Capacity(c, maxNumReqs, decodeQueryLen))
    {
      if capacity.Some? {
        return;
      }
      var most := if c.prefillMc2 then c.maxBatchedTokens
                  else if c.captureSizes then c.maxCaptureSize else maxNumReqs * decodeQueryLen;
      var perRank := (most + c.tpSize - 1) / c.tpSize;
      if perRank > 512 {
        perRank := 512;
      }
      capacity := Some(perRank * c.tpSize);
    }

    method SetMask(isMoe: bool, maxBatchedTokens: nat)
      modifies this`mask
      ensures old(mask) != null ==> mask == old(mask)
      ensures old(mask) == null && !isMoe ==> mask == null
      ensures old(mask) == null && isMoe ==>
                mask != null && fresh(mask) && mask.Length == maxBatchedTokens &&
                forall i :: 0 <= i < mask.Length ==> !mask[i]
    {
      if mask != null || !isMoe {
        return;
      }
      mask := new bool[maxBatchedTokens](_ => false);
    }

    /** Rewrite the shared mask for one forward pass and return the length of the view. */
    method UpdateMask(padded: nat, actual: nat) returns (view: nat)
      requires mask != null
      modifies mask
      ensures view == if padded < mask.Length then padded else mask.Length
      ensures forall i :: 0 <= i < view ==> (mask[i] <==> i < actual)
      ensures forall i :: view <= i < mask.Length ==> mask[i] == old(mask[i])
    {
      view := if padded < mask.Length then padded else mask.Length;
      var split := if actual < view then actual else view;
      for i := 0 to split
        invariant forall k :: 0 <= k < i ==> mask[k]
        invariant forall k :: view <= k < mask.Length ==> mask[k] == old(mask[k])
      {
        mask[i] := true;
      }
      for i := split to view
        invariant forall k :: 0 <= k < split ==> mask[k]
        invariant forall k :: split <= k < i ==> !mask[k]
        invariant forall k :: view <= k < mask.Length ==> mask[k] == old(mask[k])
      {
        mask[i] := false;
      }
    }

    /** Enter a forward pass: work out the padding, then mark the actual tokens in the shared mask,
        whatever earlier passes left there; without any count the mask is left alone. */
    method EnterForward(c: PadConfig, tokens: Option<nat>, attention: Option<nat>, acrossDp: Option<seq<nat>>,
                        dpSize: nat, actual: Option<nat>)
      returns (view: Option<nat>)
      requires c.tp > 0 && (acrossDp.Some? ==> acrossDp.value != [])
      modifies this`forward, if mask == null then {} else {mask}
      ensures forward == PassPadding(c, tokens, attention, acrossDp, dpSize)
      ensures view.Some? <==> mask != null && CountOf(tokens, attention).Some?
      ensures view.Some? ==>
                var marked := if actual.Some? then actual.value else CountOf(tokens, attention).value;
                && view.value == Min(forward.paddedTokens.value, mask.Length)
                && (forall i :: 0 <= i < view.value ==> (mask[i] <==> i < marked))
                && forall i :: view.value <= i < mask.Length ==> mask[i] == old(mask[i])
      ensures view.None? && mask != null ==> mask[..] == old(mask[..])
    {
      var pads := tokens.Some? && PadsTokens(c, tokens.value);
      var padSize: int := 0;
      if pads {
        padSize := (c.tp - tokens.value % c.tp) % c.tp;
      }
      var count := if tokens.None? then attention else tokens;
      var most := count;
      if dpSize > 1 && acrossDp.Some? {
        most := Some(MaxOf(acrossDp.value));
        if pads {
          padSize := (most.value + c.tp - 1) / c.tp * c.tp - count.value;
        }
      }
      forward := Forward(most, padSize, None);
      view := None;
      if count.Some? {
        forward := forward.(paddedTokens := Some(CeilDiv(most.value, c.tp) * c.tp));
        if mask != null {
          var length := UpdateMask(forward.paddedTokens.value, if actual.Some? then actual.value else count.value);
          view := Some(length);
        }
      }
    }
  }
}
