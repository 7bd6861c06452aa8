/** Which MoE communication method a rank selects, and when ranks may stop synchronising. */
module MoeComm {
  import opened Arithmetic
  import opened Wrappers

  datatype Device = A2 | A3 | Ascend310P | A5

  datatype CommType = AllGather | Mc2 | AllToAll | FusedMc2

  datatype Config = Config(
    isMoe: bool, drafterIsMoe: bool, device: Device,
    expertParallel: bool, epWorldSize: nat, worldAcrossDp: nat, pipelineSize: nat,
    numExperts: nat, expertsPerToken: nat,
    fusedMc2: int, gmmCombineDecode: bool, w8a8Dynamic: bool,
    hierarchical: bool, kvConsumer: bool, recomputeScheduler: bool,
    maxBatchedTokens: nat, maxNumSeqs: nat, decodeMaxNumSeqs: nat, speculativeTokens: Option<nat>,
    captureSizes: bool, maxCaptureSize: nat)

  /** World sizes are positive and the pipeline splits the world. */
  predicate WfConfig(c: Config) {
    0 < c.pipelineSize <= c.worldAcrossDp
  }

  // ---------- selection ----------

  function SelectA2(c: Config, capacity: nat, tokens: nat): CommType
    requires WfConfig(c)
  {
    var epSize := c.worldAcrossDp / c.pipelineSize;
    PositiveQuotient(c.worldAcrossDp, c.pipelineSize);
    if c.numExperts / epSize <= 24 && epSize >= 16 && tokens <= capacity then Mc2 else AllGather
  }

  lemma PositiveQuotient(a: nat, b: nat)
    requires 0 < b <= a
    ensures a / b >= 1
  {
    var q := a / b;
    assert a == b * q + a % b;
    assert q <= 0 ==> b * q <= 0;
  }

  function SelectA3(c: Config, capacity: nat, tokens: nat): CommType {
    var dispatchFfnCombine := c.epWorldSize <= 32;
    if tokens <= capacity then
      var fused :=
        if c.fusedMc2 == 1 then dispatchFfnCombine
        else if c.fusedMc2 == 2 then c.gmmCombineDecode && c.w8a8Dynamic
        else c.fusedMc2 != 0;
      if fused then FusedMc2 else Mc2
    else
      var fused :=
        if c.fusedMc2 == 1 then dispatchFfnCombine
        else if c.fusedMc2 == 2 then false
        else c.fusedMc2 != 0;
      if fused then FusedMc2 else AllToAll
  }

  function SelectA5(c: Config, capacity: nat, tokens: nat): CommType {
    if tokens <= capacity && c.worldAcrossDp > 1 then Mc2
    else if c.worldAcrossDp <= c.expertsPerToken then AllGather
    else AllToAll
  }

  /** The method a rank selects for its token count; none for a model without experts. */
  function Select(c: Config, capacity: nat, tokens: nat): Option<CommType>
    requires WfConfig(c)
  {
    if !c.isMoe then None
    else if !c.expertParallel || c.epWorldSize == 1 then Some(AllGather)
    else
      match c.device
      case A2 => Some(SelectA2(c, capacity, tokens))
      case A3 => Some(SelectA3(c, capacity, tokens))
      case Ascend310P => Some(AllGather)
      case A5 => Some(SelectA5(c, capacity, tokens))
  }

  predicate NeedsMc2(c: Config, capacity: nat, tokens: nat)
    requires WfConfig(c)
  {
    Select(c, capacity, tokens) in {Some(Mc2), Some(FusedMc2)}
  }

  // ---------- skipping the all-reduce ----------

  function DecodeQueryLen(c: Config): nat {
    match c.speculativeTokens
    case None => 1
    case Some(n) => 1 + n
  }

  /** The largest decode batch the configuration is taken to produce. */
  function PotentialMaxTokens(c: Config): nat {
    var reqs := Max(c.maxNumSeqs, c.decodeMaxNumSeqs);
    if c.captureSizes then
      Max(c.maxCaptureSize, Min(c.maxBatchedTokens, c.maxNumSeqs * DecodeQueryLen(c)))
    else Min(reqs * DecodeQueryLen(c), 512)
  }

  function SkipAllReduce(c: Config, capacity: nat, isDraft: bool): bool
    requires WfConfig(c)
  {
    if c.hierarchical then false
    else if !(if isDraft then c.drafterIsMoe else c.isMoe) then true
    else if !c.kvConsumer then false
    else
      var decode := NeedsMc2(c, capacity, PotentialMaxTokens(c));
      var prefill := NeedsMc2(c, capacity, c.maxBatchedTokens);
      decode && (prefill || c.recomputeScheduler)
  }

  /** Every two ranks with batches up to `bound` tokens select the same method. */
  ghost predicate RanksAgree(c: Config, capacity: nat, bound: nat)
    requires WfConfig(c)
  {
    forall counts: seq<nat>, r: nat, q: nat ::
      (r < |counts| && q < |counts| && counts[r] <= bound && counts[q] <= bound) ==>
        Select(c, capacity, counts[r]) == Select(c, capacity, counts[q])
  }

  /** A method of the MC2 family at some batch size is selected at every smaller one too. */
  lemma Mc2IsDownwardClosed(c: Config, capacity: nat, bound: nat, tokens: nat)
    requires WfConfig(c) && NeedsMc2(c, capacity, bound) && tokens <= bound
    ensures Select(c, capacity, tokens) == Select(c, capacity, bound)
  {
  }

  lemma AgreeUpTo(c: Config, capacity: nat, bound: nat)
    requires WfConfig(c) && NeedsMc2(c, capacity, bound)
    ensures RanksAgree(c, capacity, bound)
  {
    forall counts: seq<nat>, r: nat, q: nat |
      r < |counts| && q < |counts| && counts[r] <= bound && counts[q] <= bound
      ensures Select(c, capacity, counts[r]) == Select(c, capacity, counts[q])
    {
      Mc2IsDownwardClosed(c, capacity, bound, counts[r]);
      Mc2IsDownwardClosed(c, capacity, bound, counts[q]);
    }
  }

  /** With decode on MC2, ranks agree on every batch up to the larger bound exactly when
      prefill is on MC2 as well. */
  lemma AgreementIff(c: Config, capacity: nat, decode: nat, prefill: nat)
    requires WfConfig(c) && NeedsMc2(c, capacity, decode)
    ensures RanksAgree(c, capacity, Max(decode, prefill)) <==> NeedsMc2(c, capacity, prefill)
  {
    if NeedsMc2(c, capacity, prefill) {
      AgreeUpTo(c, capacity, Max(decode, prefill));
    } else {
      var counts := [decode, prefill];
      assert counts[0] == decode && counts[1] == prefill;
      assert Select(c, capacity, counts[0]) != Select(c, capacity, counts[1]);
    }
  }

  /** When the all-reduce is skipped for a model with experts, ranks agree on all decode-sized
      batches; on all batches exactly when prefill needs MC2 (the recompute scheduler alone
      does not give that). */
  lemma SkippingIsSafe(c: Config, capacity: nat, isDraft: bool)
    requires WfConfig(c) && SkipAllReduce(c, capacity, isDraft)
    requires if isDraft then c.drafterIsMoe else c.isMoe
    ensures RanksAgree(c, capacity, PotentialMaxTokens(c))
    ensures RanksAgree(c, capacity, Max(PotentialMaxTokens(c), c.maxBatchedTokens)) <==>
            NeedsMc2(c, capacity, c.maxBatchedTokens)
    ensures !c.recomputeScheduler ==>
              RanksAgree(c, capacity, Max(PotentialMaxTokens(c), c.maxBatchedTokens))
  {
    AgreeUpTo(c, capacity, PotentialMaxTokens(c));
    AgreementIff(c, capacity, PotentialMaxTokens(c), c.maxBatchedTokens);
  }

  /** An A3 decode node with the recompute scheduler. */
  function RecomputeNode(): Config {
    Config(true, false, A3, true, 16, 16, 1, 256, 8, 0, false, false, false, true, true, 8192, 16, 0, None, true, 64)
  }

  /** It skips the all-reduce, and a rank with a prefill batch selects another method than a rank with
      a decode batch. */
  lemma RecomputeRanksDisagree()
    ensures WfConfig(RecomputeNode()) && SkipAllReduce(RecomputeNode(), 512, false)
    ensures Select(RecomputeNode(), 512, 64) == Some(Mc2) && Select(RecomputeNode(), 512, 8192) == Some(AllToAll)
    ensures !RanksAgree(RecomputeNode(), 512, 8192)
  {
    var counts: seq<nat> := [64, 8192];
    assert counts[0] == 64 && counts[1] == 8192;
    assert Select(RecomputeNode(), 512, counts[0]) != Select(RecomputeNode(), 512, counts[1]);
  }

  // ---------- is the decode bound one? ----------

  /** The largest batch of one decode step: every request brings its query tokens, within the
      batched-token limit.  Requests are counted as the bound itself counts them. */
  function LargestDecode(c: Config): nat {
    Min(c.maxBatchedTokens, Max(c.maxNumSeqs, c.decodeMaxNumSeqs) * DecodeQueryLen(c))
  }

  lemma MoreSeqsMoreTokens(a: nat, b: nat, n: nat)
    requires n > 0
    ensures a * n <= b * n <==> a <= b
  {
    assert a < b ==> (a + 1) * n <= b * n;
    assert b < a ==> (b + 1) * n <= a * n;
  }

  /** The computed bound covers every decode batch exactly when: with graph capture sizes, decode
      has no more requests of its own, or the batched-token limit comes first, or the largest capture
      size is enough; without them, a decode batch cannot exceed the cap of 512. */
  lemma BoundCoversDecodeIff(c: Config)
    ensures LargestDecode(c) <= PotentialMaxTokens(c) <==>
            if c.captureSizes then
              || c.decodeMaxNumSeqs <= c.maxNumSeqs
              || c.maxBatchedTokens <= c.maxNumSeqs * DecodeQueryLen(c)
              || LargestDecode(c) <= c.maxCaptureSize
            else LargestDecode(c) <= 512
  {
    MoreSeqsMoreTokens(Max(c.maxNumSeqs, c.decodeMaxNumSeqs), c.maxNumSeqs, DecodeQueryLen(c));
  }

  /** Decode requests of their own are not in the bound that capture sizes give. */
  lemma CaptureBoundIsTooSmall(c: Config)
    requires c == RecomputeNode().(decodeMaxNumSeqs := 256)
    ensures WfConfig(c) && PotentialMaxTokens(c) == 64 && LargestDecode(c) == 256
  {
  }

  /** Without capture sizes the bound is cut at 512. */
  lemma CappedBoundIsTooSmall(c: Config)
    requires c == RecomputeNode().(captureSizes := false, maxNumSeqs := 1024)
    ensures WfConfig(c) && PotentialMaxTokens(c) == 512 && LargestDecode(c) == 1024
  {
  }
}
