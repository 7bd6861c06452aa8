/** Coalescing of block-copy pairs into contiguous spans. */
module BlockSpans {

  datatype Pair = Pair(src: int, dst: int)

  datatype Span = Span(src: int, dst: int, len: nat)

  // ---------- what a span list stands for ----------

  function SpanPairs(s: Span): (ps: seq<Pair>)
    ensures |ps| == s.len
    ensures forall i :: 0 <= i < s.len ==> ps[i] == Pair(s.src + i, s.dst + i)
  {
    seq(s.len, i => Pair(s.src + i, s.dst + i))
  }

  /** The pairs of the first `k` spans, one span after the other. */
  function ExpandTo(spans: seq<Span>, k: nat): seq<Pair>
    requires k <= |spans|
  {
    if k == 0 then [] else ExpandTo(spans, k - 1) + SpanPairs(spans[k - 1])
  }

  function Expand(spans: seq<Span>): seq<Pair> {
    ExpandTo(spans, |spans|)
  }

  predicate Follows(s: Span, p: Pair) {
    p.src == s.src + s.len && p.dst == s.dst + s.len
  }

  /** No span is empty and no span continues the one before it. */
  predicate Canonical(spans: seq<Span>) {
    && (forall i :: 0 <= i < |spans| ==> spans[i].len >= 1)
    && (forall i, j :: 0 <= i < |spans| && j == i + 1 < |spans| ==>
          !Follows(spans[i], Pair(spans[j].src, spans[j].dst)))
  }

  /** The pairs from index `m` on start with the pairs of `s`. */
  predicate RunAt(pairs: seq<Pair>, m: nat, s: Span) {
    && m + s.len <= |pairs|
    && forall i :: m <= i < m + s.len ==> pairs[i] == Pair(s.src + i - m, s.dst + i - m)
  }

  lemma {:induction false} ExpandPrefix(a: seq<Span>, b: seq<Span>, k: nat)
    requires k <= |a| && k <= |b| && forall i :: 0 <= i < k ==> a[i] == b[i]
    ensures ExpandTo(a, k) == ExpandTo(b, k)
  {
    if k > 0 { ExpandPrefix(a, b, k - 1); }
  }

  function Offset(spans: seq<Span>, k: nat): nat
    requires k <= |spans|
  {
    if k == 0 then 0 else Offset(spans, k - 1) + spans[k - 1].len
  }

  lemma {:induction false} OffsetsGrow(spans: seq<Span>, k: nat, n: nat)
    requires k <= n <= |spans|
    ensures Offset(spans, k) <= Offset(spans, n)
  {
    if k < n { OffsetsGrow(spans, k, n - 1); }
  }

  lemma {:induction false} ExpandLength(spans: seq<Span>, k: nat)
    requires k <= |spans|
    ensures |ExpandTo(spans, k)| == Offset(spans, k)
  {
    if k > 0 { ExpandLength(spans, k - 1); }
  }

  lemma {:induction false} ExpandRun(spans: seq<Span>, k: nat, n: nat)
    requires k < n <= |spans|
    ensures RunAt(ExpandTo(spans, n), Offset(spans, k), spans[k])
  {
    ExpandLength(spans, n - 1);
    OffsetsGrow(spans, k, n);
    var a, b := ExpandTo(spans, n - 1), ExpandTo(spans, n);
    assert forall i :: 0 <= i < |a| ==> b[i] == a[i];
    if k + 1 < n { ExpandRun(spans, k, n - 1); }
  }

  /** The pairs of span `k` sit at its offset in the expansion. */
  lemma RunInExpansion(pairs: seq<Pair>, spans: seq<Span>, k: nat)
    requires pairs == Expand(spans) && k < |spans|
    ensures RunAt(pairs, Offset(spans, k), spans[k])
    ensures Offset(spans, k + 1) == Offset(spans, k) + spans[k].len <= |pairs|
  {
    ExpandRun(spans, k, |spans|);
  }

  // ---------- coalescing ----------

  function Join(spans: seq<Span>, p: Pair): seq<Span> {
    var n := |spans| - 1;
    if spans != [] && Follows(spans[n], p) then spans[n := spans[n].(len := spans[n].len + 1)]
    else spans + [Span(p.src, p.dst, 1)]
  }

  /** The spans of the first `n` pairs. */
  function CoalesceTo(pairs: seq<Pair>, n: nat): seq<Span>
    requires n <= |pairs|
  {
    if n == 0 then [] else Join(CoalesceTo(pairs, n - 1), pairs[n - 1])
  }

  function Coalesced(pairs: seq<Pair>): seq<Span> {
    CoalesceTo(pairs, |pairs|)
  }

  method Coalesce(pairs: seq<Pair>) returns (spans: seq<Span>)
    ensures spans == Coalesced(pairs)
    ensures Expand(spans) == pairs && Canonical(spans)
  {
    CoalescedIsFaithful(pairs);
    if pairs == [] {
      return [];
    }
    spans := [];
    var srcStart, dstStart := pairs[0].src, pairs[0].dst;
    var srcPrev, dstPrev := srcStart, dstStart;
    var len := 1;
    for i := 1 to |pairs|
      invariant len >= 1 && srcPrev == srcStart + len - 1 && dstPrev == dstStart + len - 1
      invariant spans + [Span(srcStart, dstStart, len)] == CoalesceTo(pairs, i)
    {
      var src, dst := pairs[i].src, pairs[i].dst;
      if src == srcPrev + 1 && dst == dstPrev + 1 {
        len := len + 1;
      } else {
        spans := spans + [Span(srcStart, dstStart, len)];
        srcStart, dstStart := src, dst;
        len := 1;
      }
      srcPrev, dstPrev := src, dst;
    }
    spans := spans + [Span(srcStart, dstStart, len)];
  }

  lemma JoinExpands(c: seq<Span>, p: Pair)
    ensures Expand(Join(c, p)) == Expand(c) + [p]
  {
    var joined := Join(c, p);
    if c != [] && Follows(c[|c| - 1], p) {
      ExpandPrefix(c, joined, |c| - 1);
      assert SpanPairs(joined[|c| - 1]) == SpanPairs(c[|c| - 1]) + [p];
    } else {
      ExpandPrefix(c, joined, |c|);
      assert SpanPairs(Span(p.src, p.dst, 1)) == [p];
    }
  }

  lemma {:induction false} CoalesceExpands(pairs: seq<Pair>, n: nat)
    requires n <= |pairs|
    ensures Expand(CoalesceTo(pairs, n)) == pairs[..n]
  {
    if n > 0 {
      CoalesceExpands(pairs, n - 1);
      JoinExpands(CoalesceTo(pairs, n - 1), pairs[n - 1]);
    }
  }

  lemma JoinIsCanonical(c: seq<Span>, p: Pair)
    requires Canonical(c)
    ensures Canonical(Join(c, p))
  {
  }

  lemma {:induction false} CoalesceIsCanonical(pairs: seq<Pair>, n: nat)
    requires n <= |pairs|
    ensures Canonical(CoalesceTo(pairs, n))
  {
    if n > 0 {
      CoalesceIsCanonical(pairs, n - 1);
      JoinIsCanonical(CoalesceTo(pairs, n - 1), pairs[n - 1]);
    }
  }

  // ---------- canonical span lists are the fixed points ----------

  lemma JoinGrows(c: seq<Span>, t: Span, p: Pair)
    requires Follows(t, p)
    ensures Join(c + [t], p) == c + [t.(len := t.len + 1)]
  {
  }

  lemma {:induction false} CoalesceRun(pairs: seq<Pair>, m: nat, c: seq<Span>, s: Span)
    requires RunAt(pairs, m, s) && s.len >= 1 && CoalesceTo(pairs, m) == c
    requires c != [] ==> !Follows(c[|c| - 1], Pair(s.src, s.dst))
    ensures CoalesceTo(pairs, m + s.len) == c + [s]
    decreases s.len
  {
    if s.len > 1 {
      var t := s.(len := s.len - 1);
      CoalesceRun(pairs, m, c, t);
      JoinGrows(c, t, pairs[m + t.len]);
    }
  }

  lemma TakeNext<T>(s: seq<T>, k: nat)
    requires 0 < k <= |s|
    ensures s[..k - 1] + [s[k - 1]] == s[..k]
  {
  }

  lemma {:induction false} CoalesceLaidOut(pairs: seq<Pair>, spans: seq<Span>, k: nat)
    requires Canonical(spans) && pairs == Expand(spans) && k <= |spans| && Offset(spans, k) <= |pairs|
    ensures CoalesceTo(pairs, Offset(spans, k)) == spans[..k]
  {
    if k > 0 {
      var s, m := spans[k - 1], Offset(spans, k - 1);
      RunInExpansion(pairs, spans, k - 1);
      CoalesceLaidOut(pairs, spans, k - 1);
      assert CoalesceTo(pairs, m + s.len) == spans[..k - 1] + [s] by { CoalesceRun(pairs, m, spans[..k - 1], s); }
      TakeNext(spans, k);
    }
  }

  /** Coalescing gives a span list back exactly when it was canonical. */
  lemma CoalesceIsInverseIff(spans: seq<Span>)
    ensures Coalesced(Expand(spans)) == spans <==> Canonical(spans)
  {
    var pairs := Expand(spans);
    CoalesceIsCanonical(pairs, |pairs|);
    if Canonical(spans) {
      ExpandLength(spans, |spans|);
      CoalesceLaidOut(pairs, spans, |spans|);
    }
  }

  // ---------- optimality ----------

  lemma {:induction false} RunAddsAtMostOne(pairs: seq<Pair>, m: nat, s: Span)
    requires RunAt(pairs, m, s)
    ensures var c := CoalesceTo(pairs, m + s.len);
            && |c| <= |CoalesceTo(pairs, m)| + 1
            && (s.len >= 1 ==> c != [] && Follows(c[|c| - 1], Pair(s.src + s.len, s.dst + s.len)))
    decreases s.len
  {
    if s.len > 0 {
      RunAddsAtMostOne(pairs, m, s.(len := s.len - 1));
    }
  }

  lemma {:induction false} PrefixIsShortest(pairs: seq<Pair>, spans: seq<Span>, k: nat)
    requires pairs == Expand(spans) && k <= |spans| && Offset(spans, k) <= |pairs|
    ensures |CoalesceTo(pairs, Offset(spans, k))| <= k
  {
    if k > 0 {
      RunInExpansion(pairs, spans, k - 1);
      PrefixIsShortest(pairs, spans, k - 1);
      RunAddsAtMostOne(pairs, Offset(spans, k - 1), spans[k - 1]);
    }
  }

  /** No span list with the same expansion is shorter than the coalesced one. */
  lemma CoalesceIsShortest(pairs: seq<Pair>, spans: seq<Span>)
    requires Expand(spans) == pairs
    ensures |Coalesced(pairs)| <= |spans|
  {
    ExpandLength(spans, |spans|);
    PrefixIsShortest(pairs, spans, |spans|);
  }

  // ---------- copying ----------

  predicate PairFits(p: Pair, srcLen: nat, dstLen: nat) {
    0 <= p.src < srcLen && 0 <= p.dst < dstLen
  }

  ghost predicate PairsFit(pairs: seq<Pair>, srcLen: nat, dstLen: nat) {
    forall i :: 0 <= i < |pairs| ==> PairFits(pairs[i], srcLen, dstLen)
  }

  predicate SpanFits(s: Span, srcLen: nat, dstLen: nat) {
    0 <= s.src && s.src + s.len <= srcLen && 0 <= s.dst && s.dst + s.len <= dstLen
  }

  ghost predicate SpansFit(spans: seq<Span>, srcLen: nat, dstLen: nat) {
    forall i :: 0 <= i < |spans| ==> SpanFits(spans[i], srcLen, dstLen)
  }

  /** Copy the first `n` blocks one by one, in order; the last pair with a destination wins. */
  ghost function CopyPairs<T>(dst: seq<T>, src: seq<T>, pairs: seq<Pair>, n: nat): (r: seq<T>)
    requires n <= |pairs| && PairsFit(pairs, |src|, |dst|)
    ensures |r| == |dst|
  {
    if n == 0 then dst
    else
      assert PairFits(pairs[n - 1], |src|, |dst|);
      CopyPairs(dst, src, pairs, n - 1)[pairs[n - 1].dst := src[pairs[n - 1].src]]
  }

  function CopySpan<T>(dst: seq<T>, src: seq<T>, s: Span): (r: seq<T>)
    requires SpanFits(s, |src|, |dst|)
    ensures |r| == |dst|
  {
    dst[..s.dst] + src[s.src..s.src + s.len] + dst[s.dst + s.len..]
  }

  ghost function CopySpans<T>(dst: seq<T>, src: seq<T>, spans: seq<Span>, k: nat): (r: seq<T>)
    requires k <= |spans| && SpansFit(spans, |src|, |dst|)
    ensures |r| == |dst|
  {
    if k == 0 then dst
    else
      assert SpanFits(spans[k - 1], |src|, |dst|);
      CopySpan(CopySpans(dst, src, spans, k - 1), src, spans[k - 1])
  }

  lemma CopySpanGrows<T>(dst: seq<T>, src: seq<T>, s: Span, t: Span)
    requires SpanFits(s, |src|, |dst|) && s.len > 0 && t == s.(len := s.len - 1)
    ensures CopySpan(dst, src, s) == CopySpan(dst, src, t)[s.dst + t.len := src[s.src + t.len]]
  {
  }

  /** The first n blocks of a span. */
  function Part(s: Span, n: nat): Span {
    s.(len := n)
  }

  lemma EmptyPartCopies<T>(d: seq<T>, src: seq<T>, s: Span)
    requires SpanFits(s, |src|, |d|)
    ensures CopySpan(d, src, Part(s, 0)) == d
  {
  }

  lemma PartGrows<T>(d: seq<T>, src: seq<T>, s: Span, n: nat)
    requires SpanFits(s, |src|, |d|) && n < s.len
    ensures CopySpan(d, src, Part(s, n + 1)) == CopySpan(d, src, Part(s, n))[s.dst + n := src[s.src + n]]
  {
    CopySpanGrows(d, src, Part(s, n + 1), Part(s, n));
  }

  lemma CopyOneMore<T>(dst: seq<T>, src: seq<T>, pairs: seq<Pair>, at: nat, p: Pair)
    requires PairsFit(pairs, |src|, |dst|) && at < |pairs| && pairs[at] == p && PairFits(p, |src|, |dst|)
    ensures CopyPairs(dst, src, pairs, at + 1) == CopyPairs(dst, src, pairs, at)[p.dst := src[p.src]]
  {
  }

  lemma {:induction false} CopyPart<T>(dst: seq<T>, src: seq<T>, pairs: seq<Pair>, m: nat, s: Span, n: nat, d: seq<T>)
    requires PairsFit(pairs, |src|, |dst|) && RunAt(pairs, m, s) && SpanFits(s, |src|, |dst|) && n <= s.len
    requires m <= |pairs| && d == CopyPairs(dst, src, pairs, m)
    ensures CopyPairs(dst, src, pairs, m + n) == CopySpan(d, src, Part(s, n))
  {
    if n == 0 {
      EmptyPartCopies(d, src, s);
    } else {
      CopyPart(dst, src, pairs, m, s, n - 1, d);
      CopyOneMore(dst, src, pairs, m + n - 1, Pair(s.src + n - 1, s.dst + n - 1));
      PartGrows(d, src, s, n - 1);
    }
  }

  lemma CopyRun<T>(dst: seq<T>, src: seq<T>, pairs: seq<Pair>, m: nat, s: Span)
    requires PairsFit(pairs, |src|, |dst|) && RunAt(pairs, m, s) && SpanFits(s, |src|, |dst|)
    ensures CopyPairs(dst, src, pairs, m + s.len) == CopySpan(CopyPairs(dst, src, pairs, m), src, s)
  {
    CopyPart(dst, src, pairs, m, s, s.len, CopyPairs(dst, src, pairs, m));
  }

  /** Running the span copies in order leaves what copying pair by pair leaves, also when
      destinations repeat. */
  lemma {:induction false} CopySpansIsPairs<T>(dst: seq<T>, src: seq<T>, pairs: seq<Pair>, spans: seq<Span>, k: nat)
    requires SpansFit(spans, |src|, |dst|) && PairsFit(pairs, |src|, |dst|)
    requires pairs == Expand(spans) && k <= |spans| && Offset(spans, k) <= |pairs|
    ensures CopySpans(dst, src, spans, k) == CopyPairs(dst, src, pairs, Offset(spans, k))
  {
    if k > 0 {
      RunInExpansion(pairs, spans, k - 1);
      CopySpansIsPairs(dst, src, pairs, spans, k - 1);
      CopyRun(dst, src, pairs, Offset(spans, k - 1), spans[k - 1]);
    }
  }

  lemma RunFits(pairs: seq<Pair>, m: nat, s: Span, srcLen: nat, dstLen: nat)
    requires RunAt(pairs, m, s) && s.len >= 1 && PairsFit(pairs, srcLen, dstLen)
    ensures SpanFits(s, srcLen, dstLen)
  {
    assert PairFits(pairs[m], srcLen, dstLen) && PairFits(pairs[m + s.len - 1], srcLen, dstLen);
  }

  lemma CanonicalFits(pairs: seq<Pair>, spans: seq<Span>, srcLen: nat, dstLen: nat)
    requires pairs == Expand(spans) && Canonical(spans) && PairsFit(pairs, srcLen, dstLen)
    ensures SpansFit(spans, srcLen, dstLen)
  {
    forall i | 0 <= i < |spans| ensures SpanFits(spans[i], srcLen, dstLen) {
      RunInExpansion(pairs, spans, i);
      RunFits(pairs, Offset(spans, i), spans[i], srcLen, dstLen);
    }
  }

  lemma CanonicalCopyIsBlockCopy<T>(dst: seq<T>, src: seq<T>, pairs: seq<Pair>, spans: seq<Span>)
    requires PairsFit(pairs, |src|, |dst|) && pairs == Expand(spans) && Canonical(spans)
    ensures SpansFit(spans, |src|, |dst|)
    ensures CopySpans(dst, src, spans, |spans|) == CopyPairs(dst, src, pairs, |pairs|)
  {
    CanonicalFits(pairs, spans, |src|, |dst|);
    assert Offset(spans, |spans|) == |pairs| by { ExpandLength(spans, |spans|); }
    CopySpansIsPairs(dst, src, pairs, spans, |spans|);
  }

  /** Coalescing loses nothing and leaves a canonical list. */
  lemma CoalescedIsFaithful(pairs: seq<Pair>)
    ensures Expand(Coalesced(pairs)) == pairs && Canonical(Coalesced(pairs))
  {
    CoalesceExpands(pairs, |pairs|);
    CoalesceIsCanonical(pairs, |pairs|);
    assert pairs[..|pairs|] == pairs;
  }

  /** Coalescing a mapping and copying its spans is copying the mapping block by block. */
  lemma CoalescedCopyIsBlockCopy<T>(dst: seq<T>, src: seq<T>, pairs: seq<Pair>, spans: seq<Span>)
    requires PairsFit(pairs, |src|, |dst|) && spans == Coalesced(pairs)
    ensures SpansFit(spans, |src|, |dst|)
    ensures CopySpans(dst, src, spans, |spans|) == CopyPairs(dst, src, pairs, |pairs|)
  {
    CoalescedIsFaithful(pairs);
    CanonicalCopyIsBlockCopy(dst, src, pairs, spans);
  }

  // ---------- the copy loop ----------

  ghost function Row<T>(out: array2<T>, part: nat): seq<T>
    requires part < out.Length0
    reads out
  {
    seq(out.Length1, j requires 0 <= j < out.Length1 reads out => out[part, j])
  }

  /** Copy every span into every part of the destination, span by span. */
  method SpanCopy<T>(out: array2<T>, source: seq<seq<T>>, spans: seq<Span>)
    requires |source| == out.Length0
    requires forall p :: 0 <= p < |source| ==> SpansFit(spans, |source[p]|, out.Length1)
    modifies out
    ensures forall p :: 0 <= p < |source| ==>
              Row(out, p) == CopySpans(old(Row(out, p)), source[p], spans, |spans|)
  {
    for n := 0 to |spans|
      invariant forall p :: 0 <= p < |source| ==> Row(out, p) == CopySpans(old(Row(out, p)), source[p], spans, n)
    {
      for part := 0 to |source|
        invariant forall p :: part <= p < |source| ==>
                    Row(out, p) == CopySpans(old(Row(out, p)), source[p], spans, n)
        invariant forall p :: 0 <= p < part ==>
                    Row(out, p) == CopySpans(old(Row(out, p)), source[p], spans, n + 1)
      {
        assert SpansFit(spans, |source[part]|, out.Length1);
        CopyOne(out, part, source[part], spans[n]);
      }
    }
  }

  method CopyOne<T>(out: array2<T>, part: nat, source: seq<T>, s: Span)
    requires part < out.Length0 && SpanFits(s, |source|, out.Length1)
    modifies out
    ensures Row(out, part) == CopySpan(old(Row(out, part)), source, s)
    ensures forall p :: 0 <= p < out.Length0 && p != part ==> Row(out, p) == old(Row(out, p))
  {
    for i := 0 to s.len
      invariant forall p, j :: 0 <= p < out.Length0 && 0 <= j < out.Length1 ==>
                  out[p, j] == if p == part && s.dst <= j < s.dst + i then source[s.src + j - s.dst]
                               else old(out[p, j])
    {
      out[part, s.dst + i] := source[s.src + i];
    }
  }

  /** Coalesce a mapping and copy its spans: every part ends as if copied block by block. */
  method CopyMapping<T>(out: array2<T>, source: seq<seq<T>>, pairs: seq<Pair>)
    requires |source| == out.Length0
    requires forall p :: 0 <= p < |source| ==> PairsFit(pairs, |source[p]|, out.Length1)
    modifies out
    ensures forall p :: 0 <= p < |source| ==>
              Row(out, p) == CopyPairs(old(Row(out, p)), source[p], pairs, |pairs|)
  {
    var spans := Coalesce(pairs);
    forall p | 0 <= p < |source|
      ensures SpansFit(spans, |source[p]|, out.Length1)
      ensures CopySpans(Row(out, p), source[p], spans, |spans|) == CopyPairs(Row(out, p), source[p], pairs, |pairs|)
    {
      CoalescedCopyIsBlockCopy(Row(out, p), source[p], pairs, spans);
    }
    SpanCopy(out, source, spans);
  }
}
