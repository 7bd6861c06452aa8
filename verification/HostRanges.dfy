/** Unsigned 64-bit arithmetic and the page expansion of a requested host range. */
module HostRanges {
  import opened Arithmetic
  import opened Wrappers

  const TWO64: int := 0x1_0000_0000_0000_0000
  const MAX_U64: int := TWO64 - 1
  const MAX_I64: int := 0x7fff_ffff_ffff_ffff

  type U64 = x: int | 0 <= x < TWO64

  /** Addition and subtraction as the machine performs them, modulo 2^64. */
  function Add64(a: U64, b: U64): U64 {
    if a + b < TWO64 then a + b else a + b - TWO64
  }

  function Sub64(a: U64, b: U64): U64 {
    if a >= b then a - b else a - b + TWO64
  }

  datatype RangeError =
    | NullPointer
    | EmptyRange
    | NoPageSize
    | AddressOverflow
    | SizeOverflow
    | ZeroAlignment

  /** A request together with the page range that has to be registered for it. */
  datatype HostRange = HostRange(addr: U64, aligned: U64, offset: U64, size: U64)

  /** A whole number of pages, by counting down. */
  predicate IsMultiple(x: int, page: int)
    requires page > 0
    decreases x
  {
    x == 0 || (x >= page && IsMultiple(x - page, page))
  }

  lemma {:induction false} MultipleIsMod(x: int, page: int)
    requires page > 0 && x >= 0
    ensures IsMultiple(x, page) <==> x % page == 0
    decreases x
  {
    if x >= page {
      MultipleIsMod(x - page, page);
      LessOnePage(x, page);
    } else {
      BelowOnePage(x, page);
    }
  }

  lemma LessOnePage(x: int, page: int)
    requires page > 0
    ensures (x - page) % page == x % page
  {
    var q, r := x / page, x % page;
    assert x - page == (q - 1) * page + r;
    DivModIs(x - page, page, q - 1, r);
  }

  lemma BelowOnePage(x: int, page: int)
    requires 0 <= x < page
    ensures x % page == x
  {
    DivModIs(x, page, 0, x);
  }

  /** Page sizes are powers of two; all that is used is that they divide 2^64. */
  predicate ValidPage(page: int) {
    0 < page < TWO64 && IsMultiple(TWO64, page)
  }

  function RoundUp64(value: U64, alignment: U64): Result<U64, RangeError> {
    if alignment == 0 then Err(ZeroAlignment)
    else if value > MAX_U64 - (alignment - 1) then Err(SizeOverflow)
    else
      var bumped := Sub64(Add64(value, alignment), 1);
      MulDivBounds(bumped, alignment);
      Ok(bumped / alignment * alignment)
  }

  function GetHostRange(page: int, ptr: U64, bytes: U64): Result<HostRange, RangeError> {
    if ptr == 0 then Err(NullPointer)
    else if bytes == 0 then Err(EmptyRange)
    else if page <= 0 || page >= TWO64 then Err(NoPageSize)
    else if bytes > MAX_U64 - ptr then Err(AddressOverflow)
    else
      MulDivBounds(ptr, page);
      var aligned: U64 := ptr / page * page;
      var offset := Sub64(ptr, aligned);
      if bytes > MAX_U64 - offset then Err(SizeOverflow)
      else
        match RoundUp64(Add64(offset, bytes), page)
        case Err(e) => Err(e)
        case Ok(size) => Ok(HostRange(ptr, aligned, offset, size))
  }

  // ---------- arithmetic of multiples ----------

  lemma MulDivBounds(x: int, p: int)
    requires p > 0
    ensures x / p * p <= x < x / p * p + p
    ensures (x / p * p) % p == 0
    ensures x >= 0 ==> x / p * p >= 0
  {
    MultipleMod(x / p, p);
  }

  /** Multiples of a page are at least one page apart. */
  lemma MultiplesApart(x: int, y: int, p: int)
    requires p > 0 && x % p == 0 && y % p == 0 && x < y
    ensures x + p <= y
  {
    var i, j := x / p, y / p;
    assert x == p * i && y == p * j;
    assert j <= i ==> p * j <= p * i;
    assert p * j >= p * (i + 1);
  }

  lemma SumOfMultiples(x: int, y: int, p: int)
    requires p > 0 && x % p == 0 && y % p == 0
    ensures (x + y) % p == 0 && (x - y) % p == 0
  {
    assert x == p * (x / p) && y == p * (y / p);
    assert x + y == (x / p + y / p) * p;
    assert x - y == (x / p - y / p) * p;
    MultipleMod(x / p + y / p, p);
    MultipleMod(x / p - y / p, p);
  }

  // ---------- what the expansion promises ----------

  /** The rounding is exact even where `value + alignment` passes through 2^64. */
  lemma RoundUpIsCeiling(value: U64, alignment: U64)
    requires alignment > 0
    ensures RoundUp64(value, alignment).Ok? <==> value + alignment - 1 <= MAX_U64
    ensures RoundUp64(value, alignment).Ok? ==>
              var r := RoundUp64(value, alignment).value;
              value <= r < value + alignment && r % alignment == 0
  {
    if value + alignment - 1 <= MAX_U64 {
      assert Sub64(Add64(value, alignment), 1) == value + alignment - 1;
      MulDivBounds(value + alignment - 1, alignment);
    }
  }

  /** The only requests refused besides the malformed ones are those whose expansion
      from the first page would need the whole address space. */
  predicate Accepted(page: int, ptr: U64, bytes: U64)
    requires ValidPage(page)
  {
    ptr != 0 && bytes != 0 && ptr + bytes <= MAX_U64 && !(ptr < page && ptr + bytes > TWO64 - page)
  }

  /** The page range that `aligned` and the rounded size span, for a request ending at `end`. */
  lemma SpanIsPages(page: int, aligned: int, size: int, end: int)
    requires ValidPage(page) && aligned % page == 0 && size % page == 0
    requires end <= aligned + size < end + page && end <= MAX_U64
    ensures aligned + size <= TWO64
    ensures end <= TWO64 - page ==> aligned + size <= TWO64 - page
  {
    MultipleIsMod(TWO64, page);
    SumOfMultiples(aligned, size, page);
    if aligned + size > TWO64 { MultiplesApart(TWO64, aligned + size, page); }
    SumOfMultiples(TWO64, page, page);
    if aligned + size > TWO64 - page && end <= TWO64 - page {
      MultiplesApart(TWO64 - page, aligned + size, page);
    }
  }

  lemma FloorIsZero(page: int, ptr: U64)
    requires page > 0
    ensures ptr / page * page == 0 <==> ptr < page
    ensures ptr >= page ==> ptr / page * page >= page
  {
    MulDivBounds(ptr, page);
    if ptr >= page && ptr / page * page > 0 { MultiplesApart(0, ptr / page * page, page); }
  }

  lemma HostRangeIsExact(page: int, ptr: U64, bytes: U64)
    requires ValidPage(page)
    ensures GetHostRange(page, ptr, bytes).Ok? <==> Accepted(page, ptr, bytes)
    ensures GetHostRange(page, ptr, bytes).Ok? ==>
              var r := GetHostRange(page, ptr, bytes).value;
              && r.addr == ptr
              && r.offset == ptr - r.aligned < page
              && r.aligned % page == 0 && r.size % page == 0 && r.size > 0
              && r.aligned <= ptr && ptr + bytes <= r.aligned + r.size <= TWO64
              && r.aligned + r.size < ptr + bytes + page
              && (ptr + bytes <= TWO64 - page ==> r.aligned + r.size <= TWO64 - page)
  {
    if ptr != 0 && bytes != 0 && ptr + bytes <= MAX_U64 {
      MulDivBounds(ptr, page);
      FloorIsZero(page, ptr);
      var aligned := ptr / page * page;
      var need := ptr - aligned + bytes;
      RoundUpIsCeiling(need, page);
      if RoundUp64(need, page).Ok? {
        SpanIsPages(page, aligned, RoundUp64(need, page).value, ptr + bytes);
      }
    }
  }

  lemma LeastCover(page: int, ptr: int, end: int, aligned: int, limit: int, lo: int, hi: int)
    requires page > 0
    requires aligned % page == 0 && limit % page == 0 && lo % page == 0 && hi % page == 0
    requires aligned <= ptr < aligned + page && end <= limit < end + page
    requires lo <= ptr && end <= hi
    ensures lo <= aligned && limit <= hi
  {
    if aligned < lo { MultiplesApart(aligned, lo, page); }
    if hi < limit { MultiplesApart(hi, limit, page); }
  }

  /** The expansion is the least page range that covers the request. */
  lemma HostRangeIsLeast(page: int, ptr: U64, bytes: U64, lo: int, hi: int)
    requires ValidPage(page) && GetHostRange(page, ptr, bytes).Ok?
    requires lo % page == 0 && hi % page == 0
    requires lo <= ptr && ptr + bytes <= hi
    ensures var r := GetHostRange(page, ptr, bytes).value;
            lo <= r.aligned && r.aligned + r.size <= hi
  {
    HostRangeIsExact(page, ptr, bytes);
    var r := GetHostRange(page, ptr, bytes).value;
    SumOfMultiples(r.aligned, r.size, page);
    LeastCover(page, ptr, ptr + bytes, r.aligned, r.aligned + r.size, lo, hi);
  }
}
