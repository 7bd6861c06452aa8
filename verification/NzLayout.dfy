/** The ND to NZ tilings: three routines and the one permutation behind them. */
module NzLayout {
  import opened Arithmetic
  import opened Wrappers

  // ---------- nested sequences and their row-major contents ----------

  function ConcatTo<T>(xs: seq<seq<T>>, n: nat): seq<T>
    requires n <= |xs|
  {
    if n == 0 then [] else ConcatTo(xs, n - 1) + xs[n - 1]
  }

  /** Drop the outermost dimension, keeping row-major order. */
  function Concat<T>(xs: seq<seq<T>>): seq<T> {
    ConcatTo(xs, |xs|)
  }

  /** Row-major contents of a four-dimensional tensor. */
  function Contents<T>(t: seq<seq<seq<seq<T>>>>): seq<T> {
    Concat(Concat(Concat(t)))
  }

  /** Split into consecutive pieces of `w`, as a reshape of the last dimension does. */
  function Chunks<T>(s: seq<T>, w: nat): (cs: seq<seq<T>>)
    requires w > 0
    decreases |s|
  {
    if |s| < w then [] else [s[..w]] + Chunks(s[w..], w)
  }

  lemma {:induction false} ConcatPrefix<T>(a: seq<seq<T>>, b: seq<seq<T>>, n: nat)
    requires n <= |a| && n <= |b| && forall i :: 0 <= i < n ==> a[i] == b[i]
    ensures ConcatTo(a, n) == ConcatTo(b, n)
  {
    if n > 0 { ConcatPrefix(a, b, n - 1); }
  }

  lemma {:induction false} ConcatSplit<T>(a: seq<seq<T>>, b: seq<seq<T>>, n: nat)
    requires n <= |b|
    ensures ConcatTo(a + b, |a| + n) == Concat(a) + ConcatTo(b, n)
  {
    if n == 0 {
      ConcatPrefix(a, a + b, |a|);
    } else {
      ConcatSplit(a, b, n - 1);
    }
  }

  lemma ConcatAppend<T>(a: seq<seq<T>>, b: seq<seq<T>>)
    ensures Concat(a + b) == Concat(a) + Concat(b)
  {
    ConcatSplit(a, b, |b|);
  }

  lemma ConcatOne<T>(x: seq<T>)
    ensures Concat([x]) == x
  {
    assert ConcatTo([x], 1) == ConcatTo([x], 0) + x;
  }

  lemma NextMultiple(k: nat, w: nat)
    ensures 0 <= k * w && (k + 1) * w == k * w + w
  {
  }

  /** Splitting into whole chunks changes nothing in row-major order. */
  lemma {:induction false} ConcatChunks<T>(s: seq<T>, w: nat, n: nat)
    requires w > 0 && |s| == n * w
    ensures Concat(Chunks(s, w)) == s && |Chunks(s, w)| == n
    decreases n
  {
    if n > 0 {
      NextMultiple(n - 1, w);
      ConcatChunks(s[w..], w, n - 1);
      ConcatAppend([s[..w]], Chunks(s[w..], w));
      ConcatOne(s[..w]);
      assert s[..w] + s[w..] == s;
    }
  }

  lemma DropThenSlice<T>(s: seq<T>, w: nat, lo: nat)
    requires lo + w + w <= |s|
    ensures s[w..][lo..lo + w] == s[lo + w..lo + w + w]
  {
  }

  lemma {:induction false} ChunkAfterMark<T>(s: seq<T>, w: nat, k: nat)
    requires w > 0 && Mark(w, k) + w <= |s|
    ensures k < |Chunks(s, w)| && Chunks(s, w)[k] == s[Mark(w, k)..Mark(w, k) + w]
    decreases k
  {
    if k > 0 {
      ChunkAfterMark(s[w..], w, k - 1);
      DropThenSlice(s, w, Mark(w, k - 1));
    }
  }

  lemma ChunkAt<T>(s: seq<T>, w: nat, k: nat)
    requires w > 0 && (k + 1) * w <= |s|
    ensures k < |Chunks(s, w)| && 0 <= k * w && Chunks(s, w)[k] == s[k * w..(k + 1) * w]
  {
    NextMultiple(k, w);
    MarkIs(w, k);
    ChunkAfterMark(s, w, k);
  }

  /** Concatenating twice from the outside is concatenating the inner lists first. */
  lemma {:induction false} ConcatInside<T>(y: seq<seq<seq<T>>>, z: seq<seq<T>>, n: nat)
    requires |y| == |z| && n <= |y| && forall t :: 0 <= t < |y| ==> Concat(y[t]) == z[t]
    ensures Concat(ConcatTo(y, n)) == ConcatTo(z, n)
  {
    if n > 0 {
      ConcatInside(y, z, n - 1);
      ConcatAppend(ConcatTo(y, n - 1), y[n - 1]);
    }
  }

  // ---------- matrices ----------

  datatype Matrix<T> = Matrix(rows: nat, cols: nat, at: seq<seq<T>>)

  predicate Valid<T>(m: Matrix<T>) {
    |m.at| == m.rows && forall i :: 0 <= i < m.rows ==> |m.at[i]| == m.cols
  }

  /** The entry at (i, j), or zero outside the matrix. */
  function AtOrZero<T>(m: Matrix<T>, i: nat, j: nat, zero: T): T
    requires Valid(m)
  {
    if i < m.rows && j < m.cols then m.at[i][j] else zero
  }

  function PadRow<T>(m: Matrix<T>, i: nat, cols: nat, zero: T): (r: seq<T>)
    requires Valid(m)
    ensures |r| == cols && forall j :: 0 <= j < cols ==> r[j] == AtOrZero(m, i, j, zero)
  {
    seq(cols, j requires 0 <= j < cols => AtOrZero(m, i, j, zero))
  }

  /** Zeros on the right and at the bottom, up to `rows` x `cols`. */
  function Pad<T>(m: Matrix<T>, rows: nat, cols: nat, zero: T): (p: Matrix<T>)
    requires Valid(m)
    ensures Valid(p) && p.rows == rows && p.cols == cols
    ensures forall i :: 0 <= i < rows ==> p.at[i] == PadRow(m, i, cols, zero)
  {
    Matrix(rows, cols, seq(rows, i requires 0 <= i < rows => PadRow(m, i, cols, zero)))
  }

  /** Reshape (rows, cols) to (rows, cols / w, w). */
  function Tiles<T>(m: Matrix<T>, w: nat): (x: seq<seq<seq<T>>>)
    requires Valid(m) && w > 0
    ensures |x| == m.rows && forall i :: 0 <= i < m.rows ==> x[i] == Chunks(m.at[i], w)
  {
    seq(m.rows, i requires 0 <= i < m.rows => Chunks(m.at[i], w))
  }

  /** Reshaping to whole tiles keeps the row-major contents. */
  lemma TilesKeepContents<T>(m: Matrix<T>, w: nat, n: nat)
    requires Valid(m) && w > 0 && m.cols == n * w
    ensures Concat(Concat(Tiles(m, w))) == Concat(m.at)
    ensures forall i :: 0 <= i < m.rows ==> |Tiles(m, w)[i]| == n
  {
    forall i | 0 <= i < m.rows ensures Concat(Tiles(m, w)[i]) == m.at[i] && |Tiles(m, w)[i]| == n {
      ConcatChunks(m.at[i], w, n);
    }
    ConcatInside(Tiles(m, w), m.at, m.rows);
  }

  /** Exchange the first two dimensions, the second having length `n`. */
  function Swap<T>(x: seq<seq<T>>, n: nat): (y: seq<seq<T>>)
    requires forall i :: 0 <= i < |x| ==> |x[i]| == n
    ensures |y| == n && forall t :: 0 <= t < n ==> |y[t]| == |x|
    ensures forall t, i :: 0 <= t < n && 0 <= i < |x| ==> y[t][i] == x[i][t]
  {
    seq(n, t requires 0 <= t < n => seq(|x|, i requires 0 <= i < |x| => x[i][t]))
  }

  // ---------- the padded tiling ----------

  lemma RoundUp16(x: nat)
    ensures x <= RoundUp(x, 16) < x + 16 && RoundUp(x, 16) == RoundUp(x, 16) / 16 * 16
    ensures RoundUp(x, 16) % 16 == 0
    ensures x % 16 == 0 ==> RoundUp(x, 16) == x
  {
  }

  /** Pad both dimensions up to 16, reshape, and exchange rows and tiles: (1, cols/16, rows, 16). */
  function NdToNz2d<T>(m: Matrix<T>, zero: T): seq<seq<seq<seq<T>>>>
    requires Valid(m)
  {
    RoundUp16(m.cols);
    [NzTiles(Pad(m, RoundUp(m.rows, 16), RoundUp(m.cols, 16), zero))]
  }

  function NzTiles<T>(p: Matrix<T>): seq<seq<seq<T>>>
    requires Valid(p) && p.cols % 16 == 0
  {
    TilesKeepContents(p, 16, p.cols / 16);
    Swap(Tiles(p, 16), p.cols / 16)
  }

  lemma NzTilesAt<T>(p: Matrix<T>, t: nat, i: nat)
    requires Valid(p) && p.cols % 16 == 0 && t < p.cols / 16 && i < p.rows
    ensures |NzTiles(p)| == p.cols / 16 && |NzTiles(p)[t]| == p.rows
    ensures NzTiles(p)[t][i] == p.at[i][t * 16..t * 16 + 16]
  {
    TilesKeepContents(p, 16, p.cols / 16);
    ChunkAt(p.at[i], 16, t);
  }

  /** Entry (i, j) of the padded matrix sits at (0, j/16, i, j mod 16), zero where padded. */
  lemma NdToNz2dAt<T>(m: Matrix<T>, zero: T, t: nat, i: nat, c: nat)
    requires Valid(m) && t < RoundUp(m.cols, 16) / 16 && i < RoundUp(m.rows, 16) && c < 16
    ensures var r := NdToNz2d(m, zero);
            && |r| == 1 && |r[0]| == RoundUp(m.cols, 16) / 16 && |r[0][t]| == RoundUp(m.rows, 16)
            && |r[0][t][i]| == 16
            && r[0][t][i][c] == AtOrZero(m, i, t * 16 + c, zero)
  {
    RoundUp16(m.rows);
    RoundUp16(m.cols);
    PaddedTilesAt(m, RoundUp(m.rows, 16), RoundUp(m.cols, 16), zero, t, i, c);
  }

  lemma PaddedTilesAt<T>(m: Matrix<T>, rows: nat, cols: nat, zero: T, t: nat, i: nat, c: nat)
    requires Valid(m) && m.rows <= rows && m.cols <= cols && cols % 16 == 0 && t < cols / 16 && i < rows && c < 16
    ensures var z := NzTiles(Pad(m, rows, cols, zero));
            |z| == cols / 16 && |z[t]| == rows && |z[t][i]| == 16 && z[t][i][c] == AtOrZero(m, i, t * 16 + c, zero)
  {
    NzTilesAt(Pad(m, rows, cols, zero), t, i);
  }

  /** The coordinate map and its inverse. */
  function ToNz(i: nat, j: nat, w: nat): (nat, nat, nat)
    requires w > 0
  {
    (j / w, i, j % w)
  }

  function FromNz(t: nat, i: nat, c: nat, w: nat): (nat, nat) {
    (i, t * w + c)
  }

  lemma TileBound(j: nat, w: nat, tiles: nat)
    requires w > 0
    ensures j < tiles * w <==> j / w < tiles
  {
    var q := j / w;
    assert w * q <= j < w * q + w;
    assert q < tiles ==> w * (q + 1) <= w * tiles;
    assert q >= tiles ==> w * q >= w * tiles;
  }

  /** The two maps undo each other and stay in range, so every layout here is a permutation of
      its padded input. */
  lemma NzMapIsBijection(i: nat, j: nat, t: nat, c: nat, w: nat, tiles: nat)
    requires c < w
    ensures var (t', i', c') := ToNz(i, j, w); FromNz(t', i', c', w) == (i, j) && c' < w
    ensures var (i', j') := FromNz(t, i, c, w); ToNz(i', j', w) == (t, i, c)
    ensures j < tiles * w <==> ToNz(i, j, w).0 < tiles
  {
    DivModIs(t * w + c, w, t, c);
    TileBound(j, w, tiles);
    assert j == j / w * w + j % w;
  }

  // ---------- the zero-buffer variant ----------

  ghost function Buffer<T>(a: array2<T>): (m: Matrix<T>)
    reads a
    ensures Valid(m) && m.rows == a.Length0 && m.cols == a.Length1
    ensures forall i, j :: 0 <= i < m.rows && 0 <= j < m.cols ==> m.at[i][j] == a[i, j]
  {
    Matrix(a.Length0, a.Length1,
           seq(a.Length0, i requires 0 <= i < a.Length0 reads a =>
             seq(a.Length1, j requires 0 <= j < a.Length1 reads a => a[i, j])))
  }

  method ReadBack<T>(a: array2<T>) returns (m: Matrix<T>)
    ensures m == Buffer(a)
  {
    var rows: seq<seq<T>> := [];
    for i := 0 to a.Length0
      invariant rows == Buffer(a).at[..i]
    {
      var row: seq<T> := [];
      for j := 0 to a.Length1
        invariant row == Buffer(a).at[i][..j]
      {
        row := row + [a[i, j]];
      }
      assert row == Buffer(a).at[i];
      rows := rows + [row];
    }
    m := Matrix(a.Length0, a.Length1, rows);
  }

  /** Write the matrix into the corner of a zero buffer, then reshape and permute; the result
      is the padded tiling. */
  method NdToNzSpec<T>(m: Matrix<T>, zero: T) returns (r: seq<seq<seq<seq<T>>>>)
    requires Valid(m)
    ensures r == NdToNz2d(m, zero)
  {
    var rows, cols := (m.rows + 15) / 16 * 16, (m.cols + 15) / 16 * 16;
    var buffer := new T[rows, cols]((i, j) => zero);
    for i := 0 to m.rows
      invariant forall k, j :: 0 <= k < rows && 0 <= j < cols ==>
                  buffer[k, j] == if k < i && j < m.cols then m.at[k][j] else zero
    {
      for j := 0 to m.cols
        invariant forall k, l :: 0 <= k < rows && 0 <= l < cols ==>
                    buffer[k, l] == if (k < i && l < m.cols) || (k == i && l < j) then m.at[k][l] else zero
      {
        buffer[i, j] := m.at[i][j];
      }
    }
    var padded := ReadBack(buffer);
    SamePadding(m, padded, rows, cols, zero);
    r := [NzTiles(padded)];
  }

  lemma SamePadding<T>(m: Matrix<T>, p: Matrix<T>, rows: nat, cols: nat, zero: T)
    requires Valid(m) && Valid(p) && p.rows == rows && p.cols == cols
    requires forall i, j :: 0 <= i < rows && 0 <= j < cols ==>
               p.at[i][j] == if i < m.rows && j < m.cols then m.at[i][j] else zero
    ensures p == Pad(m, rows, cols, zero)
  {
    forall i | 0 <= i < rows ensures p.at[i] == Pad(m, rows, cols, zero).at[i] {
      assert p.at[i] == PadRow(m, i, cols, zero);
    }
  }

  // ---------- tiling of the last two dimensions of a batch ----------

  predicate Grid<T>(r: seq<seq<seq<T>>>, n: nat) {
    forall i, j :: 0 <= i < |r| && 0 <= j < |r[i]| ==> |r[i][j]| == n
  }

  /** Permute the dimensions (m1, m0, n1, ..) to (n1, m1, m0, ..). */
  function Permute<T>(r: seq<seq<seq<T>>>, n: nat): (y: seq<seq<seq<T>>>)
    requires Grid(r, n)
    ensures |y| == n
    ensures forall t :: 0 <= t < n ==> y[t] == PermuteAt(r, n, t)
  {
    seq(n, t requires 0 <= t < n => PermuteAt(r, n, t))
  }

  function PermuteAt<T>(r: seq<seq<seq<T>>>, n: nat, t: nat): (y: seq<seq<T>>)
    requires Grid(r, n) && t < n
    ensures |y| == |r| && forall i :: 0 <= i < |r| ==> |y[i]| == |r[i]|
    ensures forall i, j :: 0 <= i < |r| && 0 <= j < |r[i]| ==> y[i][j] == r[i][j][t]
  {
    seq(|r|, i requires 0 <= i < |r| => seq(|r[i]|, j requires 0 <= j < |r[i]| => r[i][j][t]))
  }

  /** Reshape one matrix to (rows/16, 16, cols/w, w), as nested chunks. */
  function Blocks<T>(m: Matrix<T>, w: nat): seq<seq<seq<seq<T>>>>
    requires Valid(m) && w > 0
  {
    Chunks(Tiles(m, w), 16)
  }

  lemma BlocksAt<T>(m: Matrix<T>, w: nat, m1: nat, n1: nat)
    requires Valid(m) && w > 0 && m.rows == m1 * 16 && m.cols == n1 * w
    ensures |Blocks(m, w)| == m1 && Grid(Blocks(m, w), n1)
    ensures forall i :: 0 <= i < m1 ==> Blocks(m, w)[i] == Tiles(m, w)[i * 16..i * 16 + 16]
    ensures Concat(Blocks(m, w)) == Tiles(m, w)
  {
    TilesKeepContents(m, w, n1);
    ConcatChunks(Tiles(m, w), 16, m1);
    forall i | 0 <= i < m1 ensures Blocks(m, w)[i] == Tiles(m, w)[i * 16..i * 16 + 16] {
      ChunkAt(Tiles(m, w), 16, i);
    }
  }

  function Width(int8: bool): nat {
    if int8 then 32 else 16
  }

  predicate Aligned(rows: nat, cols: nat, w: nat)
    requires w > 0
  {
    rows % 16 == 0 && cols % w == 0
  }

  function TransTiles<T>(m: Matrix<T>, w: nat): seq<seq<seq<seq<T>>>>
    requires Valid(m) && w > 0 && Aligned(m.rows, m.cols, w)
  {
    WholeMultiple(m.cols, w);
    BlocksAt(m, w, m.rows / 16, m.cols / w);
    Permute(Blocks(m, w), m.cols / w)
  }

  lemma WholeMultiple(x: nat, w: nat)
    requires w > 0 && x % w == 0
    ensures x == x / w * w
  {
  }

  datatype TransError = ReshapeFailed

  ghost predicate IsBatch<T>(batch: seq<Matrix<T>>, rows: nat, cols: nat) {
    forall k :: 0 <= k < |batch| ==> Valid(batch[k]) && batch[k].rows == rows && batch[k].cols == cols
  }

  /** Tile the last two dimensions of a batch; the reshape fails when the sizes do not match. */
  function TransNdToNz<T>(batch: seq<Matrix<T>>, rows: nat, cols: nat, int8: bool)
    : (r: Result<seq<seq<seq<seq<seq<T>>>>>, TransError>)
    requires IsBatch(batch, rows, cols)
  {
    var w := Width(int8);
    var m1, n1 := CeilDiv(rows, 16), CeilDiv(cols, w);
    if |batch| * (rows * cols) != |batch| * ((m1 * 16) * (n1 * w)) then Err(ReshapeFailed)
    else if Aligned(rows, cols, w) then
      Ok(seq(|batch|, k requires 0 <= k < |batch| => TransTiles(batch[k], w)))
    else Ok(seq(|batch|, k requires 0 <= k < |batch| => seq(n1, _ => seq(m1, _ => []))))
  }

  lemma CeilDivCovers(x: nat, w: nat)
    requires w == 16 || w == 32
    ensures x <= CeilDiv(x, w) * w < x + w
    ensures CeilDiv(x, w) * w == x <==> x % w == 0
    ensures CeilDiv(x, w) == 0 <==> x == 0
  {
    CeilDivBounds(x, w);
    MultipleMod(CeilDiv(x, w), w);
    WholeIsOwnCeil(x, w);
  }

  lemma WholeIsOwnCeil(x: nat, w: nat)
    requires w > 0
    ensures x % w == 0 ==> CeilDiv(x, w) * w == x
  {
    var q := x / w;
    assert x == q * w + x % w;
    if x % w == 0 { CeilDivIs(x, w, q); }
  }

  lemma MulMonotone(n: nat, x: nat, y: nat)
    requires x <= y
    ensures n * x <= n * y
    ensures n > 0 && x < y ==> n * x < n * y
  {
    assert n * y == n * x + n * (y - x);
    assert n > 0 && y - x >= 1 ==> n * (y - x) >= 1;
  }

  lemma ProductGrows(a: nat, b: nat, a': nat, b': nat)
    requires 0 < a <= a' && 0 < b <= b' && (a < a' || b < b')
    ensures a * b < a' * b'
  {
    MulMonotone(a, b, b');
    MulMonotone(b', a, a');
    assert b' * a == a * b' && b' * a' == a' * b';
  }

  lemma ProductsEqual(n: nat, a: nat, b: nat, a': nat, b': nat)
    requires a <= a' && b <= b' && (a == 0 <==> a' == 0) && (b == 0 <==> b' == 0)
    ensures n * (a * b) == n * (a' * b') <==> n == 0 || a == 0 || b == 0 || (a == a' && b == b')
  {
    if n > 0 && a > 0 && b > 0 && (a < a' || b < b') {
      ProductGrows(a, b, a', b');
      MulMonotone(n, a * b, a' * b');
    }
  }

  /** The reshape succeeds exactly when nothing is there or both dimensions are whole tiles. */
  lemma TransSucceedsIff<T>(batch: seq<Matrix<T>>, rows: nat, cols: nat, int8: bool)
    requires IsBatch(batch, rows, cols)
    ensures TransNdToNz(batch, rows, cols, int8).Ok? <==>
            batch == [] || rows == 0 || cols == 0 || Aligned(rows, cols, Width(int8))
  {
    var w := Width(int8);
    CeilDivCovers(rows, 16);
    CeilDivCovers(cols, w);
    ProductsEqual(|batch|, rows, cols, CeilDiv(rows, 16) * 16, CeilDiv(cols, w) * w);
  }

  /** A matrix with one row more than a tile is refused. */
  lemma OddRowIsRefused<T>(m: Matrix<T>)
    requires Valid(m) && m.rows == 17 && m.cols == 16
    ensures TransNdToNz([m], 17, 16, false).Err?
  {
    TransSucceedsIff([m], 17, 16, false);
  }

  lemma TileFits(t: nat, n: nat, w: nat)
    requires t < n
    ensures 0 <= t * w && (t + 1) * w <= n * w
  {
    MulMonotone(w, t + 1, n);
  }

  /** Entry (i, j) goes to (j/w, i/16, i mod 16, j mod w). */
  lemma TransTilesAt<T>(m: Matrix<T>, w: nat, t: nat, i1: nat, i0: nat)
    requires Valid(m) && w > 0 && Aligned(m.rows, m.cols, w)
    requires t < m.cols / w && i1 < m.rows / 16 && i0 < 16
    ensures var y := TransTiles(m, w);
            && |y| == m.cols / w && |y[t]| == m.rows / 16 && |y[t][i1]| == 16
            && 0 <= t * w && (t + 1) * w <= m.cols
            && y[t][i1][i0] == m.at[i1 * 16 + i0][t * w..(t + 1) * w]
  {
    WholeMultiple(m.cols, w);
    TileFits(t, m.cols / w, w);
    BlocksAt(m, w, m.rows / 16, m.cols / w);
    var i := i1 * 16 + i0;
    assert Blocks(m, w)[i1][i0] == Tiles(m, w)[i];
    ChunkAt(m.at[i], w, t);
  }

  /** Tile by tile, the batch routine is the padded tiling with its rows split into sixteens. */
  lemma TransTileIsChunks<T>(m: Matrix<T>, t: nat)
    requires Valid(m) && Aligned(m.rows, m.cols, 16) && t < m.cols / 16
    ensures |TransTiles(m, 16)| == |NzTiles(m)| == m.cols / 16
    ensures TransTiles(m, 16)[t] == Chunks(NzTiles(m)[t], 16)
  {
    var m1, n1 := m.rows / 16, m.cols / 16;
    BlocksAt(m, 16, m1, n1);
    TilesKeepContents(m, 16, n1);
    var y, z := TransTiles(m, 16)[t], NzTiles(m)[t];
    ConcatChunks(z, 16, m1);
    forall i | 0 <= i < m1 ensures y[i] == Chunks(z, 16)[i] {
      ChunkAt(z, 16, i);
    }
  }

  lemma TransContents<T>(m: Matrix<T>)
    requires Valid(m) && Aligned(m.rows, m.cols, 16)
    ensures Contents(TransTiles(m, 16)) == Contents([NzTiles(m)])
  {
    var y, z := TransTiles(m, 16), NzTiles(m);
    TilesKeepContents(m, 16, m.cols / 16);
    BlocksAt(m, 16, m.rows / 16, m.cols / 16);
    forall t | 0 <= t < |y| ensures Concat(y[t]) == z[t] {
      TransTileIsChunks(m, t);
      ConcatChunks(z[t], 16, m.rows / 16);
    }
    ConcatInside(y, z, |y|);
    ConcatOne(z);
  }

  lemma AlignedNeedsNoPadding<T>(m: Matrix<T>, zero: T)
    requires Valid(m) && Aligned(m.rows, m.cols, 16)
    ensures Pad(m, RoundUp(m.rows, 16), RoundUp(m.cols, 16), zero) == m
  {
    RoundUp16(m.rows);
    RoundUp16(m.cols);
    SamePadding(m, m, m.rows, m.cols, zero);
  }

  /** On 16-aligned inputs that are not int8 the batch routine and the padded tiling have the
      same row-major contents. */
  lemma TransMatchesNz2d<T>(batch: seq<Matrix<T>>, rows: nat, cols: nat, zero: T, k: nat)
    requires IsBatch(batch, rows, cols) && Aligned(rows, cols, 16) && k < |batch|
    ensures var r := TransNdToNz(batch, rows, cols, false);
            r.Ok? && |r.value| == |batch| && Contents(r.value[k]) == Contents(NdToNz2d(batch[k], zero))
  {
    TransSucceedsIff(batch, rows, cols, false);
    AlignedNeedsNoPadding(batch[k], zero);
    TransContents(batch[k]);
  }
}
