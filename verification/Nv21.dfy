/** Repacking strided YUV 4:2:0 planes into one NV21 buffer (CameraEngine.kt). */
module Nv21 {
  import opened Prelude

  /** The largest Kotlin Int; array sizes and buffer positions are Ints. */
  const INT_MAX: nat := 0x7fff_ffff

  datatype Plane = Plane(data: Bytes, rowStride: nat, pixelStride: nat)

  /** The V plane is read with the strides of the U plane. */
  datatype Image = Image(w: nat, h: nat, y: Plane, u: Plane, vData: Bytes) {
    function V(): Plane { Plane(vData, u.rowStride, u.pixelStride) }
  }

  /** The caller's side: every plane holds its samples, and sizes are Ints. */
  predicate Valid(m: Image) {
    && m.w * m.h * 3 <= INT_MAX && |m.y.data| <= INT_MAX && |m.u.data| <= INT_MAX && |m.vData| <= INT_MAX
    && Fits(m.y, m.w, m.h) && Fits(m.u, m.w / 2, m.h / 2) && Fits(m.V(), m.w / 2, m.h / 2)
  }

  function Position(p: Plane, r: nat, c: nat): nat {
    r * p.rowStride + c * p.pixelStride
  }

  /** The last sample of a cols by rows plane lies inside its buffer. */
  predicate Fits(p: Plane, cols: nat, rows: nat) {
    cols > 0 && rows > 0 ==> Position(p, rows - 1, cols - 1) < |p.data|
  }

  /** Every access is in bounds exactly when the last one is. */
  lemma EveryAccessInBounds(p: Plane, cols: nat, rows: nat)
    ensures Fits(p, cols, rows) <==> forall r: nat, c: nat :: r < rows && c < cols ==> Position(p, r, c) < |p.data|
    ensures Fits(p, cols, rows) <==> rows == 0 || cols == 0 || (rows - 1) * p.rowStride + (cols - 1) * p.pixelStride < |p.data|
  {
    if Fits(p, cols, rows) {
      forall r: nat, c: nat | r < rows && c < cols
        ensures Position(p, r, c) < |p.data|
      {
        InBounds(p, cols, rows, r, c);
      }
    }
  }

  lemma InBounds(p: Plane, cols: nat, rows: nat, r: nat, c: nat)
    requires Fits(p, cols, rows) && r < rows && c < cols
    ensures Position(p, r, c) < |p.data|
  {
    MulMonotone(r, rows - 1, p.rowStride);
    MulMonotone(c, cols - 1, p.pixelStride);
  }

  lemma MulMonotone(a: nat, b: nat, k: nat)
    requires a <= b
    ensures a * k <= b * k
  {
  }

  // ----- linear places of a cols-wide grid -----

  lemma Cell(i: nat, cols: nat, rows: nat)
    requires i < cols * rows
    ensures cols > 0 && 0 <= i / cols < rows && 0 <= i % cols < cols && i == (i / cols) * cols + i % cols
  {
    if i / cols >= rows {
      MulMonotone(rows, i / cols, cols);
    }
  }

  lemma CellOf(r: nat, c: nat, cols: nat, rows: nat)
    requires c < cols && r < rows
    ensures r * cols + c < cols * rows && (r * cols + c) / cols == r && (r * cols + c) % cols == c
  {
    MulMonotone(r + 1, rows, cols);
    var i := r * cols + c;
    var q, m := i / cols, i % cols;
    assert i == q * cols + m;
    if q < r {
      MulMonotone(q + 1, r, cols);
    } else if q > r {
      MulMonotone(r + 1, q, cols);
    }
  }

  /** Two chroma bytes per two-by-two block fit in half the luma size. */
  lemma ChromaFits(w: nat, h: nat)
    ensures 2 * ((w / 2) * (h / 2)) <= w * h / 2
    ensures w * h + 2 * ((w / 2) * (h / 2)) <= w * h * 3 / 2
  {
    var a, b := w / 2, h / 2;
    MulMonotone(2 * a, w, 2 * b);
    MulMonotone(2 * b, h, w);
    assert (2 * a) * (2 * b) == 4 * (a * b);
    assert w * (2 * b) <= w * h;
  }

  // ----- the repacked buffer -----

  /** The sample a linear place of a grid comes from. */
  function CellSample(p: Plane, cols: nat, rows: nat, i: nat): byte
    requires Fits(p, cols, rows) && i < cols * rows
  {
    Cell(i, cols, rows);
    InBounds(p, cols, rows, i / cols, i % cols);
    p.data[Position(p, i / cols, i % cols)]
  }

  function LumaSize(m: Image): nat {
    m.w * m.h
  }

  /** How many two-by-two blocks have a V and a U sample. */
  function Blocks(m: Image): nat {
    (m.w / 2) * (m.h / 2)
  }

  /** Luma and chroma together. */
  function UsedSize(m: Image): nat {
    LumaSize(m) + 2 * Blocks(m)
  }

  function OutSize(m: Image): (n: nat)
    ensures UsedSize(m) <= n
  {
    ChromaFits(m.w, m.h);
    m.w * m.h * 3 / 2
  }

  function ByteAt(m: Image, i: nat): byte
    requires Valid(m)
  {
    if i < LumaSize(m) then CellSample(m.y, m.w, m.h, i)
    else if i < UsedSize(m) then
      var k := i - LumaSize(m);
      CellSample(if k % 2 == 0 then m.V() else m.u, m.w / 2, m.h / 2, k / 2)
    else 0
  }

  /** The V and U bytes of the q-th block. */
  lemma ChromaBytes(m: Image, q: nat)
    requires Valid(m) && q < (m.w / 2) * (m.h / 2)
    ensures LumaSize(m) + 2 * q + 1 < UsedSize(m)
    ensures ByteAt(m, LumaSize(m) + 2 * q) == CellSample(m.V(), m.w / 2, m.h / 2, q)
    ensures ByteAt(m, LumaSize(m) + 2 * q + 1) == CellSample(m.u, m.w / 2, m.h / 2, q)
  {
    assert q < Blocks(m);
    hide CellSample, LumaSize, Fits, Blocks;
    var at := LumaSize(m) + 2 * q;
    assert (at - LumaSize(m)) / 2 == q && (at + 1 - LumaSize(m)) / 2 == q;
  }

  function Repacked(m: Image): Bytes
    requires Valid(m)
  {
    seq(OutSize(m), i requires 0 <= i < OutSize(m) => ByteAt(m, i))
  }

  function Luma(w: nat, r: nat, c: nat): nat {
    r * w + c
  }

  function Chroma(w: nat, h: nat, r: nat, c: nat): nat {
    w * h + 2 * (r * (w / 2) + c)
  }

  /** The NV21 layout: Y row by row, then V and U alternating, then nothing. */
  ghost predicate IsNv21(m: Image, out: Bytes)
    requires Valid(m)
  {
    && |out| == OutSize(m)
    && (forall r: nat, c: nat :: r < m.h && c < m.w ==> LumaPlaced(m, out, r, c))
    && (forall r: nat, c: nat :: r < m.h / 2 && c < m.w / 2 ==> ChromaPlaced(m, out, r, c))
    && (forall i :: UsedSize(m) <= i < |out| ==> out[i] == 0)
  }

  ghost predicate LumaPlaced(m: Image, out: Bytes, r: nat, c: nat)
    requires Valid(m) && r < m.h && c < m.w
  {
    InBounds(m.y, m.w, m.h, r, c);
    Luma(m.w, r, c) < |out| && out[Luma(m.w, r, c)] == m.y.data[Position(m.y, r, c)]
  }

  ghost predicate ChromaPlaced(m: Image, out: Bytes, r: nat, c: nat)
    requires Valid(m) && r < m.h / 2 && c < m.w / 2
  {
    InBounds(m.u, m.w / 2, m.h / 2, r, c);
    InBounds(m.V(), m.w / 2, m.h / 2, r, c);
    var at := Chroma(m.w, m.h, r, c);
    && at + 1 < |out|
    && out[at] == m.vData[Position(m.u, r, c)]
    && out[at + 1] == m.u.data[Position(m.u, r, c)]
  }

  lemma RepackedPlacesLuma(m: Image, r: nat, c: nat)
    requires Valid(m) && r < m.h && c < m.w
    ensures LumaPlaced(m, Repacked(m), r, c)
  {
    CellOf(r, c, m.w, m.h);
  }

  lemma RepackedPlacesChroma(m: Image, r: nat, c: nat)
    requires Valid(m) && r < m.h / 2 && c < m.w / 2
    ensures ChromaPlaced(m, Repacked(m), r, c)
  {
    CellOf(r, c, m.w / 2, m.h / 2);
    ChromaBytes(m, r * (m.w / 2) + c);
    assert Chroma(m.w, m.h, r, c) == LumaSize(m) + 2 * (r * (m.w / 2) + c);
    hide ByteAt, LumaSize, UsedSize, Blocks, Chroma;
  }

  lemma BlockPlace(m: Image, q: nat)
    requires q < (m.w / 2) * (m.h / 2)
    ensures m.w / 2 > 0 && 0 <= q / (m.w / 2) < m.h / 2 && 0 <= q % (m.w / 2) < m.w / 2
    ensures Chroma(m.w, m.h, q / (m.w / 2), q % (m.w / 2)) == LumaSize(m) + 2 * q
  {
    Cell(q, m.w / 2, m.h / 2);
  }

  lemma LayoutFixesBlock(m: Image, out: Bytes, q: nat)
    requires Valid(m) && IsNv21(m, out) && q < (m.w / 2) * (m.h / 2)
    ensures var at := LumaSize(m) + 2 * q;
      at + 1 < |out| && out[at] == ByteAt(m, at) && out[at + 1] == ByteAt(m, at + 1)
  {
    hide ByteAt, LumaSize, UsedSize, Blocks, Chroma, Fits, OutSize;
    BlockPlace(m, q);
    ChromaBytes(m, q);
    assert ChromaPlaced(m, out, q / (m.w / 2), q % (m.w / 2));
  }

  /** A buffer satisfying the layout has no freedom left: each byte is some sample's only place. */
  lemma LayoutFixesByte(m: Image, out: Bytes, i: nat)
    requires Valid(m) && IsNv21(m, out) && i < |out|
    ensures out[i] == ByteAt(m, i)
  {
    if i < LumaSize(m) {
      Cell(i, m.w, m.h);
      assert LumaPlaced(m, out, i / m.w, i % m.w);
    } else if i < UsedSize(m) {
      BlockIndex(m, i);
      hide *;
      LayoutFixesBlock(m, out, (i - LumaSize(m)) / 2);
    } else {
      hide LumaPlaced, ChromaPlaced;
    }
  }

  lemma BlockIndex(m: Image, i: nat)
    requires LumaSize(m) <= i < UsedSize(m)
    ensures var q := (i - LumaSize(m)) / 2;
      q < (m.w / 2) * (m.h / 2) && (i == LumaSize(m) + 2 * q || i == LumaSize(m) + 2 * q + 1)
  {
    assert (i - LumaSize(m)) / 2 < Blocks(m) by { hide LumaSize, Blocks; }
  }

  /** The byte-by-byte definition and the row-and-column layout are the same thing. */
  lemma RepackedIffNv21(m: Image, out: Bytes)
    requires Valid(m)
    ensures out == Repacked(m) <==> IsNv21(m, out)
  {
    ChromaFits(m.w, m.h);
    if IsNv21(m, out) {
      forall i | 0 <= i < |out|
        ensures out[i] == Repacked(m)[i]
      {
        LayoutFixesByte(m, out, i);
      }
    }
    forall r: nat, c: nat | r < m.h && c < m.w
      ensures LumaPlaced(m, Repacked(m), r, c)
    {
      RepackedPlacesLuma(m, r, c);
    }
    forall r: nat, c: nat | r < m.h / 2 && c < m.w / 2
      ensures ChromaPlaced(m, Repacked(m), r, c)
    {
      RepackedPlacesChroma(m, r, c);
    }
  }

  /** Row r, column c of the Y plane, written out: which byte goes where. */
  lemma LumaGoes(m: Image, r: nat, c: nat, from: int, to: int)
    requires Valid(m) && r < m.h && c < m.w
    requires from == r * m.y.rowStride + c * m.y.pixelStride && to == r * m.w + c
    ensures 0 <= from < |m.y.data| && 0 <= to < |Repacked(m)| && Repacked(m)[to] == m.y.data[from]
  {
    RepackedPlacesLuma(m, r, c);
    InBounds(m.y, m.w, m.h, r, c);
    assert from == Position(m.y, r, c) && to == Luma(m.w, r, c);
    hide Repacked, Valid, Fits, Position, Luma;
  }

  /** And of block row r, block column c: V first, then U, both read with the strides of the U plane. */
  lemma ChromaGoes(m: Image, r: nat, c: nat, from: int, to: int)
    requires Valid(m) && r < m.h / 2 && c < m.w / 2
    requires from == r * m.u.rowStride + c * m.u.pixelStride && to == m.w * m.h + 2 * (r * (m.w / 2) + c)
    ensures 0 <= from < |m.vData| && from < |m.u.data| && 0 <= to && to + 1 < |Repacked(m)|
    ensures Repacked(m)[to] == m.vData[from] && Repacked(m)[to + 1] == m.u.data[from]
  {
    RepackedPlacesChroma(m, r, c);
    InBounds(m.u, m.w / 2, m.h / 2, r, c);
    InBounds(m.V(), m.w / 2, m.h / 2, r, c);
    assert Position(m.V(), r, c) == Position(m.u, r, c);
    assert from == Position(m.u, r, c) && to == Chroma(m.w, m.h, r, c);
    hide Repacked, Valid, Fits, Position, Chroma;
  }

  /** The buffer has one and a half bytes a pixel, and nothing but zeros behind the chroma bytes. */
  lemma SizeAndPadding(m: Image)
    requires Valid(m)
    ensures |Repacked(m)| == m.w * m.h * 3 / 2
    ensures forall i :: m.w * m.h + 2 * ((m.w / 2) * (m.h / 2)) <= i < |Repacked(m)| ==> Repacked(m)[i] == 0
  {
    hide CellSample, Fits;
  }

  /** The bulk copy is the strided loop on a plane without gaps. */
  lemma TightPlaneIsLinear(p: Plane, cols: nat, rows: nat)
    requires Fits(p, cols, rows) && p.pixelStride == 1 && p.rowStride == cols
    ensures cols * rows <= |p.data|
    ensures forall i :: 0 <= i < cols * rows ==> p.data[i] == CellSample(p, cols, rows, i)
  {
    if cols > 0 && rows > 0 {
      assert Position(p, rows - 1, cols - 1) == cols * rows - 1;
    }
    forall i: nat | i < cols * rows
      ensures i < |p.data| && p.data[i] == CellSample(p, cols, rows, i)
    {
      Cell(i, cols, rows);
    }
  }

  /** The whole buffer is written exactly for even sizes, single pixels and empty images. */
  lemma NoPaddingIff(w: nat, h: nat)
    ensures w * h + 2 * ((w / 2) * (h / 2)) == w * h * 3 / 2
       <==> (w % 2 == 0 && h % 2 == 0) || w == 0 || h == 0 || (w == 1 && h == 1)
  {
    var a, b := w / 2, h / 2;
    var x, y := w % 2, h % 2;
    assert w == 2 * a + x && h == 2 * b + y;
    assert w * h == 4 * (a * b) + 2 * (a * y) + 2 * (b * x) + x * y by {
      assert (2 * a + x) * (2 * b + y) == 2 * a * (2 * b) + 2 * a * y + x * (2 * b) + x * y;
      assert 2 * a * (2 * b) == 4 * (a * b);
    }
  }

  /** A frame of three by two leaves its last byte unwritten. */
  lemma OddFrameHasPadding()
    ensures 3 * 2 + 2 * ((3 / 2) * (2 / 2)) < 3 * 2 * 3 / 2
  {
  }

  method CopyLuma(m: Image, out: array<byte>)
    requires Valid(m) && out.Length == OutSize(m)
    modifies out
    ensures forall i :: 0 <= i < LumaSize(m) ==> out[i] == ByteAt(m, i)
    ensures forall i :: LumaSize(m) <= i < out.Length ==> out[i] == old(out[i])
  {
    var w, h, y := m.w, m.h, m.y;
    if y.pixelStride == 1 && y.rowStride == w {
      TightPlaneIsLinear(y, w, h);
      forall i | 0 <= i < w * h { out[i] := y.data[i]; }
    } else {
      var dst := 0;
      for row := 0 to h
        invariant dst == row * w && dst <= w * h
        invariant forall i :: 0 <= i < dst ==> out[i] == ByteAt(m, i)
        invariant forall i :: dst <= i < out.Length ==> out[i] == old(out[i])
      {
        var rowBase := row * y.rowStride;
        MulMonotone(row + 1, h, w);
        for col := 0 to w
          invariant dst == row * w + col
          invariant forall i :: 0 <= i < dst ==> out[i] == ByteAt(m, i)
          invariant forall i :: dst <= i < out.Length ==> out[i] == old(out[i])
        {
          CellOf(row, col, w, h);
          InBounds(y, w, h, row, col);
          assert rowBase + col * y.pixelStride <= INT_MAX;
          out[dst] := y.data[rowBase + col * y.pixelStride];
          dst := dst + 1;
        }
      }
    }
  }

  /** Where a block's two bytes go, and that reading its samples is in bounds. */
  lemma BlockBytes(m: Image, row: nat, col: nat)
    requires Valid(m) && row < m.h / 2 && col < m.w / 2
    ensures var at, pos := Chroma(m.w, m.h, row, col), Position(m.u, row, col);
      && LumaSize(m) <= at && at + 1 < OutSize(m) && pos < |m.vData| <= INT_MAX && pos < |m.u.data|
      && ByteAt(m, at) == m.vData[pos] && ByteAt(m, at + 1) == m.u.data[pos]
  {
    InBounds(m.u, m.w / 2, m.h / 2, row, col);
    InBounds(m.V(), m.w / 2, m.h / 2, row, col);
    assert Position(m.V(), row, col) == Position(m.u, row, col);
    CellOf(row, col, m.w / 2, m.h / 2);
    RepackedPlacesChroma(m, row, col);
    hide Valid, ByteAt, LumaSize, OutSize, Position;
  }

  lemma ChromaSteps(m: Image, row: nat, col: nat)
    ensures Chroma(m.w, m.h, row, col) == Chroma(m.w, m.h, row, 0) + 2 * col
    ensures Chroma(m.w, m.h, row + 1, 0) == Chroma(m.w, m.h, row, 0) + 2 * (m.w / 2)
  {
    assert (row + 1) * (m.w / 2) == row * (m.w / 2) + m.w / 2;
  }

  /** Fills the chroma bytes of one row of blocks. */
  method CopyChromaRow(m: Image, out: array<byte>, row: nat, start: nat) returns (dst: nat)
    requires Valid(m) && out.Length == OutSize(m)
    requires row < m.h / 2 && start == Chroma(m.w, m.h, row, 0) && start <= out.Length
    modifies out
    ensures dst == Chroma(m.w, m.h, row + 1, 0) && start <= dst <= out.Length
    ensures forall i :: start <= i < dst ==> out[i] == ByteAt(m, i)
    ensures forall i :: 0 <= i < out.Length && !(start <= i < dst) ==> out[i] == old(out[i])
  {
    var cw := m.w / 2;
    dst := start;
    ChromaSteps(m, row, cw);
    hide Valid, ByteAt, LumaSize, OutSize, Chroma;
    for col := 0 to cw
      invariant dst == start + 2 * col && dst <= out.Length
      invariant forall i :: start <= i < dst ==> out[i] == ByteAt(m, i)
      invariant forall i :: 0 <= i < out.Length && !(start <= i < dst) ==> out[i] == old(out[i])
    {
      BlockBytes(m, row, col);
      ChromaSteps(m, row, col);
      var pos := row * m.u.rowStride + col * m.u.pixelStride;
      assert pos == Position(m.u, row, col);
      assert pos <= INT_MAX;
      out[dst] := m.vData[pos];
      out[dst + 1] := m.u.data[pos];
      dst := dst + 2;
    }
  }

  method CopyChroma(m: Image, out: array<byte>)
    requires Valid(m) && out.Length == OutSize(m)
    modifies out
    ensures forall i :: LumaSize(m) <= i < UsedSize(m) ==> out[i] == ByteAt(m, i)
    ensures forall i :: 0 <= i < out.Length && !(LumaSize(m) <= i < UsedSize(m)) ==> out[i] == old(out[i])
  {
    var ch := m.h / 2;
    var dst := m.w * m.h;
    assert dst == LumaSize(m) == Chroma(m.w, m.h, 0, 0) && UsedSize(m) == Chroma(m.w, m.h, ch, 0);
    hide Valid, ByteAt, LumaSize, UsedSize, OutSize, Chroma;
    for row := 0 to ch
      invariant dst == Chroma(m.w, m.h, row, 0) && LumaSize(m) <= dst <= out.Length
      invariant forall i :: LumaSize(m) <= i < dst ==> out[i] == ByteAt(m, i)
      invariant forall i :: 0 <= i < out.Length && !(LumaSize(m) <= i < dst) ==> out[i] == old(out[i])
    {
      dst := CopyChromaRow(m, out, row, dst);
    }
  }

  method Yuv420ToNv21(m: Image) returns (out: array<byte>)
    requires Valid(m)
    ensures fresh(out) && out[..] == Repacked(m)
  {
    out := new byte[m.w * m.h * 3 / 2](_ => 0);
    CopyLuma(m, out);
    CopyChroma(m, out);
  }
}
