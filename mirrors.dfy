/// The array-valued properties of the structure mirrors: each hands the bytes
/// of one native field (or, for `image`, of the pixel buffer the structure
/// points to) to `_array_from_memory` with a fixed shape and element type.
/// Every function below takes those bytes and states which item of the field
/// each element of the view reads.
module Mirrors {
  import opened Utf8
  import opened Views

  /** A C `unsigned short`, as the `sizes.iheight` and `sizes.iwidth` fields hold. */
  type Ushort = x: int | 0 <= x < 0x1_0000

  /** A two-dimensional C-order view of a field: element `(i, j)` is item `i * cols + j`. */
  ghost predicate IsMatrix(m: NdArray, field: seq<Byte>, rows: nat, cols: nat, t: DType) {
    && m.dtype == t && m.shape == [rows, cols] && |m.strides| == 2
    && forall i, j :: 0 <= i < rows && 0 <= j < cols ==> Cell(m, [i, j], field, t, i * cols + j)
  }

  lemma MatrixView(field: seq<Byte>, rows: nat, cols: nat, t: DType)
    requires |field| == rows * cols * ItemSize(t)
    ensures ByteLength([rows, cols], t) <= |field|
    ensures IsMatrix(ArrayFromMemory(field, [rows, cols], t), field, rows, cols, t)
  {
    assert Prod([rows, cols]) == rows * cols by {
      assert [rows, cols][1..] == [cols] && [cols][1..] == [];
    }
    var m := ArrayFromMemory(field, [rows, cols], t);
    forall i, j | 0 <= i < rows && 0 <= j < cols
      ensures Cell(m, [i, j], field, t, i * cols + j)
    {
      MatrixOffset(rows, cols, i, j);
      ElementAt(field, [rows, cols], t, [i, j], i * cols + j);
    }
  }

  function Matrix(field: seq<Byte>, rows: nat, cols: nat, t: DType): (m: NdArray)
    requires |field| == rows * cols * ItemSize(t)
    ensures IsMatrix(m, field, rows, cols, t) && Valid(m)
  {
    MatrixView(field, rows, cols, t);
    ArrayFromMemory(field, [rows, cols], t)
  }

  /** `libraw_dng_color_t.calibration`: the 16 floats of `_calibration` as a 4×4 matrix, row by row. */
  function Calibration(field: seq<Byte>): (m: NdArray)
    requires |field| == 64
    ensures IsMatrix(m, field, 4, 4, Float32)
  {
    Matrix(field, 4, 4, Float32)
  }

  /** The transpose of a C-order view: element `(j, i)` is item `i * cols + j`. */
  ghost predicate IsTransposedMatrix(m: NdArray, field: seq<Byte>, rows: nat, cols: nat, t: DType) {
    && m.dtype == t && m.shape == [cols, rows] && |m.strides| == 2
    && forall i, j :: 0 <= i < rows && 0 <= j < cols ==> Cell(m, [j, i], field, t, i * cols + j)
  }

  /** Transposing moves the element at `[i, j]` to `[j, i]`. */
  lemma TransposedCell(m: NdArray, field: seq<Byte>, t: DType, i: nat, j: nat, k: int)
    requires Valid(m) && |m.shape| == 2 && InBounds([i, j], m.shape) && Cell(m, [i, j], field, t, k)
    ensures Cell(Transpose(m), [j, i], field, t, k)
  {
    var b := Transpose(m);
    assert Reverse([i, j]) == [j, i];
    assert At(b, Reverse([i, j])) == At(m, [i, j]);
  }

  lemma TransposedMatrix(m: NdArray, field: seq<Byte>, rows: nat, cols: nat, t: DType)
    requires IsMatrix(m, field, rows, cols, t) && Valid(m)
    ensures IsTransposedMatrix(Transpose(m), field, rows, cols, t)
  {
    forall i, j | 0 <= i < rows && 0 <= j < cols
      ensures Cell(Transpose(m), [j, i], field, t, i * cols + j)
    {
      assert InBounds([i, j], m.shape);
      TransposedCell(m, field, t, i, j, i * cols + j);
    }
    assert Transpose(m).shape == [cols, rows] by { assert Reverse([rows, cols]) == [cols, rows]; }
  }

  /**
   * `libraw_dng_color_t.colormatrix`: the 12 floats of `_colormatrix` viewed
   * as 4×3 and transposed, so that element `(j, i)` is item `3 * i + j`.
   */
  function Colormatrix(field: seq<Byte>): (m: NdArray)
    requires |field| == 48
    ensures IsTransposedMatrix(m, field, 4, 3, Float32)
  {
    var rows := Matrix(field, 4, 3, Float32);
    TransposedMatrix(rows, field, 4, 3, Float32);
    Transpose(rows)
  }

  /**
   * A 3×4 float matrix, row by row: `forwardmatrix` of `libraw_dng_color_t`
   * and `cmatrix`, `rgb_cam` and `cam_xyz` of `libraw_colordata_t` (12 floats each).
   */
  function Matrix3x4(field: seq<Byte>): (m: NdArray)
    requires |field| == 48
    ensures IsMatrix(m, field, 3, 4, Float32)
  {
    Matrix(field, 3, 4, Float32)
  }

  /** The one-dimensional views: element `k` is item `k` of the field. */
  ghost predicate IsVector(m: NdArray, field: seq<Byte>, n: nat, t: DType) {
    && m.dtype == t && m.shape == [n] && |m.strides| == 1
    && forall k :: 0 <= k < n ==> Cell(m, [k], field, t, k)
  }

  function Vector(field: seq<Byte>, n: nat, t: DType): (m: NdArray)
    requires |field| == n * ItemSize(t)
    ensures IsVector(m, field, n, t)
  {
    assert Prod([n]) == n * Prod([]);
    var m := ArrayFromMemory(field, [n], t);
    forall k | 0 <= k < n
      ensures Cell(m, [k], field, t, k)
    {
      VectorOffset(n, k);
      ElementAt(field, [n], t, [k], k);
    }
    m
  }

  /** `libraw_colordata_t.curve`: the 0x10000 16-bit entries of `_curve`. */
  function Curve(field: seq<Byte>): (m: NdArray)
    requires |field| == 0x2_0000
    ensures IsVector(m, field, 0x1_0000, UInt16)
  {
    Vector(field, 0x1_0000, UInt16)
  }

  /** `libraw_colordata_t.cblack`: the 4102 32-bit entries of `_cblack`. */
  function Cblack(field: seq<Byte>): (m: NdArray)
    requires |field| == 4102 * 4
    ensures IsVector(m, field, 4102, UInt32)
  {
    Vector(field, 4102, UInt32)
  }

  /** `libraw_colordata_t.cam_mul` and `pre_mul`: four floats each. */
  function Multipliers(field: seq<Byte>): (m: NdArray)
    requires |field| == 16
    ensures IsVector(m, field, 4, Float32)
  {
    Vector(field, 4, Float32)
  }

  /** A three-dimensional C-order view: element `(i, j, k)` is item `(i * d1 + j) * d2 + k`. */
  ghost predicate IsCube(m: NdArray, region: seq<Byte>, d0: nat, d1: nat, d2: nat, t: DType) {
    && m.dtype == t && m.shape == [d0, d1, d2] && |m.strides| == 3
    && forall i, j, k :: 0 <= i < d0 && 0 <= j < d1 && 0 <= k < d2 ==>
         Cell(m, [i, j, k], region, t, (i * d1 + j) * d2 + k)
  }

  lemma CubeView(region: seq<Byte>, d0: nat, d1: nat, d2: nat, t: DType)
    requires ByteLength([d0, d1, d2], t) <= |region|
    ensures IsCube(ArrayFromMemory(region, [d0, d1, d2], t), region, d0, d1, d2, t)
  {
    var m := ArrayFromMemory(region, [d0, d1, d2], t);
    assert m.dtype == t && m.shape == [d0, d1, d2] && |m.strides| == 3;
    forall i, j, k | 0 <= i < d0 && 0 <= j < d1 && 0 <= k < d2
      ensures Cell(m, [i, j, k], region, t, (i * d1 + j) * d2 + k)
    {
      CubeOffset(d0, d1, d2, i, j, k);
      ElementAt(region, [d0, d1, d2], t, [i, j, k], (i * d1 + j) * d2 + k);
    }
  }

  function Cube(region: seq<Byte>, d0: nat, d1: nat, d2: nat, t: DType): (m: NdArray)
    requires ByteLength([d0, d1, d2], t) <= |region|
    ensures IsCube(m, region, d0, d1, d2, t)
  {
    CubeView(region, d0, d1, d2, t);
    ArrayFromMemory(region, [d0, d1, d2], t)
  }

  /**
   * `libraw_data_t.image`: the buffer `_image` points to, as an
   * `(iheight, iwidth, 4)` array of 16-bit samples, one pixel of four
   * samples after another, row by row; it spans `iheight * iwidth * 4 * 2` bytes.
   */
  function Image(iheight: Ushort, iwidth: Ushort, pixels: seq<Byte>): (m: NdArray)
    requires iheight * iwidth * 4 * 2 <= |pixels|
    ensures ByteLength(m.shape, m.dtype) == iheight * iwidth * 4 * 2
    ensures IsCube(m, pixels, iheight, iwidth, 4, UInt16)
  {
    assert [iheight as nat, iwidth as nat, 4][1..] == [iwidth as nat, 4];
    assert [iwidth as nat, 4][1..] == [4] && [4][1..] == [];
    assert Prod([4]) == 4 * Prod([]);
    assert Prod([iwidth as nat, 4]) == iwidth * Prod([4]);
    assert Prod([iheight as nat, iwidth as nat, 4]) == iheight * Prod([iwidth as nat, 4]);
    Cube(pixels, iheight, iwidth, 4, UInt16)
  }
}
