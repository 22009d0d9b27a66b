/// The zero-copy view adapter `_array_from_memory(ptr, shape, type)`: the
/// byte length it maps (`np.prod(shape) * itemsize`), the flat array of items
/// `np.frombuffer` makes of those bytes, the C-order `reshape(shape)`, and the
/// `.T` some struct properties apply on top.
///
/// A view is modelled as numpy keeps it: the flat items, a shape and one
/// stride per axis (counted in items, where numpy counts bytes). An item is
/// kept as the bytes that hold it; which number those bytes denote is the
/// business of the native types and is not modelled.
module Views {
  import opened Utf8
  import opened Arith

  datatype DType = Float32 | UInt16 | UInt32

  /** `np.dtype(type).itemsize`. */
  function ItemSize(t: DType): (n: nat)
    ensures n == 2 || n == 4
  {
    match t
    case Float32 => 4
    case UInt16 => 2
    case UInt32 => 4
  }

  /** `np.prod(shape)`: 1 for the empty shape. */
  function Prod(shape: seq<nat>): nat {
    if shape == [] then 1 else shape[0] * Prod(shape[1..])
  }

  /** `int(np.prod(shape) * np.dtype(type).itemsize)`: the bytes the view spans. */
  function ByteLength(shape: seq<nat>, t: DType): (n: nat)
    ensures n % ItemSize(t) == 0
    ensures n == 0 <==> 0 in shape
  {
    ProdZero(shape);
    Prod(shape) * ItemSize(t)
  }

  /** A product of dimensions is zero exactly when one of them is. */
  lemma {:induction false} ProdZero(shape: seq<nat>)
    ensures Prod(shape) == 0 <==> 0 in shape
  {
    if shape != [] {
      ProdZero(shape[1..]);
      assert shape == [shape[0]] + shape[1..];
    }
  }

  /** The `k`-th item of a buffer of `t` values: its `ItemSize(t)` bytes. */
  function Item(buf: seq<Byte>, t: DType, k: nat): (r: seq<Byte>)
    requires (k + 1) * ItemSize(t) <= |buf|
    ensures |r| == ItemSize(t)
  {
    buf[k * ItemSize(t) .. (k + 1) * ItemSize(t)]
  }

  /** `np.frombuffer(buf, type)`: the buffer cut into consecutive items. */
  function FromBuffer(buf: seq<Byte>, t: DType): (r: seq<seq<Byte>>)
    requires |buf| % ItemSize(t) == 0
    ensures |r| * ItemSize(t) == |buf|
    ensures forall k :: 0 <= k < |r| ==> (k + 1) * ItemSize(t) <= |buf| && r[k] == Item(buf, t, k)
    decreases |buf|
  {
    if buf == [] then []
    else
      var s := ItemSize(t);
      var q := |buf| / s;
      assert |buf[s..]| == (q - 1) * s by { DivMod(q, 0, s); }
      DivMod(q - 1, 0, s);
      var rest := FromBuffer(buf[s..], t);
      var r := [buf[..s]] + rest;
      forall k | 1 <= k < |r|
        ensures (k + 1) * s <= |buf| && r[k] == Item(buf, t, k)
      {
        ItemShift(buf, t, k);
      }
      r
  }

  /** Item `k` of a buffer is item `k - 1` of the buffer without its first item. */
  lemma ItemShift(buf: seq<Byte>, t: DType, k: nat)
    requires 1 <= k && k * ItemSize(t) <= |buf| - ItemSize(t)
    ensures (k + 1) * ItemSize(t) <= |buf|
    ensures Item(buf[ItemSize(t)..], t, k - 1) == Item(buf, t, k)
  {
    var s := ItemSize(t);
    assert (k - 1) * s == k * s - s && k * s == (k + 1) * s - s;
  }

  /** A numpy array: flat items, a shape, and the stride of each axis. */
  datatype NdArray = NdArray(dtype: DType, items: seq<seq<Byte>>, shape: seq<nat>, strides: seq<nat>)

  /** Whether `idx` addresses an element of an array of the given shape. */
  predicate InBounds(idx: seq<nat>, shape: seq<nat>) {
    |idx| == |shape| && forall k :: 0 <= k < |idx| ==> idx[k] < shape[k]
  }

  /** The flat position of index `idx` under the given strides. */
  function Dot(idx: seq<nat>, strides: seq<nat>): nat
    requires |idx| == |strides|
  {
    if idx == [] then 0 else idx[0] * strides[0] + Dot(idx[1..], strides[1..])
  }

  /** Every index within the shape addresses an item of the array. */
  ghost predicate Valid(a: NdArray) {
    && |a.strides| == |a.shape|
    && forall idx :: InBounds(idx, a.shape) ==> Dot(idx, a.strides) < |a.items|
  }

  /** `a[idx]`. */
  function At(a: NdArray, idx: seq<nat>): seq<Byte>
    requires |idx| == |a.strides| && Dot(idx, a.strides) < |a.items|
  {
    a.items[Dot(idx, a.strides)]
  }

  /** The strides of a C-contiguous (row-major) array of the given shape. */
  function CStrides(shape: seq<nat>): (r: seq<nat>)
    ensures |r| == |shape|
  {
    if shape == [] then [] else [Prod(shape[1..])] + CStrides(shape[1..])
  }

  /** The stride of axis `k` is the number of items in one step along it: the product of the later axes. */
  lemma {:induction false} CStridesAreSuffixProducts(shape: seq<nat>)
    ensures forall k :: 0 <= k < |shape| ==> CStrides(shape)[k] == Prod(shape[k + 1..])
  {
    if shape != [] {
      CStridesAreSuffixProducts(shape[1..]);
      assert forall k :: 1 <= k < |shape| ==>
        CStrides(shape)[k] == CStrides(shape[1..])[k - 1] && shape[k + 1..] == shape[1..][k..];
    }
  }

  /** Row-major positions of in-bounds indices stay inside the array. */
  lemma {:induction false} COffsetBound(idx: seq<nat>, shape: seq<nat>)
    requires InBounds(idx, shape)
    ensures Dot(idx, CStrides(shape)) < Prod(shape)
  {
    if shape != [] {
      assert InBounds(idx[1..], shape[1..]);
      COffsetBound(idx[1..], shape[1..]);
      MulLess(idx[0], Dot(idx[1..], CStrides(shape[1..])), Prod(shape[1..]), shape[0]);
    }
  }

  /** `np.unravel_index(off, shape)`: the index that reaches flat position `off` in C order. */
  function Unravel(off: nat, shape: seq<nat>): (idx: seq<nat>)
    requires off < Prod(shape)
    ensures |idx| == |shape|
  {
    if shape == [] then []
    else
      var p := Prod(shape[1..]);
      assert p > 0 && off % p < p by { DivBound(off, p, shape[0]); }
      [off / p] + Unravel(off % p, shape[1..])
  }

  /** The unravelled index is within the shape and sits at position `off`. */
  lemma {:induction false} UnravelSound(off: nat, shape: seq<nat>)
    requires off < Prod(shape)
    ensures InBounds(Unravel(off, shape), shape) && Dot(Unravel(off, shape), CStrides(shape)) == off
  {
    if shape != [] {
      var p := Prod(shape[1..]);
      DivBound(off, p, shape[0]);
      UnravelSound(off % p, shape[1..]);
      ConsIndex(off / p, Unravel(off % p, shape[1..]), shape);
    }
  }

  /** Prefixing an in-bounds index of the inner axes with a position on the outer one. */
  lemma ConsIndex(i: nat, tail: seq<nat>, shape: seq<nat>)
    requires shape != [] && i < shape[0] && InBounds(tail, shape[1..])
    ensures InBounds([i] + tail, shape)
    ensures Dot([i] + tail, CStrides(shape)) == i * Prod(shape[1..]) + Dot(tail, CStrides(shape[1..]))
  {
    var idx := [i] + tail;
    assert idx[1..] == tail && CStrides(shape)[1..] == CStrides(shape[1..]);
    assert forall k :: 1 <= k < |idx| ==> idx[k] == tail[k - 1] && shape[k] == shape[1..][k - 1];
  }

  /** Reshaping in C order is one-to-one: an index is recovered from its position. */
  lemma {:induction false} UnravelDot(idx: seq<nat>, shape: seq<nat>)
    requires InBounds(idx, shape)
    ensures Dot(idx, CStrides(shape)) < Prod(shape) && Unravel(Dot(idx, CStrides(shape)), shape) == idx
  {
    COffsetBound(idx, shape);
    if shape != [] {
      var p := Prod(shape[1..]);
      var rest := Dot(idx[1..], CStrides(shape[1..]));
      assert InBounds(idx[1..], shape[1..]);
      COffsetBound(idx[1..], shape[1..]);
      DivMod(idx[0], rest, p);
      UnravelDot(idx[1..], shape[1..]);
      assert idx == [idx[0]] + idx[1..];
    }
  }

  /** Two in-bounds indices with the same row-major position are the same index. */
  lemma COffsetInjective(i: seq<nat>, j: seq<nat>, shape: seq<nat>)
    requires InBounds(i, shape) && InBounds(j, shape)
    requires Dot(i, CStrides(shape)) == Dot(j, CStrides(shape))
    ensures i == j
  {
    UnravelDot(i, shape);
    UnravelDot(j, shape);
  }

  /**
   * `_array_from_memory(ptr, shape, type)` over the native bytes `region`
   * that start at `ptr`: the first `ByteLength(shape, type)` of them, read as
   * items and reshaped in C order. The native side must provide that many
   * bytes; nothing checks it.
   */
  function ArrayFromMemory(region: seq<Byte>, shape: seq<nat>, t: DType): (a: NdArray)
    requires ByteLength(shape, t) <= |region|
    ensures a.dtype == t && a.shape == shape && a.strides == CStrides(shape)
    ensures |a.items| == Prod(shape) && Valid(a)
    ensures forall idx {:trigger At(a, idx)} :: InBounds(idx, shape) ==>
      Dot(idx, a.strides) < Prod(shape) && (Dot(idx, a.strides) + 1) * ItemSize(t) <= |region| &&
      At(a, idx) == Item(region, t, Dot(idx, a.strides))
  {
    var n := ByteLength(shape, t);
    assert n % ItemSize(t) == 0 by { DivMod(Prod(shape), 0, ItemSize(t)); }
    var items := FromBuffer(region[..n], t);
    var a := NdArray(t, items, shape, CStrides(shape));
    assert |items| == Prod(shape) by {
      assert |items| * ItemSize(t) == Prod(shape) * ItemSize(t);
    }
    forall idx | InBounds(idx, shape)
      ensures Dot(idx, a.strides) < Prod(shape)
    {
      COffsetBound(idx, shape);
    }
    forall k | 0 <= k < Prod(shape)
      ensures (k + 1) * ItemSize(t) <= |region| && items[k] == Item(region, t, k)
    {
      MulLess(k, 0, ItemSize(t), Prod(shape));
    }
    a
  }

  /** Element `idx` of `a` exists and holds item `k` of `region`. */
  ghost predicate Cell(a: NdArray, idx: seq<nat>, region: seq<Byte>, t: DType, k: int) {
    && 0 <= k && |idx| == |a.strides| && Dot(idx, a.strides) < |a.items| && (k + 1) * ItemSize(t) <= |region|
    && At(a, idx) == Item(region, t, k)
  }

  /** Element `idx` of a view made by `ArrayFromMemory` holds the item at its C-order position. */
  lemma ElementAt(region: seq<Byte>, shape: seq<nat>, t: DType, idx: seq<nat>, k: int)
    requires ByteLength(shape, t) <= |region| && InBounds(idx, shape)
    requires Dot(idx, CStrides(shape)) == k
    ensures Cell(ArrayFromMemory(region, shape, t), idx, region, t, k)
  {
    var a := ArrayFromMemory(region, shape, t);
    assert At(a, idx) == Item(region, t, Dot(idx, a.strides));
  }

  lemma Dot1(i: nat, a: nat)
    ensures Dot([i], [a]) == i * a
  {
    assert [i][1..] == [] && [a][1..] == [];
  }

  lemma Dot2(i: nat, j: nat, a: nat, b: nat)
    ensures Dot([i, j], [a, b]) == i * a + j * b
  {
    assert [i, j][1..] == [j] && [a, b][1..] == [b];
    Dot1(j, b);
  }

  lemma Dot3(i: nat, j: nat, k: nat, a: nat, b: nat, c: nat)
    ensures Dot([i, j, k], [a, b, c]) == i * a + j * b + k * c
  {
    assert [i, j, k][1..] == [j, k] && [a, b, c][1..] == [b, c];
    Dot2(j, k, b, c);
  }

  /** The C-order strides of one, two and three axes. */
  lemma CStrides1(n: nat)
    ensures CStrides([n]) == [1]
  {
    assert [n][1..] == [];
  }

  lemma CStrides2(rows: nat, cols: nat)
    ensures CStrides([rows, cols]) == [cols, 1]
  {
    assert [rows, cols][1..] == [cols] && [cols][1..] == [];
    assert Prod([cols]) == cols * Prod([]);
    CStrides1(cols);
  }

  lemma CStrides3(d0: nat, d1: nat, d2: nat)
    ensures CStrides([d0, d1, d2]) == [d1 * d2, d2, 1]
  {
    assert [d0, d1, d2][1..] == [d1, d2] && [d1, d2][1..] == [d2] && [d2][1..] == [];
    assert Prod([d2]) == d2 * Prod([]);
    assert Prod([d1, d2]) == d1 * Prod([d2]);
    CStrides2(d1, d2);
  }

  /** Row-major position of `[i]` in a vector. */
  lemma VectorOffset(n: nat, i: nat)
    requires i < n
    ensures InBounds([i], [n]) && Dot([i], CStrides([n])) == i
  {
    CStrides1(n);
    Dot1(i, 1);
  }

  /** Row-major position of `[i, j]` in a `rows` × `cols` matrix. */
  lemma MatrixOffset(rows: nat, cols: nat, i: nat, j: nat)
    requires i < rows && j < cols
    ensures InBounds([i, j], [rows, cols]) && Dot([i, j], CStrides([rows, cols])) == i * cols + j
  {
    CStrides2(rows, cols);
    Dot2(i, j, cols, 1);
  }

  /** Row-major position of `[i, j, k]` in a `d0` × `d1` × `d2` array. */
  lemma CubeOffset(d0: nat, d1: nat, d2: nat, i: nat, j: nat, k: nat)
    requires i < d0 && j < d1 && k < d2
    ensures InBounds([i, j, k], [d0, d1, d2])
    ensures Dot([i, j, k], CStrides([d0, d1, d2])) == (i * d1 + j) * d2 + k
  {
    CStrides3(d0, d1, d2);
    Dot3(i, j, k, d1 * d2, d2, 1);
    assert i * (d1 * d2) + j * d2 == (i * d1 + j) * d2;
  }

  function Reverse<T>(s: seq<T>): (r: seq<T>)
    ensures |r| == |s|
    ensures forall k :: 0 <= k < |s| ==> r[k] == s[|s| - 1 - k]
  {
    if s == [] then [] else Reverse(s[1..]) + [s[0]]
  }

  lemma {:induction false} DotAppend(i: seq<nat>, s: seq<nat>, x: nat, y: nat)
    requires |i| == |s|
    ensures Dot(i + [x], s + [y]) == Dot(i, s) + x * y
  {
    if i != [] {
      assert (i + [x])[1..] == i[1..] + [x];
      assert (s + [y])[1..] == s[1..] + [y];
      DotAppend(i[1..], s[1..], x, y);
    }
  }

  /** Reversing both the index and the strides reaches the same position. */
  lemma {:induction false} DotReverse(i: seq<nat>, s: seq<nat>)
    requires |i| == |s|
    ensures Dot(Reverse(i), Reverse(s)) == Dot(i, s)
  {
    if i != [] {
      DotReverse(i[1..], s[1..]);
      assert Reverse(i) == Reverse(i[1..]) + [i[0]];
      assert Reverse(s) == Reverse(s[1..]) + [s[0]];
      DotAppend(Reverse(i[1..]), Reverse(s[1..]), i[0], s[0]);
    }
  }

  /** `a.T`: the same items with the order of the axes reversed, as numpy does it. */
  function Transpose(a: NdArray): (b: NdArray)
    requires Valid(a)
    ensures Valid(b) && b.dtype == a.dtype && b.items == a.items
    ensures b.shape == Reverse(a.shape) && b.strides == Reverse(a.strides)
    ensures forall idx {:trigger At(a, idx)} :: InBounds(idx, a.shape) ==>
      InBounds(Reverse(idx), b.shape) && Dot(idx, a.strides) < |a.items| &&
      Dot(Reverse(idx), b.strides) < |b.items| && At(b, Reverse(idx)) == At(a, idx)
  {
    var b := a.(shape := Reverse(a.shape), strides := Reverse(a.strides));
    forall idx | InBounds(idx, b.shape)
      ensures Dot(idx, b.strides) < |b.items|
    {
      var orig := Reverse(idx);
      assert InBounds(orig, a.shape);
      assert Reverse(orig) == idx;
      DotReverse(orig, a.strides);
    }
    forall idx | InBounds(idx, a.shape)
      ensures InBounds(Reverse(idx), b.shape) && Dot(Reverse(idx), b.strides) == Dot(idx, a.strides)
    {
      DotReverse(idx, a.strides);
    }
    b
  }
}
