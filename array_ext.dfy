/**
 * The native array extension of TVTK (`array_ext`): packing a 2-D table of
 * point ids into the flat cell layout of a `vtkIdTypeArray`, the checks the
 * public wrapper makes before packing, and the byte size `c_empty_array`
 * allocates for an uninitialised Numeric array.
 *
 * Array elements are mathematical integers; the widths of C's `int` and
 * of the 'l' typecode are not modelled (see README.md, "Left out"). A
 * Numeric array is a buffer together with the index
 * of its first element in that buffer (where the C data pointer points),
 * so strided views, reversed ones included, are modelled.
 */
module ArrayExt {
  import opened Wrappers

  /** `sizeof(int)` on the platforms the extension is built for. */
  const IntSize: nat := 4

  /** Number of values of C's 32-bit `int`. */
  const IntModulus: nat := 0x1_0000_0000

  /** Number of values of `size_t`, the unsigned type of `sizeof`: 64 bits. */
  const SizeModulus: nat := 0x1_0000_0000_0000_0000

  /** A value of C's 32-bit `int`, the type of Numeric's strides. */
  predicate IsCInt(a: int)
  {
    -(IntModulus / 2) <= a < IntModulus / 2
  }

  /**
   * `stride / sizeof(int)` with a byte stride of type `int`: the stride is
   * converted to `size_t` (modulo 2^64), divided, and the quotient stored
   * back into an `int`, which keeps its low 32 bits. The element stride is
   * the byte stride divided by `sizeof(int)` rounded down, so a negative
   * stride stays negative.
   */
  function ElementStride(byteStride: int): (s: int)
    requires IsCInt(byteStride)
    ensures s * IntSize <= byteStride < s * IntSize + IntSize
    ensures s < 0 <==> byteStride < 0
  {
    var unsigned := byteStride % SizeModulus;
    assert unsigned == if byteStride < 0 then byteStride + SizeModulus else byteStride;
    var quotient := unsigned / IntSize;
    assert quotient == if byteStride < 0 then byteStride / IntSize + SizeModulus / IntSize else byteStride / IntSize;
    var low := quotient % IntModulus;
    assert low == if byteStride < 0 then byteStride / IntSize + IntModulus else byteStride / IntSize;
    if low >= IntModulus / 2 then low - IntModulus else low
  }

  // ---------------------------------------------------------------------
  // The packed cell layout
  // ---------------------------------------------------------------------

  /**
   * Buffer index of the id at row `i`, column `j` of a table whose first
   * element is at `base`, with element strides `s0`, `s1`.
   */
  function Flat(base: int, i: int, j: int, s0: int, s1: int): int
  {
    base + i * s0 + j * s1
  }

  /** Every id of a `dim0` by `cellLength` table lies inside a buffer of `n` elements. */
  ghost predicate TableInBounds(n: nat, base: int, dim0: nat, cellLength: nat, s0: int, s1: int)
  {
    forall i, j :: 0 <= i < dim0 && 0 <= j < cellLength ==> 0 <= Flat(base, i, j, s0, s1) < n
  }

  /** The ids of row `i`, in column order. */
  function Row(ids: seq<int>, base: int, dim0: nat, cellLength: nat, s0: int, s1: int, i: nat): (r: seq<int>)
    requires TableInBounds(|ids|, base, dim0, cellLength, s0, s1)
    requires i < dim0
    ensures |r| == cellLength
    ensures forall j :: 0 <= j < cellLength ==> r[j] == ids[Flat(base, i, j, s0, s1)]
  {
    seq(cellLength, j requires 0 <= j < cellLength => ids[Flat(base, i, j, s0, s1)])
  }

  /**
   * The cell layout of the first `rows` rows of the table: one block per row,
   * the count `cellLength` followed by that row's ids.
   */
  function Packed(ids: seq<int>, base: int, dim0: nat, cellLength: nat, s0: int, s1: int, rows: nat): (r: seq<int>)
    requires TableInBounds(|ids|, base, dim0, cellLength, s0, s1)
    requires rows <= dim0
    ensures |r| == rows * (cellLength + 1)
    decreases rows
  {
    if rows == 0 then []
    else
      var before := Packed(ids, base, dim0, cellLength, s0, s1, rows - 1);
      assert |before| + cellLength + 1 == rows * (cellLength + 1) by {
        assert rows * (cellLength + 1) == (rows - 1) * (cellLength + 1) + (cellLength + 1);
      }
      before + [cellLength] + Row(ids, base, dim0, cellLength, s0, s1, rows - 1)
  }

  /** A row block that starts earlier ends no later than the start of a later one. */
  lemma BlockBefore(i: nat, k: nat, cellLength: nat)
    requires i < k
    ensures i * (cellLength + 1) + (cellLength + 1) <= k * (cellLength + 1)
  {
    assert k * (cellLength + 1) == i * (cellLength + 1) + (k - i) * (cellLength + 1);
    assert (k - i) * (cellLength + 1) == (k - i - 1) * (cellLength + 1) + (cellLength + 1);
  }

  /** Packing more rows only appends: the layout of the first `rows` rows is a prefix. */
  lemma {:induction false} PackedPrefix(ids: seq<int>, base: int, dim0: nat, cellLength: nat, s0: int, s1: int, rows: nat, more: nat)
    requires TableInBounds(|ids|, base, dim0, cellLength, s0, s1)
    requires rows <= more <= dim0
    ensures Packed(ids, base, dim0, cellLength, s0, s1, rows) == Packed(ids, base, dim0, cellLength, s0, s1, more)[..rows * (cellLength + 1)]
    decreases more
  {
    if more > rows {
      PackedPrefix(ids, base, dim0, cellLength, s0, s1, rows, more - 1);
      var shorter := Packed(ids, base, dim0, cellLength, s0, s1, more - 1);
      var longer := Packed(ids, base, dim0, cellLength, s0, s1, more);
      assert longer == shorter + [cellLength] + Row(ids, base, dim0, cellLength, s0, s1, more - 1);
      assert rows * (cellLength + 1) <= |shorter| by {
        if rows < more - 1 { BlockBefore(rows, more - 1, cellLength); }
      }
      assert longer[..rows * (cellLength + 1)] == shorter[..rows * (cellLength + 1)];
    }
  }

  /** Every row block starts with the cell length. */
  lemma PackedHeader(ids: seq<int>, base: int, dim0: nat, cellLength: nat, s0: int, s1: int, i: nat)
    requires TableInBounds(|ids|, base, dim0, cellLength, s0, s1)
    requires i < dim0
    ensures i * (cellLength + 1) < dim0 * (cellLength + 1)
    ensures Packed(ids, base, dim0, cellLength, s0, s1, dim0)[i * (cellLength + 1)] == cellLength
  {
    PackedPrefix(ids, base, dim0, cellLength, s0, s1, i + 1, dim0);
    if i + 1 < dim0 { BlockBefore(i + 1, dim0, cellLength); }
    var block := Packed(ids, base, dim0, cellLength, s0, s1, i + 1);
    assert block == Packed(ids, base, dim0, cellLength, s0, s1, i) + [cellLength] + Row(ids, base, dim0, cellLength, s0, s1, i);
    assert block[i * (cellLength + 1)] == cellLength;
  }

  /** Column `j` of row `i` sits right after the row's header, at offset `1 + j`. */
  lemma PackedBody(ids: seq<int>, base: int, dim0: nat, cellLength: nat, s0: int, s1: int, i: nat, j: nat)
    requires TableInBounds(|ids|, base, dim0, cellLength, s0, s1)
    requires i < dim0 && j < cellLength
    ensures i * (cellLength + 1) + 1 + j < dim0 * (cellLength + 1)
    ensures Packed(ids, base, dim0, cellLength, s0, s1, dim0)[i * (cellLength + 1) + 1 + j] == ids[Flat(base, i, j, s0, s1)]
  {
    PackedPrefix(ids, base, dim0, cellLength, s0, s1, i + 1, dim0);
    if i + 1 < dim0 { BlockBefore(i + 1, dim0, cellLength); }
    var block := Packed(ids, base, dim0, cellLength, s0, s1, i + 1);
    var row := Row(ids, base, dim0, cellLength, s0, s1, i);
    assert block == Packed(ids, base, dim0, cellLength, s0, s1, i) + [cellLength] + row;
    assert block[i * (cellLength + 1) + 1 + j] == row[j];
  }

  /**
   * The row blocks tile the output: position `k` lies in block `k / (L + 1)`
   * at offset `k % (L + 1)`, offset 0 holding the count and offset `1 + j`
   * holding column `j`. Every position below `dim0 * (L + 1)` is thus written
   * by exactly one row.
   */
  lemma PackedAt(ids: seq<int>, base: int, dim0: nat, cellLength: nat, s0: int, s1: int, k: nat)
    requires TableInBounds(|ids|, base, dim0, cellLength, s0, s1)
    requires k < dim0 * (cellLength + 1)
    ensures k / (cellLength + 1) < dim0
    ensures var offset := k % (cellLength + 1);
            Packed(ids, base, dim0, cellLength, s0, s1, dim0)[k] ==
              if offset == 0 then cellLength
              else ids[Flat(base, k / (cellLength + 1), offset - 1, s0, s1)]
  {
    var i, offset := k / (cellLength + 1), k % (cellLength + 1);
    assert k == i * (cellLength + 1) + offset;
    MulLess(i, dim0, cellLength + 1);
    if offset == 0 {
      PackedHeader(ids, base, dim0, cellLength, s0, s1, i);
    } else {
      PackedBody(ids, base, dim0, cellLength, s0, s1, i, offset - 1);
    }
  }

  /** Multiplying by a positive factor preserves strict order, so it can be cancelled. */
  lemma MulLess(a: nat, b: nat, c: nat)
    requires c > 0 && a * c < b * c
    ensures a < b
  {
  }

  /** Distinct (row, offset) pairs land on distinct positions: the row blocks are disjoint. */
  lemma BlocksDisjoint(i1: nat, offset1: nat, i2: nat, offset2: nat, cellLength: nat)
    requires offset1 <= cellLength && offset2 <= cellLength
    requires i1 * (cellLength + 1) + offset1 == i2 * (cellLength + 1) + offset2
    ensures i1 == i2 && offset1 == offset2
  {
    if i1 < i2 {
      BlockBefore(i1, i2, cellLength);
    } else if i2 < i1 {
      BlockBefore(i2, i1, cellLength);
    }
  }

  /**
   * One pass of the outer loop of `c_set_id_type_array`: writes the block of
   * row `i` (the count, then the row's ids) at `out_idx = i * L + i` past
   * the output's first element `outStart`, reading row `i` at `in_idx =
   * i * stride0` past the id table's first element `idStart`.
   */
  method PackRow(ids: array<int>, idStart: int, dim0: nat, cellLength: nat, stride0: int, stride1: int, i: nat,
                 out: array<int>, outStart: nat)
    requires ids != out
    requires TableInBounds(ids.Length, idStart, dim0, cellLength, stride0, stride1)
    requires i < dim0
    requires outStart + (i + 1) * (cellLength + 1) <= out.Length
    modifies out
    ensures i * (cellLength + 1) + cellLength + 1 == (i + 1) * (cellLength + 1)
    ensures out[..outStart + i * (cellLength + 1)] == old(out[..outStart + i * (cellLength + 1)])
    ensures out[outStart + i * (cellLength + 1)..outStart + (i + 1) * (cellLength + 1)] ==
              [cellLength] + Row(ids[..], idStart, dim0, cellLength, stride0, stride1, i)
    ensures forall k :: outStart + (i + 1) * (cellLength + 1) <= k < out.Length ==> out[k] == old(out[k])
  {
    ghost var row := Row(ids[..], idStart, dim0, cellLength, stride0, stride1, i);
    var inIdx := i * stride0;
    var outIdx := i * cellLength + i;
    assert outIdx == i * (cellLength + 1);
    assert outIdx + cellLength + 1 == (i + 1) * (cellLength + 1);
    ghost var at := outStart + outIdx;
    out[outStart + outIdx] := cellLength;
    var j := 0;
    while j < cellLength
      invariant 0 <= j <= cellLength
      invariant out[..at] == old(out[..at])
      invariant out[at..at + 1 + j] == [cellLength] + row[..j]
      invariant forall k :: at + 1 + j <= k < out.Length ==> out[k] == old(out[k])
    {
      assert 0 <= idStart + inIdx + j * stride1 == Flat(idStart, i, j, stride0, stride1) < ids.Length;
      out[outStart + outIdx + j + 1] := ids[idStart + inIdx + j * stride1];
      assert out[at..at + 1 + j + 1] == out[at..at + 1 + j] + [row[j]];
      assert row[..j + 1] == row[..j] + [row[j]];
      j := j + 1;
    }
    assert row[..cellLength] == row;
  }

  /**
   * The step of the outer loop: when the output held the untouched front
   * and the first `i` blocks, and row `i`'s block is written after them
   * with everything before it kept, the output holds the first `i + 1`.
   */
  lemma PackedAppendsRow(ids: seq<int>, idStart: int, dim0: nat, cellLength: nat, s0: int, s1: int, i: nat,
                         front: seq<int>, before: seq<int>, after: seq<int>, outStart: nat)
    requires TableInBounds(|ids|, idStart, dim0, cellLength, s0, s1)
    requires i < dim0
    requires outStart + (i + 1) * (cellLength + 1) <= |before| == |after|
    requires before[..outStart + i * (cellLength + 1)] == front + Packed(ids, idStart, dim0, cellLength, s0, s1, i)
    requires after[..outStart + i * (cellLength + 1)] == before[..outStart + i * (cellLength + 1)]
    requires after[outStart + i * (cellLength + 1)..outStart + (i + 1) * (cellLength + 1)] ==
               [cellLength] + Row(ids, idStart, dim0, cellLength, s0, s1, i)
    ensures after[..outStart + (i + 1) * (cellLength + 1)] == front + Packed(ids, idStart, dim0, cellLength, s0, s1, i + 1)
  {
    var lo, hi := outStart + i * (cellLength + 1), outStart + (i + 1) * (cellLength + 1);
    assert hi == lo + cellLength + 1;
    assert after[..hi] == after[..lo] + after[lo..hi];
  }

  /**
   * `c_set_id_type_array`: writes the `dim0` by `cellLength` id table, whose
   * first element is `ids[idStart]` and which is read through element
   * strides `stride0` and `stride1`, into `out` from `out[outStart]` on, as
   * one block per row (the count, then the row's ids). Only the
   * `dim0 * (cellLength + 1)` elements from `outStart` on are written; `ids`
   * is read only.
   */
  method PackCells(ids: array<int>, idStart: int, dim0: nat, cellLength: nat, stride0: int, stride1: int,
                   out: array<int>, outStart: nat)
    requires ids != out
    requires TableInBounds(ids.Length, idStart, dim0, cellLength, stride0, stride1)
    requires outStart + dim0 * (cellLength + 1) <= out.Length
    modifies out
    ensures out[..outStart + dim0 * (cellLength + 1)] ==
              old(out[..outStart]) + Packed(ids[..], idStart, dim0, cellLength, stride0, stride1, dim0)
    ensures forall k :: outStart + dim0 * (cellLength + 1) <= k < out.Length ==> out[k] == old(out[k])
    ensures unchanged(ids)
  {
    ghost var front := out[..outStart];
    var i := 0;
    while i < dim0
      invariant 0 <= i <= dim0
      invariant i * (cellLength + 1) <= dim0 * (cellLength + 1)
      invariant out[..outStart + i * (cellLength + 1)] == front + Packed(ids[..], idStart, dim0, cellLength, stride0, stride1, i)
      invariant forall k :: outStart + i * (cellLength + 1) <= k < out.Length ==> out[k] == old(out[k])
    {
      if i + 1 < dim0 { BlockBefore(i + 1, dim0, cellLength); }
      ghost var before := out[..];
      PackRow(ids, idStart, dim0, cellLength, stride0, stride1, i, out, outStart);
      PackedAppendsRow(ids[..], idStart, dim0, cellLength, stride0, stride1, i, front, before, out[..], outStart);
      i := i + 1;
    }
  }

  // ---------------------------------------------------------------------
  // The public wrapper `set_id_type_array`
  // ---------------------------------------------------------------------

  /** The product of the dimensions: the number of elements of a Numeric array. */
  function Product(shape: seq<nat>): nat
  {
    if shape == [] then 1 else shape[0] * Product(shape[1..])
  }

  /**
   * A Numeric array as the extension sees it: its typecode, its shape, its
   * byte strides, whether it is contiguous, its element buffer, and the
   * index in that buffer of its first element, where the C data pointer
   * points. A strided view such as `a[::-1]` has its first element past
   * the front of the buffer and reaches the elements before it through a
   * negative stride.
   */
  class NumArray {
    var typecode: char
    var shape: seq<nat>
    var strides: seq<int>
    var contiguous: bool
    var data: array<int>
    var start: nat

    /**
     * What Numeric guarantees of an array: one `int` stride per axis, a
     * contiguous array keeps its elements in a row from its first one, and
     * every element of a two-dimensional array lies inside the buffer.
     */
    ghost predicate Valid()
      reads this
    {
      && |strides| == |shape|
      && (forall k :: 0 <= k < |strides| ==> IsCInt(strides[k]))
      && (contiguous ==> start + Product(shape) <= data.Length)
      && (|shape| == 2 ==>
            TableInBounds(data.Length, start, shape[0], shape[1], ElementStride(strides[0]), ElementStride(strides[1])))
    }

    /** `Numeric.size(a)`. */
    function Size(): nat
      reads this
    {
      Product(shape)
    }

    constructor (typecode: char, shape: seq<nat>, strides: seq<int>, contiguous: bool, data: array<int>, start: nat)
      ensures this.typecode == typecode && this.shape == shape && this.strides == strides
      ensures this.contiguous == contiguous && this.data == data && this.start == start
    {
      this.typecode := typecode;
      this.shape := shape;
      this.strides := strides;
      this.contiguous := contiguous;
      this.data := data;
      this.start := start;
    }
  }

  /**
   * The id table may be any strided view: `ids[::-1]` of a contiguous 2 by 3
   * table has byte strides (-12, 4) and its first element at index 3 of the
   * buffer, and all its ids lie inside the six-element buffer.
   */
  lemma ReversedRowsInBounds()
    ensures ElementStride(-12) == -3 && ElementStride(4) == 1
    ensures TableInBounds(6, 3, 2, 3, ElementStride(-12), ElementStride(4))
  {
    assert ElementStride(-12) == -3;
  }

  /** The `AssertionError`s `set_id_type_array` raises. */
  datatype SetIdError =
    | IdTypecodeNotLong
    | OutTypecodeNotLong
    | OutNotContiguous
    | IdNotTwoDimensional
    | OutSizeIncorrect(expected: nat, given: nat)

  /** The error raised for the given arrays, or `None` when every check passes. */
  function CheckSetIdType(idTypecode: char, outTypecode: char, outContiguous: bool, idShape: seq<nat>, outSize: nat): (r: Option<SetIdError>)
    ensures r == Some(IdTypecodeNotLong) <==> idTypecode != 'l'
    ensures r == Some(OutTypecodeNotLong) <==> idTypecode == 'l' && outTypecode != 'l'
    ensures r == Some(OutNotContiguous) <==> idTypecode == 'l' && outTypecode == 'l' && !outContiguous
    ensures r == Some(IdNotTwoDimensional) <==>
              idTypecode == 'l' && outTypecode == 'l' && outContiguous && |idShape| != 2
    ensures (r.Some? && r.value.OutSizeIncorrect?) <==>
              idTypecode == 'l' && outTypecode == 'l' && outContiguous && |idShape| == 2 &&
              outSize != idShape[0] * (idShape[1] + 1)
    ensures r.Some? && r.value.OutSizeIncorrect? ==>
              r.value.expected == idShape[0] * (idShape[1] + 1) && r.value.given == outSize
    ensures r == None <==>
              idTypecode == 'l' && outTypecode == 'l' && outContiguous && |idShape| == 2 &&
              outSize == idShape[0] * (idShape[1] + 1)
  {
    if idTypecode != 'l' then Some(IdTypecodeNotLong)
    else if outTypecode != 'l' then Some(OutTypecodeNotLong)
    else if !outContiguous then Some(OutNotContiguous)
    else if |idShape| != 2 then Some(IdNotTwoDimensional)
    else if outSize != idShape[0] * (idShape[1] + 1) then Some(OutSizeIncorrect(idShape[0] * (idShape[1] + 1), outSize))
    else None
  }

  /**
   * `set_id_type_array(id_array, out_array)`: checks both arrays in a fixed
   * order and, only when all checks pass, packs the id table into `out_array`.
   */
  method SetIdTypeArray(idArray: NumArray, outArray: NumArray) returns (r: Outcome<SetIdError>)
    requires idArray.Valid() && outArray.Valid()
    requires idArray.data != outArray.data
    modifies outArray.data
    ensures r.Fail? <==> CheckSetIdType(idArray.typecode, outArray.typecode, outArray.contiguous, idArray.shape, outArray.Size()).Some?
    ensures r.Fail? ==> Some(r.error) == CheckSetIdType(idArray.typecode, outArray.typecode, outArray.contiguous, idArray.shape, outArray.Size())
    ensures r.Fail? ==> unchanged(outArray.data)
    ensures r.Pass? ==>
              var dim0, cellLength := idArray.shape[0], idArray.shape[1];
              var s0, s1 := ElementStride(idArray.strides[0]), ElementStride(idArray.strides[1]);
              var from, to := outArray.start, outArray.start + outArray.Size();
              && outArray.data[..to] == old(outArray.data[..from]) + Packed(idArray.data[..], idArray.start, dim0, cellLength, s0, s1, dim0)
              && forall k :: to <= k < outArray.data.Length ==> outArray.data[k] == old(outArray.data[k])
  {
    if idArray.typecode != 'l' {
      return Fail(IdTypecodeNotLong);
    }
    if outArray.typecode != 'l' {
      return Fail(OutTypecodeNotLong);
    }
    if !outArray.contiguous {
      return Fail(OutNotContiguous);
    }
    if |idArray.shape| != 2 {
      return Fail(IdNotTwoDimensional);
    }
    var size := outArray.Size();
    var expected := idArray.shape[0] * (idArray.shape[1] + 1);
    if size != expected {
      return Fail(OutSizeIncorrect(expected, size));
    }
    var stride0 := ElementStride(idArray.strides[0]);
    var stride1 := ElementStride(idArray.strides[1]);
    PackCells(idArray.data, idArray.start, idArray.shape[0], idArray.shape[1], stride0, stride1,
              outArray.data, outArray.start);
    return Pass;
  }

  // ---------------------------------------------------------------------
  // `c_empty_array`: the byte size of an uninitialised array
  // ---------------------------------------------------------------------

  /** The `ValueError`s `c_empty_array` raises. */
  datatype EmptyArrayError =
    | DimsNotOneDimensional
    | NoDescriptorForTypecode
    | NegativeDimension

  /** The product of the dimensions, with zero dimensions skipped. */
  function ProductOfNonZero(dims: seq<int>): (p: nat)
    requires forall k :: 0 <= k < |dims| ==> dims[k] >= 0
    ensures p >= 1
  {
    if dims == [] then 1
    else
      var last := dims[|dims| - 1];
      var before := ProductOfNonZero(dims[..|dims| - 1]);
      if last == 0 then before else before * last
  }

  /** The dimensions with the zeros dropped: every non-zero dimension is kept, as often as it occurs. */
  function NonZero(dims: seq<int>): (r: seq<int>)
    ensures forall k :: 0 <= k < |r| ==> r[k] != 0
    ensures forall d :: d != 0 ==> multiset(r)[d] == multiset(dims)[d]
  {
    if dims == [] then []
    else
      var before := NonZero(dims[..|dims| - 1]);
      var last := dims[|dims| - 1];
      assert dims == dims[..|dims| - 1] + [last];
      if last == 0 then before else before + [last]
  }

  /** The product of all the entries of a sequence of non-negative numbers. */
  function ProductAll(dims: seq<int>): int
  {
    if dims == [] then 1 else ProductAll(dims[..|dims| - 1]) * dims[|dims| - 1]
  }

  /** A zero dimension contributes nothing, so the product of the non-zero dimensions is the plain product of `NonZero(dims)`. */
  lemma {:induction false} ProductOfNonZeroSkipsZeros(dims: seq<int>)
    requires forall k :: 0 <= k < |dims| ==> dims[k] >= 0
    ensures ProductOfNonZero(dims) == ProductAll(NonZero(dims))
  {
    if dims != [] {
      var init := dims[..|dims| - 1];
      ProductOfNonZeroSkipsZeros(init);
      var last := dims[|dims| - 1];
      if last != 0 {
        var nz := NonZero(init) + [last];
        assert nz[..|nz| - 1] == NonZero(init);
      }
    }
  }

  /** With no zero dimension, the product of the non-zero dimensions is the number of elements. */
  lemma {:induction false} ProductOfNonZeroNoZeros(dims: seq<int>)
    requires forall k :: 0 <= k < |dims| ==> dims[k] > 0
    ensures ProductOfNonZero(dims) == ProductAll(dims)
  {
    if dims != [] {
      ProductOfNonZeroNoZeros(dims[..|dims| - 1]);
    }
  }

  /** Rounds a byte count up past the next multiple of `sizeof(int)`, as `sd + sizeof(int) - sd % sizeof(int)`. */
  function RoundUpToInt(n: nat): (r: nat)
    ensures r % IntSize == 0
    ensures n < r <= n + IntSize
  {
    n + IntSize - n % IntSize
  }

  /**
   * `c_empty_array(dims, typecode)`: the number of bytes allocated for an
   * uninitialised array. `dimsRank` is the rank of the `dims` array itself,
   * `dims` its entries, and `elsize` the element size of the descriptor found
   * for the typecode (`None` when no descriptor exists).
   */
  method EmptyArrayByteSize(dimsRank: nat, dims: seq<int>, elsize: Option<nat>) returns (r: Result<nat, EmptyArrayError>)
    ensures r == Failure(DimsNotOneDimensional) <==> dimsRank != 1
    ensures r == Failure(NoDescriptorForTypecode) <==> dimsRank == 1 && elsize.None?
    ensures r == Failure(NegativeDimension) <==>
              dimsRank == 1 && elsize.Some? && exists k :: 0 <= k < |dims| && dims[k] < 0
    ensures r.Success? ==>
              && elsize.Some?
              && (forall k :: 0 <= k < |dims| ==> dims[k] >= 0)
              && r.value % IntSize == 0
              && elsize.value * ProductOfNonZero(dims) < r.value <= elsize.value * ProductOfNonZero(dims) + IntSize
  {
    if dimsRank != 1 {
      return Failure(DimsNotOneDimensional);
    }
    if elsize.None? {
      return Failure(NoDescriptorForTypecode);
    }
    var sd: nat := elsize.value;
    var i := 0;
    while i < |dims|
      invariant 0 <= i <= |dims|
      invariant forall k :: 0 <= k < i ==> dims[k] >= 0
      invariant sd == elsize.value * ProductOfNonZero(dims[..i])
    {
      if dims[i] < 0 {
        return Failure(NegativeDimension);
      }
      assert dims[..i + 1][..i] == dims[..i];
      if dims[i] != 0 {
        sd := sd * dims[i];
      }
      i := i + 1;
    }
    assert dims[..i] == dims;
    return Success(RoundUpToInt(sd));
  }
}
