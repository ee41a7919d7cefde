/** The typed buffer `cg::resource<T>`: a fixed-length flat store of elements,
    addressable by flat index or, through a row stride, as a row-major grid. */
module Buffers {

  /** Flat index of grid cell (x, y) in a row-major layout with the given stride. */
  function GridIndex(stride: nat, x: nat, y: nat): nat
  {
    y * stride + x
  }

  /** Every cell of a width x height grid lands inside a buffer of width * height elements. */
  lemma GridIndexInBounds(width: nat, height: nat, x: nat, y: nat)
    requires x < width && y < height
    ensures GridIndex(width, x, y) < width * height
  {
    calc {
      GridIndex(width, x, y);
      == y * width + x;
      < y * width + width;
      == (y + 1) * width;
      <= { MulLeq(y + 1, height, width); }
      height * width;
    }
  }

  lemma MulLeq(a: nat, b: nat, k: nat)
    requires a <= b
    ensures a * k <= b * k
  {
  }

  /** The row-major layout is a bijection: the cell is recovered from its flat index. */
  lemma GridCoordinates(width: nat, x: nat, y: nat)
    requires x < width
    ensures GridIndex(width, x, y) / width == y
    ensures GridIndex(width, x, y) % width == x
  {
    var i := GridIndex(width, x, y);
    var q, r := i / width, i % width;
    assert i == width * q + r && 0 <= r < width;
    var d := q - y;
    assert width * d == x - r by {
      assert width * q + r == width * y + x;
      assert width * d == width * q - width * y;
    }
    if d > 0 {
      MulLeq(1, d, width);
    }
  }

  /** Every flat index is the index of the cell given by its remainder and quotient. */
  lemma GridIndexOf(width: nat, i: nat)
    requires width > 0
    ensures GridIndex(width, i % width, i / width) == i
  {
  }

  /** Distinct cells of a grid have distinct flat indices. */
  lemma GridIndexInjective(width: nat, x1: nat, y1: nat, x2: nat, y2: nat)
    requires x1 < width && x2 < width
    requires GridIndex(width, x1, y1) == GridIndex(width, x2, y2)
    ensures x1 == x2 && y1 == y2
  {
    GridCoordinates(width, x1, y1);
    GridCoordinates(width, x2, y2);
  }

  class Resource<T(0)> {
    /** The element store; it is never reallocated, so the element count is fixed. */
    const data: array<T>
    /** Row stride used by the (x, y) accessor: 0 for a flat buffer, the width for a grid. */
    const stride: nat
    /** Size of one element in bytes (sizeof(T) in the source). */
    const itemSize: nat

    /** The buffer's contents as a sequence. */
    ghost function Elements(): seq<T>
      reads data
    {
      data[..]
    }

    function NumberOfElements(): nat
    {
      data.Length
    }

    function Stride(): nat
    {
      stride
    }

    function SizeInBytes(): nat
    {
      itemSize * NumberOfElements()
    }

    function Index(x: nat, y: nat): nat
    {
      GridIndex(stride, x, y)
    }

    /** The one-dimensional constructor: `size` elements, stride 0. */
    constructor Linear(size: nat, elementSize: nat)
      ensures fresh(data)
      ensures NumberOfElements() == size && Stride() == 0
      ensures itemSize == elementSize && SizeInBytes() == elementSize * size
    {
      data := new T[size];
      stride := 0;
      itemSize := elementSize;
    }

    /** The two-dimensional constructor: xSize * ySize elements, stride xSize. */
    constructor Grid(xSize: nat, ySize: nat, elementSize: nat)
      ensures fresh(data)
      ensures NumberOfElements() == xSize * ySize && Stride() == xSize
      ensures itemSize == elementSize && SizeInBytes() == elementSize * (xSize * ySize)
    {
      data := new T[xSize * ySize];
      stride := xSize;
      itemSize := elementSize;
    }

    /** Reads element `i`. */
    method Item(i: nat) returns (v: T)
      requires i < NumberOfElements()
      ensures v == Elements()[i]
    {
      v := data[i];
    }

    /** Writes element `i`; every other element is left as it was. */
    method SetItem(i: nat, v: T)
      requires i < NumberOfElements()
      modifies data
      ensures Elements() == old(Elements())[i := v]
    {
      data[i] := v;
    }

    /** Reads the element at grid cell (x, y). */
    method ItemAt(x: nat, y: nat) returns (v: T)
      requires Index(x, y) < NumberOfElements()
      ensures v == Elements()[y * Stride() + x]
    {
      v := data[Index(x, y)];
    }

    /** Writes the element at grid cell (x, y); every other element is left as it was. */
    method SetItemAt(x: nat, y: nat, v: T)
      requires Index(x, y) < NumberOfElements()
      modifies data
      ensures Elements() == old(Elements())[y * Stride() + x := v]
    {
      data[Index(x, y)] := v;
    }
  }
}
