/**
 * The shape and type bookkeeping of image/MatExt.kt, the Kotlin extensions
 * on OpenCV's `Mat`. A `Mat` is seen through its header only: rows, columns
 * and the OpenCV type code, which packs the element depth and the channel
 * count. The pixel arithmetic the operators hand to OpenCV is not modelled;
 * the in-place operators record which operation they asked OpenCV for.
 * Kotlin `Int` arithmetic wraps at 32 bits and is written out as `Wrap32`.
 */
module MatExt {
  import opened Wrappers

  // ---------------------------------------------------------------------------
  // 32-bit integers
  // ---------------------------------------------------------------------------

  const IntMax: int := 0x7fff_ffff
  const Modulus: int := 0x1_0000_0000

  /** A Kotlin `Int`. */
  type Int32 = n: int | -0x8000_0000 <= n <= 0x7fff_ffff

  /** The Kotlin `Int` holding the low 32 bits of `n`. */
  function Wrap32(n: int): (r: Int32)
    ensures (r - n) % Modulus == 0
    ensures -0x8000_0000 <= n <= IntMax ==> r == n
  {
    var m := n % Modulus;
    if m <= IntMax then m else m - Modulus
  }

  /** Adding a multiple of 2^32 does not change the low 32 bits. */
  lemma {:induction false} Wrap32Shift(n: int, k: int)
    ensures Wrap32(n + k * Modulus) == Wrap32(n)
  {
    assert (n + k * Modulus) % Modulus == n % Modulus by {
      ModShift(n, k);
    }
  }

  lemma ModShift(n: int, k: int)
    ensures (n + k * Modulus) % Modulus == n % Modulus
  {
    var q := n / Modulus;
    var m := n % Modulus;
    assert n == q * Modulus + m;
    assert n + k * Modulus == (q + k) * Modulus + m;
  }

  // ---------------------------------------------------------------------------
  // OpenCV type codes
  // ---------------------------------------------------------------------------

  /** Element depths, `CvType.CV_8U` to `CvType.CV_16F`. */
  const CV_8U: int := 0
  const CV_8S: int := 1
  const CV_16U: int := 2
  const CV_16S: int := 3
  const CV_32S: int := 4
  const CV_32F: int := 5
  const CV_64F: int := 6
  const CV_16F: int := 7

  /** OpenCV allows up to 512 channels. */
  const MaxChannels: int := 512

  /** A type code: the depth in the low three bits, the channel count less one above them. */
  type CvType = t: int | 0 <= t < 8 * MaxChannels

  function Depth(t: CvType): (d: int)
    ensures 0 <= d < 8
  {
    t % 8
  }

  function Channels(t: CvType): (c: int)
    ensures 1 <= c <= MaxChannels
  {
    t / 8 + 1
  }

  /** `CV_MAKETYPE(depth, channels)`. */
  function MakeType(depth: int, channels: int): (t: CvType)
    requires 0 <= depth < 8 && 1 <= channels <= MaxChannels
    ensures Depth(t) == depth && Channels(t) == channels
  {
    depth + (channels - 1) * 8
  }

  /** Every type code is the one made from its depth and channel count. */
  lemma MakeTypeOf(t: CvType)
    ensures MakeType(Depth(t), Channels(t)) == t
  {
  }

  const CV_8UC3: CvType := MakeType(CV_8U, 3)
  const CV_8UC4: CvType := MakeType(CV_8U, 4)
  const CV_16UC3: CvType := MakeType(CV_16U, 3)
  const CV_16UC4: CvType := MakeType(CV_16U, 4)
  const CV_32SC3: CvType := MakeType(CV_32S, 3)
  const CV_32SC4: CvType := MakeType(CV_32S, 4)

  /**
   * `CV_ELEM_SIZE1`: the bytes of one channel value, read from the nibbles of
   * OpenCV's constant 0x28442211, lowest nibble first.
   */
  function ElemSize1(depth: int): (r: int)
    requires 0 <= depth < 8
    ensures r == [1, 1, 2, 2, 4, 4, 8, 2][depth]
  {
    Pow16Values();
    (0x2844_2211 / Pow16(depth)) % 16
  }

  function Pow16(n: nat): nat
  {
    if n == 0 then 1 else 16 * Pow16(n - 1)
  }

  lemma Pow16Values()
    ensures Pow16(0) == 1 && Pow16(1) == 16 && Pow16(2) == 256 && Pow16(3) == 4096
    ensures Pow16(4) == 0x1_0000 && Pow16(5) == 0x10_0000 && Pow16(6) == 0x100_0000 && Pow16(7) == 0x1000_0000
  {
  }

  function Pow2(n: nat): (r: nat)
    ensures r >= 1
  {
    if n == 0 then 1 else 2 * Pow2(n - 1)
  }

  /** `bitsPerPixel()`: the bits of one channel value for the Mat's depth, -1 for an unknown depth. */
  function BitsPerPixel(depth: int): int
  {
    if depth == CV_8U then 8
    else if depth == CV_8S then 8
    else if depth == CV_16U then 16
    else if depth == CV_16S then 16
    else if depth == CV_32S then 32
    else if depth == CV_32F then 32
    else if depth == CV_64F then 64
    else if depth == CV_16F then 16
    else -1
  }

  /** The table agrees with OpenCV's element sizes, and only the eight depths are known. */
  lemma BitsPerPixelElemSize(depth: int)
    ensures 0 <= depth < 8 ==> BitsPerPixel(depth) == 8 * ElemSize1(depth)
    ensures BitsPerPixel(depth) == -1 <==> !(0 <= depth < 8)
  {
  }

  /** `typeMax()`: the largest value of an unsigned 8- or 16-bit or a signed 32-bit type with 1, 3 or 4 channels, else -1. */
  function TypeMax(t: CvType): real
  {
    if t == CV_8U then 255.0
    else if t == CV_16U then 65535.0
    else if t == CV_32S then 2147483647.0
    else if t == CV_8UC3 then 255.0
    else if t == CV_16UC3 then 65535.0
    else if t == CV_32SC3 then 2147483647.0
    else if t == CV_8UC4 then 255.0
    else if t == CV_16UC4 then 65535.0
    else if t == CV_32SC4 then 2147483647.0
    else -1.0
  }

  /** The types `typeMax` knows: the unsigned 8- and 16-bit and the signed 32-bit depths with 1, 3 or 4 channels. */
  predicate HasTypeMax(t: CvType)
  {
    Depth(t) in {CV_8U, CV_16U, CV_32S} && Channels(t) in {1, 3, 4}
  }

  /** `typeMax` is known exactly for those types. */
  lemma TypeMaxKnown(t: CvType)
    ensures TypeMax(t) != -1.0 <==> HasTypeMax(t)
  {
    assert t == Depth(t) + (Channels(t) - 1) * 8;
  }

  /** Where known, `typeMax` is the largest value the depth holds: 2^bits - 1, one bit less for the signed depth. */
  lemma TypeMaxLargest(t: CvType)
    requires HasTypeMax(t)
    ensures TypeMax(t) == (Pow2(BitsPerPixel(Depth(t)) - if Depth(t) == CV_32S then 1 else 0) - 1) as real
  {
    assert t == Depth(t) + (Channels(t) - 1) * 8;
    Pow2Values();
  }

  lemma Pow2Values()
    ensures Pow2(8) == 0x100 && Pow2(16) == 0x1_0000 && Pow2(31) == 0x8000_0000
  {
    assert Pow2(4) == 16;
    assert Pow2(8) == 0x100;
    assert Pow2(12) == 0x1000;
    assert Pow2(16) == 0x1_0000;
    assert Pow2(20) == 0x10_0000;
    assert Pow2(24) == 0x100_0000;
    assert Pow2(28) == 0x1000_0000;
  }

  // ---------------------------------------------------------------------------
  // Headers and rectangles
  // ---------------------------------------------------------------------------

  /** A Mat dimension: a non-negative `Int`. */
  type Dim = n: int | 0 <= n <= 0x7fff_ffff

  /** `dims()`: 0 for the default `Mat()`, 2 for a matrix. */
  type MatDims = d: int | d == 0 || d == 2 witness 2

  /** What the model knows of a `Mat`: `rows()`, `cols()`, `type()` and `dims()`. */
  datatype MatHeader = MatHeader(rows: Dim, cols: Dim, typ: CvType, dims: MatDims)

  /** `Mat()`: no data, no rows, no columns and no dimensions; its type is `CV_8U`. */
  const DefaultMat: MatHeader := MatHeader(0, 0, CV_8U, 0)

  /** OpenCV's `Rect(x, y, width, height)`, four `Int`s. */
  datatype Rect = Rect(x: Int32, y: Int32, width: Int32, height: Int32)

  /** OpenCV's `Point(x, y)`, two doubles. */
  datatype CvPoint = CvPoint(x: real, y: real)

  /** `contains(point)`: the point lies in `[0, width) x [0, height)`. */
  predicate ContainsPoint(m: MatHeader, p: CvPoint)
  {
    p.x >= 0.0 && p.y >= 0.0 && p.x < m.cols as real && p.y < m.rows as real
  }

  /** The pixel at column `px`, row `py`, as a point. */
  predicate ContainsPixel(m: MatHeader, px: int, py: int)
  {
    ContainsPoint(m, CvPoint(px as real, py as real))
  }

  /** `contains(rect)` as written: the two sums are Kotlin `Int` additions and wrap. */
  predicate Contains(m: MatHeader, r: Rect)
  {
    r.x >= 0 && r.y >= 0 && Wrap32(r.x + r.width) <= m.cols && Wrap32(r.y + r.height) <= m.rows
  }

  /** `contains(rect)` with the sums taken without overflow. */
  predicate ContainsFixed(m: MatHeader, r: Rect)
  {
    r.x >= 0 && r.y >= 0 && r.x + r.width <= m.cols && r.y + r.height <= m.rows
  }

  /** Where neither sum overflows, the two agree. */
  lemma ContainsAgree(m: MatHeader, r: Rect)
    requires r.x + r.width <= IntMax && r.y + r.height <= IntMax
    ensures Contains(m, r) <==> ContainsFixed(m, r)
  {
  }

  /**
   * As written, a rectangle reaching past the right edge by 2^31 columns is
   * contained in a 1x1 Mat: `1 + Int.MAX_VALUE` wraps to `Int.MIN_VALUE`.
   */
  lemma ContainsOverflow()
    ensures var m := MatHeader(1, 1, CV_8U, 2);
      var r := Rect(1, 0, IntMax, 1);
      Contains(m, r) && !ContainsFixed(m, r) && !ContainsPixel(m, 1, 0)
  {
    assert Wrap32(1 + IntMax) == -0x8000_0000;
  }

  /**
   * A rectangle with area is contained exactly when every one of its pixels
   * is a point of the Mat.
   */
  lemma ContainsFixedPixels(m: MatHeader, r: Rect)
    requires r.width > 0 && r.height > 0
    ensures ContainsFixed(m, r) <==>
      forall px, py :: r.x <= px < r.x + r.width && r.y <= py < r.y + r.height ==> ContainsPixel(m, px, py)
  {
    if !ContainsFixed(m, r) {
      var px := if r.x < 0 then r.x else r.x + r.width - 1;
      var py := if r.x < 0 || r.x + r.width <= m.cols then (if r.y < 0 then r.y else r.y + r.height - 1) else r.y;
      assert !ContainsPixel(m, px, py);
    }
  }

  /** `bound()`: the whole Mat as a rectangle; it is contained, and every contained rectangle ends within it. */
  function Bound(m: MatHeader): (r: Rect)
    ensures Contains(m, r) && ContainsFixed(m, r)
    ensures forall q :: ContainsFixed(m, q) ==> q.x + q.width <= r.x + r.width && q.y + q.height <= r.y + r.height
  {
    Rect(0, 0, m.cols, m.rows)
  }

  /** `elemSize()`: the bytes of one pixel. */
  function ElemSize(t: CvType): (r: int)
    ensures 1 <= r <= 8 * MaxChannels
  {
    ElemSize1(Depth(t)) * Channels(t)
  }

  /**
   * `nbytes` as written: `rows() * cols()` is an `Int` product and wraps, the
   * product with the `Long` element size does not, and `toInt()` keeps the
   * low 32 bits.
   */
  function NBytes(m: MatHeader): Int32
  {
    Wrap32(Wrap32(m.rows * m.cols) * ElemSize(m.typ))
  }

  /** `nbytes` is the low 32 bits of the true byte count, and that count itself when it fits an `Int`. */
  lemma NBytesSize(m: MatHeader)
    ensures NBytes(m) == Wrap32(m.rows * m.cols * ElemSize(m.typ))
    ensures m.rows * m.cols * ElemSize(m.typ) <= IntMax ==> NBytes(m) == m.rows * m.cols * ElemSize(m.typ)
  {
    var n := m.rows * m.cols;
    var e := ElemSize(m.typ);
    var k := WrapOffset(n);
    calc {
      NBytes(m);
      Wrap32(Wrap32(n) * e);
      { ShiftProduct(n, k, e); }
      Wrap32(n * e + (k * e) * Modulus);
      { Wrap32Shift(n * e, k * e); }
      Wrap32(n * e);
    }
    NonNegProduct(m.rows, m.cols, e);
  }

  /** `Wrap32(n)` differs from `n` by a multiple of 2^32. */
  lemma WrapOffset(n: int) returns (k: int)
    ensures Wrap32(n) == n + k * Modulus
  {
    var d := Wrap32(n) - n;
    k := d / Modulus;
    assert d == k * Modulus + d % Modulus;
  }

  lemma ShiftProduct(n: int, k: int, e: int)
    ensures (n + k * Modulus) * e == n * e + (k * e) * Modulus
  {
  }

  lemma NonNegProduct(a: nat, b: nat, e: int)
    requires e >= 1
    ensures 0 <= a * b <= a * b * e
  {
    var n := a * b;
    assert n * e == n + n * (e - 1);
  }

  // ---------------------------------------------------------------------------
  // Element-wise operators
  // ---------------------------------------------------------------------------

  /** The four element-wise operators, `Core.add`, `subtract`, `multiply` and `divide`. */
  datatype Op = Add | Subtract | Multiply | Divide

  /** The plain `Exception()` the Mat-Mat operators throw. */
  datatype MatFailure = OperandMismatch

  /**
   * `plus`, `minus`, `times` and `div` of two Mats: an exception when the
   * types differ or the sizes differ, else a new Mat of the same rows,
   * columns and type.
   */
  function Binary(op: Op, a: MatHeader, b: MatHeader): (r: Result<MatHeader, MatFailure>)
    ensures r.Ok? <==> a.typ == b.typ && a.rows == b.rows && a.cols == b.cols
    ensures r.Ok? ==> r.value.rows == a.rows && r.value.cols == a.cols && r.value.typ == a.typ
  {
    if a.typ != b.typ then Err(OperandMismatch)
    else if a.rows != b.rows || a.cols != b.cols then Err(OperandMismatch)
    else Ok(MatHeader(a.rows, a.cols, a.typ, a.dims))
  }

  /** Operand checks do not depend on the operator or the operand order, and results chain. */
  lemma BinaryChain(op: Op, op2: Op, a: MatHeader, b: MatHeader, c: MatHeader)
    ensures Binary(op, a, b).Ok? <==> Binary(op2, b, a).Ok?
    ensures Binary(op, a, b).Ok? ==>
      (Binary(op2, Binary(op, a, b).value, c).Ok? <==> Binary(op2, a, c).Ok?)
  {
  }

  /** The operand of an in-place operator: another Mat or a scalar applied to every channel. */
  datatype Operand = OfMat(header: MatHeader) | OfScalar(value: real)

  /** The call the receiver was asked for: an element-wise operator or `Core.pow`. */
  datatype Step = Apply(op: Op, operand: Operand) | Power(exponent: real)

  /**
   * A `Mat` as the receiver of the in-place operators. `steps` lists the
   * OpenCV calls made on it, in order; its header never changes.
   */
  class MatObj {
    const header: MatHeader
    var steps: seq<Step>

    constructor (header: MatHeader)
      ensures this.header == header && steps == []
    {
      this.header := header;
      steps := [];
    }

    /**
     * `plusAssign`, `minusAssign`, `timesAssign` and `divAssign` with a Mat:
     * the same checks as the operators returning a new Mat, then the
     * operation in place.
     */
    method OpAssign(op: Op, other: MatObj) returns (o: Outcome<MatFailure>)
      modifies this
      ensures o == Pass <==> Binary(op, header, other.header).Ok?
      ensures o == Pass ==> Binary(op, header, other.header).value == header
      ensures o == Pass ==> steps == old(steps) + [Apply(op, OfMat(other.header))]
      ensures o.Fail? ==> o.error == OperandMismatch && steps == old(steps)
    {
      if header.typ != other.header.typ {
        return Fail(OperandMismatch);
      }
      if header.rows != other.header.rows || header.cols != other.header.cols {
        return Fail(OperandMismatch);
      }
      steps := steps + [Apply(op, OfMat(other.header))];
      return Pass;
    }

    /** The same four operators with a scalar: no check. */
    method OpAssignScalar(op: Op, value: real)
      modifies this
      ensures steps == old(steps) + [Apply(op, OfScalar(value))]
    {
      steps := steps + [Apply(op, OfScalar(value))];
    }

    /** `powAssign`. */
    method PowAssign(exponent: real)
      modifies this
      ensures steps == old(steps) + [Power(exponent)]
    {
      steps := steps + [Power(exponent)];
    }
  }

  // ---------------------------------------------------------------------------
  // Ranges
  // ---------------------------------------------------------------------------

  /** A Kotlin `IntRange` `first..last`: both ends included. */
  datatype IntRange = IntRange(first: Int32, last: Int32)

  /** An OpenCV `Range(start, end)`: the end excluded. */
  datatype CvRange = CvRange(start: Int32, end: Int32)

  /** The values a Kotlin range iterates over, in order. */
  function Elements(r: IntRange): (s: seq<int>)
    ensures forall i :: 0 <= i < |s| ==> s[i] == r.first + i
    ensures |s| == if r.first <= r.last then r.last - r.first + 1 else 0
  {
    if r.first <= r.last then seq(r.last - r.first + 1, i => r.first + i) else []
  }

  /** The indices an OpenCV range selects, in order. */
  function Indices(c: CvRange): (s: seq<int>)
    ensures forall i :: 0 <= i < |s| ==> s[i] == c.start + i
    ensures |s| == if c.start <= c.end then c.end - c.start else 0
  {
    if c.start <= c.end then seq(c.end - c.start, i => c.start + i) else []
  }

  /** `IntRange.cv` as written: `Range(first, last)`. */
  function Cv(r: IntRange): CvRange
  {
    CvRange(r.first, r.last)
  }

  /** As written, the conversion loses the last element of every non-empty range. */
  lemma CvDropsLast(r: IntRange)
    requires r.first <= r.last
    ensures Indices(Cv(r)) == Elements(r)[..|Elements(r)| - 1]
    ensures Elements(r)[|Elements(r)| - 1] == r.last && r.last !in Indices(Cv(r))
  {
    assert Indices(Cv(r)) == Elements(r)[..|Elements(r)| - 1];
  }

  /** `IntRange.cv` with the end made exclusive; an empty range stays empty. */
  function CvFixed(r: IntRange): (c: CvRange)
    requires r.last < IntMax
    ensures Indices(c) == Elements(r)
  {
    if r.first <= r.last then
      var c := CvRange(r.first, r.last + 1);
      assert Indices(c) == Elements(r);
      c
    else CvRange(r.first, r.first)
  }

  /** OpenCV's `Range.all()`, `Range(INT_MIN, INT_MAX)`. */
  const AllRange: CvRange := CvRange(-0x8000_0000, IntMax)

  /** The range `submat` selects along a dimension of size `n`: `Range.all()` stands for `0..n`. */
  function Along(r: CvRange, n: Dim): (s: CvRange)
    ensures r == AllRange ==> Indices(s) == seq(n, i => i)
    ensures r != AllRange ==> s == r
  {
    if r == AllRange then CvRange(0, n) else r
  }

  /** A range that is in order and lies within `0..n`. */
  predicate Within(r: CvRange, n: Dim)
  {
    0 <= r.start <= r.end <= n
  }

  /**
   * `Mat.submat(rowRange, colRange)`: OpenCV rejects a Mat without two
   * dimensions and a range that is reversed or leaves the Mat, and a
   * selection with no rows or no columns is the empty 0 x 0 Mat.
   */
  function Submat(m: MatHeader, rows: CvRange, cols: CvRange): (r: Result<MatHeader, MatFailure>)
    ensures r.Ok? <==> m.dims == 2 && Within(Along(rows, m.rows), m.rows) && Within(Along(cols, m.cols), m.cols)
    ensures r.Ok? ==> r.value.typ == m.typ && r.value.dims == 2
    ensures r.Ok? && (Indices(Along(rows, m.rows)) == [] || Indices(Along(cols, m.cols)) == []) ==>
      r.value.rows == 0 && r.value.cols == 0
    ensures r.Ok? && Indices(Along(rows, m.rows)) != [] && Indices(Along(cols, m.cols)) != [] ==>
      r.value.rows == |Indices(Along(rows, m.rows))| && r.value.cols == |Indices(Along(cols, m.cols))|
  {
    var rs := Along(rows, m.rows);
    var cs := Along(cols, m.cols);
    if m.dims == 2 && Within(rs, m.rows) && Within(cs, m.cols) then
      if rs.start == rs.end || cs.start == cs.end then Ok(MatHeader(0, 0, m.typ, 2))
      else Ok(MatHeader(rs.end - rs.start, cs.end - cs.start, m.typ, 2))
    else Err(OperandMismatch)
  }

  /**
   * `Range.all()` on both dimensions selects the whole of a two-dimensional
   * Mat, or the empty Mat when it has no elements; on `Mat()` it throws.
   */
  lemma SubmatAll(m: MatHeader)
    ensures Submat(m, AllRange, AllRange) ==
      if m.dims == 0 then Err(OperandMismatch)
      else Ok(if m.rows == 0 || m.cols == 0 then MatHeader(0, 0, m.typ, 2) else m)
  {
  }

  /** Every `mat[rowRange, colRange]` on the `Mat()` that the image loader returns on failure throws. */
  lemma GetDefaultMat(rows: IntRange, cols: IntRange)
    ensures Get(DefaultMat, rows, cols) == Err(OperandMismatch)
  {
  }

  /** `mat[rowRange, colRange]`. */
  function Get(m: MatHeader, rows: IntRange, cols: IntRange): Result<MatHeader, MatFailure>
  {
    Submat(m, Cv(rows), Cv(cols))
  }

  /** `mat[rowRange, colRange]` with the corrected conversion. */
  function GetFixed(m: MatHeader, rows: IntRange, cols: IntRange): Result<MatHeader, MatFailure>
    requires rows.last < IntMax && cols.last < IntMax
  {
    Submat(m, CvFixed(rows), CvFixed(cols))
  }

  /**
   * Asking for every row and column, `mat[0..rows - 1, 0..cols - 1]`, of a
   * matrix gives a Mat one row and one column short as written, which is the
   * empty Mat when the matrix has a single row or column; fixed, it gives the
   * matrix's own size.
   */
  lemma GetWholeMat(m: MatHeader)
    requires m.dims == 2 && m.rows >= 1 && m.cols >= 1
    ensures Get(m, IntRange(0, m.rows - 1), IntRange(0, m.cols - 1)) ==
      Ok(if m.rows == 1 || m.cols == 1 then MatHeader(0, 0, m.typ, 2) else MatHeader(m.rows - 1, m.cols - 1, m.typ, 2))
    ensures GetFixed(m, IntRange(0, m.rows - 1), IntRange(0, m.cols - 1)) == Ok(m)
  {
  }
}
