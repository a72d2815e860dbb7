/**
  Machine-level vocabulary shared by the model: the C integer widths the
  source stores, IEEE float values that are not real numbers, and the
  row-major index arithmetic every buffer in the program uses.
 */
module Common {

  /** A C `uint32_t`: density counters and grid dimensions. */
  newtype u32 = x: int | 0 <= x < 0x1_0000_0000

  /** A C `unsigned char`: bytes of an 8-bit RGBA texture. */
  newtype u8 = x: int | 0 <= x < 0x100

  datatype Option<T> = None | Some(value: T)

  /**
    A C `float` as far as the model needs one: a finite value (modelled by a
    real, without rounding), one of the two infinities, or NaN.
   */
  datatype Float = Finite(value: real) | PosInf | NegInf | NaN

  /** IEEE `x < y`: false as soon as either operand is NaN. */
  predicate Less(x: Float, y: Float)
  {
    match (x, y)
    case (NaN, _) => false
    case (_, NaN) => false
    case (NegInf, NegInf) => false
    case (NegInf, _) => true
    case (PosInf, _) => false
    case (Finite(_), NegInf) => false
    case (Finite(_), PosInf) => true
    case (Finite(u), Finite(v)) => u < v
  }

  /**
    IEEE division `num / den` of two finite values where the denominator,
    when zero, is a positive zero (every denominator in the program is a
    count): 0/0 is NaN, and a non-zero numerator over zero is an infinity.
   */
  function Divide(num: real, den: real): (r: Float)
    ensures den != 0.0 ==> r == Finite(num / den)
    ensures den == 0.0 ==> (r == NaN <==> num == 0.0)
  {
    if den != 0.0 then Finite(num / den)
    else if num > 0.0 then PosInf
    else if num < 0.0 then NegInf
    else NaN
  }

  /** `a * c <= b * c` for a non-negative factor. */
  lemma MulMonotone(a: int, b: int, c: int)
    requires a <= b && 0 <= c
    ensures a * c <= b * c
  {
    var d := b - a;
    assert b * c == a * c + d * c;
  }

  /** Flat index of channel k of the p-th pixel of an interleaved RGBA buffer: four entries per pixel. */
  function Slot(p: nat, k: nat): nat
  {
    p * 4 + k
  }

  /** Cell (x, y) of a row-major `w × h` grid lies inside the grid's `w * h` cells. */
  lemma RowMajorInBounds(x: int, y: int, w: int, h: int)
    requires 0 <= x < w && 0 <= y < h
    ensures 0 <= x + y * w < w * h
  {
    MulMonotone(0, y, w);
    MulMonotone(y + 1, h, w);
  }

  /** Two different cells of a row-major grid of width w have different indices. */
  lemma RowMajorInjective(x: int, y: int, x': int, y': int, w: int)
    requires 0 <= x < w && 0 <= x' < w && 0 <= y && 0 <= y'
    requires x + y * w == x' + y' * w
    ensures x == x' && y == y'
  {
    if y < y' {
      MulMonotone(y + 1, y', w);
      assert false;
    } else if y' < y {
      MulMonotone(y' + 1, y, w);
      assert false;
    }
  }
}
