/** The 32-bit integer conversions of ECMAScript that the rolling hash relies on:
    ToInt32 (used by `<<` and `&`), the left shift, and `Math.abs`.
    Every value involved stays far below 2^53, so Number arithmetic on them is exact
    and is written here as arithmetic on `int`. */
module Int32 {

  const TWO_31: int := 0x8000_0000
  const TWO_32: int := 0x1_0000_0000

  /** The signed 32-bit range [-2^31, 2^31). */
  predicate IsInt32(x: int) {
    -TWO_31 <= x < TWO_31
  }

  /** `x` and `y` agree modulo 2^32, i.e. have the same low 32 bits. */
  predicate SameLow32(x: int, y: int) {
    (x - y) % TWO_32 == 0
  }

  /** ECMAScript ToInt32 on an integral Number: the unique signed 32-bit value with
      the same low 32 bits. */
  function ToInt32(x: int): (r: int)
    ensures IsInt32(r)
    ensures SameLow32(x, r)
  {
    var m := x % TWO_32;
    if m < TWO_31 then m else m - TWO_32
  }

  /** A difference that is a multiple of 2^32 ... */
  lemma MultipleOfTwo32(d: int, k: int)
    requires d == TWO_32 * k
    ensures d % TWO_32 == 0
  {
  }

  /** ... and the quotient that witnesses it. */
  lemma QuotientOfTwo32(d: int)
    requires d % TWO_32 == 0
    ensures d == TWO_32 * (d / TWO_32)
  {
  }

  /** Two signed 32-bit values with the same low 32 bits are equal. */
  lemma Int32Unique(y: int, z: int)
    requires IsInt32(y) && IsInt32(z)
    requires SameLow32(y, z)
    ensures y == z
  {
  }

  /** Agreement in the low 32 bits is transitive. */
  lemma SameLow32Trans(x: int, y: int, z: int)
    requires SameLow32(x, y) && SameLow32(y, z)
    ensures SameLow32(x, z)
  {
  }

  /** Agreement in the low 32 bits survives `31 * _ + c`. */
  lemma SameLow32Horner(x: int, y: int, c: int)
    requires SameLow32(x, y)
    ensures SameLow32(31 * x + c, 31 * y + c)
  {
  }

  /** Agreement in the low 32 bits is symmetric. */
  lemma SameLow32Symm(x: int, y: int)
    requires SameLow32(x, y)
    ensures SameLow32(y, x)
  {
  }

  /** ToInt32 depends on its argument only through the low 32 bits. */
  lemma ToInt32Congruent(x: int, y: int)
    requires SameLow32(x, y)
    ensures ToInt32(x) == ToInt32(y)
  {
  }

  function Pow2(n: nat): (r: nat)
    ensures r >= 1
  {
    if n == 0 then 1 else 2 * Pow2(n - 1)
  }

  /** `x << n` with a shift count below 32: the left operand goes through ToInt32,
      is shifted, and the 32-bit result is read back as signed. */
  function ShiftLeft(x: int, n: nat): (r: int)
    requires n < 32
    ensures IsInt32(r)
    ensures SameLow32(r, x * Pow2(n))
  {
    var v := ToInt32(x);
    SameLow32Symm(x, v);
    SameLow32Scale(v, x, Pow2(n));
    var r := ToInt32(v * Pow2(n));
    SameLow32Symm(v * Pow2(n), r);
    SameLow32Trans(r, v * Pow2(n), x * Pow2(n));
    r
  }

  /** Agreement in the low 32 bits survives multiplication by the same factor. */
  lemma SameLow32Scale(x: int, y: int, k: int)
    requires SameLow32(x, y)
    ensures SameLow32(x * k, y * k)
  {
    var p := (x - y) / TWO_32;
    QuotientOfTwo32(x - y);
    calc {
      x * k - y * k;
      (x - y) * k;
      (TWO_32 * p) * k;
      TWO_32 * (p * k);
    }
    MultipleOfTwo32(x * k - y * k, p * k);
  }

  /** `Math.abs` on an integral Number. */
  function MathAbs(x: int): (r: nat)
    ensures r == x || r == -x
    ensures IsInt32(x) ==> r <= TWO_31
  {
    if x < 0 then -x else x
  }
}
