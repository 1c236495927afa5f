/** `generateHash`: a rolling 32-bit checksum over the UTF-16 code units of a string,
    printed as the absolute value in lower-case hex, left-padded with `0` to 32 units.
    It is the recurrence of Java's `String.hashCode`, not a cryptographic digest. */
module RollingHash {
  import opened JsText
  import opened Int32
  import opened Hex

  const HASH_WIDTH: nat := 32

  /** One iteration of the loop: `hash = ((hash << 5) - hash) + char` followed by
      `hash = hash & hash`; `x & x` is ToInt32(x). */
  function Step(h: int, c: CodeUnit): (r: int)
    ensures IsInt32(r)
  {
    ToInt32(ShiftLeft(h, 5) - h + c)
  }

  /** The accumulator after the loop has consumed every unit of `s`, starting from 0. */
  function Accumulator(s: Text): (h: int)
    ensures IsInt32(h)
  {
    if s == [] then 0 else Step(Accumulator(s[..|s| - 1]), s[|s| - 1])
  }

  /** The same polynomial without any truncation: the sum of s[i] * 31^(|s|-1-i). */
  function Polynomial(s: Text): int {
    if s == [] then 0 else 31 * Polynomial(s[..|s| - 1]) + s[|s| - 1]
  }

  /** Each step is `31 * prev + charCode` reduced to the signed 32-bit range. */
  lemma StepIsTimes31(h: int, c: CodeUnit)
    ensures Step(h, c) == ToInt32(31 * h + c)
  {
    var shifted := ShiftLeft(h, 5);
    assert Pow2(5) == 32;
    var p := (shifted - h * 32) / TWO_32;
    assert shifted - h * 32 == TWO_32 * p;
    assert (shifted - h + c) - (31 * h + c) == TWO_32 * p;
    ToInt32Congruent(shifted - h + c, 31 * h + c);
  }

  /** Truncating after every step is the same as truncating once at the end. */
  lemma {:induction false} AccumulatorIsTruncatedPolynomial(s: Text)
    ensures Accumulator(s) == ToInt32(Polynomial(s))
    decreases |s|
  {
    if s != [] {
      var p, c := s[..|s| - 1], s[|s| - 1];
      AccumulatorIsTruncatedPolynomial(p);
      TruncatedHornerStep(Accumulator(p), Polynomial(p), c);
    }
  }

  /** If `a` is the truncation of `poly`, one more step on `a` is the truncation of
      one more Horner step on `poly`. */
  lemma TruncatedHornerStep(a: int, poly: int, c: CodeUnit)
    requires a == ToInt32(poly)
    ensures Step(a, c) == ToInt32(31 * poly + c)
  {
    StepIsTimes31(a, c);
    SameLow32Horner(poly, a, c);
    ToInt32Congruent(31 * poly + c, 31 * a + c);
  }

  /** `generateHash(data)`. */
  function GenerateHash(data: Text): (r: Text)
    ensures |r| == HASH_WIDTH
    ensures AllLowerHex(r)
    ensures forall i :: 0 <= i < 24 ==> r[i] == ZERO_UNIT
    ensures HexValue(r[24..]) == MathAbs(Accumulator(data))
    ensures HexValue(r) == MathAbs(Accumulator(data))
  {
    var n := MathAbs(Accumulator(data));
    assert Pow16(8) == 0x1_0000_0000;
    ToHexLength(n, 8);
    HexRoundTrip(n);
    PaddedHex(ToHex(n), 8, HASH_WIDTH);
    PadStart(ToHex(n), HASH_WIDTH, ZERO_UNIT)
  }

  /** The loop of `generateHash` as written, index by index. */
  method ComputeHash(data: Text) returns (r: Text)
    ensures r == GenerateHash(data)
    ensures HexValue(r) == MathAbs(ToInt32(Polynomial(data)))
  {
    var hash := 0;
    var i := 0;
    while i < |data|
      invariant 0 <= i <= |data|
      invariant hash == Accumulator(data[..i])
    {
      var unit := data[i];
      assert data[..i + 1][..i] == data[..i];
      hash := ShiftLeft(hash, 5) - hash + unit;
      hash := ToInt32(hash);
      i := i + 1;
    }
    assert data[..i] == data;
    AccumulatorIsTruncatedPolynomial(data);
    r := PadStart(ToHex(MathAbs(hash)), HASH_WIDTH, ZERO_UNIT);
  }

  /** The empty string hashes to 32 zeros. */
  lemma EmptyInputHash()
    ensures GenerateHash([]) == seq(HASH_WIDTH, _ => ZERO_UNIT)
  {
    assert ToHex(0) == [ZERO_UNIT];
    assert seq(31, _ => ZERO_UNIT) + [ZERO_UNIT] == seq(HASH_WIDTH, _ => ZERO_UNIT);
  }
}
