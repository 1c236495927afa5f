/** Lower-case hexadecimal text: `Number.prototype.toString(16)` on a non-negative
    integer, its decoding, and `String.prototype.padStart`. */
module Hex {
  import opened JsText

  const ZERO_UNIT: CodeUnit := 48   // '0'

  /** `u` is one of the units `0`-`9`, `a`-`f`. */
  predicate IsLowerHexUnit(u: CodeUnit) {
    48 <= u <= 57 || 97 <= u <= 102
  }

  predicate AllLowerHex(s: Text) {
    forall i :: 0 <= i < |s| ==> IsLowerHexUnit(s[i])
  }

  /** No superfluous leading zero: the shape `toString(16)` produces. */
  predicate Canonical(s: Text) {
    |s| >= 1 && AllLowerHex(s) && (|s| == 1 || s[0] != ZERO_UNIT)
  }

  function DigitUnit(d: nat): (u: CodeUnit)
    requires d < 16
    ensures IsLowerHexUnit(u)
    ensures (u == ZERO_UNIT) <==> (d == 0)
  {
    if d < 10 then 48 + d else 87 + d
  }

  function DigitValue(u: CodeUnit): (d: nat)
    requires IsLowerHexUnit(u)
    ensures d < 16
    ensures DigitUnit(d) == u
  {
    if u <= 57 then u - 48 else u - 87
  }

  function Pow16(k: nat): (r: nat)
    ensures r >= 1
  {
    if k == 0 then 1 else 16 * Pow16(k - 1)
  }

  /** `n.toString(16)` for a non-negative integer `n`. */
  function ToHex(n: nat): (s: Text)
    ensures Canonical(s)
    decreases n
  {
    if n < 16 then [DigitUnit(n)]
    else
      var p := ToHex(n / 16);
      var s := p + [DigitUnit(n % 16)];
      assert s[0] == p[0];
      s
  }

  /** The number a string of hex digits denotes, most significant digit first. */
  function HexValue(s: Text): nat
    requires AllLowerHex(s)
  {
    if s == [] then 0 else 16 * HexValue(s[..|s| - 1]) + DigitValue(s[|s| - 1])
  }

  /** Decoding undoes `toString(16)`. */
  lemma {:induction false} HexRoundTrip(n: nat)
    ensures HexValue(ToHex(n)) == n
    decreases n
  {
    if n >= 16 {
      var s := ToHex(n);
      assert s[..|s| - 1] == ToHex(n / 16);
      HexRoundTrip(n / 16);
    }
  }

  /** A canonical hex string with a non-zero leading digit denotes a non-zero number. */
  lemma {:induction false} LeadingDigitNonZero(s: Text)
    requires Canonical(s) && s[0] != ZERO_UNIT
    ensures HexValue(s) >= 1
    decreases |s|
  {
    if |s| > 1 {
      var p := s[..|s| - 1];
      assert p[0] == s[0];
      LeadingDigitNonZero(p);
    } else {
      assert DigitUnit(DigitValue(s[0])) == s[0];
    }
  }

  /** The other direction: `toString(16)` reproduces every canonical hex string. */
  lemma {:induction false} HexRoundTripText(s: Text)
    requires Canonical(s)
    ensures ToHex(HexValue(s)) == s
    decreases |s|
  {
    if |s| > 1 {
      var p := s[..|s| - 1];
      assert p[0] == s[0];
      LeadingDigitNonZero(p);
      HexRoundTripText(p);
      var n := HexValue(s);
      var d := DigitValue(s[|s| - 1]);
      assert n == 16 * HexValue(p) + d;
      assert n / 16 == HexValue(p) && n % 16 == d;
      assert s == p + [s[|s| - 1]];
    }
  }

  /** A number below 16^k needs at most k hex digits. */
  lemma {:induction false} ToHexLength(n: nat, k: nat)
    requires 1 <= k && n < Pow16(k)
    ensures |ToHex(n)| <= k
    decreases k
  {
    if n >= 16 {
      assert k > 1;
      ToHexLength(n / 16, k - 1);
    }
  }

  /** `s.padStart(target, fill)` with a one-unit fill string: left-pad with `fill`
      up to `target` units, leaving longer strings alone. */
  function PadStart(s: Text, target: nat, fill: CodeUnit): (r: Text)
    ensures |r| == if |s| < target then target else |s|
    ensures r[|r| - |s|..] == s
    ensures forall i :: 0 <= i < |r| - |s| ==> r[i] == fill
  {
    if |s| >= target then s else seq(target - |s|, _ => fill) + s
  }

  /** Leading zeros do not change the value of a hex string. */
  lemma {:induction false} ZeroPaddingKeepsValue(z: Text, s: Text)
    requires forall i :: 0 <= i < |z| ==> z[i] == ZERO_UNIT
    requires AllLowerHex(s)
    ensures AllLowerHex(z + s)
    ensures HexValue(z + s) == HexValue(s)
    decreases |z| + |s|
  {
    if s == [] {
      assert z + s == z;
      if z != [] {
        var p := z[..|z| - 1];
        ZeroPaddingKeepsValue(p, []);
        assert p + [] == p;
        assert DigitValue(z[|z| - 1]) == 0;
      }
    } else {
      var p := s[..|s| - 1];
      ZeroPaddingKeepsValue(z, p);
      assert (z + s)[..|z + s| - 1] == z + p;
    }
  }

  /** Left-padding hex text with `0` keeps it hex and keeps its value. */
  lemma ZeroPadStart(s: Text, w: nat)
    requires |s| <= w && AllLowerHex(s)
    ensures var r := PadStart(s, w, ZERO_UNIT);
            AllLowerHex(r) && HexValue(r) == HexValue(s)
  {
    if |s| < w {
      var pad := seq(w - |s|, _ => ZERO_UNIT);
      assert PadStart(s, w, ZERO_UNIT) == pad + s;
      ZeroPaddingKeepsValue(pad, s);
    }
  }

  /** The last `k` units of the padded text are the digits behind `0`s, so they
      denote the same number. */
  lemma PaddedTail(digits: Text, k: nat, w: nat)
    requires AllLowerHex(digits) && |digits| <= k <= w
    ensures var tail := PadStart(digits, w, ZERO_UNIT)[w - k..];
            AllLowerHex(tail) && HexValue(tail) == HexValue(digits)
  {
    if |digits| < w {
      var pad := seq(w - |digits|, _ => ZERO_UNIT);
      assert PadStart(digits, w, ZERO_UNIT) == pad + digits;
      assert (pad + digits)[w - k..] == pad[w - k..] + digits;
      ZeroPaddingKeepsValue(pad[w - k..], digits);
    }
  }

  /** Hex text of at most `k` units left-padded with `0` to `w >= k` units: exactly `w`
      hex units, at least `w - k` leading zeros, and both the whole text and its last
      `k` units denote what the unpadded text denotes. */
  lemma PaddedHex(digits: Text, k: nat, w: nat)
    requires AllLowerHex(digits) && |digits| <= k <= w
    ensures var r := PadStart(digits, w, ZERO_UNIT);
            && |r| == w
            && AllLowerHex(r)
            && (forall i :: 0 <= i < w - k ==> r[i] == ZERO_UNIT)
            && AllLowerHex(r[w - k..])
            && HexValue(r[w - k..]) == HexValue(digits)
            && HexValue(r) == HexValue(digits)
  {
    ZeroPadStart(digits, w);
    PaddedTail(digits, k, w);
  }
}
