/** JavaScript strings as the component sees them: sequences of UTF-16 code units.
    `String.prototype.charCodeAt` returns one of these units, so a lone surrogate
    half is an ordinary element here, which a Dafny `char` could not hold. */
module JsText {

  /** One UTF-16 code unit, the value `charCodeAt` returns. */
  type CodeUnit = x: int | 0 <= x < 0x1_0000

  /** A JavaScript string value. */
  type Text = seq<CodeUnit>

  /** An ASCII literal of the component (`'User Login'`, `'sig_'`, ...) as a JS string. */
  function FromAscii(s: string): (t: Text)
    requires forall i :: 0 <= i < |s| ==> s[i] as int < 128
    ensures |t| == |s|
    ensures forall i :: 0 <= i < |s| ==> t[i] == s[i] as int
  {
    seq(|s|, i requires 0 <= i < |s| => s[i] as int)
  }
}
