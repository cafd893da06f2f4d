/**
 * `UIColor`: an immutable RGBA value with four real components, the named colours, the
 * hexadecimal-string parser `hexColor` and `colorWithAlphaComponent`.
 */
module Colors {
  import opened Sequences

  datatype UIColor = UIColor(r: real, g: real, b: real, a: real) {

    /** `colorWithAlphaComponent(value)`: a new colour, the receiver's alpha scaled by `value`. */
    function ColorWithAlphaComponent(value: real): (c: UIColor)
      ensures c.r == r && c.g == g && c.b == b
      ensures c.a == a * value
    {
      UIColor(r, g, b, a * value)
    }
  }

  const Black: UIColor := UIColor(0.0, 0.0, 0.0, 1.0)
  const Clear: UIColor := UIColor(0.0, 0.0, 0.0, 0.0)
  const Gray: UIColor := UIColor(0.5, 0.5, 0.5, 1.0)
  const Red: UIColor := UIColor(1.0, 0.0, 0.0, 1.0)
  const Yellow: UIColor := UIColor(1.0, 1.0, 0.0, 1.0)
  const Green: UIColor := UIColor(0.0, 1.0, 0.0, 1.0)
  const Blue: UIColor := UIColor(0.0, 0.0, 1.0, 1.0)
  const White: UIColor := UIColor(1.0, 1.0, 1.0, 1.0)

  /** Every component lies in the closed unit interval. */
  predicate InUnitRange(c: UIColor) {
    0.0 <= c.r <= 1.0 && 0.0 <= c.g <= 1.0 && 0.0 <= c.b <= 1.0 && 0.0 <= c.a <= 1.0
  }

  type Byte = x: nat | x < 256

  predicate IsHexDigit(ch: char) {
    '0' <= ch <= '9' || 'a' <= ch <= 'f' || 'A' <= ch <= 'F'
  }

  /** The value of one base-16 digit, either case. */
  function HexDigitValue(ch: char): (v: nat)
    requires IsHexDigit(ch)
    ensures v < 16
  {
    if '0' <= ch <= '9' then ch as int - '0' as int
    else if 'a' <= ch <= 'f' then ch as int - 'a' as int + 10
    else ch as int - 'A' as int + 10
  }

  predicate AllHexDigits(s: string) {
    forall i :: 0 <= i < |s| ==> IsHexDigit(s[i])
  }

  /** `parseInt(s.substr(i, 2), 16)` for two hexadecimal digits. */
  function ParseHexByte(s: string, i: nat): (v: Byte)
    requires i + 2 <= |s| && IsHexDigit(s[i]) && IsHexDigit(s[i + 1])
  {
    16 * HexDigitValue(s[i]) + HexDigitValue(s[i + 1])
  }

  /** `hexValue.replace('#', '')`: a string pattern replaces only the FIRST '#'. */
  function RemoveFirstHash(s: string): (t: string)
    ensures '#' !in s ==> t == s
    ensures '#' in s ==> |t| == |s| - 1 && t == s[..IndexOf(s, '#')] + s[IndexOf(s, '#') + 1..]
  {
    var i := IndexOf(s, '#');
    if i < 0 then s else RemoveAt(s, i)
  }

  /** What the parser reads: once the first '#' is gone, six or eight characters must be hex digits. */
  predicate HexParsable(hexValue: string) {
    var t := RemoveFirstHash(hexValue);
    (|t| == 6 || |t| == 8) ==> AllHexDigits(t)
  }

  /** A colour from four bytes, each divided by 255. */
  function FromBytes(r: Byte, g: Byte, b: Byte, a: Byte): (c: UIColor)
    ensures InUnitRange(c)
  {
    UIColor(r as real / 255.0, g as real / 255.0, b as real / 255.0, a as real / 255.0)
  }

  /**
   * `UIColor.hexColor`. Six digits read as RRGGBB with alpha 1.0; eight digits read as
   * AARRGGBB (alpha FIRST); any other length gives `clear`.
   */
  function HexColor(hexValue: string): (c: UIColor)
    requires HexParsable(hexValue)
    ensures InUnitRange(c)
    ensures var t := RemoveFirstHash(hexValue); |t| != 6 && |t| != 8 ==> c == Clear
    ensures |RemoveFirstHash(hexValue)| == 6 ==> c.a == 1.0
  {
    var t := RemoveFirstHash(hexValue);
    if |t| == 6 then
      UIColor(ParseHexByte(t, 0) as real / 255.0,
              ParseHexByte(t, 2) as real / 255.0,
              ParseHexByte(t, 4) as real / 255.0,
              1.0)
    else if |t| == 8 then
      UIColor(ParseHexByte(t, 2) as real / 255.0,
              ParseHexByte(t, 4) as real / 255.0,
              ParseHexByte(t, 6) as real / 255.0,
              ParseHexByte(t, 0) as real / 255.0)
    else
      Clear
  }

  // An independent writer of hex strings, used to state what the parser reads.

  /** The lower-case hexadecimal digit for `d`. */
  function HexDigitChar(d: nat): (ch: char)
    requires d < 16
    ensures IsHexDigit(ch) && HexDigitValue(ch) == d
  {
    if d < 10 then ('0' as int + d) as char else ('a' as int + d - 10) as char
  }

  /** Two hexadecimal digits, high nibble first. */
  function HexByte(v: Byte): (s: string)
    ensures |s| == 2 && AllHexDigits(s) && ParseHexByte(s, 0) == v
  {
    [HexDigitChar(v / 16), HexDigitChar(v % 16)]
  }

  /** `#RRGGBB`. */
  function Hex6(r: Byte, g: Byte, b: Byte): string {
    "#" + HexByte(r) + HexByte(g) + HexByte(b)
  }

  /** `#AARRGGBB`, the eight-digit layout the parser reads. */
  function Hex8(a: Byte, r: Byte, g: Byte, b: Byte): string {
    "#" + HexByte(a) + HexByte(r) + HexByte(g) + HexByte(b)
  }

  lemma NoHashInHexDigits(s: string)
    requires AllHexDigits(s)
    ensures '#' !in s
  {
  }

  /** A leading '#' is the one `replace` takes out. */
  lemma RemoveLeadingHash(t: string)
    requires AllHexDigits(t)
    ensures RemoveFirstHash("#" + t) == t
  {
    NoHashInHexDigits(t);
    assert IndexOf("#" + t, '#') == 0;
  }

  /** Writing one more byte keeps the string hex, reads back as that byte at the end, and leaves
      the bytes already written as they were. */
  lemma AppendByte(t: string, v: Byte)
    requires AllHexDigits(t)
    ensures var u := t + HexByte(v);
      && AllHexDigits(u) && |u| == |t| + 2 && ParseHexByte(u, |t|) == v
      && forall i: nat :: i + 2 <= |t| ==> ParseHexByte(u, i) == ParseHexByte(t, i)
  {
    var u := t + HexByte(v);
    assert u[|t|] == HexByte(v)[0] && u[|t| + 1] == HexByte(v)[1];
    forall i | 0 <= i < |u| ensures IsHexDigit(u[i]) {
      if i >= |t| { assert u[i] == HexByte(v)[i - |t|]; }
    }
  }

  /** What the parser sees once a '#' and hex digits are given: 6 digits as RRGGBB with full
      alpha, 8 digits as AARRGGBB. */
  lemma HexColorOfDigits(t: string)
    requires AllHexDigits(t) && (|t| == 6 || |t| == 8)
    ensures HexParsable("#" + t)
    ensures |t| == 6 ==>
      HexColor("#" + t) == UIColor(ParseHexByte(t, 0) as real / 255.0, ParseHexByte(t, 2) as real / 255.0,
                                   ParseHexByte(t, 4) as real / 255.0, 1.0)
    ensures |t| == 8 ==>
      HexColor("#" + t) == UIColor(ParseHexByte(t, 2) as real / 255.0, ParseHexByte(t, 4) as real / 255.0,
                                   ParseHexByte(t, 6) as real / 255.0, ParseHexByte(t, 0) as real / 255.0)
  {
    RemoveLeadingHash(t);
  }

  /** Reading `#RRGGBB` gives the three bytes over 255 and full alpha. */
  lemma {:induction false} HexColorReadsRGB(r: Byte, g: Byte, b: Byte)
    ensures HexParsable(Hex6(r, g, b))
    ensures HexColor(Hex6(r, g, b)) == FromBytes(r, g, b, 255)
  {
    var t1 := HexByte(r);
    AppendByte([], r);
    assert [] + HexByte(r) == t1;
    AppendByte(t1, g);
    var t2 := t1 + HexByte(g);
    AppendByte(t2, b);
    var t3 := t2 + HexByte(b);
    assert Hex6(r, g, b) == "#" + t3;
    HexColorOfDigits(t3);
  }

  /** Reading `#AARRGGBB` takes the FIRST byte as alpha and the next three as red, green, blue. */
  lemma {:induction false} HexColorReadsARGB(a: Byte, r: Byte, g: Byte, b: Byte)
    ensures HexParsable(Hex8(a, r, g, b))
    ensures HexColor(Hex8(a, r, g, b)) == FromBytes(r, g, b, a)
  {
    var t1 := HexByte(a);
    AppendByte([], a);
    assert [] + HexByte(a) == t1;
    AppendByte(t1, r);
    var t2 := t1 + HexByte(r);
    AppendByte(t2, g);
    var t3 := t2 + HexByte(g);
    AppendByte(t3, b);
    var t4 := t3 + HexByte(b);
    assert Hex8(a, r, g, b) == "#" + t4;
    HexColorOfDigits(t4);
  }

  /** The eight-digit form is not CSS's `#RRGGBBAA`: "#ff000080" is a fully opaque dark blue,
      not a half-transparent red. */
  lemma EightDigitsAreAlphaFirst()
    ensures HexColor("#ff000080") == UIColor(0.0, 0.0, 128.0 / 255.0, 1.0)
    ensures HexColor("#ff000080") != UIColor(1.0, 0.0, 0.0, 128.0 / 255.0)
  {
    assert HexByte(255) == "ff" && HexByte(0) == "00" && HexByte(128) == "80";
    assert Hex8(255, 0, 0, 128) == "#ff000080";
    HexColorReadsARGB(255, 0, 0, 128);
  }

  /** Only the first '#' is removed: "##ffffff" keeps seven characters and reads as `clear`. */
  lemma OnlyFirstHashRemoved()
    ensures HexParsable("##ffffff")
    ensures HexColor("##ffffff") == Clear
  {
    assert IndexOf("##ffffff", '#') == 0;
    assert RemoveFirstHash("##ffffff") == "#ffffff";
  }

  /** Scaling alpha twice is scaling by the product, and a colour in range scaled by a factor
      in [0, 1] stays in range. */
  lemma {:induction false} AlphaScaling(c: UIColor, u: real, v: real)
    ensures c.ColorWithAlphaComponent(u).ColorWithAlphaComponent(v) == c.ColorWithAlphaComponent(u * v)
    ensures InUnitRange(c) && 0.0 <= v <= 1.0 ==> InUnitRange(c.ColorWithAlphaComponent(v))
  {
    assert c.a * u * v == c.a * (u * v);
    if InUnitRange(c) && 0.0 <= v <= 1.0 {
      assert 0.0 <= c.a * v <= c.a * 1.0;
    }
  }
}
