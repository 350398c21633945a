/**
 * The colour codec behind the whiteboard's three colour widgets: the hex
 * field's pattern check, the RGB field's range check and its encoder
 * (`n.toString(16).padStart(2, '0')`, joined after a `#`), and the decoder
 * `setColor` uses to mirror a hex colour into the RGB field
 * (`parseInt(s.slice(i, j), 16)` on the three two-character slices).
 */
module Colors {

  /** A character of the class `[0-9A-Fa-f]`. */
  predicate IsHexDigit(c: char) {
    '0' <= c <= '9' || 'a' <= c <= 'f' || 'A' <= c <= 'F'
  }

  predicate IsUpperHex(c: char) {
    'A' <= c <= 'F'
  }

  /** The hex field's test `/^#[0-9A-Fa-f]{6}$/`: a `#` and exactly six hex digits. */
  predicate IsValidHex(s: string) {
    |s| == 7 && s[0] == '#' && forall i :: 1 <= i < 7 ==> IsHexDigit(s[i])
  }

  /** The RGB field's test: exactly three components, each within 0..255. */
  predicate IsValidRgb(parts: seq<int>) {
    |parts| == 3 && forall i :: 0 <= i < 3 ==> 0 <= parts[i] <= 255
  }

  /** The value of one hex digit, either case. */
  function DigitValue(c: char): (v: nat)
    requires IsHexDigit(c)
    ensures v < 16
    ensures ('0' <= c <= '9') == (v < 10)
  {
    if '0' <= c <= '9' then c as int - '0' as int
    else if 'a' <= c <= 'f' then c as int - 'a' as int + 10
    else c as int - 'A' as int + 10
  }

  /** The digit `toString(16)` writes for `d`: always lower case. */
  function LowerDigit(d: nat): (c: char)
    requires d < 16
    ensures IsHexDigit(c) && !IsUpperHex(c)
    ensures DigitValue(c) == d
  {
    if d < 10 then ('0' as int + d) as char else ('a' as int + d - 10) as char
  }

  /** Lower-cases the hex letters `A`..`F` and leaves every other character alone. */
  function LowerChar(c: char): (l: char)
    ensures !IsUpperHex(l)
    ensures IsHexDigit(c) ==> IsHexDigit(l) && DigitValue(l) == DigitValue(c)
    ensures !IsUpperHex(c) ==> l == c
  {
    if IsUpperHex(c) then (c as int - 'A' as int + 'a' as int) as char else c
  }

  function Lowered(s: string): (l: string)
    ensures |l| == |s|
    ensures forall i :: 0 <= i < |s| ==> l[i] == LowerChar(s[i])
  {
    seq(|s|, i requires 0 <= i < |s| => LowerChar(s[i]))
  }

  /** `parseInt(s, 16)` on a non-empty run of hex digits. */
  function ParseHex(s: string): (n: nat)
    requires |s| > 0
    requires forall i :: 0 <= i < |s| ==> IsHexDigit(s[i])
    decreases |s|
  {
    if |s| == 1 then DigitValue(s[0])
    else ParseHex(s[..|s| - 1]) * 16 + DigitValue(s[|s| - 1])
  }

  /** `n.toString(16)`: the base-16 numeral of `n`, no leading zeros, lower case. */
  function ToHex(n: nat): string
    decreases n
  {
    if n < 16 then [LowerDigit(n)] else ToHex(n / 16) + [LowerDigit(n % 16)]
  }

  /** `toString(16)` writes at least one digit, and only lower-case hex digits. */
  lemma {:induction false} ToHexDigits(n: nat)
    ensures |ToHex(n)| > 0
    ensures forall i :: 0 <= i < |ToHex(n)| ==> IsHexDigit(ToHex(n)[i]) && !IsUpperHex(ToHex(n)[i])
    decreases n
  {
    if n >= 16 {
      ToHexDigits(n / 16);
    }
  }

  /** `s.padStart(width, fill)` with a one-character filler. */
  function PadStart(s: string, width: nat, fill: char): (r: string)
    ensures |r| == if |s| < width then width else |s|
    ensures r[|r| - |s|..] == s
    ensures forall i :: 0 <= i < |r| - |s| ==> r[i] == fill
  {
    if |s| < width then seq(width - |s|, _ => fill) + s else s
  }

  /** One component as the RGB handler writes it: `n.toString(16).padStart(2, '0')`. */
  function ByteHex(n: nat): string {
    PadStart(ToHex(n), 2, '0')
  }

  function JoinHex(parts: seq<int>): string
    requires forall i :: 0 <= i < |parts| ==> 0 <= parts[i]
  {
    if parts == [] then "" else ByteHex(parts[0]) + JoinHex(parts[1..])
  }

  /** The RGB handler's encoder: `#` followed by every component's two-digit hex. */
  function Encode(parts: seq<int>): string
    requires forall i :: 0 <= i < |parts| ==> 0 <= parts[i]
  {
    "#" + JoinHex(parts)
  }

  /** `setColor`'s decoder: the slices 1..3, 3..5 and 5..7 read in base 16. */
  function Decode(s: string): (rgb: (nat, nat, nat))
    requires IsValidHex(s)
    ensures rgb.0 == DigitValue(s[1]) * 16 + DigitValue(s[2])
    ensures rgb.1 == DigitValue(s[3]) * 16 + DigitValue(s[4])
    ensures rgb.2 == DigitValue(s[5]) * 16 + DigitValue(s[6])
    ensures rgb.0 < 256 && rgb.1 < 256 && rgb.2 < 256
  {
    ParseTwoDigits(s[1..3]);
    ParseTwoDigits(s[3..5]);
    ParseTwoDigits(s[5..7]);
    (ParseHex(s[1..3]), ParseHex(s[3..5]), ParseHex(s[5..7]))
  }

  /** A two-digit slice reads as high digit times sixteen plus low digit. */
  lemma ParseTwoDigits(s: string)
    requires |s| == 2 && IsHexDigit(s[0]) && IsHexDigit(s[1])
    ensures ParseHex(s) == DigitValue(s[0]) * 16 + DigitValue(s[1])
    ensures ParseHex(s) < 256
  {
    assert s[..1] == [s[0]];
  }

  /** `n.toString()`: the decimal numeral of `n`. */
  function Decimal(n: nat): (s: string)
    ensures |s| > 0 && forall i :: 0 <= i < |s| ==> '0' <= s[i] <= '9'
    decreases n
  {
    if n < 10 then [('0' as int + n) as char] else Decimal(n / 10) + [('0' as int + n % 10) as char]
  }

  /** Reads a non-empty string of decimal digits as a number. */
  function ParseDecimal(s: string): nat
    requires |s| > 0 && forall i :: 0 <= i < |s| ==> '0' <= s[i] <= '9'
    decreases |s|
  {
    if |s| == 1 then s[0] as int - '0' as int
    else ParseDecimal(s[..|s| - 1]) * 10 + (s[|s| - 1] as int - '0' as int)
  }

  /** Reading back the numeral `${n}` writes gives the number again. */
  lemma {:induction false} ParseToDecimal(n: nat)
    ensures ParseDecimal(Decimal(n)) == n
    decreases n
  {
    if n >= 10 {
      var s := Decimal(n);
      assert s[..|s| - 1] == Decimal(n / 10);
      ParseToDecimal(n / 10);
    }
  }

  /** The text `setColor` writes into the RGB field: `${r},${g},${b}`. */
  function RgbText(rgb: (nat, nat, nat)): string {
    Decimal(rgb.0) + "," + Decimal(rgb.1) + "," + Decimal(rgb.2)
  }

  /** Reading back what `toString(16)` wrote gives the number again. */
  lemma {:induction false} ParseToHex(n: nat)
    ensures |ToHex(n)| > 0 && (forall i :: 0 <= i < |ToHex(n)| ==> IsHexDigit(ToHex(n)[i]))
    ensures ParseHex(ToHex(n)) == n
    decreases n
  {
    ToHexDigits(n);
    if n >= 16 {
      var s := ToHex(n);
      ToHexDigits(n / 16);
      assert s[..|s| - 1] == ToHex(n / 16);
      ParseToHex(n / 16);
    }
  }

  /** A component in 0..255 is written as exactly two digits, zero-padded: high nibble, then low. */
  lemma ByteHexDigits(n: nat)
    requires n < 256
    ensures ByteHex(n) == [LowerDigit(n / 16), LowerDigit(n % 16)]
  {
    if n < 16 {
      assert ToHex(n) == [LowerDigit(n)];
      assert LowerDigit(0) == '0';
    } else {
      assert ToHex(n / 16) == [LowerDigit(n / 16)];
    }
  }

  /** The three components' digits, each written as two lower-case hex digits. */
  function Nibbles(parts: seq<int>): string
    requires IsValidRgb(parts)
  {
    [LowerDigit(parts[0] / 16), LowerDigit(parts[0] % 16),
     LowerDigit(parts[1] / 16), LowerDigit(parts[1] % 16),
     LowerDigit(parts[2] / 16), LowerDigit(parts[2] % 16)]
  }

  /** Joining three components is their three encodings one after the other. */
  lemma JoinThree(parts: seq<int>)
    requires IsValidRgb(parts)
    ensures JoinHex(parts) == ByteHex(parts[0]) + ByteHex(parts[1]) + ByteHex(parts[2])
  {
    var rest := parts[1..];
    assert rest[1..][1..] == [];
    assert JoinHex(rest[1..]) == ByteHex(parts[2]);
    assert JoinHex(rest) == ByteHex(parts[1]) + ByteHex(parts[2]);
  }

  /** `#` and six hex digits, none of them an upper-case letter. */
  predicate IsLowerHex(s: string) {
    IsValidHex(s) && forall i :: 0 <= i < |s| ==> !IsUpperHex(s[i])
  }

  /** `#` and the nibble digits of a triple form a lower-case hex colour. */
  lemma NibblesAreLowerHex(parts: seq<int>)
    requires IsValidRgb(parts)
    ensures IsLowerHex(['#'] + Nibbles(parts))
  {
  }

  /** An accepted triple encodes to `#` and six lower-case digits, two per component. */
  lemma EncodeShape(parts: seq<int>)
    requires IsValidRgb(parts)
    ensures Encode(parts) == ['#'] + Nibbles(parts)
    ensures IsLowerHex(Encode(parts))
  {
    JoinThree(parts);
    ByteHexDigits(parts[0]);
    ByteHexDigits(parts[1]);
    ByteHexDigits(parts[2]);
    NibblesAreLowerHex(parts);
  }

  /** Decoding `#` and a triple's nibble digits gives the triple. */
  lemma DecodeNibbles(parts: seq<int>)
    requires IsValidRgb(parts)
    ensures IsValidHex(['#'] + Nibbles(parts))
    ensures Decode(['#'] + Nibbles(parts)) == (parts[0], parts[1], parts[2])
  {
    NibblesAreLowerHex(parts);
  }

  /** Round trip: decoding what the RGB handler encodes gives back the same three components. */
  lemma DecodeEncode(parts: seq<int>)
    requires IsValidRgb(parts)
    ensures IsValidHex(Encode(parts))
    ensures Decode(Encode(parts)) == (parts[0], parts[1], parts[2])
  {
    EncodeShape(parts);
    DecodeNibbles(parts);
  }

  /** The nibble digits of a decoded colour are its six digits, lower-cased. */
  lemma NibblesOfDecode(h: string)
    requires IsValidHex(h)
    ensures var rgb := Decode(h);
      IsValidRgb([rgb.0, rgb.1, rgb.2]) && ['#'] + Nibbles([rgb.0, rgb.1, rgb.2]) == Lowered(h)
  {
    var rgb := Decode(h);
    var parts := [rgb.0 as int, rgb.1 as int, rgb.2 as int];
    NibblesOfValue(h[1], h[2]);
    NibblesOfValue(h[3], h[4]);
    NibblesOfValue(h[5], h[6]);
    var l := ['#'] + Nibbles(parts);
    forall i | 0 <= i < 7
      ensures l[i] == Lowered(h)[i]
    {
    }
  }

  /** Round trip: re-encoding a decoded hex colour gives the same colour with its letters lower-cased. */
  lemma EncodeDecode(h: string)
    requires IsValidHex(h)
    ensures var rgb := Decode(h);
      IsValidRgb([rgb.0, rgb.1, rgb.2]) && Encode([rgb.0, rgb.1, rgb.2]) == Lowered(h)
  {
    var rgb := Decode(h);
    NibblesOfDecode(h);
    EncodeShape([rgb.0, rgb.1, rgb.2]);
  }

  /** The digit written for a digit's value is that digit, lower-cased. */
  lemma LowerDigitOfValue(c: char)
    requires IsHexDigit(c)
    ensures LowerDigit(DigitValue(c)) == LowerChar(c)
  {
  }

  /** Splitting a two-digit value back into nibbles recovers the two digits, lower-cased. */
  lemma NibblesOfValue(hi: char, lo: char)
    requires IsHexDigit(hi) && IsHexDigit(lo)
    ensures var v := DigitValue(hi) * 16 + DigitValue(lo);
      LowerDigit(v / 16) == LowerChar(hi) && LowerDigit(v % 16) == LowerChar(lo)
  {
    var v := DigitValue(hi) * 16 + DigitValue(lo);
    assert v / 16 == DigitValue(hi) && v % 16 == DigitValue(lo);
    LowerDigitOfValue(hi);
    LowerDigitOfValue(lo);
  }
}
