/**
 * The RGB field's handler on the numbers `Number` really returns, fractions
 * included. The range check accepts any number in 0..255, and `toString(16)`
 * writes a fraction after a `.`, so the colour it adopts need not be a hex
 * colour. This module models that only for non-negative numbers with at most
 * one base-16 fractional digit; the rest of the model takes the components as
 * integers (`Colors.IsValidRgb`).
 */
module Fractions {
  import opened Colors

  /** The number `whole + sixteenths / 16`. */
  datatype Number = Number(whole: nat, sixteenths: nat)
  {
    predicate Valid() { sixteenths < 16 }
    predicate IsWhole() { sixteenths == 0 }
    predicate AtMost255() { whole < 255 || (whole == 255 && sixteenths == 0) }
  }

  /** The handler's check as written: three components, each between 0 and 255, whole or not. */
  predicate InRangeAsWritten(parts: seq<Number>) {
    |parts| == 3 && forall i :: 0 <= i < 3 ==> parts[i].Valid() && parts[i].AtMost255()
  }

  /** `x.toString(16)`: the integer part, then `.` and the fractional digit when there is one. */
  function HexOfNumber(x: Number): string
    requires x.Valid()
  {
    if x.IsWhole() then ToHex(x.whole) else ToHex(x.whole) + ['.', LowerDigit(x.sixteenths)]
  }

  /** `toString(16)` writes only hex digits exactly for a whole number. */
  lemma HexOfNumberDigits(x: Number)
    requires x.Valid()
    ensures |HexOfNumber(x)| > 0
    ensures x.IsWhole() <==> forall i :: 0 <= i < |HexOfNumber(x)| ==> IsHexDigit(HexOfNumber(x)[i])
  {
    ToHexDigits(x.whole);
    if !x.IsWhole() {
      var s := HexOfNumber(x);
      assert s[|s| - 2] == '.' && !IsHexDigit('.');
    }
  }

  /** The hex string the handler builds as written: each component's `toString(16)`, padded to two. */
  function EncodeAsWritten(parts: seq<Number>): string
    requires InRangeAsWritten(parts)
  {
    "#" + PadStart(HexOfNumber(parts[0]), 2, '0')
        + PadStart(HexOfNumber(parts[1]), 2, '0')
        + PadStart(HexOfNumber(parts[2]), 2, '0')
  }

  /** A whole component is written as its two-digit hex. */
  lemma WholeAsByteHex(r: nat, g: nat, b: nat)
    requires r <= 255 && g <= 255 && b <= 255
    ensures InRangeAsWritten([Number(r, 0), Number(g, 0), Number(b, 0)])
    ensures EncodeAsWritten([Number(r, 0), Number(g, 0), Number(b, 0)]) == "#" + ByteHex(r) + ByteHex(g) + ByteHex(b)
  {
  }

  /** Regroups a four-way concatenation. */
  lemma Regroup(h: string, a: string, b: string, c: string)
    ensures h + a + b + c == h + (a + b + c)
  {
  }

  /** On whole components the handler as written is the integer encoding the rest of the model uses. */
  lemma AsWrittenOnWhole(parts: seq<int>)
    requires IsValidRgb(parts)
    ensures InRangeAsWritten([Number(parts[0], 0), Number(parts[1], 0), Number(parts[2], 0)])
    ensures EncodeAsWritten([Number(parts[0], 0), Number(parts[1], 0), Number(parts[2], 0)]) == Encode(parts)
  {
    var a, b, c := ByteHex(parts[0]), ByteHex(parts[1]), ByteHex(parts[2]);
    WholeAsByteHex(parts[0], parts[1], parts[2]);
    assert Encode(parts) == "#" + (a + b + c) by {
      JoinThree(parts);
    }
    Regroup("#", a, b, c);
  }

  /** A fractional component is written with at least three characters, so padding leaves it as it is. */
  lemma FractionLength(x: Number)
    requires x.Valid() && !x.IsWhole()
    ensures |PadStart(HexOfNumber(x), 2, '0')| >= 3
  {
    ToHexDigits(x.whole);
  }

  /** With every component whole, the handler as written adopts a hex colour. */
  lemma WholeIsValid(parts: seq<Number>)
    requires InRangeAsWritten(parts) && forall i :: 0 <= i < 3 ==> parts[i].IsWhole()
    ensures IsValidHex(EncodeAsWritten(parts))
  {
    var ints := [parts[0].whole, parts[1].whole, parts[2].whole];
    assert parts == [Number(ints[0], 0), Number(ints[1], 0), Number(ints[2], 0)];
    AsWrittenOnWhole(ints);
    DecodeEncode(ints);
  }

  /** `#` and three pieces of at least two characters, one of them longer, is too long for the pattern. */
  lemma TooLongForPattern(a: string, b: string, c: string)
    requires |a| >= 2 && |b| >= 2 && |c| >= 2
    requires |a| >= 3 || |b| >= 3 || |c| >= 3
    ensures |"#" + a + b + c| > 7 && !IsValidHex("#" + a + b + c)
  {
  }

  /** With one component fractional, the string is too long for the pattern. */
  lemma FractionIsInvalid(parts: seq<Number>, k: nat)
    requires InRangeAsWritten(parts) && k < 3 && !parts[k].IsWhole()
    ensures |EncodeAsWritten(parts)| > 7
    ensures !IsValidHex(EncodeAsWritten(parts))
  {
    var x, y, z := parts[0], parts[1], parts[2];
    assert x.Valid() && y.Valid() && z.Valid();
    assert !x.IsWhole() || !y.IsWhole() || !z.IsWhole();
    if !x.IsWhole() {
      FractionLength(x);
    } else if !y.IsWhole() {
      FractionLength(y);
    } else {
      FractionLength(z);
    }
    TooLongForPattern(PadStart(HexOfNumber(x), 2, '0'), PadStart(HexOfNumber(y), 2, '0'), PadStart(HexOfNumber(z), 2, '0'));
  }

  /** The handler as written adopts a hex colour exactly when every component it let through is whole. */
  lemma AsWrittenValidExactlyWhenWhole(parts: seq<Number>)
    requires InRangeAsWritten(parts)
    ensures IsValidHex(EncodeAsWritten(parts)) <==> forall i :: 0 <= i < 3 ==> parts[i].IsWhole()
  {
    if forall i :: 0 <= i < 3 ==> parts[i].IsWhole() {
      WholeIsValid(parts);
    } else {
      var k :| 0 <= k < 3 && !parts[k].IsWhole();
      FractionIsInvalid(parts, k);
    }
  }

  /** `0.5,0,0` passes the check and is adopted as `#0.80000`, which is no hex colour. */
  lemma FractionAdoptsNonHex()
    ensures InRangeAsWritten([Number(0, 8), Number(0, 0), Number(0, 0)])
    ensures EncodeAsWritten([Number(0, 8), Number(0, 0), Number(0, 0)]) == "#0.80000"
    ensures !IsValidHex(EncodeAsWritten([Number(0, 8), Number(0, 0), Number(0, 0)]))
  {
    assert HexOfNumber(Number(0, 8)) == "0.8";
    assert HexOfNumber(Number(0, 0)) == "0";
  }
}
