/**
 * Decimal rendering of integers and left padding, as JavaScript's `String(n)`
 * and `String.prototype.padStart` produce them for integral values below
 * 10^21 in magnitude (larger numbers print in exponent form, which is not
 * modelled), together with a parser that undoes the rendering. The parser is not part of the
 * application; it is the partner that shows the rendering loses nothing.
 */
module Text {

  datatype Option<+T> = None | Some(value: T)

  predicate IsDigit(c: char) {
    '0' <= c <= '9'
  }

  predicate AllDigits(s: string) {
    forall i :: 0 <= i < |s| ==> IsDigit(s[i])
  }

  function DigitChar(d: nat): (c: char)
    requires d < 10
    ensures IsDigit(c)
  {
    ('0' as int + d) as char
  }

  function DigitValue(c: char): (d: nat)
    requires IsDigit(c)
    ensures d < 10 && DigitChar(d) == c
  {
    c as int - '0' as int
  }

  /** The decimal digits of n, most significant first, without leading zeros. */
  function NatToString(n: nat): (s: string)
    ensures |s| >= 1
    decreases n
  {
    if n < 10 then [DigitChar(n)] else NatToString(n / 10) + [DigitChar(n % 10)]
  }

  lemma {:induction false} NatToStringDigits(n: nat)
    ensures AllDigits(NatToString(n))
    decreases n
  {
    if n >= 10 {
      NatToStringDigits(n / 10);
    }
  }

  /** `String(i)` for an integral number below 10^21 in magnitude: a minus sign for negatives, no padding. */
  function IntToString(i: int): (s: string)
    ensures |s| >= 1
  {
    if i < 0 then "-" + NatToString(-i) else NatToString(i)
  }

  /** A rendered integer is a minus sign exactly for negatives, then digits only. */
  lemma IntToStringShape(i: int)
    ensures var s := IntToString(i);
      && (s[0] == '-' <==> i < 0)
      && forall j :: 1 <= j < |s| ==> IsDigit(s[j])
  {
    NatToStringDigits(if i < 0 then -i else i);
  }

  /** `s.padStart(width, fill)`: fill on the left up to width characters. */
  function PadStart(s: string, width: nat, fill: char): string {
    if |s| >= width then s else seq(width - |s|, _ => fill) + s
  }

  /** Padding keeps s as the suffix and only adds fill characters in front of it. */
  lemma PadStartShape(s: string, width: nat, fill: char)
    ensures var r := PadStart(s, width, fill);
      && |r| == (if |s| < width then width else |s|)
      && r[|r| - |s|..] == s
      && forall j :: 0 <= j < |r| - |s| ==> r[j] == fill
  {
  }

  /** The value of a non-empty string of decimal digits (leading zeros allowed). */
  function ParseNat(s: string): (r: Option<nat>)
    decreases |s|
  {
    if |s| == 0 || !IsDigit(s[|s| - 1]) then None
    else if |s| == 1 then Some(DigitValue(s[0]))
    else
      match ParseNat(s[..|s| - 1])
      case None => None
      case Some(v) => Some(v * 10 + DigitValue(s[|s| - 1]))
  }

  /** The value of an optionally minus-signed string of decimal digits. */
  function ParseInt(s: string): (r: Option<int>)
  {
    if |s| >= 2 && s[0] == '-' then
      match ParseNat(s[1..])
      case None => None
      case Some(v) => Some(-(v as int))
    else
      match ParseNat(s)
      case None => None
      case Some(v) => Some(v)
  }

  lemma {:induction false} NatToStringRoundTrip(n: nat)
    ensures ParseNat(NatToString(n)) == Some(n)
    decreases n
  {
    if n >= 10 {
      NatToStringRoundTrip(n / 10);
      var s := NatToString(n);
      assert s[..|s| - 1] == NatToString(n / 10);
    }
  }

  lemma IntToStringRoundTrip(i: int)
    ensures ParseInt(IntToString(i)) == Some(i)
  {
    if i < 0 {
      NatToStringRoundTrip(-i);
      assert IntToString(i)[1..] == NatToString(-i);
    } else {
      NatToStringRoundTrip(i);
      IntToStringShape(i);
    }
  }

  /** Rendering is injective: different integers never print alike. */
  lemma IntToStringInjective(a: int, b: int)
    ensures IntToString(a) == IntToString(b) <==> a == b
  {
    IntToStringRoundTrip(a);
    IntToStringRoundTrip(b);
  }

  /**
   * A rendered integer followed by a dash can be split off unambiguously:
   * the dash cannot belong to the number, since a minus sign only ever
   * stands first.
   */
  lemma DashJoinInjective(a: int, x: string, b: int, y: string)
    ensures IntToString(a) + "-" + x == IntToString(b) + "-" + y <==> a == b && x == y
  {
    var sa, sb := IntToString(a), IntToString(b);
    IntToStringShape(a);
    IntToStringShape(b);
    var left, right := sa + "-" + x, sb + "-" + y;
    if |sa| < |sb| {
      assert left[|sa|] == '-';
      assert right[|sa|] == sb[|sa|] && IsDigit(sb[|sa|]);
      assert left != right;
      assert a != b;
    } else if |sb| < |sa| {
      assert right[|sb|] == '-';
      assert left[|sb|] == sa[|sb|] && IsDigit(sa[|sb|]);
      assert left != right;
      assert a != b;
    } else if left == right {
      assert sa == left[..|sa|] == right[..|sb|] == sb;
      IntToStringInjective(a, b);
      assert x == left[|sa| + 1..] == right[|sb| + 1..] == y;
    }
  }
}
