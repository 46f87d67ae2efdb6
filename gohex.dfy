/** The lowercase hexadecimal forms Go's fmt package prints for the %x verb:
    two digits per byte for a string, and base 16 with a leading minus sign
    for a signed integer. Each form comes with a decoder and a proof that the
    decoder inverts it. */
module GoHex {
  import opened Common

  predicate IsHexDigit(c: char) {
    '0' <= c <= '9' || 'a' <= c <= 'f'
  }

  /** The digit fmt prints for a value below 16 (lower-case letters). */
  function HexDigit(d: nat): (c: char)
    requires d < 16
    ensures IsHexDigit(c)
  {
    if d < 10 then (48 + d) as char else (87 + d) as char
  }

  function DigitValue(c: char): (v: Option<nat>)
    ensures v.Some? <==> IsHexDigit(c)
    ensures v.Some? ==> v.value < 16 && HexDigit(v.value) == c
  {
    if '0' <= c <= '9' then Some(c as int - 48)
    else if 'a' <= c <= 'f' then Some(c as int - 87)
    else None
  }

  lemma DigitValueOfHexDigit(d: nat)
    requires d < 16
    ensures DigitValue(HexDigit(d)) == Some(d)
  {
  }

  /** fmt's %x of a string: every byte as two hex digits, high nibble first. */
  function HexBytes(s: seq<Byte>): (h: string)
    ensures |h| == 2 * |s|
  {
    if s == [] then []
    else [HexDigit(s[0] / 16), HexDigit(s[0] % 16)] + HexBytes(s[1..])
  }

  /** Reads pairs of hex digits back into bytes; None on an odd length or a
      character that is not a lower-case hex digit. */
  function UnhexBytes(h: string): (r: Option<seq<Byte>>)
    ensures r.Some? ==> HexBytes(r.value) == h
    decreases |h|
  {
    if h == [] then Some([])
    else if |h| == 1 then None
    else
      match (DigitValue(h[0]), DigitValue(h[1]), UnhexBytes(h[2..]))
      case (Some(high), Some(low), Some(rest)) =>
        var b: Byte := high * 16 + low;
        assert b / 16 == high && b % 16 == low;
        assert ([b] + rest)[1..] == rest;
        assert h == [h[0], h[1]] + h[2..];
        Some([b] + rest)
      case _ => None
  }

  lemma {:induction false} UnhexHexBytes(s: seq<Byte>)
    ensures UnhexBytes(HexBytes(s)) == Some(s)
  {
    if s != [] {
      var high, low := s[0] / 16, s[0] % 16;
      var h := HexBytes(s);
      assert h == [HexDigit(high), HexDigit(low)] + HexBytes(s[1..]);
      assert h[0] == HexDigit(high) && h[1] == HexDigit(low) && h[2..] == HexBytes(s[1..]);
      DigitValueOfHexDigit(high);
      DigitValueOfHexDigit(low);
      UnhexHexBytes(s[1..]);
      assert high * 16 + low == s[0];
      assert s == [s[0]] + s[1..];
    }
  }

  /** Two strings print the same under %x only if they are equal. */
  lemma HexBytesInjective(s: seq<Byte>, t: seq<Byte>)
    requires HexBytes(s) == HexBytes(t)
    ensures s == t
  {
    UnhexHexBytes(s);
    UnhexHexBytes(t);
  }

  /** fmt's %x of a non-negative integer: base 16, no leading zeros. */
  function HexNat(n: nat): (h: string)
    ensures |h| >= 1 && IsHexDigit(h[0]) && IsHexDigit(h[|h| - 1])
    ensures forall i | 0 <= i < |h| :: IsHexDigit(h[i])
    // no leading zero: only zero itself is printed starting with '0'
    ensures h[0] == '0' <==> n == 0
    ensures n == 0 ==> h == "0"
    decreases n
  {
    if n < 16 then [HexDigit(n)] else HexNat(n / 16) + [HexDigit(n % 16)]
  }

  /** The value of a non-empty string of hex digits. */
  function HexValue(h: string): (v: Option<nat>)
    ensures v.Some? ==> |h| >= 1 && IsHexDigit(h[0])
    decreases |h|
  {
    if h == [] then None
    else
      match DigitValue(h[|h| - 1])
      case None => None
      case Some(d) =>
        if |h| == 1 then Some(d)
        else
          match HexValue(h[..|h| - 1])
          case None => None
          case Some(high) => Some(high * 16 + d)
  }

  lemma {:induction false} HexValueOfHexNat(n: nat)
    ensures HexValue(HexNat(n)) == Some(n)
    decreases n
  {
    DigitValueOfHexDigit(n % 16);
    if n >= 16 {
      var h := HexNat(n);
      assert h[..|h| - 1] == HexNat(n / 16);
      HexValueOfHexNat(n / 16);
    }
  }

  /** fmt's %x of a signed integer: a minus sign, then the magnitude. */
  function HexInt(x: int): (h: string)
    ensures |h| >= 1
    ensures h[0] == '-' <==> x < 0
  {
    if x < 0 then "-" + HexNat(-x) else HexNat(x)
  }

  function HexIntValue(h: string): (v: Option<int>)
  {
    if |h| >= 1 && h[0] == '-' then
      match HexValue(h[1..])
      case None => None
      case Some(n) => Some(-(n as int))
    else
      match HexValue(h)
      case None => None
      case Some(n) => Some(n as int)
  }

  lemma HexIntValueOfHexInt(x: int)
    ensures HexIntValue(HexInt(x)) == Some(x)
  {
    var h := HexInt(x);
    if x < 0 {
      assert h[1..] == HexNat(-x);
      HexValueOfHexNat(-x);
      assert HexValue(h[1..]) == Some(-x);
    } else {
      assert IsHexDigit(h[0]);
      HexValueOfHexNat(x);
    }
  }

  /** Two integers print the same under %x only if they are equal. */
  lemma HexIntInjective(x: int, y: int)
    requires HexInt(x) == HexInt(y)
    ensures x == y
  {
    HexIntValueOfHexInt(x);
    HexIntValueOfHexInt(y);
  }
}
