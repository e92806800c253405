/** The `#RRGGBB` code produced by `"#{:02X}{:02X}{:02X}".format(...)`:
    two upper-case hexadecimal digits per channel byte, and its decoder. */
module Hex {
  import opened Optional

  /** The upper-case hexadecimal digit of a value below 16. */
  function DigitChar(d: int): (c: char)
    requires 0 <= d < 16
  {
    if d < 10 then ('0' as int + d) as char else ('A' as int + d - 10) as char
  }

  /** An upper-case hexadecimal digit. */
  predicate IsDigit(c: char)
  {
    '0' <= c <= '9' || 'A' <= c <= 'F'
  }

  /** The value of an upper-case hexadecimal digit; lower-case letters and
      every other character are rejected. */
  function DigitValue(c: char): (v: Option<nat>)
    ensures v.Some? <==> IsDigit(c)
    ensures v.Some? ==> v.value < 16 && DigitChar(v.value) == c
  {
    if '0' <= c <= '9' then Some((c as int - '0' as int) as nat)
    else if 'A' <= c <= 'F' then Some((c as int - 'A' as int + 10) as nat)
    else None
  }

  /** `{:02X}` of a byte: zero-padded to two upper-case digits. */
  function HexByte(n: int): (s: string)
    requires 0 <= n < 256
    ensures |s| == 2 && IsDigit(s[0]) && IsDigit(s[1])
    ensures DigitValue(s[0]) == Some(n / 16) && DigitValue(s[1]) == Some(n % 16)
  {
    [DigitChar(n / 16), DigitChar(n % 16)]
  }

  /** A seven-character `#RRGGBB` string over upper-case digits. */
  predicate WellFormed(s: string)
  {
    |s| == 7 && s[0] == '#' && forall i :: 1 <= i < 7 ==> IsDigit(s[i])
  }

  /** Splitting a byte into its two hexadecimal digits and joining them
      back are inverse. */
  lemma SplitByte(n: int, hi: int, lo: int)
    requires 0 <= hi < 16 && 0 <= lo < 16
    ensures n == hi * 16 + lo <==> (0 <= n < 256 && n / 16 == hi && n % 16 == lo)
  {
  }

  function HexColor(r: int, g: int, b: int): (s: string)
    requires 0 <= r < 256 && 0 <= g < 256 && 0 <= b < 256
    ensures WellFormed(s)
    ensures ParseHexColor(s) == Some((r, g, b))
  {
    var s := "#" + HexByte(r) + HexByte(g) + HexByte(b);
    assert s[1..3] == HexByte(r) && s[3..5] == HexByte(g) && s[5..7] == HexByte(b);
    ByteAtHexByte(s, 1, r);
    ByteAtHexByte(s, 3, g);
    ByteAtHexByte(s, 5, b);
    s
  }

  lemma ByteAtHexByte(s: string, i: nat, n: int)
    requires 0 <= n < 256 && i + 1 < |s| && s[i..i + 2] == HexByte(n)
    ensures ByteAt(s, i) == Some(n)
  {
    assert s[i] == DigitChar(n / 16) && s[i + 1] == DigitChar(n % 16);
    SplitByte(n, n / 16, n % 16);
  }

  /** The byte spelled by two digits starting at `i`. */
  function ByteAt(s: string, i: nat): Option<int>
    requires i + 1 < |s|
  {
    match (DigitValue(s[i]), DigitValue(s[i + 1]))
    case (Some(hi), Some(lo)) => Some(hi * 16 + lo)
    case _ => None
  }

  /** Decodes a `#RRGGBB` string back into its three channel bytes. */
  function ParseHexColor(s: string): Option<(int, int, int)>
  {
    if |s| != 7 || s[0] != '#' then None
    else match (ByteAt(s, 1), ByteAt(s, 3), ByteAt(s, 5))
      case (Some(r), Some(g), Some(b)) => Some((r, g, b))
      case _ => None
  }

  /** Every string the decoder accepts is the encoding of what it decodes
      to: together with the `ensures` of `HexColor`, encoding and decoding
      are inverse bijections between bytes and well-formed codes. */
  lemma ParseHexColorInverse(s: string)
    requires ParseHexColor(s).Some?
    ensures var t := ParseHexColor(s).value;
      0 <= t.0 < 256 && 0 <= t.1 < 256 && 0 <= t.2 < 256 && HexColor(t.0, t.1, t.2) == s
  {
    var t := ParseHexColor(s).value;
    assert |s| == 7 && s[0] == '#';
    ByteInverse(s, 1);
    ByteInverse(s, 3);
    ByteInverse(s, 5);
    var e := HexColor(t.0, t.1, t.2);
    HexColorFields(t.0, t.1, t.2);
    SameFields(e, s);
  }

  /** Two seven-character codes that agree on the `#` and on each
      two-digit field are equal. */
  lemma SameFields(e: string, s: string)
    requires |e| == 7 && |s| == 7 && e[0] == s[0]
    requires e[1..3] == s[1..3] && e[3..5] == s[3..5] && e[5..7] == s[5..7]
    ensures e == s
  {
    assert forall i :: 1 <= i < 3 ==> e[i] == e[1..3][i - 1] && s[i] == s[1..3][i - 1];
    assert forall i :: 3 <= i < 5 ==> e[i] == e[3..5][i - 3] && s[i] == s[3..5][i - 3];
    assert forall i :: 5 <= i < 7 ==> e[i] == e[5..7][i - 5] && s[i] == s[5..7][i - 5];
  }

  lemma ByteInverse(s: string, i: nat)
    requires i + 1 < |s| && ByteAt(s, i).Some?
    ensures 0 <= ByteAt(s, i).value < 256 && HexByte(ByteAt(s, i).value) == s[i..i + 2]
  {
    var hi := DigitValue(s[i]).value;
    var lo := DigitValue(s[i + 1]).value;
    var n := hi * 16 + lo;
    assert ByteAt(s, i) == Some(n);
    SplitByte(n, hi, lo);
    assert HexByte(n) == [DigitChar(hi), DigitChar(lo)];
    assert s[i..i + 2] == [s[i], s[i + 1]];
  }

  /** Where each channel sits in the code. */
  lemma HexColorFields(r: int, g: int, b: int)
    requires 0 <= r < 256 && 0 <= g < 256 && 0 <= b < 256
    ensures var s := HexColor(r, g, b);
      s[1..3] == HexByte(r) && s[3..5] == HexByte(g) && s[5..7] == HexByte(b)
  {
  }
}
