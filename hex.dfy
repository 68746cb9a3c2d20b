/** The hex conversions at the bottom of src/api/nostr.ts. `toHex` folds
    each byte's base-16 text, padded to two digits, onto a string;
    `fromHex` maps every index below half the length to `parseInt` of a
    two-character slice in base 16, stored into a Uint8Array. Both follow
    the number conversions of ECMA-262: Number.prototype.toString(16),
    String.prototype.padStart, the global parseInt (section 19.2.5) and
    ToUint8 (section 7.1.11). */
module Hex {
  import opened Host

  // ------------------------------------------------------------ digits

  const LOWER_DIGITS: string := "0123456789abcdef"

  /** A digit Number.prototype.toString(16) can produce. */
  predicate IsLowerDigit(c: char)
  {
    '0' <= c <= '9' || 'a' <= c <= 'f'
  }

  /** The digit Number.prototype.toString uses for d < 16. */
  function HexDigit(d: nat): (c: char)
    requires d < 16
    ensures IsLowerDigit(c)
  {
    LOWER_DIGITS[d]
  }

  /** The value of c as a base-16 digit, if it is one (either case). */
  function DigitValue(c: char): (v: Option<nat>)
    ensures v.Some? ==> v.value < 16
  {
    if '0' <= c <= '9' then Some(c as int - '0' as int)
    else if 'a' <= c <= 'f' then Some(c as int - 'a' as int + 10)
    else if 'A' <= c <= 'F' then Some(c as int - 'A' as int + 10)
    else None
  }

  lemma HexDigitValue(d: nat)
    requires d < 16
    ensures DigitValue(HexDigit(d)) == Some(d)
  {
  }

  // ------------------------------------------------------------ toHex

  /** `byte.toString(16)`: no leading zeros. */
  function ByteText(b: byte): (s: string)
  {
    if b < 16 then [HexDigit(b)] else [HexDigit(b / 16), HexDigit(b % 16)]
  }

  /** `s.padStart(2, '0')`. */
  function PadStart2(s: string): (r: string)
  {
    if |s| >= 2 then s else seq(2 - |s|, _ => '0') + s
  }

  /** The text one byte contributes. */
  function ByteHex(b: byte): string
  {
    PadStart2(ByteText(b))
  }

  /** `toHex(bytes)`: `reduce` from the left, starting from the empty string. */
  function ToHex(bytes: seq<byte>): string
  {
    if bytes == [] then "" else ToHex(bytes[..|bytes| - 1]) + ByteHex(bytes[|bytes| - 1])
  }

  /** Every byte becomes its high digit then its low digit, padded or not. */
  lemma ByteHexDigits(b: byte)
    ensures ByteHex(b) == [HexDigit(b / 16), HexDigit(b % 16)]
  {
  }

  /** `toHex` is twice as long as its input, uses only lowercase digits, and
      puts byte i's two digits at 2i and 2i + 1. */
  lemma ToHexShape(bytes: seq<byte>)
    ensures |ToHex(bytes)| == 2 * |bytes|
    ensures forall i :: 0 <= i < |ToHex(bytes)| ==> IsLowerDigit(ToHex(bytes)[i])
    ensures forall i :: 0 <= i < |bytes| ==>
      ToHex(bytes)[2 * i] == HexDigit(bytes[i] / 16) && ToHex(bytes)[2 * i + 1] == HexDigit(bytes[i] % 16)
  {
    ToHexDigits(bytes);
    ToHexLower(bytes);
  }

  /** Byte i's two digits sit at 2i and 2i + 1 of a text twice as long. */
  lemma {:induction false} ToHexDigits(bytes: seq<byte>)
    ensures |ToHex(bytes)| == 2 * |bytes|
    ensures forall i :: 0 <= i < |bytes| ==>
      ToHex(bytes)[2 * i] == HexDigit(bytes[i] / 16) && ToHex(bytes)[2 * i + 1] == HexDigit(bytes[i] % 16)
  {
    if bytes != [] {
      var n := |bytes| - 1;
      var front, last := bytes[..n], bytes[n];
      ToHexDigits(front);
      ByteHexDigits(last);
      var h, t := ToHex(front), ByteHex(last);
      assert ToHex(bytes) == h + t && |h| == 2 * n && |t| == 2;
      forall i | 0 <= i < |bytes|
        ensures (h + t)[2 * i] == HexDigit(bytes[i] / 16) && (h + t)[2 * i + 1] == HexDigit(bytes[i] % 16)
      {
        if i < n {
          assert front[i] == bytes[i];
          assert (h + t)[2 * i] == h[2 * i] && (h + t)[2 * i + 1] == h[2 * i + 1];
        } else {
          assert bytes[i] == last && 2 * i == |h|;
          assert (h + t)[2 * i] == t[0] && (h + t)[2 * i + 1] == t[1];
        }
      }
    }
  }

  /** Every character of `toHex` is a lowercase digit. */
  lemma {:induction false} ToHexLower(bytes: seq<byte>)
    ensures forall i :: 0 <= i < |ToHex(bytes)| ==> IsLowerDigit(ToHex(bytes)[i])
  {
    if bytes != [] {
      var n := |bytes| - 1;
      ToHexLower(bytes[..n]);
      ByteHexDigits(bytes[n]);
      var h, t := ToHex(bytes[..n]), ByteHex(bytes[n]);
      assert ToHex(bytes) == h + t;
      assert forall i :: 0 <= i < |h + t| ==> (h + t)[i] == if i < |h| then h[i] else t[i - |h|];
    }
  }

  // ------------------------------------------------------------ parseInt

  /** StrWhiteSpaceChar: the white space and line terminators that parseInt
      skips before the number. */
  predicate IsStrWhiteSpace(c: char)
  {
    var n := c as int;
    n == 0x09 || n == 0x0A || n == 0x0B || n == 0x0C || n == 0x0D || n == 0x20
    || n == 0xA0 || n == 0x1680 || 0x2000 <= n <= 0x200A || n == 0x2028 || n == 0x2029
    || n == 0x202F || n == 0x205F || n == 0x3000 || n == 0xFEFF
  }

  function TrimStart(s: string): (r: string)
    ensures |r| <= |s|
  {
    if s != [] && IsStrWhiteSpace(s[0]) then TrimStart(s[1..]) else s
  }

  /** The longest prefix of base-16 digits. */
  function DigitPrefix(s: string): (z: string)
    ensures forall i :: 0 <= i < |z| ==> DigitValue(z[i]).Some?
  {
    if s != [] && DigitValue(s[0]).Some? then [s[0]] + DigitPrefix(s[1..]) else []
  }

  /** The value of a string of base-16 digits, most significant first. */
  function DigitsValue(z: string): (v: nat)
    requires forall i :: 0 <= i < |z| ==> DigitValue(z[i]).Some?
  {
    if z == [] then 0 else DigitsValue(z[..|z| - 1]) * 16 + DigitValue(z[|z| - 1]).value
  }

  /** -1 after a leading minus sign, 1 otherwise. */
  function SignOf(t: string): int
  {
    if t != [] && t[0] == '-' then -1 else 1
  }

  /** Drops one leading sign. */
  function AfterSign(t: string): string
  {
    if t != [] && (t[0] == '-' || t[0] == '+') then t[1..] else t
  }

  /** Drops a leading "0x" or "0X", as radix 16 allows. */
  function AfterPrefix(u: string): string
  {
    if |u| >= 2 && u[0] == '0' && (u[1] == 'x' || u[1] == 'X') then u[2..] else u
  }

  /** `parseInt(s, 16)`; `None` is NaN. A negative zero is zero here, which
      ToUint8 does not tell apart. */
  function ParseInt16(s: string): (r: Option<int>)
  {
    var t := TrimStart(s);
    var z := DigitPrefix(AfterPrefix(AfterSign(t)));
    if z == [] then None else Some(SignOf(t) * DigitsValue(z))
  }

  /** ToUint8 of a number: NaN becomes 0, anything else is taken modulo 256. */
  function ToUint8(x: Option<int>): (b: byte)
    ensures x.Some? && 0 <= x.value < 256 ==> b == x.value
  {
    if x.None? then 0 else x.value % 256
  }

  // ------------------------------------------------------------ fromHex

  /** `fromHex(hex)`: `new Uint8Array(hex.length / 2)` truncates the length,
      so a trailing odd character is ignored. */
  function FromHex(hex: string): (b: seq<byte>)
    ensures |b| == |hex| / 2
    ensures forall i :: 0 <= i < |b| ==> b[i] == ToUint8(ParseInt16(hex[2 * i..2 * i + 2]))
  {
    seq(|hex| / 2, i requires 0 <= i < |hex| / 2 => ToUint8(ParseInt16(hex[2 * i..2 * i + 2])))
  }

  /** Two base-16 digits parse to their value. */
  lemma ParsePair(hi: char, lo: char)
    requires DigitValue(hi).Some? && DigitValue(lo).Some?
    requires hi != '0' || (lo != 'x' && lo != 'X')
    ensures ParseInt16([hi, lo]) == Some(DigitValue(hi).value * 16 + DigitValue(lo).value)
  {
    var s := [hi, lo];
    assert TrimStart(s) == s;
    assert AfterSign(s) == s && AfterPrefix(s) == s && SignOf(s) == 1;
    assert s[1..] == [lo] && [lo][1..] == [];
    assert DigitPrefix([lo]) == [lo];
    assert DigitPrefix(s) == s;
    assert s[..1] == [hi] && [hi][..0] == [];
    assert DigitsValue([hi]) == DigitValue(hi).value;
    assert DigitsValue(s) == DigitsValue([hi]) * 16 + DigitValue(lo).value;
  }

  /** Byte i of `fromHex` when characters 2i and 2i + 1 are digits. */
  lemma FromHexAt(hex: string, i: nat)
    requires 2 * i + 1 < |hex|
    requires DigitValue(hex[2 * i]).Some? && DigitValue(hex[2 * i + 1]).Some?
    requires hex[2 * i] != '0' || (hex[2 * i + 1] != 'x' && hex[2 * i + 1] != 'X')
    ensures FromHex(hex)[i] == DigitValue(hex[2 * i]).value * 16 + DigitValue(hex[2 * i + 1]).value
  {
    var hi, lo := hex[2 * i], hex[2 * i + 1];
    var pair := hex[2 * i..2 * i + 2];
    assert pair[0] == hi && pair[1] == lo;
    assert pair == [hi, lo];
    ParsePair(hi, lo);
  }

  /** `fromHex` undoes `toHex`. */
  lemma FromHexToHex(bytes: seq<byte>)
    ensures FromHex(ToHex(bytes)) == bytes
  {
    ToHexDigits(bytes);
    var h := ToHex(bytes);
    forall i | 0 <= i < |bytes|
      ensures FromHex(h)[i] == bytes[i]
    {
      HexDigitValue(bytes[i] / 16);
      HexDigitValue(bytes[i] % 16);
      FromHexAt(h, i);
    }
  }

  /** A lowercase hex string of even length is the `toHex` of its `fromHex`. */
  lemma ToHexFromHex(hex: string)
    requires |hex| % 2 == 0
    requires forall i :: 0 <= i < |hex| ==> IsLowerDigit(hex[i])
    ensures ToHex(FromHex(hex)) == hex
  {
    var b := FromHex(hex);
    ToHexDigits(b);
    var t := ToHex(b);
    forall k | 0 <= k < |hex|
      ensures t[k] == hex[k]
    {
      var i := k / 2;
      assert k == 2 * i || k == 2 * i + 1;
      assert 2 * i + 1 < |hex| && i < |b|;
      DigitsAgain(hex, i);
    }
  }

  /** The two lowercase digits at 2i and 2i + 1 are the digits of byte i of
      `fromHex`. */
  lemma DigitsAgain(hex: string, i: nat)
    requires 2 * i + 1 < |hex| && IsLowerDigit(hex[2 * i]) && IsLowerDigit(hex[2 * i + 1])
    ensures FromHex(hex)[i] / 16 < 16
    ensures HexDigit(FromHex(hex)[i] / 16) == hex[2 * i] && HexDigit(FromHex(hex)[i] % 16) == hex[2 * i + 1]
  {
    var hi, lo := hex[2 * i], hex[2 * i + 1];
    LowerDigit(hi);
    LowerDigit(lo);
    FromHexAt(hex, i);
    var v := DigitValue(hi).value * 16 + DigitValue(lo).value;
    assert v / 16 == DigitValue(hi).value && v % 16 == DigitValue(lo).value;
  }

  /** A lowercase digit is the digit of its value, and "0x" cannot occur. */
  lemma LowerDigit(c: char)
    requires IsLowerDigit(c)
    ensures DigitValue(c).Some? && HexDigit(DigitValue(c).value) == c && c != 'x' && c != 'X'
  {
  }

  /** A digit followed by a non-digit reads the digit, unless they are "0x"
      or "0X". */
  lemma ParseDigitJunk(a: char, b: char)
    requires DigitValue(a).Some? && DigitValue(b).None? && !(a == '0' && (b == 'x' || b == 'X'))
    ensures ParseInt16([a, b]) == DigitValue(a)
  {
    var s := [a, b];
    assert TrimStart(s) == s;
    assert AfterSign(s) == s && AfterPrefix(s) == s && SignOf(s) == 1;
    assert s[1..] == [b];
    assert DigitPrefix([b]) == [];
    assert DigitPrefix(s) == [a];
    assert [a][..0] == [];
    assert DigitsValue([a]) == DigitValue(a).value;
  }

  /** White space, or a sign, then a digit reads the digit, negated after "-". */
  lemma ParseLeadDigit(a: char, b: char)
    requires IsStrWhiteSpace(a) || a == '+' || a == '-'
    requires DigitValue(b).Some?
    ensures ParseInt16([a, b]) == Some(if a == '-' then -(DigitValue(b).value as int) else DigitValue(b).value)
  {
    var s := [a, b];
    assert s[1..] == [b] && [b][1..] == [];
    assert DigitPrefix([b]) == [b];
    assert [b][..0] == [];
    assert DigitsValue([b]) == DigitValue(b).value;
    if IsStrWhiteSpace(a) {
      assert TrimStart([b]) == [b];
      assert TrimStart(s) == [b];
      assert AfterSign([b]) == [b] && AfterPrefix([b]) == [b] && SignOf([b]) == 1;
    } else {
      assert TrimStart(s) == s;
      assert AfterSign(s) == [b] && AfterPrefix([b]) == [b];
      assert SignOf(s) == if a == '-' then -1 else 1;
    }
  }

  /** "0x" and "0X" lose their prefix and read NaN; so does a slice that
      starts with neither a digit, a sign nor white space. */
  lemma ParseNaN(a: char, b: char)
    requires (a == '0' && (b == 'x' || b == 'X'))
      || (DigitValue(a).None? && !IsStrWhiteSpace(a) && a != '+' && a != '-')
    ensures ParseInt16([a, b]) == None
  {
    var s := [a, b];
    assert TrimStart(s) == s;
    assert AfterSign(s) == s;
    if a == '0' {
      assert AfterPrefix(s) == [];
    } else {
      assert AfterPrefix(s) == s;
    }
  }

  /** So a "-f" slice decodes to 241, a "0x" slice to 0, and a trailing odd
      character is dropped. */
  lemma FromHexOddSlices()
    ensures FromHex("-f") == [241]
    ensures FromHex("0x") == [0]
    ensures FromHex("abc") == [0xab]
  {
    ParseLeadDigit('-', 'f');
    ParseNaN('0', 'x');
    ParsePair('a', 'b');
    assert "-f"[0..2] == ['-', 'f'];
    assert "0x"[0..2] == ['0', 'x'];
    assert "abc"[0..2] == ['a', 'b'];
  }
}
