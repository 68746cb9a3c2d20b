/** Values of the JavaScript host that the rest of the model shares: bytes,
    32-bit words, exceptions, and the text forms of numbers. */
module Host {

  /** One element of a Uint8Array. */
  type byte = x: int | 0 <= x < 0x100

  /** One element of a Uint32Array. */
  type u32 = x: int | 0 <= x < 0x1_0000_0000

  const TWO_32: int := 0x1_0000_0000

  /** A byte sequence of a fixed documented length. */
  type Bytes32 = s: seq<byte> | |s| == 32 witness Zeros(32)
  type Bytes64 = s: seq<byte> | |s| == 64 witness Zeros(64)
  type Bytes96 = s: seq<byte> | |s| == 96 witness Zeros(96)
  type Bytes104 = s: seq<byte> | |s| == 104 witness Zeros(104)

  function Zeros(n: nat): (r: seq<byte>)
    ensures |r| == n
  {
    seq(n, _ => 0)
  }

  datatype Option<+T> = None | Some(value: T)

  /** How a JavaScript call ends: it returns a value or throws an Error whose
      message is the given text. */
  datatype Outcome<+T> = Return(value: T) | Throw(message: seq<byte>)

  /** The bytes of a string literal made of ASCII characters. */
  function Ascii(s: string): (r: seq<byte>)
    ensures |r| == |s|
  {
    seq(|s|, i requires 0 <= i < |s| => (s[i] as int % 0x100) as byte)
  }

  function DigitChar(d: nat): (c: char)
    requires d < 10
  {
    ['0', '1', '2', '3', '4', '5', '6', '7', '8', '9'][d]
  }

  /** Decimal digits of a natural number, most significant first. */
  function DecimalDigits(n: nat): (s: string)
    ensures |s| > 0
    decreases n
  {
    if n < 10 then [DigitChar(n)] else DecimalDigits(n / 10) + [DigitChar(n % 10)]
  }

  /** The text that JavaScript's Number-to-String conversion gives an
      integer below 10^21 in magnitude (as in a template literal). */
  function NumberText(n: int): (s: string)
  {
    if n < 0 then "-" + DecimalDigits(-n) else DecimalDigits(n)
  }

  lemma DigitCharInjective(a: nat, b: nat)
    requires a < 10 && b < 10 && DigitChar(a) == DigitChar(b)
    ensures a == b
  {
  }

  /** Distinct naturals have distinct digit strings. */
  lemma {:induction false} DecimalDigitsInjective(a: nat, b: nat)
    requires DecimalDigits(a) == DecimalDigits(b)
    ensures a == b
    decreases a
  {
    var s := DecimalDigits(a);
    if a < 10 && b < 10 {
      DigitCharInjective(a, b);
    } else if 10 <= a && 10 <= b {
      var sa, sb := DecimalDigits(a / 10), DecimalDigits(b / 10);
      assert s == sa + [DigitChar(a % 10)];
      assert s == sb + [DigitChar(b % 10)];
      assert |sa| == |sb|;
      assert sa == s[..|s| - 1] == sb;
      DecimalDigitsInjective(a / 10, b / 10);
      DigitCharInjective(a % 10, b % 10);
    }
  }

  /** Distinct integers print differently. */
  lemma NumberTextInjective(a: int, b: int)
    requires NumberText(a) == NumberText(b)
    ensures a == b
  {
    var sa, sb := NumberText(a), NumberText(b);
    if a < 0 && b < 0 {
      assert DecimalDigits(-a) == sa[1..] == sb[1..] == DecimalDigits(-b);
      DecimalDigitsInjective(-a, -b);
    } else if a < 0 {
      DecimalDigitsNoSign(b);
    } else if b < 0 {
      DecimalDigitsNoSign(a);
    } else {
      DecimalDigitsInjective(a, b);
    }
  }

  /** A digit string never starts with a minus sign. */
  lemma {:induction false} DecimalDigitsNoSign(n: nat)
    ensures DecimalDigits(n)[0] != '-'
    decreases n
  {
    if n >= 10 {
      DecimalDigitsNoSign(n / 10);
    }
  }
}
