/** The text whose SHA-256 digest is a Nostr event id, as `compute_event_id`
    in src/api/nostr.ts builds it: the template
    `[0,"<pubkey>",<created_at>,<kind>,<tags>,<content>]`, with the pubkey
    spliced in as it is, the two numbers in JavaScript's Number-to-String
    form, the tags and the content through JSON.stringify, and the whole
    string UTF-8 encoded by TextEncoder. JSON.stringify of strings is the
    QuoteJSONString operation of ECMA-262 (section 25.5.2.3), a choice
    among the escapes section 7 of RFC 8259 permits; UTF-8 is section 3 of
    RFC 3629. */
module EventJson {
  import opened Host
  import Hex

  // ------------------------------------------------------------ UTF-8

  /** The RFC 3629 encoding of one Unicode scalar value. */
  function Utf8Char(c: char): (r: seq<byte>)
    ensures 1 <= |r| <= 4
  {
    var n := c as int;
    if n < 0x80 then [n]
    else if n < 0x800 then [0xC0 + n / 64, 0x80 + n % 64]
    else if n < 0x10000 then [0xE0 + n / 4096, 0x80 + (n / 64) % 64, 0x80 + n % 64]
    else [0xF0 + n / 262144, 0x80 + (n / 4096) % 64, 0x80 + (n / 64) % 64, 0x80 + n % 64]
  }

  /** `TextEncoder.encode(s)`. */
  function Utf8(s: string): seq<byte>
  {
    if s == [] then [] else Utf8Char(s[0]) + Utf8(s[1..])
  }

  /** How many bytes a sequence's lead byte announces. */
  function LeadLength(b: byte): nat
  {
    if b < 0x80 then 1 else if b < 0xE0 then 2 else if b < 0xF0 then 3 else 4
  }

  /** The scalar value an encoding of the given length carries. */
  function CodePoint(e: seq<byte>): int
    requires 1 <= |e| <= 4
  {
    var b0: int := e[0];
    if |e| == 1 then b0
    else if |e| == 2 then (b0 - 0xC0) * 64 + (e[1] as int - 0x80)
    else if |e| == 3 then (b0 - 0xE0) * 4096 + (e[1] as int - 0x80) * 64 + (e[2] as int - 0x80)
    else (b0 - 0xF0) * 262144 + (e[1] as int - 0x80) * 4096 + (e[2] as int - 0x80) * 64 + (e[3] as int - 0x80)
  }

  lemma DivSteps(n: nat)
    ensures n == (n / 64) * 64 + n % 64
    ensures n / 4096 == (n / 64) / 64 && n / 262144 == (n / 4096) / 64
    ensures n / 64 == (n / 4096) * 64 + (n / 64) % 64
    ensures n / 4096 == (n / 262144) * 64 + (n / 4096) % 64
  {
  }

  /** The lead byte tells the length, and the bytes give back the value. */
  lemma Utf8CharDecodes(c: char)
    ensures LeadLength(Utf8Char(c)[0]) == |Utf8Char(c)|
    ensures CodePoint(Utf8Char(c)) == c as int
  {
    DivSteps(c as int);
  }

  /** One character's encoding is never a proper prefix of another's: equal
      byte strings split the same way into a first character and the rest. */
  lemma Utf8CharPrefixFree(c1: char, c2: char, r1: seq<byte>, r2: seq<byte>)
    requires Utf8Char(c1) + r1 == Utf8Char(c2) + r2
    ensures c1 == c2 && r1 == r2
  {
    var e1, e2 := Utf8Char(c1), Utf8Char(c2);
    Utf8CharDecodes(c1);
    Utf8CharDecodes(c2);
    assert e1[0] == (e1 + r1)[0] == (e2 + r2)[0] == e2[0];
    assert |e1| == |e2|;
    assert e1 == (e1 + r1)[..|e1|] == (e2 + r2)[..|e2|] == e2;
    assert c1 as int == c2 as int;
    assert r1 == (e1 + r1)[|e1|..] == (e2 + r2)[|e2|..] == r2;
  }

  /** Different strings encode differently. */
  lemma {:induction false} Utf8Injective(a: string, b: string)
    requires Utf8(a) == Utf8(b)
    ensures a == b
  {
    if a != [] && b != [] {
      Utf8CharPrefixFree(a[0], b[0], Utf8(a[1..]), Utf8(b[1..]));
      Utf8Injective(a[1..], b[1..]);
      assert a == [a[0]] + a[1..] && b == [b[0]] + b[1..];
    }
  }

  /** Encoding distributes over concatenation. */
  lemma {:induction false} Utf8Append(a: string, b: string)
    ensures Utf8(a + b) == Utf8(a) + Utf8(b)
  {
    if a != [] {
      assert (a + b)[0] == a[0] && (a + b)[1..] == a[1..] + b;
      Utf8Append(a[1..], b);
    } else {
      assert a + b == b;
    }
  }

  /** ASCII text encodes to its character codes, one byte each. */
  lemma {:induction false} Utf8Ascii(s: string)
    requires forall i :: 0 <= i < |s| ==> s[i] as int < 0x80
    ensures |Utf8(s)| == |s|
    ensures forall i :: 0 <= i < |s| ==> Utf8(s)[i] == s[i] as int
  {
    if s != [] {
      Utf8Ascii(s[1..]);
      assert Utf8(s) == [s[0] as int] + Utf8(s[1..]);
    }
  }

  // ------------------------------------------------------------ JSON strings

  /** QuoteJSONString's rendering of one character: the two-character
      escapes, `\u00xx` in lowercase for the other controls, the character
      itself otherwise. Lone surrogates, which it also escapes, are not
      characters here. */
  function EscapeChar(c: char): (r: string)
    ensures |r| >= 1 && r[0] != '"'
  {
    var n := c as int;
    if n == 0x08 then "\\b"
    else if n == 0x09 then "\\t"
    else if n == 0x0A then "\\n"
    else if n == 0x0C then "\\f"
    else if n == 0x0D then "\\r"
    else if c == '"' then "\\\""
    else if c == '\\' then "\\\\"
    else if n < 0x20 then "\\u00" + [Hex.HexDigit(n / 16), Hex.HexDigit(n % 16)]
    else [c]
  }

  function Escaped(s: string): string
  {
    if s == [] then "" else EscapeChar(s[0]) + Escaped(s[1..])
  }

  /** `JSON.stringify(s)` for a string s. */
  function Quote(s: string): (r: string)
    ensures |r| >= 2 && r[0] == '"'
  {
    "\"" + Escaped(s) + "\""
  }

  lemma HexDigitInjective(a: nat, b: nat)
    requires a < 16 && b < 16 && Hex.HexDigit(a) == Hex.HexDigit(b)
    ensures a == b
  {
    Hex.HexDigitValue(a);
    Hex.HexDigitValue(b);
  }

  /** The character a two-character escape stands for. */
  function ShortEscape(d: char): char
  {
    if d == 'b' then 0x08 as char
    else if d == 't' then 0x09 as char
    else if d == 'n' then 0x0A as char
    else if d == 'f' then 0x0C as char
    else if d == 'r' then 0x0D as char
    else d
  }

  /** How an escape reads back: a character other than a backslash is
      itself; a backslash and `u` start six characters ending in the two
      lowercase digits of a control character; any other escape is two
      characters whose second names the character. */
  lemma EscapeCharShape(c: char)
    ensures var e := EscapeChar(c);
      && (e[0] != '\\' ==> e == [c])
      && (e[0] == '\\' ==> |e| >= 2)
      && (e[0] == '\\' && e[1] == 'u' ==>
            c as int < 0x20 && |e| == 6 && e[4] == Hex.HexDigit(c as int / 16) && e[5] == Hex.HexDigit(c as int % 16))
      && (e[0] == '\\' && e[1] != 'u' ==> |e| == 2 && ShortEscape(e[1]) == c)
  {
  }

  /** No escape is a proper prefix of another. */
  lemma EscapeCharPrefixFree(c1: char, c2: char, r1: string, r2: string)
    requires EscapeChar(c1) + r1 == EscapeChar(c2) + r2
    ensures c1 == c2 && r1 == r2
  {
    var e1, e2 := EscapeChar(c1), EscapeChar(c2);
    EscapeCharShape(c1);
    EscapeCharShape(c2);
    var s := e1 + r1;
    assert s == e2 + r2;
    assert s[0] == e1[0] == e2[0];
    if e1[0] != '\\' {
      assert r1 == s[1..] == r2;
    } else {
      assert s[1] == e1[1] == e2[1];
      if e1[1] == 'u' {
        assert s[4] == e1[4] == e2[4] && s[5] == e1[5] == e2[5];
        HexDigitInjective(c1 as int / 16, c2 as int / 16);
        HexDigitInjective(c1 as int % 16, c2 as int % 16);
        assert c1 as int == c2 as int;
      }
      assert r1 == s[|e1|..] == r2;
    }
  }

  lemma Assoc(a: string, b: string, c: string)
    ensures (a + b) + c == a + (b + c)
  {
  }

  /** A common first part can be taken off both sides. */
  lemma Cancel(p: string, l: string, r: string)
    requires p + l == p + r
    ensures l == r
  {
    assert l == (p + l)[|p|..];
  }

  lemma EscapedCons(a: string, x: string)
    requires a != []
    ensures Escaped(a) + "\"" + x == EscapeChar(a[0]) + (Escaped(a[1..]) + "\"" + x)
    ensures (Escaped(a) + "\"" + x)[0] != '"'
  {
    var e, t := EscapeChar(a[0]), Escaped(a[1..]);
    Assoc(e, t, "\"");
    Assoc(e, t + "\"", x);
  }

  /** The escaped text ends at the first unescaped quote. */
  lemma {:induction false} EscapedPrefixFree(a: string, b: string, x: string, y: string)
    requires Escaped(a) + "\"" + x == Escaped(b) + "\"" + y
    ensures a == b && x == y
  {
    var l := Escaped(a) + "\"" + x;
    if a != [] {
      EscapedCons(a, x);
    } else {
      assert l[0] == '"';
    }
    if b != [] {
      EscapedCons(b, y);
    } else {
      assert l[0] == '"';
    }
    if a == [] && b == [] {
      assert x == l[1..] == y;
    } else if a != [] && b != [] {
      var ta, tb := Escaped(a[1..]) + "\"" + x, Escaped(b[1..]) + "\"" + y;
      EscapeCharPrefixFree(a[0], b[0], ta, tb);
      EscapedPrefixFree(a[1..], b[1..], x, y);
      assert a == [a[0]] + a[1..] && b == [b[0]] + b[1..];
    }
  }

  /** A quoted string ends where its closing quote is: the quoting of a
      string can be read off the front of any text that starts with it. */
  lemma QuotePrefixFree(a: string, b: string, x: string, y: string)
    requires Quote(a) + x == Quote(b) + y
    ensures a == b && x == y
  {
    Assoc("\"", Escaped(a), "\"");
    Assoc("\"", Escaped(a) + "\"", x);
    Assoc("\"", Escaped(b), "\"");
    Assoc("\"", Escaped(b) + "\"", y);
    Cancel("\"", Escaped(a) + "\"" + x, Escaped(b) + "\"" + y);
    EscapedPrefixFree(a, b, x, y);
  }

  // ------------------------------------------------------------ JSON arrays

  /** The elements of `JSON.stringify(xs)` for strings xs, comma-separated. */
  function QuotedList(xs: seq<string>): string
  {
    if xs == [] then ""
    else if |xs| == 1 then Quote(xs[0])
    else Quote(xs[0]) + "," + QuotedList(xs[1..])
  }

  /** `JSON.stringify(xs)` for an array of strings. */
  function StringArray(xs: seq<string>): (r: string)
    ensures |r| >= 2 && r[0] == '['
  {
    "[" + QuotedList(xs) + "]"
  }

  /** What follows the first quoted element: the closing bracket, or a
      comma and the other elements. */
  function QuotedTail(xs: seq<string>, x: string): string
    requires xs != []
  {
    if |xs| == 1 then "]" + x else "," + (QuotedList(xs[1..]) + "]" + x)
  }

  lemma QuotedListCons(xs: seq<string>, x: string)
    requires xs != []
    ensures QuotedList(xs) + "]" + x == Quote(xs[0]) + QuotedTail(xs, x)
    ensures (QuotedList(xs) + "]" + x)[0] == '"'
    ensures QuotedTail(xs, x)[0] == if |xs| == 1 then ']' else ','
  {
    var q := Quote(xs[0]);
    if |xs| == 1 {
      Assoc(q, "]", x);
    } else {
      var t := QuotedList(xs[1..]);
      Assoc(q + ",", t, "]");
      Assoc(q + ",", t + "]", x);
      Assoc(q, ",", t + "]" + x);
    }
  }

  /** Two equal texts that start with non-empty lists agree on the first
      element, on whether more follow, and on what comes after it. */
  lemma QuotedListFirst(xs: seq<string>, ys: seq<string>, x: string, y: string)
    requires xs != [] && ys != []
    requires QuotedList(xs) + "]" + x == QuotedList(ys) + "]" + y
    ensures xs[0] == ys[0] && (|xs| == 1 <==> |ys| == 1)
    ensures |xs| == 1 ==> x == y
    ensures |xs| > 1 ==> QuotedList(xs[1..]) + "]" + x == QuotedList(ys[1..]) + "]" + y
  {
    QuotedListCons(xs, x);
    QuotedListCons(ys, y);
    var tx, ty := QuotedTail(xs, x), QuotedTail(ys, y);
    QuotePrefixFree(xs[0], ys[0], tx, ty);
    if |xs| == 1 && |ys| == 1 {
      assert x == tx[1..] == ty[1..] == y;
    } else if |xs| > 1 && |ys| > 1 {
      assert QuotedList(xs[1..]) + "]" + x == tx[1..];
      assert ty[1..] == QuotedList(ys[1..]) + "]" + y;
    }
  }

  lemma {:induction false} QuotedListPrefixFree(xs: seq<string>, ys: seq<string>, x: string, y: string)
    requires QuotedList(xs) + "]" + x == QuotedList(ys) + "]" + y
    ensures xs == ys && x == y
  {
    var l := QuotedList(xs) + "]" + x;
    if xs != [] && ys != [] {
      QuotedListFirst(xs, ys, x, y);
      if |xs| == 1 {
        assert xs == [xs[0]] && ys == [ys[0]];
      } else {
        QuotedListPrefixFree(xs[1..], ys[1..], x, y);
        assert xs == [xs[0]] + xs[1..] && ys == [ys[0]] + ys[1..];
      }
    } else if xs != [] {
      assert l[0] == ']';
      QuotedListCons(xs, x);
    } else if ys != [] {
      assert l[0] == ']';
      QuotedListCons(ys, y);
    } else {
      assert x == l[1..] == y;
    }
  }

  lemma StringArrayPrefixFree(xs: seq<string>, ys: seq<string>, x: string, y: string)
    requires StringArray(xs) + x == StringArray(ys) + y
    ensures xs == ys && x == y
  {
    Assoc("[", QuotedList(xs), "]");
    Assoc("[", QuotedList(xs) + "]", x);
    Assoc("[", QuotedList(ys), "]");
    Assoc("[", QuotedList(ys) + "]", y);
    Cancel("[", QuotedList(xs) + "]" + x, QuotedList(ys) + "]" + y);
    QuotedListPrefixFree(xs, ys, x, y);
  }

  /** The elements of `JSON.stringify(tags)`, comma-separated. */
  function RowList(rows: seq<seq<string>>): string
  {
    if rows == [] then ""
    else if |rows| == 1 then StringArray(rows[0])
    else StringArray(rows[0]) + "," + RowList(rows[1..])
  }

  /** `JSON.stringify(tags)` for an array of arrays of strings. */
  function TagsJson(rows: seq<seq<string>>): (r: string)
    ensures |r| >= 2 && r[0] == '['
  {
    "[" + RowList(rows) + "]"
  }

  /** What follows the first row: the closing bracket, or a comma and the
      other rows. */
  function RowTail(xs: seq<seq<string>>, x: string): string
    requires xs != []
  {
    if |xs| == 1 then "]" + x else "," + (RowList(xs[1..]) + "]" + x)
  }

  lemma RowListCons(xs: seq<seq<string>>, x: string)
    requires xs != []
    ensures RowList(xs) + "]" + x == StringArray(xs[0]) + RowTail(xs, x)
    ensures (RowList(xs) + "]" + x)[0] == '['
    ensures RowTail(xs, x)[0] == if |xs| == 1 then ']' else ','
  {
    var q := StringArray(xs[0]);
    if |xs| == 1 {
      Assoc(q, "]", x);
    } else {
      var t := RowList(xs[1..]);
      Assoc(q + ",", t, "]");
      Assoc(q + ",", t + "]", x);
      Assoc(q, ",", t + "]" + x);
    }
  }

  /** Two equal texts that start with non-empty row lists agree on the
      first row, on whether more follow, and on what comes after it. */
  lemma RowListFirst(xs: seq<seq<string>>, ys: seq<seq<string>>, x: string, y: string)
    requires xs != [] && ys != []
    requires RowList(xs) + "]" + x == RowList(ys) + "]" + y
    ensures xs[0] == ys[0] && (|xs| == 1 <==> |ys| == 1)
    ensures |xs| == 1 ==> x == y
    ensures |xs| > 1 ==> RowList(xs[1..]) + "]" + x == RowList(ys[1..]) + "]" + y
  {
    RowListCons(xs, x);
    RowListCons(ys, y);
    var tx, ty := RowTail(xs, x), RowTail(ys, y);
    StringArrayPrefixFree(xs[0], ys[0], tx, ty);
    if |xs| == 1 && |ys| == 1 {
      assert x == tx[1..] == ty[1..] == y;
    } else if |xs| > 1 && |ys| > 1 {
      assert RowList(xs[1..]) + "]" + x == tx[1..];
      assert ty[1..] == RowList(ys[1..]) + "]" + y;
    }
  }

  lemma {:induction false} RowListPrefixFree(xs: seq<seq<string>>, ys: seq<seq<string>>, x: string, y: string)
    requires RowList(xs) + "]" + x == RowList(ys) + "]" + y
    ensures xs == ys && x == y
  {
    var l := RowList(xs) + "]" + x;
    if xs != [] && ys != [] {
      RowListFirst(xs, ys, x, y);
      if |xs| == 1 {
        assert xs == [xs[0]] && ys == [ys[0]];
      } else {
        RowListPrefixFree(xs[1..], ys[1..], x, y);
        assert xs == [xs[0]] + xs[1..] && ys == [ys[0]] + ys[1..];
      }
    } else if xs != [] {
      assert l[0] == ']';
      RowListCons(xs, x);
    } else if ys != [] {
      assert l[0] == ']';
      RowListCons(ys, y);
    } else {
      assert x == l[1..] == y;
    }
  }

  /** Tags can be read off the front of the text that follows them. */
  lemma TagsJsonPrefixFree(xs: seq<seq<string>>, ys: seq<seq<string>>, x: string, y: string)
    requires TagsJson(xs) + x == TagsJson(ys) + y
    ensures xs == ys && x == y
  {
    Assoc("[", RowList(xs), "]");
    Assoc("[", RowList(xs) + "]", x);
    Assoc("[", RowList(ys), "]");
    Assoc("[", RowList(ys) + "]", y);
    Cancel("[", RowList(xs) + "]" + x, RowList(ys) + "]" + y);
    RowListPrefixFree(xs, ys, x, y);
  }

  // ------------------------------------------------------------ the message

  /** The fields of an event that its id commits to. */
  datatype Fields = Fields(pubkey: string, createdAt: int, kind: int, tags: seq<seq<string>>, content: string)

  /** The template string of `compute_event_id`, before encoding. */
  function MessageText(f: Fields): string
  {
    "[0,\"" + (f.pubkey + ("\"" + ("," + (NumberText(f.createdAt) + ("," + (NumberText(f.kind)
      + ("," + (TagsJson(f.tags) + ("," + (Quote(f.content) + "]"))))))))))
  }

  /** The bytes `compute_event_id` hashes. */
  function Message(f: Fields): seq<byte>
  {
    Utf8(MessageText(f))
  }

  lemma SepAt(sep: char, a: string, x: string)
    ensures (a + ([sep] + x))[|a|] == sep
    ensures forall i | 0 <= i < |a| :: (a + ([sep] + x))[i] == a[i]
  {
  }

  /** A text without the separator splits uniquely at the separator. */
  lemma SplitAt(sep: char, a: string, b: string, x: string, y: string)
    requires sep !in a && sep !in b
    requires a + ([sep] + x) == b + ([sep] + y)
    ensures a == b && x == y
  {
    var l := a + ([sep] + x);
    SepAt(sep, a, x);
    SepAt(sep, b, y);
    if |a| == |b| {
      assert a == l[..|a|] == b;
      assert [sep] + x == l[|a|..] == [sep] + y;
      Cancel([sep], x, y);
    }
  }

  /** A number's text has no comma. */
  lemma NumberTextNoComma(n: int)
    ensures ',' !in NumberText(n)
  {
    DigitsNoComma(if n < 0 then -n else n);
  }

  lemma {:induction false} DigitsNoComma(n: nat)
    ensures ',' !in DecimalDigits(n)
    decreases n
  {
    if n >= 10 {
      DigitsNoComma(n / 10);
    }
  }

  /** The fields can be read back from the message text, provided the
      pubkey, which is spliced in without escaping, holds no quote. */
  lemma MessageTextInjective(f: Fields, g: Fields)
    requires '"' !in f.pubkey && '"' !in g.pubkey
    requires MessageText(f) == MessageText(g)
    ensures f == g
  {
    var c1, c2 := Quote(f.content) + "]", Quote(g.content) + "]";
    var t1, t2 := TagsJson(f.tags) + ("," + c1), TagsJson(g.tags) + ("," + c2);
    var k1, k2 := NumberText(f.kind) + ("," + t1), NumberText(g.kind) + ("," + t2);
    var n1, n2 := NumberText(f.createdAt) + ("," + k1), NumberText(g.createdAt) + ("," + k2);
    Cancel("[0,\"", f.pubkey + ("\"" + ("," + n1)), g.pubkey + ("\"" + ("," + n2)));
    SplitAt('"', f.pubkey, g.pubkey, "," + n1, "," + n2);
    Cancel(",", n1, n2);
    NumberTextNoComma(f.createdAt);
    NumberTextNoComma(g.createdAt);
    SplitAt(',', NumberText(f.createdAt), NumberText(g.createdAt), k1, k2);
    NumberTextInjective(f.createdAt, g.createdAt);
    NumberTextNoComma(f.kind);
    NumberTextNoComma(g.kind);
    SplitAt(',', NumberText(f.kind), NumberText(g.kind), t1, t2);
    NumberTextInjective(f.kind, g.kind);
    TagsJsonPrefixFree(f.tags, g.tags, "," + c1, "," + c2);
    Cancel(",", c1, c2);
    QuotePrefixFree(f.content, g.content, "]", "]");
  }

  /** So the hashed bytes determine the pubkey, both numbers, the tags and
      the content. */
  lemma MessageInjective(f: Fields, g: Fields)
    requires '"' !in f.pubkey && '"' !in g.pubkey
    requires Message(f) == Message(g)
    ensures f == g
  {
    Utf8Injective(MessageText(f), MessageText(g));
    MessageTextInjective(f, g);
  }
}
