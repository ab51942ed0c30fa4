/** UTF-8 (section 3 of RFC 3629) and base64 (section 4 of RFC 4648), with their decoders. */
module Encoding {
  import opened Text

  type Byte = b: int | 0 <= b < 256

  // -------------------------------------------------------------------- UTF-8

  function Utf8Char(c: char): (bs: seq<Byte>)
    ensures 1 <= |bs| <= 4
  {
    var n := c as int;
    if n < 0x80 then [n]
    else if n < 0x800 then [0xC0 + n / 0x40, 0x80 + n % 0x40]
    else if n < 0x10000 then [0xE0 + n / 0x1000, 0x80 + n / 0x40 % 0x40, 0x80 + n % 0x40]
    else [0xF0 + n / 0x40000, 0x80 + n / 0x1000 % 0x40, 0x80 + n / 0x40 % 0x40, 0x80 + n % 0x40]
  }

  function Utf8(s: string): seq<Byte> {
    if s == "" then [] else Utf8Char(s[0]) + Utf8(s[1..])
  }

  /** How many bytes a sequence starting with `b` takes. */
  function Width(b: Byte): nat {
    if b < 0x80 then 1 else if b < 0xE0 then 2 else if b < 0xF0 then 3 else 4
  }

  /** The low six bits of a continuation byte. */
  function Low(b: Byte): nat { b % 0x40 }

  function CodePoint(bs: seq<Byte>): nat
    requires bs != [] && |bs| >= Width(bs[0])
  {
    match Width(bs[0])
    case 1 => bs[0]
    case 2 => bs[0] % 0x20 * 0x40 + Low(bs[1])
    case 3 => bs[0] % 0x10 * 0x1000 + Low(bs[1]) * 0x40 + Low(bs[2])
    case _ => bs[0] % 0x08 * 0x40000 + Low(bs[1]) * 0x1000 + Low(bs[2]) * 0x40 + Low(bs[3])
  }

  predicate IsScalar(n: nat) { n < 0xD800 || 0xE000 <= n < 0x110000 }

  /** Strict decoding: only bytes that some text encodes to. */
  function FromUtf8(bs: seq<Byte>): Option<string>
    decreases |bs|
  {
    if bs == [] then Some("")
    else if |bs| < Width(bs[0]) || !IsScalar(CodePoint(bs)) then None
    else
      var c := CodePoint(bs) as char;
      if Utf8Char(c) != bs[..Width(bs[0])] then None
      else
        match FromUtf8(bs[Width(bs[0])..])
        case None => None
        case Some(s) => Some([c] + s)
  }

  lemma LowOf(m: nat)
    requires m < 0x40
    ensures 0x80 + m < 256 && Low(0x80 + m) == m
  {
  }

  /** The base-64 digits of a code point add up to it. */
  lemma Digits(n: nat)
    ensures n == n / 0x40 * 0x40 + n % 0x40
    ensures n / 0x40 == n / 0x1000 * 0x40 + n / 0x40 % 0x40
    ensures n / 0x1000 == n / 0x40000 * 0x40 + n / 0x1000 % 0x40
  {
    assert n / 0x1000 == n / 0x40 / 0x40;
    assert n / 0x40000 == n / 0x1000 / 0x40;
  }

  lemma CodePointOfThree(a: nat, b: nat, c: nat)
    requires a < 0x10 && b < 0x40 && c < 0x40
    ensures var bs: seq<Byte> := [0xE0 + a, 0x80 + b, 0x80 + c];
            Width(bs[0]) == 3 && CodePoint(bs) == a * 0x1000 + b * 0x40 + c
  {
    LowOf(b);
    LowOf(c);
    assert (0xE0 + a) % 0x10 == a;
  }

  lemma CodePointOfFour(a: nat, b: nat, c: nat, d: nat)
    requires a < 0x08 && b < 0x40 && c < 0x40 && d < 0x40
    ensures var bs: seq<Byte> := [0xF0 + a, 0x80 + b, 0x80 + c, 0x80 + d];
            Width(bs[0]) == 4 && CodePoint(bs) == a * 0x40000 + b * 0x1000 + c * 0x40 + d
  {
    LowOf(b);
    LowOf(c);
    LowOf(d);
    assert (0xF0 + a) % 0x08 == a;
  }

  lemma CodePointOf(c: char)
    ensures var bs := Utf8Char(c);
            Width(bs[0]) == |bs| && CodePoint(bs) == c as int
  {
    var n, bs := c as int, Utf8Char(c);
    Digits(n);
    if n >= 0x10000 {
      CodePointOfFour(n / 0x40000, n / 0x1000 % 0x40, n / 0x40 % 0x40, n % 0x40);
    } else if n >= 0x800 {
      CodePointOfThree(n / 0x1000, n / 0x40 % 0x40, n % 0x40);
    }
  }

  lemma DecodeChar(c: char, rest: seq<Byte>)
    ensures var bs := Utf8Char(c) + rest;
            && Width(bs[0]) == |Utf8Char(c)| && CodePoint(bs) == c as int
            && bs[..Width(bs[0])] == Utf8Char(c) && bs[Width(bs[0])..] == rest
  {
    var bs := Utf8Char(c);
    CodePointOf(c);
    assert (bs + rest)[..|bs|] == bs && (bs + rest)[|bs|..] == rest;
    assert forall i :: 0 <= i < |bs| ==> (bs + rest)[i] == bs[i];
  }

  lemma {:induction false} Utf8RoundTrip(s: string)
    ensures FromUtf8(Utf8(s)) == Some(s)
  {
    if s != "" {
      DecodeChar(s[0], Utf8(s[1..]));
      Utf8RoundTrip(s[1..]);
      assert s[0] as int < 0xD800 || 0xE000 <= s[0] as int < 0x110000;
      assert [s[0]] + s[1..] == s;
    }
  }

  /** The table of section 3 of RFC 3629: which first and following bytes carry which bits of a character. */
  lemma Utf8Table(c: char)
    ensures var n, bs := c as int, Utf8Char(c);
            && (n <= 0x7F ==> bs == [n])
            && (0x80 <= n <= 0x7FF ==>
                  && |bs| == 2 && 0xC2 <= bs[0] <= 0xDF && 0x80 <= bs[1] <= 0xBF
                  && n == (bs[0] as int - 0xC0) * 64 + (bs[1] as int - 0x80))
            && (0x800 <= n <= 0xFFFF ==>
                  && |bs| == 3 && 0xE0 <= bs[0] <= 0xEF && 0x80 <= bs[1] <= 0xBF && 0x80 <= bs[2] <= 0xBF
                  && n == (bs[0] as int - 0xE0) * 4096 + (bs[1] as int - 0x80) * 64 + (bs[2] as int - 0x80))
            && (0x10000 <= n ==>
                  && |bs| == 4 && 0xF0 <= bs[0] <= 0xF4
                  && 0x80 <= bs[1] <= 0xBF && 0x80 <= bs[2] <= 0xBF && 0x80 <= bs[3] <= 0xBF
                  && n == (bs[0] as int - 0xF0) * 262144 + (bs[1] as int - 0x80) * 4096
                       + (bs[2] as int - 0x80) * 64 + (bs[3] as int - 0x80))
  {
    Digits(c as int);
  }

  predicate Decodes(bs: seq<Byte>, s: string) { FromUtf8(bs) == Some(s) }

  lemma DecodedStep(bs: seq<Byte>, s: string) returns (c: char, tail: seq<Byte>, rest: string)
    requires bs != [] && Decodes(bs, s)
    ensures bs == Utf8Char(c) + tail && s == [c] + rest && Decodes(tail, rest)
  {
    var w := Width(bs[0]);
    c, tail := CodePoint(bs) as char, bs[w..];
    rest := FromUtf8(tail).value;
    assert bs == bs[..w] + tail;
  }

  lemma DecodedEnd(s: string)
    requires Decodes([], s)
    ensures s == ""
  {
  }

  /** Whatever decodes is the encoding of what it decodes to. */
  lemma {:induction false} FromUtf8Exact(bs: seq<Byte>, s: string)
    requires Decodes(bs, s)
    ensures Utf8(s) == bs
    decreases |bs|
  {
    if bs == [] {
      DecodedEnd(s);
    } else {
      var c, tail, rest := DecodedStep(bs, s);
      FromUtf8Exact(tail, rest);
      Utf8Cons(c, rest);
    }
  }

  lemma Utf8Cons(c: char, s: string)
    ensures Utf8([c] + s) == Utf8Char(c) + Utf8(s)
  {
    assert ([c] + s)[1..] == s;
  }

  // ------------------------------------------------------------------- base64

  type Sextet = n: int | 0 <= n < 64

  /** A-Z, a-z, 0-9, + and /. */
  function Symbol(n: Sextet): char {
    if n < 26 then ('A' as int + n) as char
    else if n < 52 then ('a' as int + n - 26) as char
    else if n < 62 then ('0' as int + n - 52) as char
    else if n == 62 then '+' else '/'
  }

  /** The value of an alphabet character; `-` and `_` of the URL alphabet are read too. */
  function Value(c: char): Option<Sextet> {
    if 'A' <= c <= 'Z' then Some(c as int - 'A' as int)
    else if 'a' <= c <= 'z' then Some(c as int - 'a' as int + 26)
    else if '0' <= c <= '9' then Some(c as int - '0' as int + 52)
    else if c == '+' || c == '-' then Some(62)
    else if c == '/' || c == '_' then Some(63)
    else None
  }

  function Base64(bs: seq<Byte>): string {
    if bs == [] then ""
    else if |bs| == 1 then [Symbol(bs[0] / 4), Symbol(bs[0] % 4 * 16), '=', '=']
    else if |bs| == 2 then
      [Symbol(bs[0] / 4), Symbol(bs[0] % 4 * 16 + bs[1] / 16), Symbol(bs[1] % 16 * 4), '=']
    else
      [Symbol(bs[0] / 4), Symbol(bs[0] % 4 * 16 + bs[1] / 16), Symbol(bs[1] % 16 * 4 + bs[2] / 64), Symbol(bs[2] % 64)]
      + Base64(bs[3..])
  }

  /** Lenient reading: characters outside the alphabet are skipped, padding ends the input. */
  function Sextets(s: string): seq<Sextet> {
    if s == "" || s[0] == '=' then []
    else
      match Value(s[0])
      case Some(n) => [n] + Sextets(s[1..])
      case None => Sextets(s[1..])
  }

  function FirstByte(a: Sextet, b: Sextet): Byte { a * 4 + b / 16 }
  function SecondByte(b: Sextet, c: Sextet): Byte { b % 16 * 16 + c / 4 }
  function ThirdByte(c: Sextet, d: Sextet): Byte { c % 4 * 64 + d }

  /** Every full byte in the bits of the sextets; left-over bits are dropped. */
  function Pack(ns: seq<Sextet>): seq<Byte> {
    if |ns| < 2 then []
    else if |ns| == 2 then [FirstByte(ns[0], ns[1])]
    else if |ns| == 3 then [FirstByte(ns[0], ns[1]), SecondByte(ns[1], ns[2])]
    else [FirstByte(ns[0], ns[1]), SecondByte(ns[1], ns[2]), ThirdByte(ns[2], ns[3])] + Pack(ns[4..])
  }

  function FromBase64(s: string): seq<Byte> { Pack(Sextets(s)) }

  lemma SymbolValue(n: Sextet)
    ensures Value(Symbol(n)) == Some(n) && Symbol(n) != ':' && Symbol(n) != '='
  {
  }

  const ALPHABET := "ABCDEFGHIJKLMNOPQRSTUVWXYZ" + "abcdefghijklmnopqrstuvwxyz" + "0123456789" + "+/"

  /** Table 1 of RFC 4648. */
  lemma SymbolTable(n: Sextet)
    ensures |ALPHABET| == 64 && Symbol(n) == ALPHABET[n]
  {
    var upper, lower, digits := "ABCDEFGHIJKLMNOPQRSTUVWXYZ", "abcdefghijklmnopqrstuvwxyz", "0123456789";
    UpperTable(upper, n);
    LowerTable(lower, n);
    DigitTable(digits, n);
    if n < 26 {
      assert ALPHABET[n] == upper[n];
    } else if n < 52 {
      assert ALPHABET[n] == lower[n - 26];
    } else if n < 62 {
      assert ALPHABET[n] == digits[n - 52];
    } else {
      assert ALPHABET[n] == "+/"[n - 62];
    }
  }

  lemma UpperTable(upper: string, n: Sextet)
    requires upper == "ABCDEFGHIJKLMNOPQRSTUVWXYZ"
    ensures |upper| == 26 && (n < 26 ==> Symbol(n) == upper[n])
  {
  }

  lemma LowerTable(lower: string, n: Sextet)
    requires lower == "abcdefghijklmnopqrstuvwxyz"
    ensures |lower| == 26 && (26 <= n < 52 ==> Symbol(n) == lower[n - 26])
  {
  }

  lemma DigitTable(digits: string, n: Sextet)
    requires digits == "0123456789"
    ensures |digits| == 10 && (52 <= n < 62 ==> Symbol(n) == digits[n - 52])
  {
  }

  /** The group of section 4 of RFC 4648: three bytes and four symbols are one 24-bit number. */
  lemma GroupNumber(x: Byte, y: Byte, z: Byte, more: seq<Byte>) returns (a: Sextet, b: Sextet, c: Sextet, d: Sextet)
    ensures Base64([x, y, z] + more) == [Symbol(a), Symbol(b), Symbol(c), Symbol(d)] + Base64(more)
    ensures a as int * 262144 + b as int * 4096 + c as int * 64 + d as int ==
            x as int * 65536 + y as int * 256 + z as int
  {
    a, b, c, d := x / 4, x % 4 * 16 + y / 16, y % 16 * 4 + z / 64, z % 64;
    assert ([x, y, z] + more)[3..] == more;
  }

  /** The ends of section 4 of RFC 4648: missing bytes are zero bits and padding signs. */
  lemma TailNumber(x: Byte, y: Byte) returns (a: Sextet, b: Sextet, c: Sextet, d: Sextet, e: Sextet)
    ensures Base64([x]) == [Symbol(a), Symbol(b)] + "==" && a as int * 64 + b as int == x as int * 16
    ensures Base64([x, y]) == [Symbol(c), Symbol(d), Symbol(e)] + "="
    ensures c as int * 4096 + d as int * 64 + e as int == (x as int * 256 + y as int) * 4
  {
    a, b := x / 4, x % 4 * 16;
    c, d, e := x / 4, x % 4 * 16 + y / 16, y % 16 * 4;
  }

  lemma SextetsOne(n: Sextet, rest: string)
    ensures Sextets([Symbol(n)] + rest) == [n] + Sextets(rest)
  {
    SymbolValue(n);
    assert ([Symbol(n)] + rest)[1..] == rest;
  }

  lemma SextetsPair(a: Sextet, b: Sextet, rest: string)
    ensures Sextets([Symbol(a), Symbol(b)] + rest) == [a, b] + Sextets(rest)
  {
    var s := [Symbol(b)] + rest;
    SextetsOne(b, rest);
    SextetsOne(a, s);
    assert [Symbol(a), Symbol(b)] + rest == [Symbol(a)] + s;
  }

  lemma SextetsFour(a: Sextet, b: Sextet, c: Sextet, d: Sextet, rest: string)
    ensures Sextets([Symbol(a), Symbol(b), Symbol(c), Symbol(d)] + rest) == [a, b, c, d] + Sextets(rest)
  {
    var s := [Symbol(c), Symbol(d)] + rest;
    SextetsPair(c, d, rest);
    SextetsPair(a, b, s);
    assert [Symbol(a), Symbol(b), Symbol(c), Symbol(d)] + rest == [Symbol(a), Symbol(b)] + s;
    assert [a, b] + ([c, d] + Sextets(rest)) == [a, b, c, d] + Sextets(rest);
  }

  /** A character stands for a sextet when it is its symbol, or `-` or `_` for the last two. */
  lemma ValueExactly(c: char, n: Sextet)
    ensures Value(c) == Some(n) <==> c == Symbol(n) || (c == '-' && n == 62) || (c == '_' && n == 63)
  {
  }

  /** Reading skips what is not in the alphabet, a line break say. */
  lemma {:induction false} SkipsOthers(a: string, c: char, b: string)
    requires '=' !in a && c != '=' && Value(c).None?
    ensures Sextets(a + [c] + b) == Sextets(a + b)
  {
    if a == "" {
      assert a + [c] + b == [c] + b && ([c] + b)[1..] == b && a + b == b;
    } else {
      SkipsOthers(a[1..], c, b);
      assert (a + [c] + b)[1..] == a[1..] + [c] + b && (a + b)[1..] == a[1..] + b;
    }
  }

  /** Reading stops at padding. */
  lemma {:induction false} StopsAtPadding(a: string, b: string)
    requires '=' !in a
    ensures Sextets(a + ['='] + b) == Sextets(a)
  {
    if a == "" {
      assert a + ['='] + b == ['='] + b;
    } else {
      StopsAtPadding(a[1..], b);
      assert (a + ['='] + b)[1..] == a[1..] + ['='] + b;
    }
  }

  lemma BytesBack(x: Byte, y: Byte, z: Byte)
    ensures FirstByte(x / 4, x % 4 * 16) == x && FirstByte(x / 4, x % 4 * 16 + y / 16) == x
    ensures SecondByte(x % 4 * 16 + y / 16, y % 16 * 4) == y && SecondByte(x % 4 * 16 + y / 16, y % 16 * 4 + z / 64) == y
    ensures ThirdByte(y % 16 * 4 + z / 64, z % 64) == z
  {
  }

  lemma PackFour(a: Sextet, b: Sextet, c: Sextet, d: Sextet, more: seq<Sextet>)
    ensures Pack([a, b, c, d] + more) == [FirstByte(a, b), SecondByte(b, c), ThirdByte(c, d)] + Pack(more)
  {
    assert ([a, b, c, d] + more)[4..] == more;
  }

  lemma OneByte(x: Byte)
    ensures FromBase64(Base64([x])) == [x]
  {
    SextetsTwo(x / 4, x % 4 * 16, "==");
    BytesBack(x, 0, 0);
    assert Base64([x]) == [Symbol(x / 4), Symbol(x % 4 * 16)] + "==";
  }

  lemma TwoBytes(x: Byte, y: Byte)
    ensures FromBase64(Base64([x, y])) == [x, y]
  {
    var a, b, c := x / 4, x % 4 * 16 + y / 16, y % 16 * 4;
    SextetsThree(a, b, c, "=");
    BytesBack(x, y, 0);
    assert Base64([x, y]) == [Symbol(a), Symbol(b), Symbol(c)] + "=";
  }

  lemma ThreeBytes(x: Byte, y: Byte, z: Byte, more: seq<Byte>)
    ensures FromBase64(Base64([x, y, z] + more)) == [x, y, z] + FromBase64(Base64(more))
  {
    var a, b, c, d := x / 4, x % 4 * 16 + y / 16, y % 16 * 4 + z / 64, z % 64;
    var bs := [x, y, z] + more;
    assert bs[3..] == more;
    assert Base64(bs) == [Symbol(a), Symbol(b), Symbol(c), Symbol(d)] + Base64(more);
    SextetsFour(a, b, c, d, Base64(more));
    PackFour(a, b, c, d, Sextets(Base64(more)));
    BytesBack(x, y, z);
  }

  /** Decoding undoes encoding for every byte sequence. */
  lemma {:induction false} Base64RoundTrip(bs: seq<Byte>)
    ensures FromBase64(Base64(bs)) == bs
    decreases |bs|
  {
    if |bs| == 1 {
      OneByte(bs[0]);
      assert bs == [bs[0]];
    } else if |bs| == 2 {
      TwoBytes(bs[0], bs[1]);
      assert bs == [bs[0], bs[1]];
    } else if |bs| >= 3 {
      assert bs == [bs[0], bs[1], bs[2]] + bs[3..];
      ThreeBytes(bs[0], bs[1], bs[2], bs[3..]);
      Base64RoundTrip(bs[3..]);
    }
  }

  lemma SextetsTwo(a: Sextet, b: Sextet, rest: string)
    requires rest != "" && rest[0] == '='
    ensures Sextets([Symbol(a), Symbol(b)] + rest) == [a, b]
  {
    SextetsPair(a, b, rest);
  }

  lemma SextetsThree(a: Sextet, b: Sextet, c: Sextet, rest: string)
    requires rest != "" && rest[0] == '='
    ensures Sextets([Symbol(a), Symbol(b), Symbol(c)] + rest) == [a, b, c]
  {
    SextetsTwo(b, c, rest);
    SextetsOne(a, [Symbol(b), Symbol(c)] + rest);
    assert [Symbol(a), Symbol(b), Symbol(c)] + rest == [Symbol(a)] + ([Symbol(b), Symbol(c)] + rest);
  }

  /** Base64 text never contains the separator that wrapDek joins with. */
  lemma {:induction false} Base64HasNoColon(bs: seq<Byte>)
    ensures ':' !in Base64(bs)
    decreases |bs|
  {
    forall n: Sextet ensures Symbol(n) != ':' { SymbolValue(n); }
    if |bs| >= 3 { Base64HasNoColon(bs[3..]); }
  }
}
