/**
 JSON.stringify on values with a fixed member order, a reader for the JSON grammar (RFC 8259), and
 the proof that reading the printed text gives the value back.
 */
module Json {
  import opened Text

  predicate IsNumChar(c: char) { '0' <= c <= '9' || c == '+' || c == '-' || c == '.' || c == 'e' || c == 'E' }

  /** The text JavaScript prints for a finite number. */
  type NumText = s: string | s != "" && forall i :: 0 <= i < |s| ==> IsNumChar(s[i]) witness "0"

  datatype Json =
    | JNull
    | JBool(b: bool)
    | JNum(n: NumText)
    | JStr(s: string)
    | JArr(items: seq<Json>)
    | JObj(fields: seq<Field>)

  datatype Field = Field(key: string, value: Json)

  // ---------------------------------------------------------------- printing

  const HEX := "0123456789abcdef"

  function EscapeChar(c: char): string {
    var n := c as int;
    if c == '"' then "\\\""
    else if c == '\\' then "\\\\"
    else if n == 8 then "\\b"
    else if n == 9 then "\\t"
    else if n == 10 then "\\n"
    else if n == 12 then "\\f"
    else if n == 13 then "\\r"
    else if n < 32 then "\\u00" + [HEX[n / 16], HEX[n % 16]]
    else [c]
  }

  function Escape(s: string): string {
    if s == "" then "" else EscapeChar(s[0]) + Escape(s[1..])
  }

  function Quote(s: string): string { "\"" + Escape(s) + "\"" }

  function Print(v: Json): string
    decreases v, 0
  {
    match v
    case JNull => "null"
    case JBool(b) => if b then "true" else "false"
    case JNum(n) => n
    case JStr(s) => Quote(s)
    case JArr(items) => "[" + if items == [] then "]" else Print(items[0]) + PrintItems(items[1..])
    case JObj(fields) => "{" + if fields == [] then "}" else PrintField(fields[0]) + PrintFields(fields[1..])
  }

  function PrintField(f: Field): string
    decreases f, 0
  {
    Quote(f.key) + ":" + Print(f.value)
  }

  /** What follows an array item, to the closing bracket. */
  function PrintItems(items: seq<Json>): string
    decreases items, 1
  {
    if items == [] then "]" else "," + Print(items[0]) + PrintItems(items[1..])
  }

  function PrintFields(fields: seq<Field>): string
    decreases fields, 1
  {
    if fields == [] then "}" else "," + PrintField(fields[0]) + PrintFields(fields[1..])
  }

  // ----------------------------------------------------------------- reading

  /** The value of a hexadecimal digit, of either case. */
  function HexValue(c: char): Option<nat> {
    if '0' <= c <= '9' then Some(c as int - '0' as int)
    else if 'a' <= c <= 'f' then Some(c as int - 'a' as int + 10)
    else if 'A' <= c <= 'F' then Some(c as int - 'A' as int + 10)
    else None
  }

  /** Four hexadecimal digits, below the surrogates. */
  function ReadHex(s: string): (r: Option<char>)
    requires |s| >= 4
  {
    match (HexValue(s[0]), HexValue(s[1]), HexValue(s[2]), HexValue(s[3]))
    case (Some(a), Some(b), Some(c), Some(d)) =>
      var n := a * 0x1000 + b * 0x100 + c * 0x10 + d;
      if n < 0xD800 then Some(n as char) else None
    case _ => None
  }

  /** The character after a backslash, for the two-character escapes of section 7 of RFC 8259. */
  function ShortEscape(c: char): Option<char> {
    if c == '"' || c == '\\' || c == '/' then Some(c)
    else if c == 'b' then Some(8 as char)
    else if c == 'f' then Some(12 as char)
    else if c == 'n' then Some('\n')
    else if c == 'r' then Some('\r')
    else if c == 't' then Some('\t')
    else None
  }

  /** One character of a string, and what follows it. */
  function ReadChar(s: string): (r: Option<(char, string)>)
    requires s != ""
    ensures r.Some? ==> |r.value.1| < |s|
  {
    if s[0] != '\\' then if s[0] as int < 32 then None else Some((s[0], s[1..]))
    else if |s| >= 6 && s[1] == 'u' then
      match ReadHex(s[2..6])
      case None => None
      case Some(c) => Some((c, s[6..]))
    else if |s| >= 2 then
      match ShortEscape(s[1])
      case None => None
      case Some(c) => Some((c, s[2..]))
    else None
  }

  /** The rest of a string after its opening quote. */
  function ReadString(s: string): (r: Option<(string, string)>)
    ensures r.Some? ==> |r.value.1| < |s|
    decreases |s|
  {
    if s == "" then None
    else if s[0] == '"' then Some(("", s[1..]))
    else
      match ReadChar(s)
      case None => None
      case Some(c) =>
        match ReadString(c.1)
        case None => None
        case Some(more) => Some(([c.0] + more.0, more.1))
  }

  /** How many number characters a text starts with. */
  function NumberLength(s: string): (n: nat)
    ensures n <= |s| && forall i :: 0 <= i < n ==> IsNumChar(s[i])
  {
    if s != "" && IsNumChar(s[0]) then 1 + NumberLength(s[1..]) else 0
  }

  predicate Starts(s: string, c: char) { s != "" && s[0] == c }

  function ReadLiteral(s: string, word: string, v: Json): (r: Option<(Json, string)>)
    requires word != ""
    ensures r.Some? ==> |r.value.1| < |s|
  {
    if |word| <= |s| && s[..|word|] == word then Some((v, s[|word|..])) else None
  }

  /** A value at the start of a text, and what follows it. */
  function ReadValue(s: string): (r: Option<(Json, string)>)
    ensures r.Some? ==> |r.value.1| < |s|
    decreases |s|, 0
  {
    if s == "" then None
    else if s[0] == 'n' then ReadLiteral(s, "null", JNull)
    else if s[0] == 't' then ReadLiteral(s, "true", JBool(true))
    else if s[0] == 'f' then ReadLiteral(s, "false", JBool(false))
    else if s[0] == '"' then
      match ReadString(s[1..])
      case None => None
      case Some(r) => Some((JStr(r.0), r.1))
    else if s[0] == '[' then
      if Starts(s[1..], ']') then Some((JArr([]), s[2..]))
      else
        match ReadItems(s[1..])
        case None => None
        case Some(r) => Some((JArr(r.0), r.1))
    else if s[0] == '{' then
      if Starts(s[1..], '}') then Some((JObj([]), s[2..]))
      else
        match ReadFields(s[1..])
        case None => None
        case Some(r) => Some((JObj(r.0), r.1))
    else
      var n := NumberLength(s);
      if n == 0 then None else Some((JNum(s[..n]), s[n..]))
  }

  /** Array items to the closing bracket. */
  function ReadItems(s: string): (r: Option<(seq<Json>, string)>)
    ensures r.Some? ==> |r.value.1| < |s|
    decreases |s|, 1
  {
    match ReadValue(s)
    case None => None
    case Some(first) =>
      if Starts(first.1, ']') then Some(([first.0], first.1[1..]))
      else if Starts(first.1, ',') then
        match ReadItems(first.1[1..])
        case None => None
        case Some(more) => Some(([first.0] + more.0, more.1))
      else None
  }

  /** A member: key, colon, value. */
  function ReadField(s: string): (r: Option<(Field, string)>)
    ensures r.Some? ==> |r.value.1| < |s|
    decreases |s|, 1
  {
    if !Starts(s, '"') then None
    else
      match ReadString(s[1..])
      case None => None
      case Some(key) =>
        if !Starts(key.1, ':') then None
        else
          match ReadValue(key.1[1..])
          case None => None
          case Some(v) => Some((Field(key.0, v.0), v.1))
  }

  /** Object members to the closing brace. */
  function ReadFields(s: string): (r: Option<(seq<Field>, string)>)
    ensures r.Some? ==> |r.value.1| < |s|
    decreases |s|, 2
  {
    match ReadField(s)
    case None => None
    case Some(first) =>
      if Starts(first.1, '}') then Some(([first.0], first.1[1..]))
      else if Starts(first.1, ',') then
        match ReadFields(first.1[1..])
        case None => None
        case Some(more) => Some(([first.0] + more.0, more.1))
      else None
  }

  // --------------------------------------------------------- strings, proved

  lemma Peel(p: string, x: string, q: string, y: string)
    requires p + x == q + y && |p| == |q|
    ensures p == q && x == y
  {
    assert (p + x)[..|p|] == p && (q + y)[..|q|] == q;
    assert (p + x)[|p|..] == x && (q + y)[|q|..] == y;
  }

  /** A character is escaped only where JSON.stringify does: quote, backslash and the control characters. */
  lemma EscapeLength(c: char)
    ensures EscapeChar(c) == [c] <==> c as int >= 32 && c != '"' && c != '\\'
    ensures |EscapeChar(c)| == 6 <==> c as int < 32 && c as int !in {8, 9, 10, 12, 13}
  {
  }

  /** The digits, in lower case. */
  lemma HexBack(n: nat)
    requires n < 16
    ensures HexValue(HEX[n]) == Some(n) && !('A' <= HEX[n] <= 'F')
  {
  }

  lemma ReadControl(c: char, x: string)
    requires |EscapeChar(c)| == 6
    ensures ReadChar(EscapeChar(c) + x) == Some((c, x))
  {
    var n, s := c as int, EscapeChar(c) + x;
    HexBack(n / 16);
    HexBack(n % 16);
    HexBack(0);
    assert s[2..6] == "00" + [HEX[n / 16], HEX[n % 16]] && s[6..] == x;
  }

  /** Reading an escaped character gives the character. */
  lemma ReadEscaped(c: char, x: string)
    ensures (EscapeChar(c) + x)[0] != '"' && ReadChar(EscapeChar(c) + x) == Some((c, x))
  {
    EscapeLength(c);
    var p := EscapeChar(c);
    if |p| == 6 {
      ReadControl(c, x);
    } else {
      assert (p + x)[|p|..] == x;
    }
  }

  /** Reading an escaped string to its closing quote gives the string and what follows. */
  lemma {:induction false} StringReads(s: string, x: string)
    ensures ReadString(Escape(s) + ("\"" + x)) == Some((s, x))
  {
    if s == "" {
      assert Escape(s) + ("\"" + x) == "\"" + x && ("\"" + x)[1..] == x;
    } else {
      var rest := Escape(s[1..]) + ("\"" + x);
      Associate(EscapeChar(s[0]), Escape(s[1..]), "\"" + x);
      ReadEscaped(s[0], rest);
      StringReads(s[1..], x);
      assert [s[0]] + s[1..] == s;
    }
  }

  /** An escaped string and what follows its closing quote are determined by the text. */
  lemma UniqueString(s: string, x: string, t: string, y: string)
    requires Escape(s) + ("\"" + x) == Escape(t) + ("\"" + y)
    ensures s == t && x == y
  {
    StringReads(s, x);
    StringReads(t, y);
  }

  lemma QuoteSplit(s: string, x: string)
    ensures Quote(s) + x == "\"" + (Escape(s) + ("\"" + x))
  {
    Associate("\"" + Escape(s), "\"", x);
    Associate("\"", Escape(s), "\"" + x);
  }

  // ---------------------------------------------------------- values, proved

  /** Text that cannot extend a number. */
  predicate Stops(x: string) { x == "" || x[0] in ",]}" }

  lemma {:induction false} NumberEnds(s: string, x: string)
    requires Stops(x) && forall i :: 0 <= i < |s| ==> IsNumChar(s[i])
    ensures NumberLength(s + x) == |s|
  {
    if s == "" {
      assert s + x == x;
    } else {
      assert (s + x)[1..] == s[1..] + x;
      NumberEnds(s[1..], x);
    }
  }

  lemma LiteralReads(v: Json, x: string)
    requires v.JNull? || v.JBool?
    ensures ReadValue(Print(v) + x) == Some((v, x))
  {
    var p := Print(v);
    assert (p + x)[..|p|] == p && (p + x)[|p|..] == x && (p + x)[0] == p[0];
  }

  lemma NumberReads(n: NumText, x: string)
    requires Stops(x)
    ensures ReadValue(Print(JNum(n)) + x) == Some((JNum(n), x))
  {
    NumberEnds(n, x);
    assert (n + x)[0] == n[0] && IsNumChar(n[0]);
    assert (n + x)[..|n|] == n && (n + x)[|n|..] == x;
  }

  lemma QuotedReads(s: string, x: string)
    ensures ReadValue(Print(JStr(s)) + x) == Some((JStr(s), x))
  {
    QuoteSplit(s, x);
    StringReads(s, x);
    var rest := Escape(s) + ("\"" + x);
    assert ("\"" + rest)[1..] == rest;
  }

  lemma ItemsCons(a: seq<Json>, x: string)
    requires a != []
    ensures PrintItems(a) + x == "," + (Print(a[0]) + (PrintItems(a[1..]) + x))
  {
    Associate("," + Print(a[0]), PrintItems(a[1..]), x);
    Associate(",", Print(a[0]), PrintItems(a[1..]) + x);
  }

  lemma FieldsCons(a: seq<Field>, x: string)
    requires a != []
    ensures PrintFields(a) + x == "," + (PrintField(a[0]) + (PrintFields(a[1..]) + x))
  {
    Associate("," + PrintField(a[0]), PrintFields(a[1..]), x);
    Associate(",", PrintField(a[0]), PrintFields(a[1..]) + x);
  }

  lemma FieldSplit(f: Field, x: string)
    ensures PrintField(f) + x == "\"" + (Escape(f.key) + ("\"" + (":" + (Print(f.value) + x))))
  {
    Associate(Quote(f.key) + ":", Print(f.value), x);
    Associate(Quote(f.key), ":", Print(f.value) + x);
    QuoteSplit(f.key, ":" + (Print(f.value) + x));
  }

  /** What a printed list goes on with, told by its first character. */
  lemma ItemsNext(a: seq<Json>, x: string)
    ensures Stops(PrintItems(a) + x)
    ensures a == [] ==> PrintItems(a) + x == "]" + x && ("]" + x)[1..] == x
    ensures a != [] ==> var rest := Print(a[0]) + (PrintItems(a[1..]) + x);
              PrintItems(a) + x == "," + rest && ("," + rest)[1..] == rest
  {
    if a != [] { ItemsCons(a, x); }
  }

  lemma FieldsNext(a: seq<Field>, x: string)
    ensures Stops(PrintFields(a) + x)
    ensures a == [] ==> PrintFields(a) + x == "}" + x && ("}" + x)[1..] == x
    ensures a != [] ==> var rest := PrintField(a[0]) + (PrintFields(a[1..]) + x);
              PrintFields(a) + x == "," + rest && ("," + rest)[1..] == rest
  {
    if a != [] { FieldsCons(a, x); }
  }

  /** Reading a printed value gives the value and what follows it. */
  lemma {:induction false} ValueReads(v: Json, x: string)
    requires Stops(x)
    ensures ReadValue(Print(v) + x) == Some((v, x))
    decreases v, 0
  {
    match v
    case JNum(n) => NumberReads(n, x);
    case JStr(s) => QuotedReads(s, x);
    case JArr(items) => ArrayReads(items, x);
    case JObj(fields) => ObjectReads(fields, x);
    case _ => LiteralReads(v, x);
  }

  lemma {:induction false} ArrayReads(a: seq<Json>, x: string)
    ensures ReadValue(Print(JArr(a)) + x) == Some((JArr(a), x))
    decreases a, 2
  {
    if a == [] {
      assert Print(JArr(a)) + x == "[]" + x && ("[]" + x)[1..] == "]" + x && ("[]" + x)[2..] == x;
    } else {
      var rest := Print(a[0]) + (PrintItems(a[1..]) + x);
      Associate("[", Print(a[0]) + PrintItems(a[1..]), x);
      Associate(Print(a[0]), PrintItems(a[1..]), x);
      assert Print(JArr(a)) + x == "[" + rest && ("[" + rest)[1..] == rest;
      ItemsRead(a, x);
      NotClosing(a[0], PrintItems(a[1..]) + x);
    }
  }

  /** A printed value does not start with a closing bracket. */
  lemma NotClosing(v: Json, x: string)
    ensures Print(v) + x != "" && (Print(v) + x)[0] != ']'
  {
  }

  lemma {:induction false} ItemsRead(a: seq<Json>, x: string)
    requires a != []
    ensures ReadItems(Print(a[0]) + (PrintItems(a[1..]) + x)) == Some((a, x))
    decreases a, 1
  {
    ItemsNext(a[1..], x);
    ValueReads(a[0], PrintItems(a[1..]) + x);
    assert [a[0]] + a[1..] == a;
    var rest := PrintItems(a[1..]) + x;
    if a[1..] == [] {
      assert a == [a[0]] && rest[1..] == x;
    } else {
      ItemsRead(a[1..], x);
    }
  }

  lemma {:induction false} ObjectReads(a: seq<Field>, x: string)
    ensures ReadValue(Print(JObj(a)) + x) == Some((JObj(a), x))
    decreases a, 3
  {
    if a == [] {
      assert Print(JObj(a)) + x == "{}" + x && ("{}" + x)[1..] == "}" + x && ("{}" + x)[2..] == x;
    } else {
      var rest := PrintField(a[0]) + (PrintFields(a[1..]) + x);
      Associate("{", PrintField(a[0]) + PrintFields(a[1..]), x);
      Associate(PrintField(a[0]), PrintFields(a[1..]), x);
      assert Print(JObj(a)) + x == "{" + rest && ("{" + rest)[1..] == rest;
      FieldsRead(a, x);
      FieldSplit(a[0], PrintFields(a[1..]) + x);
    }
  }

  lemma {:induction false} FieldReads(f: Field, x: string)
    requires Stops(x)
    ensures ReadField(PrintField(f) + x) == Some((f, x))
    decreases f, 1
  {
    var value := Print(f.value) + x;
    var rest := Escape(f.key) + ("\"" + (":" + value));
    FieldSplit(f, x);
    assert ("\"" + rest)[1..] == rest && (":" + value)[1..] == value;
    StringReads(f.key, ":" + value);
    ValueReads(f.value, x);
  }

  lemma {:induction false} FieldsRead(a: seq<Field>, x: string)
    requires a != []
    ensures ReadFields(PrintField(a[0]) + (PrintFields(a[1..]) + x)) == Some((a, x))
    decreases a, 2
  {
    FieldsNext(a[1..], x);
    FieldReads(a[0], PrintFields(a[1..]) + x);
    assert [a[0]] + a[1..] == a;
    var rest := PrintFields(a[1..]) + x;
    if a[1..] == [] {
      assert a == [a[0]] && rest[1..] == x;
    } else {
      FieldsRead(a[1..], x);
    }
  }

  /** A printed value is never a proper prefix of another: value and remainder are determined. */
  lemma UniqueValue(a: Json, x: string, b: Json, y: string)
    requires Stops(x) && Stops(y) && Print(a) + x == Print(b) + y
    ensures a == b && x == y
  {
    ValueReads(a, x);
    ValueReads(b, y);
  }

  /** Reading a printed text gives the value back, so the text is injective on values. */
  lemma PrintInjective(a: Json, b: Json)
    ensures ReadValue(Print(a)) == Some((a, ""))
    ensures Print(a) == Print(b) ==> a == b
  {
    assert Print(a) + "" == Print(a) && Print(b) + "" == Print(b);
    ValueReads(a, "");
    ValueReads(b, "");
  }
}
