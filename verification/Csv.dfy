/**
 CSV export (csvCell and the row loop) and the record parser that reads it back:
 section 2 of RFC 4180 with `skip_empty_lines` and `trim`.
 */
module Csv {
  import opened Text

  /** A database value as csvCell sees it: null/undefined, or its String()/ISO text. */
  datatype Value = Null | Txt(s: string)

  /** Which characters `trim` drops before and after an unquoted field. */
  datatype Trim = Trim(left: char -> bool, right: char -> bool)

  // ---------------------------------------------------------------- printing

  predicate NeedsQuotes(s: string) {
    '"' in s || ',' in s || '\n' in s || '\r' in s
  }

  /** `s.replace(/"/g, '""')`. */
  function DoubleQuotes(s: string): string {
    if s == "" then "" else (if s[0] == '"' then "\"\"" else [s[0]]) + DoubleQuotes(s[1..])
  }

  function CsvCell(v: Value): string {
    match v
    case Null => ""
    case Txt(s) => if NeedsQuotes(s) then "\"" + DoubleQuotes(s) + "\"" else s
  }

  function CsvCells(vs: seq<Value>): (cells: seq<string>)
    ensures |cells| == |vs|
  {
    if vs == [] then [] else [CsvCell(vs[0])] + CsvCells(vs[1..])
  }

  function Line(vs: seq<Value>): string { Join(CsvCells(vs), ",") + "\n" }

  function Lines(rows: seq<seq<Value>>): string {
    if rows == [] then "" else Line(rows[0]) + Lines(rows[1..])
  }

  /** `columns.map((c) => row[c.name])`: a missing key reads as undefined. */
  function Pick(columns: seq<string>, row: map<string, Value>): (vs: seq<Value>)
    ensures |vs| == |columns|
    ensures forall i :: 0 <= i < |columns| ==> vs[i] == if columns[i] in row then row[columns[i]] else Null
  {
    if columns == [] then []
    else [if columns[0] in row then row[columns[0]] else Null] + Pick(columns[1..], row)
  }

  function Header(columns: seq<string>): (vs: seq<Value>)
    ensures |vs| == |columns| && forall i :: 0 <= i < |columns| ==> vs[i] == Txt(columns[i])
  {
    seq(|columns|, i requires 0 <= i < |columns| => Txt(columns[i]))
  }

  /** The table as a matrix: the header line first, then every row in column order. */
  function Matrix(columns: seq<string>, rows: seq<map<string, Value>>): (m: seq<seq<Value>>)
    ensures |m| == |rows| + 1
    ensures AllWide(m, |columns|)
    ensures forall c :: 0 <= c < |columns| ==> m[0][c] == Txt(columns[c])
    ensures forall r, c :: 0 <= r < |rows| && 0 <= c < |columns| ==>
              m[r + 1][c] == if columns[c] in rows[r] then rows[r][columns[c]] else Null
  {
    [Header(columns)] + seq(|rows|, i requires 0 <= i < |rows| => Pick(columns, rows[i]))
  }

  // ----------------------------------------------------------------- parsing

  datatype Mode = Unquoted | Quoted | QuoteInQuoted | AfterQuote | Failed

  datatype Parser = Parser(mode: Mode, field: string, record: seq<string>, records: seq<seq<string>>)

  datatype Parsed = Parsed(records: seq<seq<string>>, ok: bool)

  const START := Parser(Unquoted, "", [], [])

  function TrimLeft(blank: char -> bool, s: string): string {
    if s != "" && blank(s[0]) then TrimLeft(blank, s[1..]) else s
  }

  function TrimRight(blank: char -> bool, s: string): string {
    if s != "" && blank(s[|s| - 1]) then TrimRight(blank, s[..|s| - 1]) else s
  }

  /** The finished text of the field being read. */
  function FieldText(t: Trim, p: Parser): string {
    if p.mode == Unquoted then TrimRight(t.right, p.field) else p.field
  }

  function EndField(t: Trim, p: Parser): Parser {
    p.(mode := Unquoted, field := "", record := p.record + [FieldText(t, p)])
  }

  /** A record whose width differs from the first one's is an error. */
  function EndRecord(p: Parser): Parser {
    if p.records != [] && |p.record| != |p.records[0]| then p.(mode := Failed)
    else p.(record := [], records := p.records + [p.record])
  }

  function EndLine(t: Trim, p: Parser): Parser {
    if p.mode == Unquoted && p.record == [] && p.field == "" then p  // skip_empty_lines
    else EndRecord(EndField(t, p))
  }

  function Step(t: Trim, p: Parser, c: char): Parser {
    match p.mode
    case Failed => p
    case Quoted => if c == '"' then p.(mode := QuoteInQuoted) else p.(field := p.field + [c])
    case Unquoted =>
      if c == '"' then (if p.field == "" then p.(mode := Quoted) else p.(mode := Failed))
      else if c == '\n' then EndLine(t, p)
      else if c == ',' then EndField(t, p)
      else if p.field == "" && t.left(c) then p
      else p.(field := p.field + [c])
    case QuoteInQuoted =>
      if c == '"' then p.(mode := Quoted, field := p.field + [c])
      else if c == '\n' then EndLine(t, p)
      else if c == ',' then EndField(t, p)
      else p.(mode := if t.left(c) then AfterQuote else Failed)
    case AfterQuote =>
      if c == '\n' then EndLine(t, p)
      else if c == ',' then EndField(t, p)
      else if t.left(c) then p
      else p.(mode := Failed)
  }

  function Run(t: Trim, p: Parser, text: string): Parser
    decreases |text|
  {
    if text == "" then p else Run(t, Step(t, p, text[0]), text[1..])
  }

  /** End of input: an open quote is an error, an unfinished last line is a record. */
  function Finish(t: Trim, p: Parser): Parsed {
    match p.mode
    case Failed => Parsed(p.records, false)
    case Quoted => Parsed(p.records, false)
    case _ => var q := EndLine(t, p); Parsed(q.records, q.mode != Failed)
  }

  function Parse(t: Trim, text: string): Parsed { Finish(t, Run(t, START, text)) }

  // ------------------------------------------------------------- normal form

  /** What a value is after export and import. */
  function Normal(t: Trim, v: Value): string {
    match v
    case Null => ""
    case Txt(s) => if NeedsQuotes(s) then s else TrimRight(t.right, TrimLeft(t.left, s))
  }

  function NormalRow(t: Trim, vs: seq<Value>): (r: seq<string>)
    ensures |r| == |vs|
  {
    if vs == [] then [] else [Normal(t, vs[0])] + NormalRow(t, vs[1..])
  }

  /** A value printed as nothing but droppable characters. */
  predicate Blank(t: Trim, v: Value) {
    v.Null? || (!NeedsQuotes(v.s) && TrimLeft(t.left, v.s) == "")
  }

  /** A one-column line with a blank cell is an empty line to the parser. */
  predicate Survives(t: Trim, vs: seq<Value>) {
    !(|vs| == 1 && Blank(t, vs[0]))
  }

  function NormalRows(t: Trim, rows: seq<seq<Value>>): seq<seq<string>> {
    if rows == [] then []
    else (if Survives(t, rows[0]) then [NormalRow(t, rows[0])] else []) + NormalRows(t, rows[1..])
  }

  // ------------------------------------------------------------------ proofs

  lemma {:induction false} RunConcat(t: Trim, p: Parser, a: string, b: string)
    ensures Run(t, p, a + b) == Run(t, Run(t, p, a), b)
    decreases |a|
  {
    if a == "" {
      assert a + b == b;
    } else {
      assert (a + b)[1..] == a[1..] + b;
      RunConcat(t, Step(t, p, a[0]), a[1..], b);
    }
  }

  lemma {:induction false} RunPlain(t: Trim, p: Parser, s: string)
    requires p.mode == Unquoted && !NeedsQuotes(s)
    ensures Run(t, p, s) == p.(field := if p.field == "" then TrimLeft(t.left, s) else p.field + s)
    decreases |s|
  {
    if s == "" {
      assert p.field + s == p.field;
    } else {
      var q := Step(t, p, s[0]);
      assert forall c <- s[1..] :: c in s;
      RunPlain(t, q, s[1..]);
      assert [s[0]] + s[1..] == s;
      assert p.field + [s[0]] + s[1..] == p.field + s;
    }
  }

  lemma {:induction false} RunQuoted(t: Trim, p: Parser, s: string)
    requires p.mode == Quoted
    ensures Run(t, p, DoubleQuotes(s)) == p.(field := p.field + s)
    decreases |s|
  {
    if s == "" {
      assert p.field + s == p.field;
    } else {
      var head := if s[0] == '"' then "\"\"" else [s[0]];
      var q := p.(field := p.field + [s[0]]);
      RunConcat(t, p, head, DoubleQuotes(s[1..]));
      if s[0] == '"' {
        assert head[1..] == "\"";
        assert Run(t, p, head) == Run(t, Step(t, p, '"'), "\"") == q;
      } else {
        assert Run(t, p, head) == q;
      }
      RunQuoted(t, q, s[1..]);
      assert q.field + s[1..] == p.field + s;
    }
  }

  /** Reading one printed cell stops just before the field's end, with its normal form. */
  lemma RunCell(t: Trim, p: Parser, v: Value)
    requires p.mode == Unquoted && p.field == ""
    ensures var q := Run(t, p, CsvCell(v));
            && q.mode in {Unquoted, QuoteInQuoted}
            && q.record == p.record && q.records == p.records
            && FieldText(t, q) == Normal(t, v)
            && ((q.mode == Unquoted && q.field == "") <==> Blank(t, v))
  {
    match v
    case Null =>
    case Txt(s) =>
      if NeedsQuotes(s) {
        var body := DoubleQuotes(s);
        var q0 := p.(mode := Quoted);
        assert CsvCell(v) == "\"" + (body + "\"");
        assert CsvCell(v)[1..] == body + "\"";
        assert Run(t, p, CsvCell(v)) == Run(t, q0, body + "\"");
        RunConcat(t, q0, body, "\"");
        RunQuoted(t, q0, s);
        var q1 := q0.(field := q0.field + s);
        assert Run(t, q1, "\"") == Step(t, q1, '"');
        assert q0.field + s == s;
      } else {
        RunPlain(t, p, s);
      }
  }

  lemma LineSplit(vs: seq<Value>)
    requires vs != []
    ensures Line(vs) == CsvCell(vs[0]) + if |vs| == 1 then "\n" else "," + Line(vs[1..])
  {
    var cells := CsvCells(vs);
    assert cells[1..] == CsvCells(vs[1..]);
    if |vs| > 1 {
      assert Join(cells, ",") == cells[0] + "," + Join(cells[1..], ",");
      assert cells[0] + "," + Join(cells[1..], ",") + "\n" == cells[0] + ("," + (Join(cells[1..], ",") + "\n"));
    }
  }

  lemma RunThen(t: Trim, p: Parser, a: string, q: Parser, c: char, rest: string)
    requires Run(t, p, a) == q
    ensures Run(t, p, a + ([c] + rest)) == Run(t, Step(t, q, c), rest)
  {
    RunConcat(t, p, a, [c] + rest);
    assert ([c] + rest)[1..] == rest;
  }

  /** Reading a printed line appends exactly one record, or nothing for a blank line. */
  lemma {:induction false} RunLine(t: Trim, p: Parser, vs: seq<Value>)
    requires p.mode == Unquoted && p.field == "" && vs != []
    ensures Run(t, p, Line(vs)) ==
            if p.record == [] && !Survives(t, vs) then p
            else EndRecord(p.(record := p.record + NormalRow(t, vs)))
    decreases |vs|
  {
    var cell := CsvCell(vs[0]);
    var q := Run(t, p, cell);
    RunCell(t, p, vs[0]);
    LineSplit(vs);
    if |vs| == 1 {
      RunThen(t, p, cell, q, '\n', "");
      assert "\n" == ['\n'] + "";
      assert NormalRow(t, vs) == [Normal(t, vs[0])];
      assert Run(t, p, Line(vs)) == EndLine(t, q);
    } else {
      var rest := Line(vs[1..]);
      var q1 := p.(record := p.record + [Normal(t, vs[0])]);
      assert EndField(t, q) == q1;
      RunThen(t, p, cell, q, ',', rest);
      assert Run(t, p, Line(vs)) == Run(t, q1, rest);
      RunLine(t, q1, vs[1..]);
      Associate(p.record, [Normal(t, vs[0])], NormalRow(t, vs[1..]));
    }
  }

  /** The parser between two records. */
  function Between(records: seq<seq<string>>): Parser { Parser(Unquoted, "", [], records) }

  ghost predicate AllWide<T>(rows: seq<seq<T>>, width: nat) {
    forall i :: 0 <= i < |rows| ==> |rows[i]| == width
  }

  lemma RunTableLine(t: Trim, records: seq<seq<string>>, row: seq<Value>)
    requires row != [] && AllWide(records, |row|)
    ensures var line := NormalRows(t, [row]);
            AllWide(line, |row|) && Run(t, Between(records), Line(row)) == Between(records + line)
  {
    RunLine(t, Between(records), row);
    assert [] + NormalRow(t, row) == NormalRow(t, row);
    assert NormalRows(t, [row]) == if Survives(t, row) then [NormalRow(t, row)] else [];
    assert records + [] == records;
  }

  lemma {:induction false} RunLines(t: Trim, records: seq<seq<string>>, rows: seq<seq<Value>>, width: nat)
    requires width >= 1 && AllWide(records, width) && AllWide(rows, width)
    ensures Run(t, Between(records), Lines(rows)) == Between(records + NormalRows(t, rows))
    decreases |rows|
  {
    if rows == [] {
      assert records + NormalRows(t, rows) == records;
    } else {
      var line, rest := NormalRows(t, [rows[0]]), rows[1..];
      RunTableLine(t, records, rows[0]);
      RunConcat(t, Between(records), Line(rows[0]), Lines(rest));
      RunLines(t, records + line, rest, width);
      NormalRowsCons(t, rows);
      Associate(records, line, NormalRows(t, rest));
    }
  }

  lemma NormalRowsCons(t: Trim, rows: seq<seq<Value>>)
    requires rows != []
    ensures NormalRows(t, rows) == NormalRows(t, [rows[0]]) + NormalRows(t, rows[1..])
  {
    assert [rows[0]][1..] == [];
  }

  /** The parser maps printed rows of equal positive width to exactly their normal forms. */
  lemma ParsePrinted(t: Trim, rows: seq<seq<Value>>, width: nat)
    requires width >= 1 && AllWide(rows, width)
    ensures Parse(t, Lines(rows)) == Parsed(NormalRows(t, rows), true)
  {
    RunLines(t, [], rows, width);
    assert [] + NormalRows(t, rows) == NormalRows(t, rows);
  }

  // --------------------------------------------- what the parser always gives

  ghost predicate Rectangular(records: seq<seq<string>>) {
    records != [] ==> AllWide(records, |records[0]|)
  }

  lemma {:induction false} RunRectangular(t: Trim, p: Parser, text: string)
    requires Rectangular(p.records)
    ensures Rectangular(Run(t, p, text).records)
    decreases |text|
  {
    if text != "" {
      RunRectangular(t, Step(t, p, text[0]), text[1..]);
    }
  }

  /** Whatever the text, the delivered records all have the width of the first one. */
  lemma ParseRectangular(t: Trim, text: string)
    ensures Rectangular(Parse(t, text).records)
  {
    RunRectangular(t, START, text);
  }

  // ------------------------------------------------------------ malformed text

  lemma {:induction false} FailedStays(t: Trim, p: Parser, text: string)
    requires p.mode == Failed
    ensures Run(t, p, text) == p
    decreases |text|
  {
    if text != "" { FailedStays(t, p, text[1..]); }
  }

  lemma OpenQuote(t: Trim, s: string)
    ensures Run(t, START, "\"" + DoubleQuotes(s)) == START.(mode := Quoted, field := s)
  {
    var q := START.(mode := Quoted);
    assert ("\"" + DoubleQuotes(s))[1..] == DoubleQuotes(s);
    RunQuoted(t, q, s);
    assert q.field + s == s;
  }

  /**
   Three texts that are no CSV are errors, whatever comes after: a quote inside an unquoted field,
   text after a closing quote, and a quote that is never closed.
   */
  lemma MalformedRejected(t: Trim, s: string, c: char, rest: string)
    ensures !NeedsQuotes(s) && TrimLeft(t.left, s) != "" ==> !Parse(t, s + (['"'] + rest)).ok
    ensures c != '"' && c != ',' && c != '\n' && !t.left(c) ==>
              !Parse(t, "\"" + DoubleQuotes(s) + (['"'] + ([c] + rest))).ok
    ensures !Parse(t, "\"" + DoubleQuotes(s)).ok
  {
    if !NeedsQuotes(s) && TrimLeft(t.left, s) != "" {
      RunPlain(t, START, s);
      var q := Run(t, START, s);
      RunThen(t, START, s, q, '"', rest);
      FailedStays(t, Step(t, q, '"'), rest);
    }
    OpenQuote(t, s);
    if c != '"' && c != ',' && c != '\n' && !t.left(c) {
      var open, text := START.(mode := Quoted, field := s), "\"" + DoubleQuotes(s);
      var closed := Step(t, open, '"');
      RunThen(t, START, text, open, '"', [c] + rest);
      assert ([c] + rest)[1..] == rest;
      FailedStays(t, Step(t, closed, c), rest);
    }
  }

  // ------------------------------------------------------- exact normal form

  /** Trimming drops the blanks at the front, all of them and nothing else. */
  lemma {:induction false} TrimLeftExact(blank: char -> bool, s: string) returns (i: nat)
    ensures i <= |s| && TrimLeft(blank, s) == s[i..]
    ensures (forall k :: 0 <= k < i ==> blank(s[k])) && (i < |s| ==> !blank(s[i]))
    decreases |s|
  {
    i := 0;
    if s != "" && blank(s[0]) {
      var j := TrimLeftExact(blank, s[1..]);
      i := j + 1;
      assert forall k :: 0 < k < |s| ==> s[k] == s[1..][k - 1];
    }
  }

  /** ... and at the end. */
  lemma {:induction false} TrimRightExact(blank: char -> bool, s: string) returns (n: nat)
    ensures n <= |s| && TrimRight(blank, s) == s[..n]
    ensures (forall k :: n <= k < |s| ==> blank(s[k])) && (n > 0 ==> !blank(s[n - 1]))
    decreases |s|
  {
    n := |s|;
    if s != "" && blank(s[|s| - 1]) {
      n := TrimRightExact(blank, s[..|s| - 1]);
    }
  }

  /** A table as the exporter writes it, to the character, whatever order the row's keys are in. */
  lemma TableOfTwo(a: string, b: string, x: string, y: string)
    requires a != b && !NeedsQuotes(a) && !NeedsQuotes(b) && !NeedsQuotes(x) && !NeedsQuotes(y)
    ensures Lines(Matrix([a, b], [map[b := Txt(y), a := Txt(x)]])) == (a + "," + b + "\n") + (x + "," + y + "\n")
  {
    var m := Matrix([a, b], [map[b := Txt(y), a := Txt(x)]]);
    assert m[0] == [Txt(a), Txt(b)];
    assert m[1] == [Txt(x), Txt(y)];
    assert m == [m[0], m[1]];
    LineOfTwo(a, b);
    LineOfTwo(x, y);
    LinesOfTwo(m[0], m[1]);
  }

  /** A cell is written as it is unless it holds a quote, a comma or a line break; then it stands in quotes. */
  lemma QuotedExactly(s: string)
    ensures CsvCell(Txt(s)) == s <==> '"' !in s && ',' !in s && '\n' !in s && '\r' !in s
    ensures CsvCell(Txt(s)) != s ==> CsvCell(Txt(s)) == "\"" + DoubleQuotes(s) + "\""
  {
    DoublingGrows(s);
  }

  lemma {:induction false} DoublingGrows(s: string)
    ensures |DoubleQuotes(s)| >= |s|
  {
    if s != "" { DoublingGrows(s[1..]); }
  }

  /** Quoting as section 2 of RFC 4180 has it, to the character. */
  lemma SampleQuotes()
    ensures CsvCell(Txt("a\"b")) == "\"a\"\"b\"" && CsvCell(Null) == "" && CsvCell(Txt("ab")) == "ab"
  {
    var s := "a\"b";
    assert s[1] == '"' && s[1..] == "\"b" && s[1..][1..] == "b" && "b"[1..] == "";
    assert DoubleQuotes("b") == "b";
    assert DoubleQuotes("\"b") == "\"\"b";
    assert DoubleQuotes(s) == "a\"\"b";
  }

  lemma LinesOfTwo(a: seq<Value>, b: seq<Value>)
    ensures Lines([a, b]) == Line(a) + Line(b)
  {
    assert [a, b][1..] == [b] && [b][1..] == [];
    assert Lines([b]) == Line(b) + "";
  }

  lemma LineOfTwo(a: string, b: string)
    requires !NeedsQuotes(a) && !NeedsQuotes(b)
    ensures Line([Txt(a), Txt(b)]) == a + "," + b + "\n"
  {
    var vs := [Txt(a), Txt(b)];
    assert vs[1..] == [Txt(b)] && vs[1..][1..] == [];
    assert CsvCells(vs[1..]) == [b] by { assert CsvCells([]) == []; }
    assert CsvCells(vs) == [a] + [b] == [a, b];
    assert [a, b][1..] == [b] && Join([a, b], ",") == a + "," + Join([b], ",");
  }

  /** A cell comes back unchanged exactly when it is text that is quoted or has no blank ends. */
  lemma NormalExact(t: Trim, v: Value)
    ensures v.Txt? ==> (Normal(t, v) == v.s <==>
              NeedsQuotes(v.s) || v.s == "" || (!t.left(v.s[0]) && !t.right(v.s[|v.s| - 1])))
  {
    if v.Txt? && !NeedsQuotes(v.s) && v.s != "" {
      TrimLeftShrinks(t.left, v.s);
      TrimRightShrinks(t.right, TrimLeft(t.left, v.s));
    }
  }

  lemma {:induction false} TrimLeftShrinks(blank: char -> bool, s: string)
    ensures |TrimLeft(blank, s)| <= |s|
    decreases |s|
    ensures s != "" ==> if blank(s[0]) then |TrimLeft(blank, s)| < |s| else TrimLeft(blank, s) == s
  {
    if s != "" && blank(s[0]) { TrimLeftShrinks(blank, s[1..]); }
  }

  lemma {:induction false} TrimRightShrinks(blank: char -> bool, s: string)
    ensures |TrimRight(blank, s)| <= |s|
    decreases |s|
    ensures s != "" ==> if blank(s[|s| - 1]) then |TrimRight(blank, s)| < |s| else TrimRight(blank, s) == s
  {
    if s != "" && blank(s[|s| - 1]) { TrimRightShrinks(blank, s[..|s| - 1]); }
  }

  // ------------------------------------------------------------- the exporter

  /** exportProcessor's CSV branch: the header line, then one line per row. */
  method ExportCsv(columns: seq<string>, rows: seq<map<string, Value>>) returns (text: string)
    ensures text == Lines(Matrix(columns, rows))
  {
    text := Join(CsvCells(Header(columns)), ",") + "\n";
    var n := 0;
    while n < |rows|
      invariant 0 <= n <= |rows|
      invariant text == Lines(Matrix(columns, rows[..n]))
    {
      text := text + (Join(CsvCells(Pick(columns, rows[n])), ",") + "\n");
      MatrixSnoc(columns, rows[..n], rows[n]);
      assert rows[..n] + [rows[n]] == rows[..n + 1];
      n := n + 1;
    }
    assert rows[..n] == rows;
  }

  lemma MatrixSnoc(columns: seq<string>, rows: seq<map<string, Value>>, last: map<string, Value>)
    ensures Lines(Matrix(columns, rows + [last])) == Lines(Matrix(columns, rows)) + Line(Pick(columns, last))
  {
    LinesSnoc(Matrix(columns, rows), Pick(columns, last));
    assert Matrix(columns, rows + [last]) == Matrix(columns, rows) + [Pick(columns, last)];
  }

  lemma {:induction false} LinesSnoc(rows: seq<seq<Value>>, last: seq<Value>)
    ensures Lines(rows + [last]) == Lines(rows) + Line(last)
  {
    if rows == [] {
      assert rows + [last] == [last];
    } else {
      LinesSnoc(rows[1..], last);
      assert (rows + [last])[1..] == rows[1..] + [last];
    }
  }
}
