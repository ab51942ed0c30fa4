/**
 The INSERT statement text that PostgresAdapter.insertRows builds, and a lexer and parser
 for it: what the database server reads back out of the generated text.
 */
module SqlText {
  import opened Text

  /** A multi-row parameterised INSERT: placeholder numbers, row by row. */
  datatype Insert = Insert(table: string, columns: seq<string>, params: seq<seq<nat>>)

  // ---------------------------------------------------------------- printing

  /** `s.replace(/"/g, '')`. */
  function StripQuotes(s: string): (r: string)
    ensures '"' !in r
    ensures '"' !in s ==> r == s
  {
    if s == "" then ""
    else if s[0] == '"' then StripQuotes(s[1..])
    else [s[0]] + StripQuotes(s[1..])
  }

  function StripAll(names: seq<string>): (r: seq<string>)
    ensures |r| == |names|
    ensures forall i :: 0 <= i < |names| ==> r[i] == StripQuotes(names[i])
  {
    if names == [] then [] else [StripQuotes(names[0])] + StripAll(names[1..])
  }

  /** Exactly the quotes go: with the first two clauses this determines the result for every text. */
  lemma {:induction false} StripQuotesExactly(s: string, t: string)
    ensures '"' !in s ==> StripQuotes(s) == s
    ensures StripQuotes("\"") == ""
    ensures StripQuotes(s + t) == StripQuotes(s) + StripQuotes(t)
  {
    if s == "" {
      assert s + t == t;
    } else {
      StripQuotesExactly(s[1..], t);
      assert (s + t)[1..] == s[1..] + t;
    }
  }

  function QuotedText(name: string): string { "\"" + name + "\"" }

  function ParamText(n: nat): string { "$" + Decimal(n) }

  function NameTexts(names: seq<string>): seq<string> {
    seq(|names|, i requires 0 <= i < |names| => QuotedText(names[i]))
  }

  function ParamTexts(row: seq<nat>): seq<string> {
    seq(|row|, i requires 0 <= i < |row| => ParamText(row[i]))
  }

  function TupleText(row: seq<nat>): string { "(" + Join(ParamTexts(row), ", ") + ")" }

  function TupleTexts(rows: seq<seq<nat>>): seq<string> {
    seq(|rows|, i requires 0 <= i < |rows| => TupleText(rows[i]))
  }

  function InsertText(st: Insert): string {
    "INSERT INTO " + QuotedText(st.table) + " (" + Join(NameTexts(st.columns), ", ") + ") VALUES "
    + Join(TupleTexts(st.params), ", ")
  }

  // ------------------------------------------------------------------ lexing

  datatype Token = Word(w: string) | Name(n: string) | Param(k: nat) | Open | Close | Comma

  predicate IsLetter(c: char) { 'A' <= c <= 'Z' }

  /** Reads decimal digits onto `acc`. */
  function ReadNumber(s: string, acc: nat): (r: (nat, string))
    ensures |r.1| <= |s|
    decreases |s|
  {
    if s != "" && IsDigit(s[0]) then ReadNumber(s[1..], 10 * acc + (s[0] as int - '0' as int)) else (acc, s)
  }

  function ReadWord(s: string): (r: (string, string))
    ensures |r.1| <= |s|
  {
    if s != "" && IsLetter(s[0]) then
      var r := ReadWord(s[1..]);
      ([s[0]] + r.0, r.1)
    else ("", s)
  }

  /** The rest of a quoted identifier; a doubled quote stands for one quote. */
  function ReadName(s: string): (r: Option<(string, string)>)
    ensures r.Some? ==> |r.value.1| < |s|
    decreases |s|
  {
    if s == "" then None
    else if s[0] == '"' && (|s| == 1 || s[1] != '"') then Some(("", s[1..]))
    else
      match ReadName(s[if s[0] == '"' then 2 else 1..])
      case None => None
      case Some(r) => Some(([s[0]] + r.0, r.1))
  }

  function Cat(toks: seq<Token>, rest: Option<seq<Token>>): Option<seq<Token>> {
    match rest
    case None => None
    case Some(more) => Some(toks + more)
  }

  function Lex(s: string): Option<seq<Token>>
    decreases |s|
  {
    if s == "" then Some([])
    else
      var c, more := s[0], s[1..];
      if c == ' ' then Lex(more)
      else if c == '(' then Cat([Open], Lex(more))
      else if c == ')' then Cat([Close], Lex(more))
      else if c == ',' then Cat([Comma], Lex(more))
      else if c == '"' then
        match ReadName(more)
        case None => None
        case Some(r) => Cat([Name(r.0)], Lex(r.1))
      else if c == '$' && more != "" && IsDigit(more[0]) then
        var r := ReadNumber(more, 0);
        Cat([Param(r.0)], Lex(r.1))
      else if IsLetter(c) then
        var r := ReadWord(more);
        Cat([Word([c] + r.0)], Lex(r.1))
      else None
  }

  // ----------------------------------------------------------------- parsing

  /** `atom, atom, ... )` : the atoms and what follows the parenthesis. */
  function ParseAtoms(toks: seq<Token>): (r: Option<(seq<Token>, seq<Token>)>)
    ensures r.Some? ==> |r.value.1| < |toks|
    decreases |toks|
  {
    if |toks| < 2 || !(toks[0].Name? || toks[0].Param?) then None
    else if toks[1].Close? then Some(([toks[0]], toks[2..]))
    else if !toks[1].Comma? then None
    else
      match ParseAtoms(toks[2..])
      case None => None
      case Some(r) => Some(([toks[0]] + r.0, r.1))
  }

  function ParseGroup(toks: seq<Token>): (r: Option<(seq<Token>, seq<Token>)>)
    ensures r.Some? ==> |r.value.1| < |toks|
  {
    if |toks| < 2 || !toks[0].Open? then None
    else if toks[1].Close? then Some(([], toks[2..]))
    else ParseAtoms(toks[1..])
  }

  function Names(atoms: seq<Token>): Option<seq<string>> {
    if atoms == [] then Some([])
    else
      match (atoms[0], Names(atoms[1..]))
      case (Name(n), Some(more)) => Some([n] + more)
      case _ => None
  }

  function Numbers(atoms: seq<Token>): Option<seq<nat>> {
    if atoms == [] then Some([])
    else
      match (atoms[0], Numbers(atoms[1..]))
      case (Param(k), Some(more)) => Some([k] + more)
      case _ => None
  }

  function ParseTuples(toks: seq<Token>): Option<seq<seq<nat>>>
    decreases |toks|
  {
    match ParseGroup(toks)
    case None => None
    case Some(g) =>
      match Numbers(g.0)
      case None => None
      case Some(row) =>
        if g.1 == [] then Some([row])
        else if !g.1[0].Comma? then None
        else
          match ParseTuples(g.1[1..])
          case None => None
          case Some(rows) => Some([row] + rows)
  }

  function ParseTokens(toks: seq<Token>): Option<Insert> {
    if |toks| < 3 || toks[0] != Word("INSERT") || toks[1] != Word("INTO") || !toks[2].Name? then None
    else
      match ParseGroup(toks[3..])
      case None => None
      case Some(g) =>
        if g.1 == [] || g.1[0] != Word("VALUES") then None
        else
          match (Names(g.0), ParseTuples(g.1[1..]))
          case (Some(columns), Some(params)) => Some(Insert(toks[2].n, columns, params))
          case _ => None
  }

  function ParseInsert(sql: string): Option<Insert> {
    match Lex(sql)
    case None => None
    case Some(toks) => ParseTokens(toks)
  }

  // ----------------------------------------------------- the tokens of a text

  function NameTokens(names: seq<string>): seq<Token> {
    seq(|names|, i requires 0 <= i < |names| => Name(names[i]))
  }

  function ParamTokens(row: seq<nat>): seq<Token> {
    seq(|row|, i requires 0 <= i < |row| => Param(row[i]))
  }

  function Commas(items: seq<seq<Token>>): seq<Token> {
    if items == [] then []
    else if |items| == 1 then items[0]
    else items[0] + [Comma] + Commas(items[1..])
  }

  function Singles(toks: seq<Token>): seq<seq<Token>> {
    seq(|toks|, i requires 0 <= i < |toks| => [toks[i]])
  }

  function Group(atoms: seq<Token>): seq<Token> { [Open] + Commas(Singles(atoms)) + [Close] }

  function TupleTokens(rows: seq<seq<nat>>): seq<seq<Token>> {
    seq(|rows|, i requires 0 <= i < |rows| => Group(ParamTokens(rows[i])))
  }

  function InsertTokens(st: Insert): seq<Token> {
    [Word("INSERT"), Word("INTO"), Name(st.table)] + Group(NameTokens(st.columns)) + [Word("VALUES")]
    + Commas(TupleTokens(st.params))
  }

  // ---------------------------------------------------------- lexing, proved

  /** Text that cannot extend the token before it. */
  predicate Safe(rest: string) {
    rest == "" || rest[0] in " ,()"
  }

  ghost predicate Lexes(text: string, toks: seq<Token>) {
    forall rest {:trigger Lex(text + rest)} | Safe(rest) :: Lex(text + rest) == Cat(toks, Lex(rest))
  }

  lemma {:induction false} ReadDecimal(n: nat, rest: string)
    ensures ReadNumber(Decimal(n) + rest, 0) == ReadNumber(rest, n)
    ensures IsDigit(Decimal(n)[0])
    decreases n
  {
    if n < 10 {
      assert (Decimal(n) + rest)[1..] == rest;
    } else {
      var last := [DIGITS[n % 10]];
      ReadDecimal(n / 10, last + rest);
      assert Decimal(n) + rest == Decimal(n / 10) + (last + rest);
      assert (last + rest)[1..] == rest;
    }
  }

  lemma {:induction false} ReadPlainName(name: string, rest: string)
    requires '"' !in name && (rest == "" || rest[0] != '"')
    ensures ReadName(name + "\"" + rest) == Some((name, rest))
  {
    var s := name + "\"" + rest;
    if name == "" {
      assert s[1..] == rest;
    } else {
      assert s[1..] == name[1..] + "\"" + rest;
      ReadPlainName(name[1..], rest);
      assert [name[0]] + name[1..] == name;
    }
  }

  lemma LexesName(name: string)
    requires '"' !in name
    ensures Lexes(QuotedText(name), [Name(name)])
  {
    forall rest | Safe(rest) ensures Lex(QuotedText(name) + rest) == Cat([Name(name)], Lex(rest)) {
      assert (QuotedText(name) + rest)[1..] == name + "\"" + rest;
      ReadPlainName(name, rest);
    }
  }

  lemma LexesParam(n: nat)
    ensures Lexes(ParamText(n), [Param(n)])
  {
    forall rest | Safe(rest) ensures Lex(ParamText(n) + rest) == Cat([Param(n)], Lex(rest)) {
      assert (ParamText(n) + rest)[1..] == Decimal(n) + rest;
      ReadDecimal(n, rest);
    }
  }

  lemma CatCat(a: seq<Token>, b: seq<Token>, rest: Option<seq<Token>>)
    ensures Cat(a, Cat(b, rest)) == Cat(a + b, rest)
  {
    if rest.Some? { assert a + (b + rest.value) == a + b + rest.value; }
  }

  /** A comma-separated list of lexable items lexes item by item. */
  lemma {:induction false} LexesJoin(texts: seq<string>, items: seq<seq<Token>>)
    requires |texts| == |items|
    requires forall i :: 0 <= i < |texts| ==> Lexes(texts[i], items[i])
    ensures Lexes(Join(texts, ", "), Commas(items))
  {
    var text := Join(texts, ", ");
    forall rest | Safe(rest) ensures Lex(text + rest) == Cat(Commas(items), Lex(rest)) {
      if texts == [] {
        assert text + rest == rest;
        CatCat([], [], Lex(rest));
        if Lex(rest).Some? { assert [] + Lex(rest).value == Lex(rest).value; }
      } else if |texts| == 1 {
        assert Lexes(texts[0], items[0]);
      } else {
        var more := Join(texts[1..], ", ") + rest;
        LexesJoin(texts[1..], items[1..]);
        assert text + rest == texts[0] + (", " + more);
        assert Lexes(texts[0], items[0]);
        assert Safe(", " + more);
        assert (", " + more)[1..] == " " + more && (" " + more)[1..] == more;
        assert Lex(", " + more) == Cat([Comma], Lex(more));
        CatCat([Comma], Commas(items[1..]), Lex(rest));
        CatCat(items[0], [Comma] + Commas(items[1..]), Lex(rest));
        assert items[0] + ([Comma] + Commas(items[1..])) == Commas(items);
      }
    }
  }

  lemma LexesGroup(texts: seq<string>, atoms: seq<Token>)
    requires |texts| == |atoms|
    requires forall i :: 0 <= i < |texts| ==> Lexes(texts[i], [atoms[i]])
    ensures Lexes("(" + Join(texts, ", ") + ")", Group(atoms))
  {
    var body, toks := Join(texts, ", "), Commas(Singles(atoms));
    LexesJoin(texts, Singles(atoms));
    forall rest | Safe(rest) ensures Lex("(" + body + ")" + rest) == Cat(Group(atoms), Lex(rest)) {
      var tail := ")" + rest;
      LexBracket(')', rest);
      LexBracket('(', body + tail);
      Associate("(" + body, ")", rest);
      Associate("(", body, tail);
      assert Lex(body + tail) == Cat(toks, Lex(tail));
      CatCat(toks, [Close], Lex(rest));
      CatCat([Open], toks + [Close], Lex(rest));
      assert [Open] + (toks + [Close]) == Group(atoms);
    }
  }

  lemma LexBracket(c: char, rest: string)
    requires c in "()"
    ensures Safe([c] + rest) && Lex([c] + rest) == Cat([if c == '(' then Open else Close], Lex(rest))
  {
    assert ([c] + rest)[1..] == rest;
  }

  lemma LexesTuple(row: seq<nat>)
    ensures Lexes(TupleText(row), Group(ParamTokens(row)))
  {
    forall i | 0 <= i < |row| ensures Lexes(ParamTexts(row)[i], [ParamTokens(row)[i]]) { LexesParam(row[i]); }
    LexesGroup(ParamTexts(row), ParamTokens(row));
  }

  lemma LexWord(w: string, rest: string)
    requires w in ["INSERT", "INTO", "VALUES"]
    ensures Lex(w + " " + rest) == Cat([Word(w)], Lex(rest))
  {
    ReadLetters(w[1..], " " + rest);
    assert (w + " " + rest)[1..] == w[1..] + (" " + rest);
    assert [w[0]] + w[1..] == w;
    assert (" " + rest)[1..] == rest;
  }

  lemma {:induction false} ReadLetters(w: string, rest: string)
    requires (forall c <- w :: IsLetter(c)) && (rest == "" || !IsLetter(rest[0]))
    ensures ReadWord(w + rest) == (w, rest)
  {
    if w == "" {
      assert w + rest == rest;
    } else {
      assert (w + rest)[1..] == w[1..] + rest;
      ReadLetters(w[1..], rest);
      assert [w[0]] + w[1..] == w;
    }
  }

  ghost predicate Quotable(st: Insert) {
    '"' !in st.table && forall i :: 0 <= i < |st.columns| ==> '"' !in st.columns[i]
  }

  lemma LexValues(names: string, nameToks: seq<Token>, tuples: string, tupleToks: seq<Token>)
    requires Lexes(names, nameToks) && Lexes(tuples, tupleToks)
    ensures Lex(" " + names + (" VALUES " + tuples)) == Some(nameToks + [Word("VALUES")] + tupleToks)
  {
    var tail := " VALUES " + tuples;
    assert tuples + "" == tuples && Safe("");
    assert tupleToks + [] == tupleToks && Lex(tuples) == Some(tupleToks);
    LexWord("VALUES", tuples);
    assert tail[1..] == "VALUES" + " " + tuples;
    assert Lex(tail) == Cat([Word("VALUES")], Some(tupleToks));
    assert (" " + names + tail)[1..] == names + tail && Safe(tail);
    CatCat(nameToks, [Word("VALUES")], Some(tupleToks));
    assert " " + names + tail == " " + (names + tail);
  }

  lemma LexFrame(table: string, more: string, toks: seq<Token>)
    requires '"' !in table && Lex(more) == Some(toks) && Safe(more)
    ensures Lex("INSERT INTO " + QuotedText(table) + more) ==
            Some([Word("INSERT"), Word("INTO"), Name(table)] + toks)
  {
    var named := QuotedText(table) + more;
    var phrase := "INTO" + " " + named;
    LexesName(table);
    assert Lex(named) == Some([Name(table)] + toks);
    LexWord("INTO", named);
    assert [Word("INTO")] + ([Name(table)] + toks) == [Word("INTO"), Name(table)] + toks;
    LexWord("INSERT", phrase);
    assert [Word("INSERT")] + ([Word("INTO"), Name(table)] + toks) == [Word("INSERT"), Word("INTO"), Name(table)] + toks;
    FrameShape(table, more);
  }

  lemma FrameShape(table: string, more: string)
    ensures "INSERT INTO " + QuotedText(table) + more == "INSERT" + " " + ("INTO" + " " + (QuotedText(table) + more))
  {
    assert "INSERT INTO " == "INSERT" + " " + "INTO" + " ";
  }

  lemma LexInsert(st: Insert)
    requires Quotable(st)
    ensures Lex(InsertText(st)) == Some(InsertTokens(st))
  {
    var names, tuples := "(" + Join(NameTexts(st.columns), ", ") + ")", Join(TupleTexts(st.params), ", ");
    var nameToks, tupleToks := Group(NameTokens(st.columns)), Commas(TupleTokens(st.params));
    forall i | 0 <= i < |st.columns| ensures Lexes(NameTexts(st.columns)[i], [NameTokens(st.columns)[i]]) {
      LexesName(st.columns[i]);
    }
    LexesGroup(NameTexts(st.columns), NameTokens(st.columns));
    forall i | 0 <= i < |st.params| ensures Lexes(TupleTexts(st.params)[i], TupleTokens(st.params)[i]) {
      LexesTuple(st.params[i]);
    }
    LexesJoin(TupleTexts(st.params), TupleTokens(st.params));
    LexValues(names, nameToks, tuples, tupleToks);
    LexFrame(st.table, " " + names + (" VALUES " + tuples), nameToks + [Word("VALUES")] + tupleToks);
    InsertShape(st, names, tuples);
    assert [Word("INSERT"), Word("INTO"), Name(st.table)] + (nameToks + [Word("VALUES")] + tupleToks)
        == InsertTokens(st);
  }

  lemma InsertShape(st: Insert, names: string, tuples: string)
    requires names == "(" + Join(NameTexts(st.columns), ", ") + ")" && tuples == Join(TupleTexts(st.params), ", ")
    ensures InsertText(st) == "INSERT INTO " + QuotedText(st.table) + (" " + names + (" VALUES " + tuples))
  {
  }

  // --------------------------------------------------------- parsing, proved

  lemma {:induction false} ParseCommas(atoms: seq<Token>, rest: seq<Token>)
    requires atoms != [] && forall i :: 0 <= i < |atoms| ==> atoms[i].Name? || atoms[i].Param?
    ensures ParseAtoms(Commas(Singles(atoms)) + [Close] + rest) == Some((atoms, rest))
  {
    var toks := Commas(Singles(atoms)) + [Close] + rest;
    if |atoms| == 1 {
      assert toks == [atoms[0], Close] + rest && toks[2..] == rest && [atoms[0]] == atoms;
    } else {
      assert Singles(atoms)[1..] == Singles(atoms[1..]);
      assert toks == [atoms[0], Comma] + (Commas(Singles(atoms[1..])) + [Close] + rest);
      assert toks[2..] == Commas(Singles(atoms[1..])) + [Close] + rest;
      ParseCommas(atoms[1..], rest);
      assert [atoms[0]] + atoms[1..] == atoms;
    }
  }

  lemma ParseGroupOf(atoms: seq<Token>, rest: seq<Token>)
    requires forall i :: 0 <= i < |atoms| ==> atoms[i].Name? || atoms[i].Param?
    ensures ParseGroup(Group(atoms) + rest) == Some((atoms, rest))
  {
    var toks := Group(atoms) + rest;
    if atoms == [] {
      assert toks == [Open, Close] + rest;
    } else {
      assert toks[1..] == Commas(Singles(atoms)) + [Close] + rest;
      ParseCommas(atoms, rest);
      assert |toks| >= 2 && !toks[1].Close? by {
        assert toks[1] == (Commas(Singles(atoms)))[0];
      }
    }
  }

  lemma {:induction false} NamesOf(names: seq<string>)
    ensures Names(NameTokens(names)) == Some(names)
  {
    if names != [] {
      NamesOf(names[1..]);
      assert NameTokens(names)[1..] == NameTokens(names[1..]);
      assert [names[0]] + names[1..] == names;
    }
  }

  lemma {:induction false} NumbersOf(row: seq<nat>)
    ensures Numbers(ParamTokens(row)) == Some(row)
  {
    if row != [] {
      NumbersOf(row[1..]);
      assert ParamTokens(row)[1..] == ParamTokens(row[1..]);
      assert [row[0]] + row[1..] == row;
    }
  }

  lemma {:induction false} ParseTuplesOf(rows: seq<seq<nat>>)
    requires rows != []
    ensures ParseTuples(Commas(TupleTokens(rows))) == Some(rows)
  {
    var toks, first := Commas(TupleTokens(rows)), ParamTokens(rows[0]);
    NumbersOf(rows[0]);
    if |rows| == 1 {
      ParseGroupOf(first, []);
      assert toks == Group(first) + [] && [rows[0]] == rows;
    } else {
      assert TupleTokens(rows)[1..] == TupleTokens(rows[1..]);
      var more := [Comma] + Commas(TupleTokens(rows[1..]));
      assert toks == Group(first) + more;
      ParseGroupOf(first, more);
      assert more[1..] == Commas(TupleTokens(rows[1..]));
      ParseTuplesOf(rows[1..]);
      assert [rows[0]] + rows[1..] == rows;
    }
  }

  lemma ParseTokensOf(st: Insert)
    requires st.params != []
    ensures ParseTokens(InsertTokens(st)) == Some(st)
  {
    var atoms := NameTokens(st.columns);
    var tail := [Word("VALUES")] + Commas(TupleTokens(st.params));
    TokensShape(st, atoms, tail);
    ParseGroupOf(atoms, tail);
    NamesOf(st.columns);
    assert tail[1..] == Commas(TupleTokens(st.params));
    ParseTuplesOf(st.params);
  }

  lemma TokensShape(st: Insert, atoms: seq<Token>, tail: seq<Token>)
    requires atoms == NameTokens(st.columns) && tail == [Word("VALUES")] + Commas(TupleTokens(st.params))
    ensures var toks := InsertTokens(st);
            |toks| >= 3 && toks[..3] == [Word("INSERT"), Word("INTO"), Name(st.table)] && toks[3..] == Group(atoms) + tail
  {
    assert InsertTokens(st) == [Word("INSERT"), Word("INTO"), Name(st.table)] + (Group(atoms) + tail);
  }

  /** Reading the generated text back gives the table, the columns and the placeholder matrix. */
  lemma ParsePrinted(st: Insert)
    requires Quotable(st) && st.params != []
    ensures ParseInsert(InsertText(st)) == Some(st)
  {
    LexInsert(st);
    ParseTokensOf(st);
  }
}
