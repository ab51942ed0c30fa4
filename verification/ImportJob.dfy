/**
 The import job as the queue runs it, and the round trip from an exported table to the rows
 an import adds.
 */
module ImportJob {
  import opened Text
  import opened Import
  import SqlText
  import Csv

  /**
   One attempt's outside events: whether an await before importCsv fails (adapter, markRunning,
   progress, storage), whether one after it fails (markDone, notification, close), how many records
   a failing parser delivers, and how many of the inserts' awaits succeed before one fails.
   */
  datatype Attempt = Attempt(early: bool, late: bool, seen: nat, healthy: nat)

  /** How many data records the attempt adds. */
  ghost function Piece(table: string, p: Csv.Parsed, a: Attempt): (k: nat)
    ensures k <= |Body(p.records)|
  {
    if a.early then 0 else Added(table, Delivered(p, a.seen), !p.ok, a.healthy)
  }

  /** The attempt's first batch is reached, insertable and gets through. */
  ghost predicate Adds(table: string, p: Csv.Parsed, a: Attempt) {
    var records := Delivered(p, a.seen);
    && !a.early && Body(records) != [] && (p.ok || |Body(records)| >= BATCH)
    && Importable(table, records) && a.healthy >= 2
  }

  /** The attempt gets every record in, whether or not it then reports success. */
  ghost predicate AddsAll(table: string, p: Csv.Parsed, a: Attempt) {
    !a.early && Completes(table, p.records, !p.ok, a.healthy)
  }

  ghost predicate Succeeds(table: string, p: Csv.Parsed, a: Attempt) { AddsAll(table, p, a) && !a.late }

  /** Whole batches or everything; nothing, or everything, exactly as the attempt's failures say. */
  lemma PieceFacts(table: string, p: Csv.Parsed, a: Attempt)
    ensures var k := Piece(table, p, a);
            && (Whole(k) || k == |Body(p.records)|) && (k > 0 <==> Adds(table, p, a))
            && (AddsAll(table, p, a) ==> k == |Body(p.records)|)
  {
    ThroughFacts(|Body(Delivered(p, a.seen))|, !p.ok, a.healthy);
  }

  /** The rows that attempts adding `ks` records append, attempt after attempt. */
  ghost function Appended(table: string, records: seq<seq<string>>, ks: seq<nat>): seq<Inserted>
    requires forall i :: 0 <= i < |ks| ==> ks[i] <= |Body(records)|
  {
    if ks == [] then [] else Imported(table, records, ks[0]) + Appended(table, records, ks[1..])
  }

  /** importProcessor, CSV format; `audit` never throws and the catch branch adds no row. */
  method ImportProcessor(w: World, t: Csv.Trim, text: string, table: string, a: Attempt)
    returns (ok: bool, ghost k: nat)
    modifies w
    ensures var p := Csv.Parse(t, text);
            && k == Piece(table, p, a) && w.rows == old(w.rows) + Imported(table, p.records, k)
            && (ok <==> Succeeds(table, p, a))
  {
    ghost var p := Csv.Parse(t, text);
    w.healthy := a.healthy;
    if a.early {
      assert Imported(table, p.records, 0) == [];
      return false, 0;
    }
    var total;
    total, k := ImportCsv(w, t, text, a.seen, table);
    ok := total.Ok? && !a.late;
  }

  /** The attempts run so far, `ks[i]` records added by attempt `i`, the last one successful or not. */
  ghost predicate Ran(table: string, p: Csv.Parsed, plan: seq<Attempt>, ks: seq<nat>, ok: bool) {
    && |ks| <= |plan|
    && (forall i :: 0 <= i < |ks| ==> ks[i] == Piece(table, p, plan[i]))
    && (forall i :: 0 <= i < |ks| - 1 ==> !Succeeds(table, p, plan[i]))
    && (ok <==> ks != [] && Succeeds(table, p, plan[|ks| - 1])) && (!ok ==> |ks| == |plan|)
  }

  lemma RanCons(table: string, p: Csv.Parsed, plan: seq<Attempt>, k: nat, more: seq<nat>, ok: bool)
    requires plan != [] && k == Piece(table, p, plan[0])
    requires if Succeeds(table, p, plan[0]) then ok && more == [] else Ran(table, p, plan[1..], more, ok)
    ensures Ran(table, p, plan, [k] + more, ok)
    ensures Appended(table, p.records, [k] + more) == Imported(table, p.records, k) + Appended(table, p.records, more)
  {
    assert ([k] + more)[1..] == more;
    assert forall i :: 1 <= i < |plan| ==> plan[i] == plan[1..][i - 1];
    if !Succeeds(table, p, plan[0]) {
      forall i | 1 <= i <= |more| ensures ([k] + more)[i] == Piece(table, p, plan[i]) {
        assert more[i - 1] == Piece(table, p, plan[1..][i - 1]);
      }
      forall i | 1 <= i < |more| ensures !Succeeds(table, p, plan[i]) {
        assert !Succeeds(table, p, plan[1..][i - 1]);
      }
    }
  }

  /** The queue runs the planned attempts, one after another, until one succeeds. */
  method RunImport(w: World, t: Csv.Trim, text: string, table: string, plan: seq<Attempt>)
    returns (ok: bool, ghost ks: seq<nat>)
    modifies w
    ensures var p := Csv.Parse(t, text);
            Ran(table, p, plan, ks, ok) && w.rows == old(w.rows) + Appended(table, p.records, ks)
  {
    ghost var p, start := Csv.Parse(t, text), w.rows;
    if plan == [] { return false, []; }
    ghost var k, more;
    ok, k := ImportProcessor(w, t, text, table, plan[0]);
    more := [];
    if !ok { ok, more := RunImport(w, t, text, table, plan[1..]); }
    ks := [k] + more;
    RanCons(table, p, plan, k, more, ok);
    Associate(start, Imported(table, p.records, k), Appended(table, p.records, more));
  }

  lemma AppendedOne(table: string, records: seq<seq<string>>, k: nat)
    requires k <= |Body(records)|
    ensures Appended(table, records, [k]) == Imported(table, records, k)
  {
    assert [k][1..] == [];
  }

  lemma {:induction false} AppendedSnoc(table: string, records: seq<seq<string>>, ks: seq<nat>, k: nat)
    requires k <= |Body(records)| && forall i :: 0 <= i < |ks| ==> ks[i] <= |Body(records)|
    ensures Appended(table, records, ks + [k]) == Appended(table, records, ks) + Imported(table, records, k)
  {
    if ks == [] {
      AppendedOne(table, records, k);
      assert ks + [k] == [k];
    } else {
      AppendedSnoc(table, records, ks[1..], k);
      assert (ks + [k])[1..] == ks[1..] + [k];
      Associate(Imported(table, records, ks[0]), Appended(table, records, ks[1..]), Imported(table, records, k));
    }
  }

  lemma {:induction false} AppendedNothing(table: string, records: seq<seq<string>>, ks: seq<nat>)
    requires forall i :: 0 <= i < |ks| ==> ks[i] <= |Body(records)|
    ensures Appended(table, records, ks) == [] <==> forall i :: 0 <= i < |ks| ==> ks[i] == 0
  {
    if ks != [] {
      AppendedNothing(table, records, ks[1..]);
      assert forall i :: 1 <= i < |ks| ==> ks[i] == ks[1..][i - 1];
    }
  }

  lemma AppendedOnce(table: string, records: seq<seq<string>>, ks: seq<nat>)
    requires ks != [] && (forall i :: 0 <= i < |ks| ==> ks[i] <= |Body(records)|)
    requires ks[|ks| - 1] == |Body(records)|
    ensures Appended(table, records, ks) == Imported(table, records, |Body(records)|) <==>
            forall i :: 0 <= i < |ks| - 1 ==> ks[i] == 0
  {
    var init := ks[..|ks| - 1];
    assert ks == init + [ks[|ks| - 1]] && forall i :: 0 <= i < |init| ==> init[i] == ks[i];
    AppendedSnoc(table, records, init, ks[|ks| - 1]);
    AppendedNothing(table, records, init);
  }

  lemma SameStart<T>(start: seq<T>, a: seq<T>, b: seq<T>)
    ensures start + a == start + b <==> a == b
  {
    assert (start + a)[|start|..] == a && (start + b)[|start|..] == b;
  }

  /**
   The exact condition, on file and plan, for a job to add each record exactly once: no attempt
   before the first successful one gets as far as committing its first batch.
   */
  method ExactlyOnce(w: World, t: Csv.Trim, text: string, table: string, plan: seq<Attempt>, ghost n: nat) returns (ok: bool)
    requires n < |plan| && Succeeds(table, Csv.Parse(t, text), plan[n])
    requires forall i :: 0 <= i < n ==> !Succeeds(table, Csv.Parse(t, text), plan[i])
    modifies w
    ensures ok
    ensures var p := Csv.Parse(t, text);
            w.rows == old(w.rows) + Imported(table, p.records, |Body(p.records)|) <==>
            forall i :: 0 <= i < n ==> !Adds(table, p, plan[i])
  {
    ghost var p, start := Csv.Parse(t, text), w.rows;
    ghost var ks;
    ok, ks := RunImport(w, t, text, table, plan);
    assert |ks| == n + 1;
    forall i | 0 <= i <= n ensures ks[i] > 0 <==> Adds(table, p, plan[i]) { PieceFacts(table, p, plan[i]); }
    PieceFacts(table, p, plan[n]);
    AppendedOnce(table, p.records, ks);
    SameStart(start, Appended(table, p.records, ks), Imported(table, p.records, |Body(p.records)|));
    assert (forall i :: 0 <= i < n ==> ks[i] == 0) <==> forall i :: 0 <= i < n ==> !Adds(table, p, plan[i]);
  }

  lemma {:induction false} SomeAwaits(n: nat)
    requires n > 0
    ensures Awaits(n) >= 2
  {
    if n > BATCH { SomeAwaits(n - BATCH); }
  }

  /** No await of the inserts fails in this attempt. */
  ghost predicate Healthy(p: Csv.Parsed, a: Attempt) { a.healthy >= Awaits(|Body(p.records)|) }

  /**
   With a healthy database and an importable file with data, the condition is on the kind of
   failure alone: every attempt before the first clean one must fail before the inserts.
   */
  method ExactlyOnceHealthy(w: World, t: Csv.Trim, text: string, table: string, plan: seq<Attempt>) returns (ok: bool)
    requires Csv.Parse(t, text).ok && Importable(table, Csv.Parse(t, text).records)
    requires Body(Csv.Parse(t, text).records) != [] && plan != []
    requires forall i :: 0 <= i < |plan| ==>
               Healthy(Csv.Parse(t, text), plan[i]) && (i < |plan| - 1 <==> plan[i].early || plan[i].late)
    modifies w
    ensures ok
    ensures var p := Csv.Parse(t, text);
            w.rows == old(w.rows) + Imported(table, p.records, |Body(p.records)|) <==>
            forall i :: 0 <= i < |plan| - 1 ==> plan[i].early
  {
    ghost var p := Csv.Parse(t, text);
    SomeAwaits(|Body(p.records)|);
    forall i | 0 <= i < |plan|
      ensures Succeeds(table, p, plan[i]) <==> i == |plan| - 1
      ensures Adds(table, p, plan[i]) <==> !plan[i].early
    {
      assert Healthy(p, plan[i]) && Delivered(p, plan[i].seen) == p.records;
    }
    ok := ExactlyOnce(w, t, text, table, plan, |plan| - 1);
    assert (forall i :: 0 <= i < |plan| - 1 ==> !Adds(table, p, plan[i])) <==>
           forall i :: 0 <= i < |plan| - 1 ==> plan[i].early;
  }

  /**
   Jobs are documented as idempotent. Import is not: for every importable file, one failure
   after the inserts makes the successful retry add every row a second time.
   */
  method RetryDuplicates(w: World, t: Csv.Trim, text: string, table: string)
    requires Csv.Parse(t, text).ok && Importable(table, Csv.Parse(t, text).records)
    modifies w
    ensures var records := Csv.Parse(t, text).records;
            var once := Imported(table, records, |Body(records)|);
            w.rows == old(w.rows) + (once + once)
  {
    var p := Csv.Parse(t, text);
    var n, calls := |Body(p.records)|, Awaits(|Body(p.records)|);
    var late, fine := Attempt(false, true, 0, calls), Attempt(false, false, 0, calls);
    var plan := [late, fine, fine];
    var ok, ks := RunImport(w, t, text, table, plan);
    assert !Succeeds(table, p, plan[0]) && AddsAll(table, p, plan[0]) && Succeeds(table, p, plan[1]);
    PieceFacts(table, p, late);
    PieceFacts(table, p, fine);
    assert |ks| == 2 && plan[0] == late && plan[1] == fine;
    assert ks == [n] + [n];
    AppendedOne(table, p.records, n);
    AppendedSnoc(table, p.records, [n], n);
  }

  // ----------------------------------------------------------------- round trip

  /** The header line is kept unless the table has one column whose name prints blank. */
  predicate HeaderKept(t: Csv.Trim, columns: seq<string>) { Csv.Survives(t, Csv.Header(columns)) }

  function DataRows(t: Csv.Trim, columns: seq<string>, rows: seq<map<string, Csv.Value>>): seq<seq<string>> {
    Csv.NormalRows(t, Csv.Matrix(columns, rows)[1..])
  }

  /** What the parser delivers for an exported table: without its header line, the first row comes first. */
  function Exported(t: Csv.Trim, columns: seq<string>, rows: seq<map<string, Csv.Value>>): seq<seq<string>> {
    (if HeaderKept(t, columns) then [Csv.NormalRow(t, Csv.Header(columns))] else []) + DataRows(t, columns, rows)
  }

  /**
   Parsing an exported table gives the normal header and the normal rows exactly when the
   header line is kept or no row is left; otherwise the first row is taken for the header.
   */
  lemma ExportParses(t: Csv.Trim, columns: seq<string>, rows: seq<map<string, Csv.Value>>)
    requires columns != []
    ensures var p := Csv.Parse(t, Csv.Lines(Csv.Matrix(columns, rows)));
            var data := DataRows(t, columns, rows);
            && p.ok && p.records == Exported(t, columns, rows)
            && (Body(p.records) == data <==> HeaderKept(t, columns) || data == [])
  {
    var m := Csv.Matrix(columns, rows);
    Csv.ParsePrinted(t, m, |columns|);
    Csv.NormalRowsCons(t, m);
    assert Csv.NormalRows(t, [m[0]]) == if HeaderKept(t, columns) then [Csv.NormalRow(t, m[0])] else [] by {
      assert [m[0]][1..] == [];
    }
  }

  /** The header line is lost exactly for a single column whose name is nothing but droppable characters. */
  lemma HeaderLostExactly(t: Csv.Trim, columns: seq<string>)
    ensures !HeaderKept(t, columns) <==>
            |columns| == 1 && !Csv.NeedsQuotes(columns[0]) && forall i :: 0 <= i < |columns[0]| ==> t.left(columns[0][i])
  {
    if |columns| == 1 { TrimToNothing(t.left, columns[0]); }
  }

  /** A legal column name for which it is lost: a single blank. */
  lemma BlankHeaderLost(t: Csv.Trim)
    requires t.left(' ')
    ensures !HeaderKept(t, [" "])
  {
    HeaderLostExactly(t, [" "]);
  }

  lemma {:induction false} TrimToNothing(blank: char -> bool, s: string)
    ensures Csv.TrimLeft(blank, s) == "" <==> forall i :: 0 <= i < |s| ==> blank(s[i])
    decreases |s|
  {
    if s != "" && blank(s[0]) {
      TrimToNothing(blank, s[1..]);
      assert forall i :: 1 <= i < |s| ==> s[i] == s[1..][i - 1];
    }
  }

  /** A name that importCsv and insertRows both leave alone. */
  predicate Plain(t: Csv.Trim, name: string) {
    && '"' !in name
    && (Csv.NeedsQuotes(name) || name == "" || (!t.left(name[0]) && !t.right(name[|name| - 1])))
  }

  lemma PlainKept(t: Csv.Trim, name: string)
    ensures SqlText.StripQuotes(Csv.Normal(t, Csv.Txt(name))) == name <==> Plain(t, name)
  {
    NameKept(t, name);
    Csv.NormalExact(t, Csv.Txt(name));
  }

  /** The import's column list is the table's own exactly when every name is plain. */
  lemma {:induction false} ColumnsKept(t: Csv.Trim, columns: seq<string>, names: seq<Csv.Value>)
    requires |names| == |columns| && forall i :: 0 <= i < |columns| ==> names[i] == Csv.Txt(columns[i])
    ensures SqlText.StripAll(Csv.NormalRow(t, names)) == columns <==>
            forall i :: 0 <= i < |columns| ==> Plain(t, columns[i])
  {
    if columns != [] {
      var others := columns[1..];
      ColumnsKept(t, others, names[1..]);
      PlainKept(t, columns[0]);
      var first, rest := SqlText.StripQuotes(Csv.Normal(t, names[0])), SqlText.StripAll(Csv.NormalRow(t, names[1..]));
      assert SqlText.StripAll(Csv.NormalRow(t, names)) == [first] + rest;
      ConsEqual(first, rest, columns);
      assert forall i :: 0 <= i < |others| ==> others[i] == columns[i + 1];
    }
  }

  /** Two columns of one table can become one name: then no row of its export can be imported. */
  lemma TrimmedNamesClash(t: Csv.Trim, table: string)
    requires t.left(' ') && !t.left('a') && !t.right('a')
    ensures Distinct(["a", " a"]) && !Named(table, Csv.NormalRow(t, Csv.Header(["a", " a"])))
  {
    var columns := ["a", " a"];
    var names := Csv.Header(columns);
    assert columns[0] == "a" && columns[1] == " a" && |columns[0]| != |columns[1]|;
    assert Csv.TrimLeft(t.left, " a") == "a" && Csv.TrimLeft(t.left, "a") == "a" by { assert " a"[1..] == "a"; }
    assert Csv.TrimRight(t.right, "a") == "a";
    assert names[0] == Csv.Txt("a") && names[1] == Csv.Txt(" a") && names[1..][0] == names[1];
    assert Csv.Normal(t, names[0]) == "a" == Csv.Normal(t, names[1]);
    var read := Csv.NormalRow(t, names);
    assert read == [Csv.Normal(t, names[0])] + Csv.NormalRow(t, names[1..]);
    assert read[0] == read[1];
    assert SqlText.StripAll(read)[0] == SqlText.StripAll(read)[1];
  }

  lemma ConsEqual(first: string, rest: seq<string>, all: seq<string>)
    requires all != []
    ensures [first] + rest == all <==> first == all[0] && rest == all[1..]
  {
    assert [all[0]] + all[1..] == all;
    assert ([first] + rest)[1..] == rest;
  }

  lemma NameKept(t: Csv.Trim, name: string)
    ensures var read := Csv.Normal(t, Csv.Txt(name));
            SqlText.StripQuotes(read) == name <==> '"' !in name && read == name
  {
    var read := Csv.Normal(t, Csv.Txt(name));
    if SqlText.StripQuotes(read) == name && read != name {
      assert !Csv.NeedsQuotes(name);
      TrimSubset(t, name);
    }
  }

  lemma TrimSubset(t: Csv.Trim, s: string)
    requires '"' !in s
    ensures '"' !in Csv.TrimRight(t.right, Csv.TrimLeft(t.left, s))
  {
    LeftSubset(t.left, s);
    RightSubset(t.right, Csv.TrimLeft(t.left, s));
  }

  lemma {:induction false} LeftSubset(blank: char -> bool, s: string)
    ensures forall c <- Csv.TrimLeft(blank, s) :: c in s
    decreases |s|
  {
    if s != "" && blank(s[0]) { LeftSubset(blank, s[1..]); }
  }

  lemma {:induction false} RightSubset(blank: char -> bool, s: string)
    ensures forall c <- Csv.TrimRight(blank, s) :: c in s
    decreases |s|
  {
    if s != "" && blank(s[|s| - 1]) { RightSubset(blank, s[..|s| - 1]); }
  }

  /** The row's line reaches the import: not a one-column record whose cell prints blank. */
  predicate RowKept(t: Csv.Trim, columns: seq<string>, row: map<string, Csv.Value>) {
    |columns| != 1 || (columns[0] in row && !Csv.Blank(t, row[columns[0]]))
  }

  /** Which rows these are, in order. */
  function Survivors(t: Csv.Trim, columns: seq<string>, rows: seq<map<string, Csv.Value>>): seq<nat> {
    if rows == [] then []
    else
      var n := |rows| - 1;
      Survivors(t, columns, rows[..n]) + if RowKept(t, columns, rows[n]) then [n] else []
  }

  lemma {:induction false} SurvivorsExactly(t: Csv.Trim, columns: seq<string>, rows: seq<map<string, Csv.Value>>)
    ensures var kept := Survivors(t, columns, rows);
            && (forall i, j :: 0 <= i < j < |kept| ==> kept[i] < kept[j])
            && (forall i :: 0 <= i < |kept| ==> kept[i] < |rows| && RowKept(t, columns, rows[kept[i]]))
            && (forall r :: 0 <= r < |rows| && RowKept(t, columns, rows[r]) ==> r in kept)
  {
    if rows != [] {
      var init := rows[..|rows| - 1];
      SurvivorsExactly(t, columns, init);
      assert forall r :: 0 <= r < |init| ==> init[r] == rows[r];
    }
  }

  lemma {:induction false} NormalRowsSnoc(t: Csv.Trim, rows: seq<seq<Csv.Value>>, last: seq<Csv.Value>)
    ensures Csv.NormalRows(t, rows + [last]) ==
            Csv.NormalRows(t, rows) + if Csv.Survives(t, last) then [Csv.NormalRow(t, last)] else []
  {
    if rows == [] {
      assert rows + [last] == [last] && [last][1..] == [];
    } else {
      NormalRowsSnoc(t, rows[1..], last);
      assert (rows + [last])[1..] == rows[1..] + [last];
      var head := if Csv.Survives(t, rows[0]) then [Csv.NormalRow(t, rows[0])] else [];
      Associate(head, Csv.NormalRows(t, rows[1..]), if Csv.Survives(t, last) then [Csv.NormalRow(t, last)] else []);
    }
  }

  lemma {:induction false} NormalRowAt(t: Csv.Trim, vs: seq<Csv.Value>, c: nat)
    requires c < |vs|
    ensures Csv.NormalRow(t, vs)[c] == Csv.Normal(t, vs[c])
  {
    if c > 0 { NormalRowAt(t, vs[1..], c - 1); }
  }

  /** Cell `c` of a delivered row is the normal form of the exported row's value in that column. */
  ghost predicate CellsOf(t: Csv.Trim, columns: seq<string>, row: map<string, Csv.Value>, cells: seq<string>) {
    && |cells| == |columns|
    && forall c :: 0 <= c < |columns| ==>
         cells[c] == Csv.Normal(t, if columns[c] in row then row[columns[c]] else Csv.Null)
  }

  lemma RowNormal(t: Csv.Trim, columns: seq<string>, row: map<string, Csv.Value>)
    ensures CellsOf(t, columns, row, Csv.NormalRow(t, Csv.Pick(columns, row)))
    ensures columns != [] ==> (Csv.Survives(t, Csv.Pick(columns, row)) <==> RowKept(t, columns, row))
  {
    forall c | 0 <= c < |columns|
      ensures Csv.NormalRow(t, Csv.Pick(columns, row))[c] ==
              Csv.Normal(t, if columns[c] in row then row[columns[c]] else Csv.Null)
    {
      NormalRowAt(t, Csv.Pick(columns, row), c);
    }
  }

  lemma DataRowsSnoc(t: Csv.Trim, columns: seq<string>, init: seq<map<string, Csv.Value>>, last: map<string, Csv.Value>)
    requires columns != []
    ensures DataRows(t, columns, init + [last]) == DataRows(t, columns, init)
              + if RowKept(t, columns, last) then [Csv.NormalRow(t, Csv.Pick(columns, last))] else []
  {
    var m := Csv.Matrix(columns, init);
    assert Csv.Matrix(columns, init + [last]) == m + [Csv.Pick(columns, last)];
    assert (m + [Csv.Pick(columns, last)])[1..] == m[1..] + [Csv.Pick(columns, last)];
    NormalRowsSnoc(t, m[1..], Csv.Pick(columns, last));
    RowNormal(t, columns, last);
  }

  ghost predicate AllCellsOf(t: Csv.Trim, columns: seq<string>, rows: seq<map<string, Csv.Value>>, kept: seq<nat>,
                             data: seq<seq<string>>)
  {
    && |data| == |kept|
    && forall k :: 0 <= k < |kept| ==> kept[k] < |rows| && CellsOf(t, columns, rows[kept[k]], data[k])
  }

  lemma AllCellsSnoc(t: Csv.Trim, columns: seq<string>, init: seq<map<string, Csv.Value>>, last: map<string, Csv.Value>,
                     kept: seq<nat>, data: seq<seq<string>>, cells: seq<string>)
    requires AllCellsOf(t, columns, init, kept, data) && CellsOf(t, columns, last, cells)
    ensures AllCellsOf(t, columns, init + [last], kept, data)
    ensures AllCellsOf(t, columns, init + [last], kept + [|init|], data + [cells])
  {
  }

  /** The data rows are the surviving rows, in order, cell by cell. */
  lemma {:induction false} DataRowsAre(t: Csv.Trim, columns: seq<string>, rows: seq<map<string, Csv.Value>>)
    requires columns != []
    ensures AllCellsOf(t, columns, rows, Survivors(t, columns, rows), DataRows(t, columns, rows))
    decreases |rows|
  {
    if rows == [] {
      assert Csv.Matrix(columns, rows)[1..] == [];
    } else {
      var n := |rows| - 1;
      var init, last := rows[..n], rows[n];
      assert rows == init + [last];
      DataRowsAre(t, columns, init);
      DataRowsSnoc(t, columns, init, last);
      RowNormal(t, columns, last);
      AllCellsSnoc(t, columns, init, last, Survivors(t, columns, init), DataRows(t, columns, init),
                   Csv.NormalRow(t, Csv.Pick(columns, last)));
    }
  }

  /** A stored row holds, under each column, the normal form of the exported row's value in it. */
  ghost predicate Holds(t: Csv.Trim, columns: seq<string>, row: map<string, Csv.Value>, table: string, r: Inserted) {
    && r.table == SqlText.StripQuotes(table) && CellsOf(t, columns, row, r.cells)
    && |r.columns| == |columns|
    && forall c :: 0 <= c < |columns| ==> r.columns[c] == SqlText.StripQuotes(Csv.Normal(t, Csv.Txt(columns[c])))
  }

  lemma TaggedHolds(t: Csv.Trim, columns: seq<string>, rows: seq<map<string, Csv.Value>>, table: string, n: nat)
    requires columns != [] && n <= |DataRows(t, columns, rows)|
    ensures var header, kept := Csv.NormalRow(t, Csv.Header(columns)), Survivors(t, columns, rows);
            var added := Tagged(table, header, DataRows(t, columns, rows)[..n]);
            n <= |kept| && forall k :: 0 <= k < n ==>
              kept[k] < |rows| && Holds(t, columns, rows[kept[k]], table, added[k])
  {
    var header, kept := Csv.NormalRow(t, Csv.Header(columns)), Survivors(t, columns, rows);
    var data := DataRows(t, columns, rows);
    DataRowsAre(t, columns, rows);
    forall k | 0 <= k < n
      ensures kept[k] < |rows| && Holds(t, columns, rows[kept[k]], table, Tagged(table, header, data[..n])[k])
    {
      TaggedAt(table, header, data[..n], k);
      forall c | 0 <= c < |columns| ensures header[c] == Csv.Normal(t, Csv.Txt(columns[c])) {
        NormalRowAt(t, Csv.Header(columns), c);
      }
    }
  }

  /** The table gains rows for the first surviving rows of the export, in order, one each, and keeps its own. */
  ghost predicate Gains(t: Csv.Trim, columns: seq<string>, rows: seq<map<string, Csv.Value>>, table: string,
                        before: seq<Inserted>, after: seq<Inserted>)
  {
    var kept := Survivors(t, columns, rows);
    && |before| <= |after| <= |before| + |kept| && after[..|before|] == before
    && forall k :: 0 <= k < |after| - |before| ==>
         kept[k] < |rows| && Holds(t, columns, rows[kept[k]], table, after[|before| + k])
  }

  lemma GainsRows(t: Csv.Trim, columns: seq<string>, rows: seq<map<string, Csv.Value>>, table: string, n: nat,
                  before: seq<Inserted>, after: seq<Inserted>)
    requires columns != [] && n <= |DataRows(t, columns, rows)|
    requires after == before + Tagged(table, Csv.NormalRow(t, Csv.Header(columns)), DataRows(t, columns, rows)[..n])
    ensures Gains(t, columns, rows, table, before, after)
  {
    TaggedHolds(t, columns, rows, table, n);
  }

  /** Rows under a header can be inserted: usable, distinct names, and a batch that fits. */
  ghost predicate Usable(table: string, header: seq<string>, data: seq<seq<string>>) {
    data == [] || (Named(table, header) && Min(BATCH, |data|) * |header| <= MAX_PARAMS)
  }

  lemma ImportableExactly(table: string, header: seq<string>, data: seq<seq<string>>)
    requires Csv.AllWide(data, |header|)
    ensures Importable(table, [header] + data) <==> Usable(table, header, data)
    ensures Body([header] + data) == data
    ensures Imported(table, [header] + data, |data|) == Tagged(table, header, data)
  {
    assert ([header] + data)[1..] == data && ([header] + data)[1..|data| + 1] == data;
    FitsExactly(data, |header|);
  }

  lemma ExportedWide(t: Csv.Trim, columns: seq<string>, rows: seq<map<string, Csv.Value>>)
    requires columns != []
    ensures Csv.AllWide(Exported(t, columns, rows), |columns|)
  {
    NormalRowsWide(t, Csv.Matrix(columns, rows)[1..], |columns|);
  }

  lemma {:induction false} NormalRowsWide(t: Csv.Trim, rows: seq<seq<Csv.Value>>, width: nat)
    requires Csv.AllWide(rows, width)
    ensures Csv.AllWide(Csv.NormalRows(t, rows), width)
  {
    if rows != [] {
      NormalRowsWide(t, rows[1..], width);
      assert |rows[0]| == width;
    }
  }

  /**
   Export then import. With its header line kept, the target table gains the normal rows, in
   order; without it, the first row serves as header and only the others are added. When an await
   fails, it gains the batches before it.
   */
  method ExportThenImport(w: World, t: Csv.Trim, columns: seq<string>, rows: seq<map<string, Csv.Value>>, table: string)
    returns (total: Result<nat>)
    requires columns != []
    modifies w
    ensures var records := Exported(t, columns, rows);
            var data := Body(records);
            && (HeaderKept(t, columns) ==>
                  records[0] == Csv.NormalRow(t, Csv.Header(columns)) && data == DataRows(t, columns, rows))
            && (!HeaderKept(t, columns) ==> records == DataRows(t, columns, rows))
            && (records != [] ==>
                  var k := if Usable(table, records[0], data) then Through(|data|, false, old(w.healthy)) else 0;
                  && (total.Ok? <==> Usable(table, records[0], data) && old(w.healthy) >= Awaits(|data|))
                  && (total.Ok? ==> total.value == k == |data|)
                  && w.rows == old(w.rows) + Tagged(table, records[0], data[..k]))
            && (records == [] ==> total == Ok(0) && w.rows == old(w.rows))
    ensures HeaderKept(t, columns) ==> Gains(t, columns, rows, table, old(w.rows), w.rows)
    ensures HeaderKept(t, columns) && total.Ok? ==> |w.rows| == |old(w.rows)| + |Survivors(t, columns, rows)|
  {
    var text := Csv.ExportCsv(columns, rows);
    ExportParses(t, columns, rows);
    ExportedWide(t, columns, rows);
    ghost var records := Exported(t, columns, rows);
    if records != [] {
      assert records == [records[0]] + Body(records) && |records[0]| == |columns|;
      assert Csv.AllWide(Body(records), |records[0]|) by {
        assert forall i :: 0 <= i < |Body(records)| ==> Body(records)[i] == records[i + 1];
      }
      ImportableExactly(table, records[0], Body(records));
    }
    ghost var before, done := w.rows, 0;
    total, done := ImportCsv(w, t, text, 0, table);
    assert records != [] ==> records[1..done + 1] == Body(records)[..done];
    if HeaderKept(t, columns) {
      GainsRows(t, columns, rows, table, done, before, w.rows);
      DataRowsAre(t, columns, rows);
    }
  }
}
