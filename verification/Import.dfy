/**
 CSV import: importCsv batches the parsed records, insertRows batches again and binds values
 through numbered placeholders, and importProcessor runs under the queue's three attempts.
 */
module Import {
  import opened Text
  import SqlText
  import Csv

  const BATCH := 500
  const MAX_PARAMS := 65535  // a bind message counts parameters in 16 bits

  /** One row as the target database stores it. */
  datatype Inserted = Inserted(table: string, columns: seq<string>, cells: seq<string>)

  function Min(a: nat, b: nat): nat { if a < b then a else b }

  // --------------------------------------------------------------- placeholders

  /** `$${ri * columns.length + ci + 1}` for every cell of the batch, ragged rows included. */
  function Numbered(batch: seq<seq<string>>, cols: nat): (m: seq<seq<nat>>)
    ensures |m| == |batch|
    ensures forall ri :: 0 <= ri < |batch| ==> |m[ri]| == |batch[ri]|
  {
    seq(|batch|, ri requires 0 <= ri < |batch| =>
      seq(|batch[ri]|, ci requires 0 <= ci < |batch[ri]| => ri * cols + ci + 1))
  }

  lemma {:induction false} FlattenWide(batch: seq<seq<string>>, cols: nat)
    requires Csv.AllWide(batch, cols)
    ensures |Flatten(batch)| == |batch| * cols
  {
    if batch != [] { FlattenWide(batch[1..], cols); }
  }

  lemma {:induction false} FlattenAt(batch: seq<seq<string>>, cols: nat, ri: nat, ci: nat)
    requires Csv.AllWide(batch, cols) && ri < |batch| && ci < cols
    ensures 0 <= ri * cols + ci < |batch| * cols == |Flatten(batch)|
    ensures Flatten(batch)[ri * cols + ci] == batch[ri][ci]
  {
    FlattenWide(batch, cols);
    var rest := batch[1..];
    FlattenWide(rest, cols);
    if ri > 0 {
      FlattenAt(rest, cols, ri - 1, ci);
      assert ri * cols + ci == cols + ((ri - 1) * cols + ci);
    } else {
      assert 0 * cols + ci == ci;
      assert |batch| * cols == cols + |rest| * cols;
    }
  }

  /** Every placeholder evaluates, against the flattened values, to the cell it stands for. */
  lemma PlaceholderBinding(batch: seq<seq<string>>, cols: nat, ri: nat, ci: nat)
    requires Csv.AllWide(batch, cols) && ri < |batch| && ci < cols
    ensures var k := Numbered(batch, cols)[ri][ci];
            1 <= k <= |Flatten(batch)| && Flatten(batch)[k - 1] == batch[ri][ci]
  {
    FlattenAt(batch, cols, ri, ci);
  }

  function UpTo(n: nat): (s: seq<nat>)
    ensures |s| == n && forall i :: 0 <= i < n ==> s[i] == i + 1
  {
    seq(n, i => i + 1)
  }

  lemma OneMore(n: nat, cols: nat)
    ensures (n + 1) * cols == n * cols + cols
  {
  }

  lemma UpToAppend(n: nat, row: seq<nat>)
    requires forall c :: 0 <= c < |row| ==> row[c] == n + c + 1
    ensures UpTo(n) + row == UpTo(n + |row|)
  {
  }

  /** Read row by row, the placeholders are 1, 2, 3, ... with none skipped or repeated. */
  lemma {:induction false} PlaceholdersInOrder(batch: seq<seq<string>>, cols: nat)
    requires Csv.AllWide(batch, cols)
    ensures Flatten(Numbered(batch, cols)) == UpTo(|batch| * cols)
  {
    if batch == [] {
      assert 0 * cols == 0;
    } else {
      var last := |batch| - 1;
      var init, row := batch[..last], Numbered(batch, cols)[last];
      PlaceholdersInOrder(init, cols);
      FlattenSnoc(Numbered(init, cols), row);
      assert Numbered(batch, cols) == Numbered(init, cols) + [row];
      UpToAppend(last * cols, row);
      OneMore(last, cols);
    }
  }

  // ------------------------------------------------------------ database server

  /** What the server checks before it runs a parsed statement with `n` bound values. */
  predicate Executable(st: SqlText.Insert, n: nat) {
    && st.table != "" && st.columns != [] && Distinct(st.columns) && n <= MAX_PARAMS
    && (forall i :: 0 <= i < |st.columns| ==> st.columns[i] != "")
    && (forall r :: 0 <= r < |st.params| ==> |st.params[r]| == |st.columns|)
    && (forall r :: 0 <= r < |st.params| ==> InRange(st.params[r], n))
  }

  predicate InRange(row: seq<nat>, n: nat) { forall c :: 0 <= c < |row| ==> 1 <= row[c] <= n }

  predicate Accepts(sql: string, values: seq<string>) {
    var st := SqlText.ParseInsert(sql);
    st.Some? && Executable(st.value, |values|)
  }

  function BindRow(row: seq<nat>, values: seq<string>): seq<string>
    requires InRange(row, |values|)
  {
    seq(|row|, c requires 0 <= c < |row| => values[row[c] - 1])
  }

  /** The rows a statement adds: every placeholder replaced by its value. */
  function Stored(st: SqlText.Insert, values: seq<string>): seq<Inserted>
    requires Executable(st, |values|)
  {
    seq(|st.params|, r requires 0 <= r < |st.params| =>
      Inserted(st.table, st.columns, BindRow(st.params[r], values)))
  }

  /**
   The outside world: the target table, and how many of the coming awaits succeed before one
   fails. An import stops at its first failed await, so later ones do not matter to it.
   */
  class World {
    var rows: seq<Inserted>
    var healthy: nat

    method Await() returns (ok: bool)
      modifies this`healthy
      ensures ok <==> old(healthy) >= 1
      ensures healthy == old(healthy) - if ok then 1 else 0
    {
      ok := healthy > 0;
      if ok { healthy := healthy - 1; }
    }

    /** `client.query(sql, values)`: all of the statement's rows, or an error and none. */
    method Query(sql: string, values: seq<string>) returns (ok: bool)
      modifies this
      ensures ok <==> old(healthy) >= 1 && Accepts(sql, values)
      ensures rows == old(rows) + if ok then Stored(SqlText.ParseInsert(sql).value, values) else []
      ensures ok ==> healthy == old(healthy) - 1
    {
      var up := Await();
      ok := up && Accepts(sql, values);
      if ok { rows := rows + Stored(SqlText.ParseInsert(sql).value, values); }
    }
  }

  // ----------------------------------------------------------------- insertRows

  function Statement(table: string, columns: seq<string>, batch: seq<seq<string>>): SqlText.Insert {
    SqlText.Insert(SqlText.StripQuotes(table), SqlText.StripAll(columns), Numbered(batch, |columns|))
  }

  /** The rows insertRows is asked to add, as the database would store them. */
  ghost function Tagged(table: string, columns: seq<string>, rows: seq<seq<string>>): (r: seq<Inserted>)
    ensures |r| == |rows|
  {
    if rows == [] then []
    else [Inserted(SqlText.StripQuotes(table), SqlText.StripAll(columns), rows[0])] + Tagged(table, columns, rows[1..])
  }

  lemma {:induction false} TaggedAt(table: string, columns: seq<string>, rows: seq<seq<string>>, i: nat)
    requires i < |rows|
    ensures Tagged(table, columns, rows)[i] == Inserted(SqlText.StripQuotes(table), SqlText.StripAll(columns), rows[i])
  {
    if i > 0 { TaggedAt(table, columns, rows[1..], i - 1); }
  }

  lemma {:induction false} TaggedConcat(table: string, columns: seq<string>, a: seq<seq<string>>, b: seq<seq<string>>)
    ensures Tagged(table, columns, a + b) == Tagged(table, columns, a) + Tagged(table, columns, b)
  {
    if a == [] {
      assert a + b == b;
    } else {
      TaggedConcat(table, columns, a[1..], b);
      assert (a + b)[1..] == a[1..] + b;
      var first := [Inserted(SqlText.StripQuotes(table), SqlText.StripAll(columns), a[0])];
      assert Tagged(table, columns, a) == first + Tagged(table, columns, a[1..]);
      Associate(first, Tagged(table, columns, a[1..]), Tagged(table, columns, b));
    }
  }

  ghost predicate Named(table: string, columns: seq<string>) {
    && SqlText.StripQuotes(table) != "" && columns != [] && Distinct(SqlText.StripAll(columns))
    && forall i :: 0 <= i < |columns| ==> SqlText.StripQuotes(columns[i]) != ""
  }

  /** The values of the first batch, which is a largest one, fit one bind message. */
  ghost predicate Fits(rows: seq<seq<string>>) {
    |Flatten(rows[..Min(BATCH, |rows|)])| <= MAX_PARAMS
  }

  /** Counted in columns: the limit is on columns times rows, at most 131 columns for a full batch. */
  lemma FitsExactly(rows: seq<seq<string>>, cols: nat)
    requires Csv.AllWide(rows, cols)
    ensures Fits(rows) <==> (if |rows| < 500 then |rows| else 500) * cols <= 65535
    ensures |rows| >= BATCH ==> (Fits(rows) <==> cols <= 131)
  {
    FlattenWide(rows[..Min(BATCH, |rows|)], cols);
  }

  /** A batch fits when the first one does. */
  lemma FitsSlice(rows: seq<seq<string>>, cols: nat, i: nat, j: nat)
    requires i <= j <= |rows| && j - i <= BATCH && Csv.AllWide(rows[..j], cols)
    requires if i == 0 then j == Min(BATCH, |rows|) else i >= BATCH
    ensures Fits(rows) ==> Fits(rows[i..j])
    ensures i == 0 && Fits(rows[i..j]) ==> Fits(rows)
  {
    var part := rows[i..j];
    assert part[..Min(BATCH, |part|)] == part;
    if i > 0 {
      var first := rows[..BATCH];
      assert forall k :: 0 <= k < |part| ==> part[k] == rows[..j][i + k];
      assert forall k :: 0 <= k < BATCH ==> first[k] == rows[..j][k];
      FlattenWide(part, cols);
      FlattenWide(first, cols);
      MulMonotone(|part|, BATCH, cols);
    }
  }

  lemma MulMonotone(a: nat, b: nat, c: nat)
    requires a <= b
    ensures a * c <= b * c
  {
  }

  /** The exact condition for every batch of a call to be accepted. */
  ghost predicate Insertable(table: string, columns: seq<string>, rows: seq<seq<string>>) {
    && Named(table, columns) && Csv.AllWide(rows, |columns|)
    && Fits(rows)
  }

  /** Binding a row of placeholders gives back the row. */
  lemma RowBinds(batch: seq<seq<string>>, cols: nat, r: nat)
    requires Csv.AllWide(batch, cols) && r < |batch|
    ensures var row := Numbered(batch, cols)[r];
            InRange(row, |Flatten(batch)|) && BindRow(row, Flatten(batch)) == batch[r]
  {
    var row, values := Numbered(batch, cols)[r], Flatten(batch);
    forall c | 0 <= c < cols ensures 1 <= row[c] <= |values| && values[row[c] - 1] == batch[r][c] {
      PlaceholderBinding(batch, cols, r, c);
    }
    BindExact(row, values, batch[r]);
  }

  lemma BindExact(row: seq<nat>, values: seq<string>, cells: seq<string>)
    requires |row| == |cells|
    requires forall c :: 0 <= c < |row| ==> 1 <= row[c] <= |values| && values[row[c] - 1] == cells[c]
    ensures InRange(row, |values|) && BindRow(row, values) == cells
  {
  }

  lemma ExecutableExactly(table: string, columns: seq<string>, batch: seq<seq<string>>)
    requires 0 < |batch| <= BATCH
    ensures Executable(Statement(table, columns, batch), |Flatten(batch)|) <==> Insertable(table, columns, batch)
  {
    var st, values := Statement(table, columns, batch), Flatten(batch);
    assert batch[..Min(BATCH, |batch|)] == batch;
    if Csv.AllWide(batch, |columns|) {
      FlattenWide(batch, |columns|);
      forall r | 0 <= r < |batch| ensures InRange(st.params[r], |values|) {
        RowBinds(batch, |columns|, r);
      }
    } else {
      var r :| 0 <= r < |batch| && |batch[r]| != |columns|;
      assert |st.params[r]| != |st.columns|;
    }
  }

  lemma CellsBound(table: string, columns: seq<string>, batch: seq<seq<string>>)
    requires Executable(Statement(table, columns, batch), |Flatten(batch)|) && Csv.AllWide(batch, |columns|)
    ensures Stored(Statement(table, columns, batch), Flatten(batch)) == Tagged(table, columns, batch)
  {
    var st, values := Statement(table, columns, batch), Flatten(batch);
    forall r | 0 <= r < |batch| ensures Stored(st, values)[r] == Tagged(table, columns, batch)[r] {
      RowBinds(batch, |columns|, r);
      TaggedAt(table, columns, batch, r);
    }
  }

  /** The server runs a text read back as the batch's statement exactly when the batch is insertable. */
  lemma BatchStored(table: string, columns: seq<string>, batch: seq<seq<string>>, sql: string)
    requires 0 < |batch| <= BATCH && SqlText.ParseInsert(sql) == Some(Statement(table, columns, batch))
    ensures Accepts(sql, Flatten(batch)) <==> Insertable(table, columns, batch)
    ensures Accepts(sql, Flatten(batch)) ==>
              Stored(SqlText.ParseInsert(sql).value, Flatten(batch)) == Tagged(table, columns, batch)
  {
    ExecutableExactly(table, columns, batch);
    if Insertable(table, columns, batch) { CellsBound(table, columns, batch); }
  }

  /** The text and the bound values of one batch, built row by row. */
  method BuildInsert(table: string, columns: seq<string>, batch: seq<seq<string>>)
    returns (sql: string, values: seq<string>)
    ensures sql == SqlText.InsertText(Statement(table, columns, batch))
    ensures values == Flatten(batch)
  {
    var safeTable := SqlText.StripQuotes(table);
    var safeCols := Join(SqlText.NameTexts(SqlText.StripAll(columns)), ", ");
    var tuples: seq<string> := [];
    values := [];
    for ri := 0 to |batch|
      invariant values == Flatten(batch[..ri])
      invariant tuples == SqlText.TupleTexts(Numbered(batch[..ri], |columns|))
    {
      var row := batch[ri];
      var ph := seq(|row|, ci requires 0 <= ci < |row| => ri * |columns| + ci + 1);
      FlattenSnoc(batch[..ri], row);
      assert batch[..ri + 1] == batch[..ri] + [row];
      assert Numbered(batch[..ri + 1], |columns|) == Numbered(batch[..ri], |columns|) + [ph];
      values := values + row;
      tuples := tuples + [SqlText.TupleText(ph)];
    }
    assert batch[..|batch|] == batch;
    sql := "INSERT INTO " + SqlText.QuotedText(safeTable) + " (" + safeCols + ") VALUES " + Join(tuples, ", ");
  }

  /** One turn of the batch loop. */
  method InsertBatch(w: World, table: string, columns: seq<string>, batch: seq<seq<string>>) returns (ok: bool)
    requires 0 < |batch| <= BATCH
    modifies w
    ensures ok <==> old(w.healthy) >= 1 && Insertable(table, columns, batch)
    ensures w.rows == old(w.rows) + if ok then Tagged(table, columns, batch) else []
    ensures ok ==> w.healthy == old(w.healthy) - 1
  {
    var sql, values := BuildInsert(table, columns, batch);
    SqlText.ParsePrinted(Statement(table, columns, batch));
    BatchStored(table, columns, batch, sql);
    ok := w.Query(sql, values);
  }

  /** A whole number of batches. */
  predicate Whole(n: nat) { n == 0 || (n >= BATCH && Whole(n - BATCH)) }

  lemma {:induction false} WholeMultiple(n: nat)
    ensures Whole(n) <==> n % 500 == 0
  {
    if n >= BATCH { WholeMultiple(n - BATCH); }
  }

  /** How many batches, and so queries, `n` rows make. */
  function Batches(n: nat): nat { if n == 0 then 0 else 1 + Batches(n - Min(BATCH, n)) }

  function FirstBatch(rows: seq<seq<string>>): seq<seq<string>> { rows[..Min(BATCH, |rows|)] }

  /**
   Batch by batch; `done` rows are in when a batch fails, and they are whole batches. The call
   succeeds exactly when it is insertable and neither the connection nor a query fails, and adds
   something exactly when its first batch is insertable and gets through.
   */
  method InsertRows(w: World, table: string, columns: seq<string>, rows: seq<seq<string>>)
    returns (r: Result<nat>, ghost done: nat)
    modifies w
    ensures done <= |rows| && w.rows == old(w.rows) + Tagged(table, columns, rows[..done])
    ensures if r.Ok? then r.value == done == |rows| else done < |rows| && Whole(done)
    ensures r.Ok? <==> rows == [] || (Insertable(table, columns, rows) && old(w.healthy) >= 1 + Batches(|rows|))
    ensures r.Ok? && rows != [] ==> w.healthy == old(w.healthy) - 1 - Batches(|rows|)
    ensures done > 0 <==> rows != [] && Insertable(table, columns, FirstBatch(rows)) && old(w.healthy) >= 2
  {
    assert rows[..0] == [] && w.rows == old(w.rows) + Tagged(table, columns, rows[..0]);
    if |rows| == 0 { return Ok(0), 0; }
    ghost var start, coming := w.rows, w.healthy;
    var connected := w.Await();
    if !connected { return Err, 0; }
    var inserted, i := 0, 0;
    while i < |rows|
      invariant inserted == Min(i, |rows|) && Whole(i)
      invariant w.rows == start + Tagged(table, columns, rows[..inserted])
      invariant coming - 1 - Batches(|rows|) == w.healthy - Batches(|rows| - inserted)
      invariant if i == 0 then w.healthy == coming - 1 else coming >= 2
      invariant i > 0 ==> Prefix(table, columns, rows, inserted) && Insertable(table, columns, FirstBatch(rows))
    {
      var ok, added := InsertTurn(w, table, columns, rows, i, start);
      if !ok { return Err, i; }
      inserted := inserted + added;
      i := i + BATCH;
    }
    assert rows[..inserted] == rows;
    return Ok(inserted), inserted;
  }

  /** The batch that starts at row `i`. */
  function BatchAt(rows: seq<seq<string>>, i: nat): seq<seq<string>>
    requires i < |rows|
  {
    rows[i..Min(i + BATCH, |rows|)]
  }

  /** One turn of the loop: the batch starting at row `i`. */
  method InsertTurn(w: World, table: string, columns: seq<string>, rows: seq<seq<string>>, i: nat, ghost start: seq<Inserted>)
    returns (ok: bool, added: nat)
    requires i < |rows| && (i > 0 ==> i >= BATCH && Prefix(table, columns, rows, i))
    requires w.rows == start + Tagged(table, columns, rows[..i])
    modifies w
    ensures i + added == Min(i + BATCH, |rows|)
    ensures w.rows == start + Tagged(table, columns, rows[..if ok then i + added else i])
    ensures ok ==> w.healthy == old(w.healthy) - 1
    ensures ok <==> old(w.healthy) >= 1 && Insertable(table, columns, BatchAt(rows, i))
    ensures ok ==> Prefix(table, columns, rows, i + added)
    ensures Insertable(table, columns, rows) ==> Insertable(table, columns, BatchAt(rows, i))
    ensures i == 0 ==> BatchAt(rows, i) == FirstBatch(rows)
  {
    var batch := BatchAt(rows, i);
    BatchStep(table, columns, rows, i);
    Associate(start, Tagged(table, columns, rows[..i]), Tagged(table, columns, batch));
    ok := InsertBatch(w, table, columns, batch);
    added := |batch|;
  }

  /** What `n` inserted rows have shown about the call. */
  ghost predicate Prefix(table: string, columns: seq<string>, rows: seq<seq<string>>, n: nat)
    requires n <= |rows|
  {
    Named(table, columns) && Csv.AllWide(rows[..n], |columns|) && Fits(rows)
  }

  /** Going from a prefix to the next batch: what is stored, and when it is insertable. */
  lemma BatchStep(table: string, columns: seq<string>, rows: seq<seq<string>>, i: nat)
    requires i < |rows| && (i == 0 || i >= BATCH)
    ensures var j := Min(i + BATCH, |rows|);
            && Tagged(table, columns, rows[..j]) == Tagged(table, columns, rows[..i]) + Tagged(table, columns, rows[i..j])
            && (Insertable(table, columns, rows) ==> Insertable(table, columns, rows[i..j]))
            && (Insertable(table, columns, rows[i..j]) && (i == 0 || Prefix(table, columns, rows, i)) ==>
                  Prefix(table, columns, rows, j))
  {
    var j := Min(i + BATCH, |rows|);
    assert rows[..j] == rows[..i] + rows[i..j];
    if Csv.AllWide(rows[..j], |columns|) { FitsSlice(rows, |columns|, i, j); }
    TaggedConcat(table, columns, rows[..i], rows[i..j]);
  }

  // ------------------------------------------------------------------ importCsv

  function Body(records: seq<seq<string>>): seq<seq<string>> { if records == [] then [] else records[1..] }

  /** The first `k` data records as stored rows: the first record is the header. */
  ghost function Imported(table: string, records: seq<seq<string>>, k: nat): (r: seq<Inserted>)
    requires k <= |Body(records)|
    ensures |r| == k
  {
    if records == [] then [] else Tagged(table, records[0], records[1..k + 1])
  }

  ghost predicate Importable(table: string, records: seq<seq<string>>) {
    Body(records) == [] || Insertable(table, records[0], Body(records))
  }

  /** insertRows on at most one batch: all of it or nothing, with two awaits. */
  method InsertOne(w: World, table: string, header: seq<string>, batch: seq<seq<string>>) returns (ok: bool)
    requires 0 < |batch| <= BATCH
    modifies w
    ensures w.rows == old(w.rows) + if ok then Tagged(table, header, batch) else []
    ensures ok <==> Insertable(table, header, batch) && old(w.healthy) >= 2
    ensures ok ==> w.healthy == old(w.healthy) - 2
  {
    var added, done := InsertRows(w, table, header, batch);
    assert batch[..0] == [] && batch[..|batch|] == batch;
    ok := added.Ok?;
  }

  /** `total += await adapter.insertRows(...)` for one batch of the loop: data records `total` to `end`. */
  method Flush(w: World, table: string, header: seq<string>, batch: seq<seq<string>>, ghost total: nat, ghost end: nat,
               ghost records: seq<seq<string>>, ghost start: seq<Inserted>) returns (ok: bool)
    requires Csv.Rectangular(records) && records != [] && header == records[0]
    requires 0 < |batch| <= BATCH && end == total + |batch| <= |Body(records)| && batch == records[total + 1..end + 1]
    requires if total == 0 then |batch| == Min(BATCH, |Body(records)|) else total >= BATCH && Importable(table, records)
    requires w.rows == start + Imported(table, records, total)
    modifies w
    ensures w.rows == start + Imported(table, records, if ok then end else total)
    ensures ok <==> Importable(table, records) && old(w.healthy) >= 2
    ensures ok ==> w.healthy == old(w.healthy) - 2
  {
    ImportStep(table, records, total, end);
    ghost var before, added := Imported(table, records, total), Tagged(table, header, batch);
    assert Imported(table, records, end) == before + added;
    Associate(start, before, added);
    ok := InsertOne(w, table, header, batch);
  }

  lemma SliceSnoc<T>(s: seq<T>, i: nat, n: nat)
    requires i <= n < |s|
    ensures s[i..n + 1] == s[i..n] + [s[n]]
  {
  }

  /** A full batch is inserted, with one more await for the progress report. */
  method FlushFull(w: World, table: string, header: seq<string>, batch: seq<seq<string>>, count: nat,
                   ghost end: nat, ghost records: seq<seq<string>>, ghost start: seq<Inserted>)
    returns (ok: bool, total: nat)
    requires Csv.Rectangular(records) && records != [] && header == records[0]
    requires |batch| == BATCH && end == count + BATCH <= |Body(records)| && batch == records[count + 1..end + 1]
    requires count == 0 || (count >= BATCH && Importable(table, records))
    requires w.rows == start + Imported(table, records, count)
    modifies w
    ensures total == if Importable(table, records) && old(w.healthy) >= 2 then end else count
    ensures w.rows == start + Imported(table, records, total)
    ensures ok <==> Importable(table, records) && old(w.healthy) >= 3
    ensures ok ==> w.healthy == old(w.healthy) - 3
  {
    ok := Flush(w, table, header, batch, count, end, records, start);
    if !ok { return false, count; }
    total := count + |batch|;
    ok := w.Await();
  }

  /** Data record `n` joins the batch. */
  method Take(w: World, table: string, header: seq<string>, pending: seq<seq<string>>, count: nat, record: seq<string>,
              ghost n: nat, ghost records: seq<seq<string>>, ghost start: seq<Inserted>)
    returns (ok: bool, batch: seq<seq<string>>, total: nat)
    requires Csv.Rectangular(records) && records != [] && header == records[0]
    requires |pending| < BATCH && (count == 0 || (count >= BATCH && Importable(table, records)))
    requires n == count + |pending| + 1 < |records| && pending == records[count + 1..n] && record == records[n]
    requires w.rows == start + Imported(table, records, count)
    modifies w
    ensures total <= |Body(records)| && w.rows == start + Imported(table, records, total)
    ensures |pending| + 1 < BATCH ==> ok && total == count && w.healthy == old(w.healthy)
    ensures |pending| + 1 == BATCH ==> Inserts(table, records, old(w.healthy), count, ok, total, w.healthy)
    ensures ok ==> |batch| < BATCH && total + |batch| == n && batch == records[total + 1..n + 1]
  {
    batch := pending + [record];
    SliceSnoc(records, count + 1, n);
    if |batch| < BATCH { return true, batch, count; }
    ok, total := FlushFull(w, table, header, batch, count, n, records, start);
    batch := [];
  }

  /** The outcome of a full batch: which awaits succeed, whether it is in, whether the loop goes on. */
  ghost predicate Inserts(table: string, records: seq<seq<string>>, before: nat, count: nat,
                          ok: bool, total: nat, after: nat)
  {
    && total == (if Importable(table, records) && before >= 2 then count + BATCH else count)
    && (ok <==> Importable(table, records) && before >= 3) && (ok ==> after == before - 3)
  }

  /** `if (header && batch.length)`: the last, smaller batch. */
  method FlushRest(w: World, table: string, header: Option<seq<string>>, batch: seq<seq<string>>, total: nat,
                   ghost records: seq<seq<string>>, ghost start: seq<Inserted>)
    returns (r: Result<nat>, ghost done: nat)
    requires Csv.Rectangular(records) && header == if records == [] then None else Some(records[0])
    requires |batch| < BATCH && total + |batch| == |Body(records)|
    requires records != [] ==> batch == records[total + 1..|records|]
    requires total == 0 || (total >= BATCH && Importable(table, records))
    requires w.rows == start + Imported(table, records, total)
    modifies w
    ensures done <= |Body(records)| && w.rows == start + Imported(table, records, done)
    ensures if r.Ok? then r.value == done == |Body(records)| else done == total
    ensures r.Ok? <==> batch == [] || (Importable(table, records) && old(w.healthy) >= 2)
  {
    if header.None? || |batch| == 0 { return Ok(total), total; }
    var ok := Flush(w, table, header.value, batch, total, total + |batch|, records, start);
    if !ok { return Err, total; }
    return Ok(total + |batch|), total + |batch|;
  }

  /** The awaits importCsv makes for `n` data records: connect, query, progress; no progress after the last batch. */
  function Awaits(n: nat): nat { if n >= BATCH then 3 + Awaits(n - BATCH) else if n > 0 then 2 else 0 }

  /** The records that get in when `healthy` awaits succeed; after a parser error the last, smaller batch is not sent. */
  function Through(n: nat, failed: bool, healthy: nat): (k: nat)
    ensures k <= n
  {
    if n >= BATCH then
      if healthy >= 3 then BATCH + Through(n - BATCH, failed, healthy - 3)
      else if healthy == 2 then BATCH else 0
    else if failed || healthy < 2 then 0 else n
  }

  /** What these are: whole batches or everything, nothing when the first batch fails, everything when no await does. */
  lemma {:induction false} ThroughFacts(n: nat, failed: bool, healthy: nat)
    ensures var k := Through(n, failed, healthy);
            && ((Whole(k) && k % 500 == 0) || (k == n && !failed))
            && (k > 0 <==> n > 0 && healthy >= 2 && (failed ==> n >= BATCH))
            && (!failed && healthy >= Awaits(n) ==> k == n)
  {
    if n >= BATCH && healthy >= 3 { ThroughFacts(n - BATCH, failed, healthy - 3); }
    if Whole(Through(n, failed, healthy)) { WholeMultiple(Through(n, failed, healthy)); }
  }

  /** How many data records a call adds: none of a file that is not importable. */
  ghost function Added(table: string, records: seq<seq<string>>, failed: bool, healthy: nat): (k: nat)
    ensures k <= |Body(records)|
  {
    if Importable(table, records) then Through(|Body(records)|, failed, healthy) else 0
  }

  /** The whole file gets in. */
  ghost predicate Completes(table: string, records: seq<seq<string>>, failed: bool, healthy: nat) {
    !failed && Importable(table, records) && healthy >= Awaits(|Body(records)|)
  }

  /** From `count` added records to `total`: what is still to come, and what a stop means. */
  ghost predicate Moves(table: string, records: seq<seq<string>>, failed: bool, count: nat, before: nat,
                        total: nat, after: nat, ok: bool)
    requires count <= total <= |Body(records)|
  {
    var left, rest := |Body(records)| - count, |Body(records)| - total;
    && (ok ==> before - Awaits(left) == after - Awaits(rest))
    && (!ok ==> !(Importable(table, records) && before >= Awaits(left)))
    && (Importable(table, records) ==>
          Through(left, failed, before) == total - count + if ok then Through(rest, failed, after) else 0)
  }

  lemma TakeMoves(table: string, records: seq<seq<string>>, failed: bool, count: nat, before: nat,
                  total: nat, after: nat, ok: bool)
    requires count <= |Body(records)| && (count > 0 ==> Importable(table, records))
    requires || (ok && total == count && after == before)
             || (count + BATCH <= |Body(records)| && Inserts(table, records, before, count, ok, total, after))
    ensures count <= total <= |Body(records)| && Moves(table, records, failed, count, before, total, after, ok)
    ensures total == count || (total >= BATCH && Importable(table, records))
  {
    var left := |Body(records)| - count;
    assert left >= BATCH ==> Awaits(left) == 3 + Awaits(left - BATCH);
  }

  /** One turn of the record loop: the header, or a data record. */
  method Turn(w: World, table: string, header: Option<seq<string>>, pending: seq<seq<string>>, count: nat,
              record: seq<string>, ghost n: nat, ghost records: seq<seq<string>>, ghost failed: bool, ghost start: seq<Inserted>)
    returns (ok: bool, first: Option<seq<string>>, batch: seq<seq<string>>, total: nat)
    requires Csv.Rectangular(records) && n < |records| && record == records[n]
    requires header == if n == 0 then None else Some(records[0])
    requires |pending| < BATCH && count + |pending| == (if n == 0 then 0 else n - 1)
    requires (n > 0 ==> pending == records[count + 1..n]) && (count == 0 || (count >= BATCH && Importable(table, records)))
    requires w.rows == start + Imported(table, records, count)
    modifies w
    ensures first == Some(records[0]) && count <= total <= |Body(records)|
    ensures w.rows == start + Imported(table, records, total)
    ensures ok ==> |batch| < BATCH && total + |batch| == n && batch == records[total + 1..n + 1]
    ensures total == count || (total >= BATCH && Importable(table, records))
    ensures Moves(table, records, failed, count, old(w.healthy), total, w.healthy, ok)
  {
    if header.None? {
      assert records[1..1] == pending;
      return true, Some(record), pending, count;
    }
    first := header;
    ghost var before := w.healthy;
    ok, batch, total := Take(w, table, header.value, pending, count, record, n, records, start);
    TakeMoves(table, records, failed, count, before, total, w.healthy, ok);
  }

  /** The loop over the delivered records; `failed` says the parser errors after the last one. */
  method ImportRecords(w: World, records: seq<seq<string>>, failed: bool, table: string)
    returns (r: Result<nat>, ghost done: nat)
    requires Csv.Rectangular(records)
    modifies w
    ensures done == Added(table, records, failed, old(w.healthy))
    ensures w.rows == old(w.rows) + Imported(table, records, done)
    ensures r.Ok? ==> r.value == done == |Body(records)|
    ensures r.Ok? <==> Completes(table, records, failed, old(w.healthy))
  {
    ghost var start, coming, size := w.rows, w.healthy, |Body(records)|;
    var header: Option<seq<string>>, batch: seq<seq<string>>, total: nat := None, [], 0;
    for n := 0 to |records|
      invariant header == if n == 0 then None else Some(records[0])
      invariant total + |batch| == (if n == 0 then 0 else n - 1) && |batch| < BATCH
      invariant n > 0 ==> batch == records[total + 1..n]
      invariant w.rows == start + Imported(table, records, total)
      invariant total == 0 || (total >= BATCH && Importable(table, records))
      invariant Moves(table, records, failed, 0, coming, total, w.healthy, true)
    {
      var ok;
      ok, header, batch, total := Turn(w, table, header, batch, total, records[n], n, records, failed, start);
      if !ok { return Err, total; }
    }
    if failed { return Err, total; }
    r, done := FlushRest(w, table, header, batch, total, records, start);
  }

  /** What reaches the loop: every record, or the first `seen` of those read before a parser error. */
  function Delivered(p: Csv.Parsed, seen: nat): (given: seq<seq<string>>)
    ensures |given| <= |p.records| && given == p.records[..|given|]
    ensures p.ok || seen >= |p.records| ==> |given| == |p.records|
    ensures !p.ok && seen < |p.records| ==> |given| == seen
  {
    if p.ok then p.records else p.records[..Min(seen, |p.records|)]
  }

  /** importCsv on a whole file: how many records it adds, and when it succeeds, for every failure. */
  method ImportCsv(w: World, t: Csv.Trim, text: string, seen: nat, table: string)
    returns (r: Result<nat>, ghost done: nat)
    modifies w
    ensures var p := Csv.Parse(t, text);
            && done == Added(table, Delivered(p, seen), !p.ok, old(w.healthy)) <= |Body(p.records)|
            && w.rows == old(w.rows) + Imported(table, p.records, done)
            && (r.Ok? ==> r.value == done == |Body(p.records)|)
            && (r.Ok? <==> Completes(table, p.records, !p.ok, old(w.healthy)))
  {
    var p := Csv.Parse(t, text);
    Csv.ParseRectangular(t, text);
    var given := Delivered(p, seen);
    r, done := ImportRecords(w, given, !p.ok, table);
    assert given != [] ==> given[1..done + 1] == p.records[1..done + 1];
  }

  lemma ImportStep(table: string, records: seq<seq<string>>, i: nat, j: nat)
    requires i < j <= |Body(records)| && j - i <= BATCH && Csv.Rectangular(records)
    requires if i == 0 then j == Min(BATCH, |Body(records)|) else i >= BATCH
    ensures Imported(table, records, j) == Imported(table, records, i) + Tagged(table, records[0], records[i + 1..j + 1])
    ensures Importable(table, records) ==> Insertable(table, records[0], records[i + 1..j + 1])
    ensures i == 0 && Insertable(table, records[0], records[i + 1..j + 1]) ==> Importable(table, records)
  {
    var all := Body(records);
    assert records[1..j + 1] == records[1..i + 1] + records[i + 1..j + 1];
    TaggedConcat(table, records[0], records[1..i + 1], records[i + 1..j + 1]);
    assert forall k :: 0 <= k < |all| ==> all[k] == records[k + 1];
    FitsSlice(all, |records[0]|, i, j);
    assert all[i..j] == records[i + 1..j + 1];
  }
}
