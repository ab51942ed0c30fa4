/**
 Concurrent `audit` calls of one tenant, each split at its awaits into reading the newest hash
 and writing the row, and the verdict on every interleaving.
 */
module AuditRuns {
  import opened Text
  import opened Json
  import opened AuditText
  import opened AuditChain

  /** `Write` carries what the database decides: the stored meta and createdAt. `Drop` is a failed call. */
  datatype Event =
    | Read(call: nat, entry: Entry, now: nat)
    | Write(call: nat, id: string, stored: Json, at: nat)
    | Drop(call: nat)

  datatype State = State(rows: seq<Row>, pending: map<nat, Pending>)

  predicate Writes(s: State, e: Event) { e.Write? && e.call in s.pending }

  function Step(h: Scheme, s: State, e: Event): State {
    match e
    case Read(c, entry, now) =>
      if c in s.pending then s else s.(pending := s.pending[c := Prepare(h, s.rows, entry, now)])
    case Write(c, id, stored, at) =>
      if c in s.pending then State(s.rows + [Written(s.pending[c], id, stored, at)], s.pending - {c}) else s
    case Drop(c) => s.(pending := s.pending - {c})
  }

  function Exec(h: Scheme, s: State, es: seq<Event>): State
    decreases |es|
  {
    if es == [] then s else Exec(h, Step(h, s, es[0]), es[1..])
  }

  /** The database clock gives every row a later createdAt than the rows before it. */
  ghost predicate Ticking(h: Scheme, s: State, es: seq<Event>)
    decreases |es|
  {
    es != [] ==>
      && (Writes(s, es[0]) && s.rows != [] ==> s.rows[|s.rows| - 1].createdAt < es[0].at)
      && Ticking(h, Step(h, s, es[0]), es[1..])
  }

  predicate GoodWrite(h: Scheme, s: State, e: Event)
    requires Writes(s, e)
  {
    Fresh(s.rows, s.pending[e.call]) && Faithful(h, s.pending[e.call], e.stored, e.at)
  }

  /** No write has another write in its window, and every row reads back to what was hashed. */
  predicate AllGood(h: Scheme, s: State, es: seq<Event>)
    decreases |es|
  {
    es != [] ==> (Writes(s, es[0]) ==> GoodWrite(h, s, es[0])) && AllGood(h, Step(h, s, es[0]), es[1..])
  }

  /** The colliding texts that a verified run with a bad write exhibits. */
  function RunCollision(h: Scheme, s: State, es: seq<Event>): (string, string)
    decreases |es|
  {
    if es == [] then ("", "")
    else if Writes(s, es[0]) && !GoodWrite(h, s, es[0]) && s.pending[es[0].call].seen <= |s.rows| then
      WriteCollision(h, s.rows, s.pending[es[0].call], es[0].stored, es[0].at)
    else RunCollision(h, Step(h, s, es[0]), es[1..])
  }

  ghost predicate Inv(h: Scheme, s: State) {
    Increasing(s.rows) && forall c <- s.pending :: Prepared(h, s.rows, s.pending[c])
  }

  lemma StepKeepsInv(h: Scheme, s: State, e: Event)
    requires Inv(h, s) && (Writes(s, e) && s.rows != [] ==> s.rows[|s.rows| - 1].createdAt < e.at)
    ensures Inv(h, Step(h, s, e)) && s.rows <= Step(h, s, e).rows
  {
    match e
    case Read(c, entry, now) => PrepareReadsLast(h, s.rows, entry, now);
    case Write(c, id, stored, at) =>
      var next := Step(h, s, e);
      if c in s.pending && s.rows != [] {
        var last := s.rows[|s.rows| - 1];
        assert forall i :: 0 <= i < |s.rows| ==> s.rows[i].createdAt <= last.createdAt;
      }
      forall d | d in next.pending ensures Prepared(h, next.rows, next.pending[d]) {
        assert Prepared(h, s.rows, s.pending[d]);
        assert PrevHash(next.rows, s.pending[d].seen) == PrevHash(s.rows, s.pending[d].seen);
      }
    case Drop(_) =>
  }

  lemma {:induction false} ExecGrows(h: Scheme, s: State, es: seq<Event>)
    ensures s.rows <= Exec(h, s, es).rows
    decreases |es|
  {
    if es != [] {
      ExecGrows(h, Step(h, s, es[0]), es[1..]);
      assert s.rows <= Step(h, s, es[0]).rows;
    }
  }

  /** A bad write leaves a chain that, however it is extended, verifies only through a collision. */
  lemma BadWriteShows(h: Scheme, s: State, e: Event, end: seq<Row>)
    requires Digests(h) && Separates(h) && Inv(h, s) && ValidChain(h, s.rows) && Writes(s, e) && !GoodWrite(h, s, e)
    requires Step(h, s, e).rows <= end && ValidChain(h, end)
    ensures Collides(h, WriteCollision(h, s.rows, s.pending[e.call], e.stored, e.at))
  {
    var p, rows := s.pending[e.call], Step(h, s, e).rows;
    assert Prepared(h, s.rows, p);
    ChainPrefix(h, end, |rows|);
    assert end[..|rows|] == rows;
    WriteVerdict(h, s.rows, p, e.id, e.stored, e.at);
  }

  lemma StepKeepsChain(h: Scheme, s: State, e: Event)
    requires Digests(h) && Separates(h) && Inv(h, s) && ValidChain(h, s.rows)
    requires Writes(s, e) ==> GoodWrite(h, s, e)
    ensures ValidChain(h, Step(h, s, e).rows)
  {
    if Writes(s, e) {
      assert Prepared(h, s.rows, s.pending[e.call]);
      WriteVerdict(h, s.rows, s.pending[e.call], e.id, e.stored, e.at);
    } else {
      assert Step(h, s, e).rows == s.rows;
    }
  }

  /**
   Every interleaving: the final chain verifies when every write was fresh and faithful, and
   when one was not it verifies only through the exhibited SHA-256 collision.
   */
  lemma {:induction false} RunVerdict(h: Scheme, s: State, es: seq<Event>)
    requires Digests(h) && Separates(h) && Inv(h, s) && ValidChain(h, s.rows) && Ticking(h, s, es)
    ensures AllGood(h, s, es) ==> ValidChain(h, Exec(h, s, es).rows)
    ensures ValidChain(h, Exec(h, s, es).rows) && !AllGood(h, s, es) ==> Collides(h, RunCollision(h, s, es))
    decreases |es|
  {
    if es != [] {
      var e, next, rest := es[0], Step(h, s, es[0]), es[1..];
      StepKeepsInv(h, s, e);
      if Writes(s, e) && !GoodWrite(h, s, e) {
        ExecGrows(h, next, rest);
        assert Prepared(h, s.rows, s.pending[e.call]);
        if ValidChain(h, Exec(h, next, rest).rows) { BadWriteShows(h, s, e, Exec(h, next, rest).rows); }
      } else {
        StepKeepsChain(h, s, e);
        RunVerdict(h, next, rest);
      }
    }
  }

  lemma {:induction false} IncreasingAlways(h: Scheme, s: State, es: seq<Event>)
    requires Inv(h, s) && Ticking(h, s, es)
    ensures Increasing(Exec(h, s, es).rows)
    decreases |es|
  {
    if es != [] {
      StepKeepsInv(h, s, es[0]);
      IncreasingAlways(h, Step(h, s, es[0]), es[1..]);
    }
  }

  // ----------------------------------------------------------------- read order

  /** `findMany` with `orderBy createdAt asc`: all the rows, times in order, ties in any order. */
  ghost predicate OrderedView(rows: seq<Row>, view: seq<Row>) {
    multiset(view) == multiset(rows) && forall i, j :: 0 <= i <= j < |view| ==> view[i].createdAt <= view[j].createdAt
  }

  lemma MultisetInit(s: seq<Row>)
    requires s != []
    ensures multiset(s[..|s| - 1]) == multiset(s) - multiset{s[|s| - 1]}
  {
    assert s == s[..|s| - 1] + [s[|s| - 1]];
  }

  lemma SameLast(rows: seq<Row>, view: seq<Row>)
    requires rows != [] && view != [] && Increasing(rows) && OrderedView(rows, view)
    ensures view[|view| - 1] == rows[|rows| - 1]
  {
    var top, end := rows[|rows| - 1], view[|view| - 1];
    assert top in multiset(rows) && end in multiset(view);
    var i :| 0 <= i < |view| && view[i] == top;
    var j :| 0 <= j < |rows| && rows[j] == end;
    assert view[i].createdAt <= view[|view| - 1].createdAt;
    assert rows[j].createdAt >= rows[|rows| - 1].createdAt;
  }

  lemma InitOrdered(rows: seq<Row>, view: seq<Row>)
    requires rows != [] && view != [] && Increasing(rows) && OrderedView(rows, view)
    requires view[|view| - 1] == rows[|rows| - 1]
    ensures Increasing(rows[..|rows| - 1]) && OrderedView(rows[..|rows| - 1], view[..|view| - 1])
  {
    MultisetInit(rows);
    MultisetInit(view);
  }

  /** With increasing times the ordered view can only be the rows in writing order. */
  lemma {:induction false} OrderedViewUnique(rows: seq<Row>, view: seq<Row>)
    requires Increasing(rows) && OrderedView(rows, view)
    ensures view == rows
    decreases |rows|
  {
    assert |multiset(view)| == |multiset(rows)|;
    if rows != [] {
      var n := |rows| - 1;
      SameLast(rows, view);
      InitOrdered(rows, view);
      OrderedViewUnique(rows[..n], view[..n]);
      assert rows == rows[..n] + [rows[n]] && view == view[..n] + [view[n]];
    }
  }

  // ------------------------------------------------------------------ one call

  /** The tenant's table, with `audit` run from start to end without another writer. */
  class AuditTable {
    var rows: seq<Row>

    /** `readFails` and `writeFails` say whether an await rejects; the error is swallowed. */
    method Audit(h: Scheme, entry: Entry, now: nat, id: string, stored: Json, at: nat, readFails: bool, writeFails: bool)
      modifies this
      ensures rows == Exec(h, State(old(rows), map[]),
                           if readFails then []
                           else if writeFails then [Read(0, entry, now), Drop(0)]
                           else [Read(0, entry, now), Write(0, id, stored, at)]).rows
      ensures readFails || writeFails ==> rows == old(rows)
      ensures !readFails && !writeFails ==>
                var n := |old(rows)|;
                && |rows| == n + 1 && rows[..n] == old(rows) && rows[n].id == id && rows[n].createdAt == at
                && rows[n].entry == entry.(meta := stored) && rows[n].prevHash.Some?
                && rows[n].hash == h.sha256(h.text(HashedOf(h, entry, now), rows[n].prevHash.value))
                && (n == 0 ==> rows[n].prevHash == Some("GENESIS"))
                && (n > 0 ==> exists i :: 0 <= i < n && rows[n].prevHash == Some(rows[i].hash)
                                       && forall j :: 0 <= j < n ==> rows[j].createdAt <= rows[i].createdAt)
    {
      if readFails { return; }
      var prevHash := if rows == [] then GENESIS else rows[Newest(rows)].hash;
      var hash := h.sha256(h.text(HashedOf(h, entry, now), prevHash));
      ghost var s0 := State(rows, map[]);
      ghost var s1 := Step(h, s0, Read(0, entry, now));
      ghost var write := if writeFails then Drop(0) else Write(0, id, stored, at);
      ExecTwo(h, s0, Read(0, entry, now), write);
      if !writeFails {
        rows := rows + [Row(id, entry.(meta := stored), Some(prevHash), hash, at)];
      }
    }
  }

  lemma ExecTwo(h: Scheme, s: State, a: Event, b: Event)
    ensures Exec(h, s, [a, b]) == Step(h, Step(h, s, a), b)
  {
    assert [a, b][1..] == [b] && [b][1..] == [];
    var t := Step(h, s, a);
    assert Exec(h, t, [b]) == Exec(h, Step(h, t, b), []);
  }

  // -------------------------------------------------------- the program's scheme

  /** Tamper evidence for the text the program hashes. */
  lemma ProgramTamperEvident(sha256: string -> string, iso: nat -> string, a: seq<Row>, b: seq<Row>)
    requires var h := Stringify(sha256, iso);
             Digests(h) && ValidChain(h, a) && ValidChain(h, b) && a != [] && b != [] && a[|a| - 1].hash == b[|b| - 1].hash
    ensures var h := Stringify(sha256, iso);
            SameHashed(h, a, b) || Collides(h, Differing(h, a, b))
  {
    StringifySeparates(sha256, iso);
    TamperEvident(Stringify(sha256, iso), a, b);
  }

  /** From an empty log, over every interleaving and every ordered view of the final rows. */
  lemma ProgramRunVerdict(sha256: string -> string, iso: nat -> string, es: seq<Event>, view: seq<Row>)
    requires var h := Stringify(sha256, iso); var s := State([], map[]);
             Digests(h) && Ticking(h, s, es) && OrderedView(Exec(h, s, es).rows, view)
    ensures var h := Stringify(sha256, iso); var s := State([], map[]);
            && (AllGood(h, s, es) ==> ValidChain(h, view))
            && (ValidChain(h, view) && !AllGood(h, s, es) ==> Collides(h, RunCollision(h, s, es)))
  {
    var h, s := Stringify(sha256, iso), State([], map[]);
    StringifySeparates(sha256, iso);
    RunVerdict(h, s, es);
    IncreasingAlways(h, s, es);
    OrderedViewUnique(Exec(h, s, es).rows, view);
  }

  // ------------------------------------------------------- through the database

  /** Every write stores its meta as JSONB. */
  predicate Stores(h: Scheme, s: State, es: seq<Event>)
    decreases |es|
  {
    es != [] ==>
      && (Writes(s, es[0]) ==> es[0].stored == Stored(s.pending[es[0].call].entry))
      && Stores(h, Step(h, s, es[0]), es[1..])
  }

  /** No write in another one's window, every meta storable, and both clocks print alike. */
  predicate AllStorable(h: Scheme, s: State, es: seq<Event>)
    decreases |es|
  {
    es != [] ==>
      && (Writes(s, es[0]) ==>
            var p := s.pending[es[0].call];
            Fresh(s.rows, p) && Storable(p.entry) && h.iso(es[0].at) == h.iso(p.hashedAt))
      && AllStorable(h, Step(h, s, es[0]), es[1..])
  }

  lemma {:induction false} StorableIsGood(h: Scheme, s: State, es: seq<Event>)
    requires Stores(h, s, es)
    ensures AllStorable(h, s, es) <==> AllGood(h, s, es)
    decreases |es|
  {
    if es != [] {
      if Writes(s, es[0]) { FaithfulExactly(h, s.pending[es[0].call], es[0].at); }
      StorableIsGood(h, Step(h, s, es[0]), es[1..]);
    }
  }

  /** The verdict on every interleaving, by what can be seen before each write and the database clock. */
  lemma StoredRunVerdict(sha256: string -> string, iso: nat -> string, es: seq<Event>, view: seq<Row>)
    requires var h := Stringify(sha256, iso); var s := State([], map[]);
             Digests(h) && Ticking(h, s, es) && Stores(h, s, es) && OrderedView(Exec(h, s, es).rows, view)
    ensures var h := Stringify(sha256, iso); var s := State([], map[]);
            && (AllStorable(h, s, es) ==> ValidChain(h, view))
            && (ValidChain(h, view) && !AllStorable(h, s, es) ==> Collides(h, RunCollision(h, s, es)))
  {
    StorableIsGood(Stringify(sha256, iso), State([], map[]), es);
    ProgramRunVerdict(sha256, iso, es, view);
  }
}
