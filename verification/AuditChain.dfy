/**
 The audit hash chain: how a row is appended, how the chain is verified, and what a verified
 chain rules out. SHA-256, the ISO date text and the hashed text are parameters. No collision
 freedom is assumed: where a statement could only fail through a collision, a function gives
 the two colliding texts.
 */
module AuditChain {
  import opened Text
  import opened Json
  import opened AuditText
  import Jsonb

  /** `sha256` in hex, `toISOString` on milliseconds, and the text that is hashed. */
  datatype Scheme = Scheme(sha256: string -> string, iso: nat -> string, text: (Hashed, string) -> string)

  predicate HexDigest(s: string) { |s| == 64 && forall i :: 0 <= i < |s| ==> s[i] in HEX }

  ghost predicate Digests(h: Scheme) { forall s :: HexDigest(h.sha256(s)) }

  /** The hashed text determines its parts, for previous hashes without a brace. */
  ghost predicate Separates(h: Scheme) {
    forall f, p, g, q | '{' !in p && '{' !in q && h.text(f, p) == h.text(g, q) :: f == g && p == q
  }

  /** The scheme the program uses. */
  function Stringify(sha256: string -> string, iso: nat -> string): Scheme {
    Scheme(sha256, iso, (f, p) => Preimage(f, p))
  }

  lemma StringifySeparates(sha256: string -> string, iso: nat -> string)
    ensures Separates(Stringify(sha256, iso))
  {
    forall f, p, g, q | '{' !in p && '{' !in q && Preimage(f, p) == Preimage(g, q) ensures f == g && p == q {
      PreimageInjective(f, p, g, q);
    }
  }

  /** Two different texts with one digest. */
  ghost predicate Collides(h: Scheme, c: (string, string)) {
    c.0 != c.1 && h.sha256(c.0) == h.sha256(c.1)
  }

  /** A row of the table, as read back. */
  datatype Row = Row(id: string, entry: Entry, prevHash: Option<string>, hash: string, createdAt: nat)

  /** `entry.meta ?? {}`: what is hashed, and what is stored. */
  function Meta(e: Entry): Json { if e.meta.JNull? then JObj([]) else e.meta }

  function HashedOf(h: Scheme, e: Entry, at: nat): Hashed {
    Hashed(e.tenantId, e.actorId, e.action, e.target, Meta(e), h.iso(at))
  }

  // ------------------------------------------------------------- verification

  /** The hash row `i` must chain to. */
  function PrevHash(logs: seq<Row>, i: nat): string
    requires i <= |logs|
  {
    if i == 0 then GENESIS else logs[i - 1].hash
  }

  function Digest(h: Scheme, row: Row, prevHash: string): string {
    h.sha256(h.text(HashedOf(h, row.entry, row.createdAt), prevHash))
  }

  predicate Linked(h: Scheme, prevHash: string, row: Row) {
    Digest(h, row, prevHash) == row.hash && row.prevHash == Some(prevHash)
  }

  /** Row `i` of a log passes the check of the loop. */
  predicate LinkedAt(h: Scheme, logs: seq<Row>, i: nat)
    requires i < |logs|
  {
    Linked(h, PrevHash(logs, i), logs[i])
  }

  ghost predicate ValidChain(h: Scheme, logs: seq<Row>) {
    forall i :: 0 <= i < |logs| ==> LinkedAt(h, logs, i)
  }

  /** Rows after a prefix do not matter to it. */
  lemma LinkedInPrefix(h: Scheme, logs: seq<Row>, n: nat, i: nat)
    requires i < n <= |logs|
    ensures LinkedAt(h, logs[..n], i) <==> LinkedAt(h, logs, i)
  {
    assert PrevHash(logs[..n], i) == PrevHash(logs, i) && logs[..n][i] == logs[i];
  }

  lemma ChainPrefix(h: Scheme, logs: seq<Row>, n: nat)
    requires n <= |logs| && forall j :: 0 <= j < n ==> LinkedAt(h, logs, j)
    ensures ValidChain(h, logs[..n])
  {
    forall i | 0 <= i < n ensures LinkedAt(h, logs[..n], i) {
      LinkedInPrefix(h, logs, n, i);
    }
  }

  /** verifyAuditChain over the tenant's rows in createdAt order. */
  method VerifyAuditChain(h: Scheme, logs: seq<Row>) returns (ok: bool, brokenAt: Option<string>)
    ensures ok <==> ValidChain(h, logs)
    ensures ok ==> brokenAt == None
    ensures !ok ==> exists k :: 0 <= k < |logs| && brokenAt == Some(logs[k].id)
                             && ValidChain(h, logs[..k]) && !ValidChain(h, logs[..k + 1])
  {
    var prevHash := GENESIS;
    for i := 0 to |logs|
      invariant prevHash == PrevHash(logs, i)
      invariant forall j :: 0 <= j < i ==> LinkedAt(h, logs, j)
    {
      var log := logs[i];
      var expected := Digest(h, log, prevHash);
      if expected != log.hash || log.prevHash != Some(prevHash) {
        ChainPrefix(h, logs, i);
        LinkedInPrefix(h, logs, i + 1, i);
        return false, Some(log.id);
      }
      prevHash := log.hash;
    }
    return true, None;
  }

  /** Two rows agree on everything but actorEmail, ip and id: the fields an audit log vouches for. */
  ghost predicate SameFields(h: Scheme, a: Row, b: Row) {
    && a.entry.tenantId == b.entry.tenantId
    && a.entry.actorId == b.entry.actorId
    && a.entry.action == b.entry.action
    && a.entry.target == b.entry.target
    && (if a.entry.meta.JNull? then JObj([]) else a.entry.meta)
       == (if b.entry.meta.JNull? then JObj([]) else b.entry.meta)
    && h.iso(a.createdAt) == h.iso(b.createdAt)
    && a.prevHash == b.prevHash
    && a.hash == b.hash
  }

  ghost predicate SameHashed(h: Scheme, a: seq<Row>, b: seq<Row>) {
    |a| == |b| && forall i :: 0 <= i < |a| ==> SameFields(h, a[i], b[i])
  }

  /** The verdict does not depend on actorEmail, ip or the row id. */
  lemma VerdictIgnoresContact(h: Scheme, a: seq<Row>, b: seq<Row>)
    requires SameHashed(h, a, b)
    ensures ValidChain(h, a) <==> ValidChain(h, b)
  {
    forall i | 0 <= i < |a| ensures LinkedAt(h, a, i) <==> LinkedAt(h, b, i) {
      assert PrevHash(a, i) == PrevHash(b, i);
    }
  }

  /** The program's chain written out: what each row must hold, in terms of the row and the one before. */
  lemma ChainText(sha256: string -> string, iso: nat -> string, logs: seq<Row>)
    ensures ValidChain(Stringify(sha256, iso), logs) <==>
            forall i :: 0 <= i < |logs| ==>
              var prev := if i == 0 then "GENESIS" else logs[i - 1].hash;
              && logs[i].prevHash == Some(prev)
              && logs[i].hash == sha256(prev + RowText(iso, logs[i], prev))
  {
    var h := Stringify(sha256, iso);
    forall i | 0 <= i < |logs|
      ensures LinkedAt(h, logs, i) <==>
              var prev := if i == 0 then "GENESIS" else logs[i - 1].hash;
              logs[i].prevHash == Some(prev) && logs[i].hash == sha256(prev + RowText(iso, logs[i], prev))
    {
      CanonicalText(HashedOf(h, logs[i].entry, logs[i].createdAt), PrevHash(logs, i));
    }
  }

  function RowText(iso: nat -> string, row: Row, prev: string): string {
    ObjectText(row.entry.tenantId, row.entry.actorId, row.entry.action, row.entry.target,
               if row.entry.meta.JNull? then JObj([]) else row.entry.meta, iso(row.createdAt), prev)
  }

  // ---------------------------------------------------------- tamper evidence

  function LastPreimage(h: Scheme, logs: seq<Row>): string
    requires logs != []
  {
    var n := |logs| - 1;
    h.text(HashedOf(h, logs[n].entry, logs[n].createdAt), PrevHash(logs, n))
  }

  /** Walks two chains back from their ends to the first pair of different hashed texts. */
  function Differing(h: Scheme, a: seq<Row>, b: seq<Row>): (string, string) {
    if a == [] || b == [] then ("", "")
    else
      var x, y := LastPreimage(h, a), LastPreimage(h, b);
      if x != y then (x, y) else Differing(h, a[..|a| - 1], b[..|b| - 1])
  }

  lemma HexIsPlain(s: string)
    requires HexDigest(s)
    ensures '{' !in s && s != GENESIS
  {
    assert |GENESIS| == 7 && '{' !in HEX;
  }

  lemma PrevHashPlain(h: Scheme, logs: seq<Row>, i: nat)
    requires Digests(h) && ValidChain(h, logs) && i <= |logs|
    ensures '{' !in PrevHash(logs, i)
    ensures PrevHash(logs, i) == GENESIS <==> i == 0
  {
    if i > 0 {
      assert LinkedAt(h, logs, i - 1);
      HexIsPlain(PrevHash(logs, i));
    }
  }

  /**
   Two verified chains that end in the same hash agree, row by row, on every hashed field;
   otherwise the texts found by walking back from the end are a SHA-256 collision.
   */
  lemma {:induction false} TamperEvident(h: Scheme, a: seq<Row>, b: seq<Row>)
    requires Digests(h) && Separates(h) && ValidChain(h, a) && ValidChain(h, b)
    requires a != [] && b != [] && a[|a| - 1].hash == b[|b| - 1].hash
    ensures SameHashed(h, a, b) || Collides(h, Differing(h, a, b))
    decreases |a|
  {
    var m, n := |a| - 1, |b| - 1;
    assert LinkedAt(h, a, m) && LinkedAt(h, b, n);
    if LastPreimage(h, a) == LastPreimage(h, b) {
      PrevHashPlain(h, a, m);
      PrevHashPlain(h, b, n);
      assert SameHashed(h, a[m..], b[n..]) && PrevHash(a, m) == PrevHash(b, n);
      if m > 0 {
        ChainPrefix(h, a, m);
        ChainPrefix(h, b, n);
        TamperEvident(h, a[..m], b[..n]);
        if SameHashed(h, a[..m], b[..n]) { SameHashedSnoc(h, a, b); }
      }
    }
  }

  /** Changing any vouched field of a verified log, its hashes left as they are, breaks it or exhibits a collision. */
  lemma ChangedFieldBreaks(h: Scheme, logs: seq<Row>, i: nat, row: Row)
    requires Digests(h) && Separates(h) && ValidChain(h, logs) && i < |logs|
    requires row.hash == logs[i].hash && !SameFields(h, logs[i], row)
    ensures ValidChain(h, logs[i := row]) ==> Collides(h, Differing(h, logs, logs[i := row]))
  {
    var changed := logs[i := row];
    if ValidChain(h, changed) {
      TamperEvident(h, logs, changed);
      assert !SameFields(h, logs[i], changed[i]);
    }
  }

  /** Changing a row's own hash or previous hash alone breaks it outright. */
  lemma ChangedHashBreaks(h: Scheme, logs: seq<Row>, i: nat, row: Row)
    requires ValidChain(h, logs) && i < |logs|
    requires row.entry == logs[i].entry && row.createdAt == logs[i].createdAt
    requires row.hash != logs[i].hash || row.prevHash != logs[i].prevHash
    ensures !ValidChain(h, logs[i := row])
  {
    var changed := logs[i := row];
    assert LinkedAt(h, logs, i) && PrevHash(changed, i) == PrevHash(logs, i);
    assert !LinkedAt(h, changed, i);
  }

  lemma SameHashedSnoc(h: Scheme, a: seq<Row>, b: seq<Row>)
    requires a != [] && b != []
    requires SameHashed(h, a[..|a| - 1], b[..|b| - 1]) && SameHashed(h, a[|a| - 1..], b[|b| - 1..])
    ensures SameHashed(h, a, b)
  {
    var m := |a| - 1;
    assert a == a[..m] + a[m..] && b == b[..m] + b[m..];
  }

  // ------------------------------------------------------------------- append

  /** A row whose hash has been computed but which is not written yet: the state between the two awaits. */
  datatype Pending = Pending(entry: Entry, prevHash: string, hashedAt: nat, hash: string, seen: nat)

  /** The first half of `audit`: read the newest hash, take the clock, hash. */
  function Prepare(h: Scheme, rows: seq<Row>, entry: Entry, now: nat): Pending {
    var prev := if rows == [] then GENESIS else rows[Newest(rows)].hash;
    Pending(entry, prev, now, h.sha256(h.text(HashedOf(h, entry, now), prev)), |rows|)
  }

  /** `findFirst` with `orderBy createdAt desc`: the index of a row with the largest createdAt. */
  function Newest(rows: seq<Row>): (i: nat)
    requires rows != []
    ensures i < |rows| && forall j :: 0 <= j < |rows| ==> rows[j].createdAt <= rows[i].createdAt
  {
    if |rows| == 1 then 0
    else
      var i := 1 + Newest(rows[1..]);
      assert forall j :: 1 <= j < |rows| ==> rows[j] == rows[1..][j - 1];
      if rows[0].createdAt > rows[i].createdAt then 0 else i
  }

  /**
   The second half: `create`. `stored` is the meta as the database gives it back and `at` the
   createdAt the database assigns, neither of which is what was hashed.
   */
  function Written(p: Pending, id: string, stored: Json, at: nat): Row {
    Row(id, p.entry.(meta := stored), Some(p.prevHash), p.hash, at)
  }

  ghost predicate Increasing(rows: seq<Row>) {
    forall i, j :: 0 <= i < j < |rows| ==> rows[i].createdAt < rows[j].createdAt
  }

  /** Nothing was written between the read and the write. */
  predicate Fresh(rows: seq<Row>, p: Pending) { p.seen == |rows| }

  /** The row reads back to the fields that were hashed. */
  predicate Faithful(h: Scheme, p: Pending, stored: Json, at: nat) {
    HashedOf(h, p.entry.(meta := stored), at) == HashedOf(h, p.entry, p.hashedAt)
  }

  /** The pending row was prepared from some prefix of the rows. */
  ghost predicate Prepared(h: Scheme, rows: seq<Row>, p: Pending) {
    && p.seen <= |rows| && p.prevHash == PrevHash(rows, p.seen)
    && p.hash == h.sha256(h.text(HashedOf(h, p.entry, p.hashedAt), p.prevHash))
  }

  lemma PrepareReadsLast(h: Scheme, rows: seq<Row>, entry: Entry, now: nat)
    requires Increasing(rows)
    ensures Prepared(h, rows, Prepare(h, rows, entry, now))
  {
    if rows != [] {
      var i := Newest(rows);
      assert rows[|rows| - 1].createdAt <= rows[i].createdAt;
    }
  }

  /** If a write that is stale or unfaithful still verifies, these two texts collide. */
  function WriteCollision(h: Scheme, rows: seq<Row>, p: Pending, stored: Json, at: nat): (string, string)
    requires p.seen <= |rows|
  {
    if Fresh(rows, p) then (h.text(HashedOf(h, p.entry, p.hashedAt), p.prevHash),
                            h.text(HashedOf(h, p.entry.(meta := stored), at), p.prevHash))
    else Differing(h, rows[..p.seen], rows)
  }

  /**
   The exact verdict on one write to a verified chain: the longer chain verifies when the write
   is fresh and faithful, and otherwise only through an explicit SHA-256 collision.
   */
  lemma WriteVerdict(h: Scheme, rows: seq<Row>, p: Pending, id: string, stored: Json, at: nat)
    requires Digests(h) && Separates(h) && ValidChain(h, rows) && Prepared(h, rows, p)
    ensures var chain := rows + [Written(p, id, stored, at)];
            && (Fresh(rows, p) && Faithful(h, p, stored, at) ==> ValidChain(h, chain))
            && (ValidChain(h, chain) && !(Fresh(rows, p) && Faithful(h, p, stored, at)) ==>
                  Collides(h, WriteCollision(h, rows, p, stored, at)))
  {
    var row := Written(p, id, stored, at);
    var chain, n := rows + [row], |rows|;
    if Fresh(rows, p) && Faithful(h, p, stored, at) {
      forall i | 0 <= i <= n ensures LinkedAt(h, chain, i) {
        if i < n {
          assert PrevHash(chain, i) == PrevHash(rows, i) && LinkedAt(h, rows, i);
        }
      }
    } else if ValidChain(h, chain) {
      assert LinkedAt(h, chain, n) && PrevHash(chain, n) == PrevHash(rows, n);
      if Fresh(rows, p) {
        PrevHashPlain(h, rows, n);
        var f, g := HashedOf(h, p.entry, p.hashedAt), HashedOf(h, row.entry, at);
        assert h.text(f, p.prevHash) == h.text(g, p.prevHash) ==> f == g;
      } else {
        PrevHashPlain(h, rows, n);
        PrevHashPlain(h, rows, p.seen);
        ChainPrefix(h, rows, p.seen);
        TamperEvident(h, rows[..p.seen], rows);
      }
    }
  }

  // ---------------------------------------------------------------- equal times

  /** Two rows of a verified chain with one hash exhibit a collision. */
  lemma SameHashCollides(h: Scheme, rows: seq<Row>, i: nat, j: nat)
    requires Digests(h) && Separates(h) && ValidChain(h, rows) && i < j < |rows| && rows[i].hash == rows[j].hash
    ensures Collides(h, Differing(h, rows[..i + 1], rows[..j + 1]))
  {
    ChainPrefix(h, rows, i + 1);
    ChainPrefix(h, rows, j + 1);
    TamperEvident(h, rows[..i + 1], rows[..j + 1]);
  }

  /**
   Rows with equal times may be read in any order. A verified log read in another order than it was
   written in does not verify, unless through the collision given here.
   */
  lemma PermutedView(h: Scheme, rows: seq<Row>, view: seq<Row>) returns (c: (string, string))
    requires Digests(h) && Separates(h) && ValidChain(h, rows) && multiset(view) == multiset(rows)
    ensures ValidChain(h, view) && view != rows ==> Collides(h, c)
  {
    c := ("", "");
    if ValidChain(h, view) && view != rows {
      assert |multiset(view)| == |multiset(rows)|;
      var n := |view| - 1;
      var k := RowIndex(rows, view, n);
      ChainPrefix(h, rows, k + 1);
      TamperEvident(h, rows[..k + 1], view);
      if SameHashed(h, rows[..k + 1], view) {
        assert rows[..k + 1] == rows;
        var i :| 0 <= i < |view| && view[i] != rows[i];
        var m := RowIndex(rows, view, i);
        assert rows[m].hash == view[i].hash == rows[i].hash;
        if m < i {
          SameHashCollides(h, rows, m, i);
          c := Differing(h, rows[..m + 1], rows[..i + 1]);
        } else {
          SameHashCollides(h, rows, i, m);
          c := Differing(h, rows[..i + 1], rows[..m + 1]);
        }
      } else {
        c := Differing(h, rows[..k + 1], view);
      }
    }
  }

  lemma RowIndex(rows: seq<Row>, view: seq<Row>, i: nat) returns (k: nat)
    requires i < |view| && multiset(view) == multiset(rows)
    ensures k < |rows| && rows[k] == view[i]
  {
    assert view[i] in multiset(view);
    assert view[i] in multiset(rows);
    k :| 0 <= k < |rows| && rows[k] == view[i];
  }

  /** `audit` after a query that, among rows of equal time, returned row `i`. */
  function PreparedFrom(h: Scheme, rows: seq<Row>, i: nat, entry: Entry, now: nat): Pending
    requires i < |rows|
  {
    Pending(entry, rows[i].hash, now, h.sha256(h.text(HashedOf(h, entry, now), rows[i].hash)), i + 1)
  }

  /** The entry then continues the chain exactly when row `i` is the last one written, up to a collision. */
  lemma TiedReadVerdict(h: Scheme, rows: seq<Row>, i: nat, entry: Entry, now: nat, id: string, stored: Json, at: nat)
    requires Digests(h) && Separates(h) && ValidChain(h, rows) && i < |rows|
    requires Faithful(h, PreparedFrom(h, rows, i, entry, now), stored, at)
    ensures var p := PreparedFrom(h, rows, i, entry, now);
            var chain := rows + [Written(p, id, stored, at)];
            && (i == |rows| - 1 ==> ValidChain(h, chain))
            && (ValidChain(h, chain) && i != |rows| - 1 ==> Collides(h, WriteCollision(h, rows, p, stored, at)))
  {
    WriteVerdict(h, rows, PreparedFrom(h, rows, i, entry, now), id, stored, at);
  }

  // ------------------------------------------------------- through the database

  /** The meta of a row that was stored as JSONB and read again. */
  function Stored(e: Entry): Json { Jsonb.ReadBack(Meta(e)) }

  /** What the caller can see before the write: every object's keys already in the database's order. */
  predicate Storable(e: Entry) { Jsonb.Settled(Meta(e)) }

  /** A row reads back as hashed exactly when its meta is storable and both clocks print alike. */
  lemma FaithfulExactly(h: Scheme, p: Pending, at: nat)
    ensures Faithful(h, p, Stored(p.entry), at) <==> Storable(p.entry) && h.iso(at) == h.iso(p.hashedAt)
  {
    Jsonb.ReadBackExactly(Meta(p.entry));
    assert !Stored(p.entry).JNull?;
    assert Meta(p.entry.(meta := Stored(p.entry))) == Stored(p.entry);
  }

  /** One write to a verified chain, the meta going through the database, judged by what is known before it. */
  lemma StoredWriteVerdict(h: Scheme, rows: seq<Row>, p: Pending, id: string, at: nat)
    requires Digests(h) && Separates(h) && ValidChain(h, rows) && Prepared(h, rows, p)
    ensures var chain := rows + [Written(p, id, Stored(p.entry), at)];
            var good := Fresh(rows, p) && Storable(p.entry) && h.iso(at) == h.iso(p.hashedAt);
            && (good ==> ValidChain(h, chain))
            && (ValidChain(h, chain) && !good ==> Collides(h, WriteCollision(h, rows, p, Stored(p.entry), at)))
  {
    FaithfulExactly(h, p, at);
    WriteVerdict(h, rows, p, id, Stored(p.entry), at);
  }

  predicate Scalar(v: Json) { !v.JArr? && !v.JObj? }

  /** Two scalar members with plain names, the longer name first, are never storable. */
  lemma LongerFirstFails(e: Entry, i: nat, j: nat)
    requires e.meta.JObj? && i < j < |e.meta.fields|
    requires Jsonb.Name(e.meta.fields[i].key) && Jsonb.Name(e.meta.fields[j].key)
    requires |e.meta.fields[j].key| < |e.meta.fields[i].key|
    ensures !Storable(e)
  {
    Jsonb.ShorterNameFirst(e.meta.fields[j].key, e.meta.fields[i].key);
  }

  /**
   The program's own entries. Scheduling lists its short key first and survives; imports, exports
   and backups start with `database` and never verify once they are read back.
   */
  lemma ProgramMetas(e: Entry, a: Json, b: Json, c: Json, d: Json)
    requires Scalar(a) && Scalar(b) && Scalar(c) && Scalar(d)
    ensures e.meta == JObj([Field("cron", a), Field("database", b)]) ==> Storable(e)
    ensures e.meta == JObj([Field("jobId", a), Field("database", b)]) ==> Storable(e)
    ensures e.meta == JObj([Field("database", a), Field("table", b), Field("rows", c)]) ==> !Storable(e)
    ensures e.meta == JObj([Field("database", a), Field("backupId", b), Field("size", c)]) ==> !Storable(e)
    ensures e.meta == JObj([Field("database", a), Field("table", b), Field("format", c), Field("artifactId", d)]) ==>
              !Storable(e)
  {
    if e.meta == JObj([Field("database", a), Field("table", b), Field("rows", c)]) {
      LongerFirstFails(e, 0, 1);
    } else if e.meta == JObj([Field("database", a), Field("backupId", b), Field("size", c)]) {
      LongerFirstFails(e, 0, 2);
    } else if e.meta == JObj([Field("database", a), Field("table", b), Field("format", c), Field("artifactId", d)]) {
      LongerFirstFails(e, 0, 1);
    } else if e.meta == JObj([Field("cron", a), Field("database", b)]) {
      PairStorable(e, Field("cron", a), Field("database", b));
    } else if e.meta == JObj([Field("jobId", a), Field("database", b)]) {
      PairStorable(e, Field("jobId", a), Field("database", b));
    }
  }

  lemma PairStorable(e: Entry, f: Field, g: Field)
    requires e.meta == JObj([f, g]) && Scalar(f.value) && Scalar(g.value)
    requires Jsonb.Name(f.key) && Jsonb.Name(g.key) && |f.key| < |g.key|
    ensures Storable(e)
  {
    Jsonb.ShorterNameFirst(f.key, g.key);
    assert [f, g][1..] == [g] && [g][1..] == [];
    assert Jsonb.SettledFields([g]) && Jsonb.SettledFields([f, g]);
  }
}
