/** enforceRetention: keep the newest N backups in scope, delete the rest, surviving partial failures. */
module Retention {
  import opened Text

  datatype Status = Pending | Available | Failed | Deleted

  datatype Format = Sql | Csv | Xlsx

  datatype Backup = Backup(tenantId: string, serverId: string, database: string, format: Format, status: Status,
                           createdAt: nat, uri: Option<string>)

  datatype Scope = Scope(tenantId: string, serverId: string, database: string)

  /** The storage delete goes through, rejects without effect, or rejects after the object is gone. */
  datatype Deletion = Erased | Refused | Unanswered

  /** How the two awaits for one row turn out. */
  datatype Fate = Fate(storage: Deletion, update: bool)

  predicate InScope(b: Backup, c: Scope) {
    && b.tenantId == c.tenantId && b.serverId == c.serverId && b.database == c.database
    && b.status == Available && b.format == Sql
  }

  /** The answer of `findMany`: the rows in scope, each once, newest first, ties in any order. */
  ghost predicate Answer(rows: map<nat, Backup>, c: Scope, ids: seq<nat>) {
    && Distinct(ids)
    && (forall id :: id in ids <==> id in rows && InScope(rows[id], c))
    && (forall i, j :: 0 <= i <= j < |ids| ==> rows[ids[j]].createdAt <= rows[ids[i]].createdAt)
  }

  /** `backups.slice(retention)`. */
  function Tail(ids: seq<nat>, keep: nat): seq<nat> { if keep <= |ids| then ids[keep..] else [] }

  /** Both awaits for the row succeed; without an address there is nothing to delete first. */
  predicate Removes(b: Backup, f: Fate) { (b.uri.None? || f.storage == Erased) && f.update }

  /** The storage delete of the row runs and takes effect, answered or not. */
  predicate Erases(b: Backup, f: Fate) { b.uri.Some? && f.storage != Refused }

  /** The rows after handling `ids` one by one. */
  ghost predicate RowsAfter(before: map<nat, Backup>, ids: seq<nat>, fates: seq<Fate>, after: map<nat, Backup>)
    requires |ids| <= |fates|
  {
    && after.Keys == before.Keys
    && (forall id :: id in before && id !in ids ==> after[id] == before[id])
    && (forall i :: 0 <= i < |ids| && ids[i] in before ==>
          after[ids[i]] == if Removes(before[ids[i]], fates[i]) then before[ids[i]].(status := Deleted) else before[ids[i]])
  }

  ghost predicate ObjectsAfter(rows: map<nat, Backup>, ids: seq<nat>, fates: seq<Fate>, before: set<string>, after: set<string>)
    requires |ids| <= |fates|
  {
    forall k :: k in after <==> k in before && !ErasedBy(rows, ids, fates, k)
  }

  ghost predicate ErasedBy(rows: map<nat, Backup>, ids: seq<nat>, fates: seq<Fate>, k: string)
    requires |ids| <= |fates|
  {
    exists i :: 0 <= i < |ids| && ids[i] in rows && Erases(rows[ids[i]], fates[i]) && rows[ids[i]].uri == Some(k)
  }

  /** How many of the rows were moved to deleted. */
  function Removed(rows: map<nat, Backup>, ids: seq<nat>, fates: seq<Fate>): nat
    requires |ids| <= |fates|
  {
    if ids == [] then 0
    else
      var n := |ids| - 1;
      Removed(rows, ids[..n], fates) + if ids[n] in rows && Removes(rows[ids[n]], fates[n]) then 1 else 0
  }

  class Store {
    var rows: map<nat, Backup>
    var objects: set<string>

    /** The loop body for the row `id`: delete its object, then mark it; either may fail. */
    method Handle(id: nat, f: Fate) returns (done: bool)
      requires id in rows
      modifies this
      ensures done == Removes(old(rows)[id], f)
      ensures done <==> (old(rows)[id].uri.None? || f.storage == Erased) && f.update
      ensures rows == if done then old(rows)[id := old(rows)[id].(status := Deleted)] else old(rows)
      ensures objects == if Erases(old(rows)[id], f) then old(objects) - {old(rows)[id].uri.value} else old(objects)
      ensures forall k :: k in objects <==> k in old(objects) && !(old(rows)[id].uri == Some(k) && f.storage != Refused)
    {
      var b := rows[id];
      if b.uri.Some? {
        if f.storage != Refused { objects := objects - {b.uri.value}; }
        if f.storage != Erased { return false; }
      }
      if !f.update { return false; }
      rows := rows[id := b.(status := Deleted)];
      return true;
    }

    /** `answer` is what the query returned; `fates` how the awaits for each tail row turn out. */
    method EnforceRetention(c: Scope, keep: nat, answer: seq<nat>, fates: seq<Fate>) returns (deleted: nat)
      requires Answer(rows, c, answer) && |answer| <= |fates|
      modifies this
      ensures RowsAfter(old(rows), Tail(answer, keep), fates, rows)
      ensures ObjectsAfter(old(rows), Tail(answer, keep), fates, old(objects), objects)
      ensures deleted == Removed(old(rows), Tail(answer, keep), fates)
      ensures forall id <- old(rows) ::
                || (id in rows && rows[id] == old(rows)[id])
                || (old(rows)[id].tenantId == c.tenantId && old(rows)[id].serverId == c.serverId
                    && old(rows)[id].database == c.database && old(rows)[id].format == Sql
                    && old(rows)[id].status == Available && id in rows
                    && rows[id] == old(rows)[id].(status := Deleted)
                    && (old(rows)[id].uri.Some? ==> old(rows)[id].uri.value !in objects))
      ensures NoFailure(fates) ==>
                |set id | id in rows && rows[id].tenantId == c.tenantId && rows[id].serverId == c.serverId
                          && rows[id].database == c.database && rows[id].format == Sql
                          && rows[id].status == Available| <= keep
    {
      ghost var start, held := rows, objects;
      var toDelete := Tail(answer, keep);
      TailFacts(rows, c, answer, keep);
      deleted := 0;
      for i := 0 to |toDelete|
        invariant Handled(start, toDelete[..i], fates, rows, held, objects, deleted)
      {
        var id := toDelete[i];
        TailRow(start, toDelete, i, fates, rows);
        ghost var rows0, objects0 := rows, objects;
        var done := Handle(id, fates[i]);
        if done { deleted := deleted + 1; }
        HandledStep(start, toDelete, i, fates, rows0, rows, held, objects0, objects, deleted, done);
      }
      assert toDelete[..|toDelete|] == toDelete;
      Described(start, c, keep, answer, fates, rows, held, objects);
    }
  }

  lemma Described(before: map<nat, Backup>, c: Scope, keep: nat, answer: seq<nat>, fates: seq<Fate>,
                  rows: map<nat, Backup>, held: set<string>, objects: set<string>)
    requires Answer(before, c, answer) && |answer| <= |fates|
    requires RowsAfter(before, Tail(answer, keep), fates, rows)
    requires ObjectsAfter(before, Tail(answer, keep), fates, held, objects)
    ensures forall id <- before ::
              || (id in rows && rows[id] == before[id])
              || (before[id].tenantId == c.tenantId && before[id].serverId == c.serverId
                  && before[id].database == c.database && before[id].format == Sql && before[id].status == Available && id in rows
                  && rows[id] == before[id].(status := Deleted)
                  && (before[id].uri.Some? ==> before[id].uri.value !in objects))
    ensures NoFailure(fates) ==>
              |set id | id in rows && rows[id].tenantId == c.tenantId && rows[id].serverId == c.serverId
                        && rows[id].database == c.database && rows[id].format == Sql && rows[id].status == Available| <= keep
  {
    KeptAreNewest(before, c, keep, answer, fates, rows, held, objects);
    var tail := Tail(answer, keep);
    forall id | id in before && rows[id] != before[id] && before[id].uri.Some?
      ensures before[id].uri.value !in objects
    {
      assert id in tail;
      var i :| 0 <= i < |tail| && tail[i] == id;
      assert ErasedBy(before, tail, fates, before[id].uri.value);
    }
    if NoFailure(fates) { AtMostKeep(before, c, keep, answer, fates, rows); }
  }

  ghost predicate Handled(start: map<nat, Backup>, ids: seq<nat>, fates: seq<Fate>, rows: map<nat, Backup>,
                          held: set<string>, objects: set<string>, deleted: nat)
  {
    && |ids| <= |fates| && RowsAfter(start, ids, fates, rows) && ObjectsAfter(start, ids, fates, held, objects)
    && deleted == Removed(start, ids, fates)
  }

  lemma TailFacts(rows: map<nat, Backup>, c: Scope, answer: seq<nat>, keep: nat)
    requires Answer(rows, c, answer)
    ensures var tail := Tail(answer, keep);
            |tail| <= |answer| && Distinct(tail) && forall i :: 0 <= i < |tail| ==> tail[i] in rows
  {
    var tail := Tail(answer, keep);
    assert forall i :: 0 <= i < |tail| ==> tail[i] == answer[keep + i] && tail[i] in answer;
  }

  lemma TailRow(start: map<nat, Backup>, tail: seq<nat>, i: nat, fates: seq<Fate>, rows: map<nat, Backup>)
    requires i < |tail| <= |fates| && Distinct(tail) && tail[i] in start && RowsAfter(start, tail[..i], fates, rows)
    ensures tail[i] in rows && tail[i] !in tail[..i] && rows[tail[i]] == start[tail[i]]
  {
  }

  lemma HandledStep(start: map<nat, Backup>, tail: seq<nat>, i: nat, fates: seq<Fate>,
                    rows0: map<nat, Backup>, rows: map<nat, Backup>,
                    held: set<string>, objects0: set<string>, objects: set<string>, deleted: nat, done: bool)
    requires i < |tail| <= |fates| && tail[i] in start && tail[i] !in tail[..i]
    requires RowsAfter(start, tail[..i], fates, rows0) && ObjectsAfter(start, tail[..i], fates, held, objects0)
    requires done == Removes(start[tail[i]], fates[i]) && deleted == Removed(start, tail[..i], fates) + if done then 1 else 0
    requires rows == if done then rows0[tail[i] := start[tail[i]].(status := Deleted)] else rows0
    requires objects == if Erases(start[tail[i]], fates[i]) then objects0 - {start[tail[i]].uri.value} else objects0
    ensures Handled(start, tail[..i + 1], fates, rows, held, objects, deleted)
  {
    SliceOne(tail, i);
    RowsStep(start, tail[..i + 1], fates, rows0, rows);
    ObjectsStep(start, tail[..i + 1], fates, held, objects0, objects);
  }

  lemma SliceOne(s: seq<nat>, i: nat)
    requires i < |s|
    ensures s[..i + 1][..i] == s[..i] && s[..i + 1][i] == s[i] && |s[..i + 1]| == i + 1
  {
  }

  lemma RowsStep(start: map<nat, Backup>, ids: seq<nat>, fates: seq<Fate>, r0: map<nat, Backup>, r1: map<nat, Backup>)
    requires 0 < |ids| <= |fates| && ids[|ids| - 1] in start && ids[|ids| - 1] !in ids[..|ids| - 1]
    requires RowsAfter(start, ids[..|ids| - 1], fates, r0)
    requires var id := ids[|ids| - 1];
             r1 == if Removes(start[id], fates[|ids| - 1]) then r0[id := start[id].(status := Deleted)] else r0
    ensures RowsAfter(start, ids, fates, r1)
  {
    var n := |ids| - 1;
    var init := ids[..n];
    assert forall i :: 0 <= i < n ==> init[i] == ids[i];
    assert forall id :: id !in ids ==> id !in init;
    forall i | 0 <= i < |ids| && ids[i] in start
      ensures r1[ids[i]] == if Removes(start[ids[i]], fates[i]) then start[ids[i]].(status := Deleted) else start[ids[i]]
    {
      if i < n { assert init[i] == ids[i] && ids[i] != ids[n]; }
    }
  }

  lemma ObjectsStep(rows: map<nat, Backup>, ids: seq<nat>, fates: seq<Fate>, held: set<string>, o0: set<string>, o1: set<string>)
    requires 0 < |ids| <= |fates| && ids[|ids| - 1] in rows
    requires ObjectsAfter(rows, ids[..|ids| - 1], fates, held, o0)
    requires var b := rows[ids[|ids| - 1]];
             o1 == if Erases(b, fates[|ids| - 1]) then o0 - {b.uri.value} else o0
    ensures ObjectsAfter(rows, ids, fates, held, o1)
  {
    var n := |ids| - 1;
    forall k ensures ErasedBy(rows, ids, fates, k) <==>
      ErasedBy(rows, ids[..n], fates, k) || (Erases(rows[ids[n]], fates[n]) && rows[ids[n]].uri == Some(k))
    {
      if ErasedBy(rows, ids[..n], fates, k) {
        var i :| 0 <= i < n && ids[..n][i] in rows && Erases(rows[ids[..n][i]], fates[i]) && rows[ids[..n][i]].uri == Some(k);
        assert ids[i] == ids[..n][i];
      }
      if ErasedBy(rows, ids, fates, k) {
        var i :| 0 <= i < |ids| && ids[i] in rows && Erases(rows[ids[i]], fates[i]) && rows[ids[i]].uri == Some(k);
        assert i < n ==> ids[..n][i] == ids[i];
      }
    }
  }

  // ------------------------------------------------------------------ properties

  /** No two rows have one address. */
  ghost predicate OwnAddresses(rows: map<nat, Backup>) {
    forall a, b | a in rows && b in rows && a != b && rows[a].uri.Some? :: rows[a].uri != rows[b].uri
  }

  /**
   Whatever fails: a row that is kept or out of scope is untouched, no deleted row is newer than
   a kept one, and an object disappears only if it belongs to a row of the tail; the objects of
   all other rows survive when no two rows share an address.
   */
  lemma KeptAreNewest(rows: map<nat, Backup>, c: Scope, keep: nat, answer: seq<nat>, fates: seq<Fate>,
                      after: map<nat, Backup>, held: set<string>, objects: set<string>)
    requires Answer(rows, c, answer) && |answer| <= |fates|
    requires RowsAfter(rows, Tail(answer, keep), fates, after)
    requires ObjectsAfter(rows, Tail(answer, keep), fates, held, objects)
    ensures forall id :: id in rows && after[id] != rows[id] ==> InScope(rows[id], c) && after[id] == rows[id].(status := Deleted)
    ensures forall id, kept | id in rows && kept in rows && after[id] != rows[id] && InScope(after[kept], c)
                           && kept in answer[..if keep < |answer| then keep else |answer|] ::
              rows[id].createdAt <= rows[kept].createdAt
    ensures forall k :: k in held && k !in objects ==>
              exists id :: id in Tail(answer, keep) && id in rows && rows[id].uri == Some(k)
    ensures OwnAddresses(rows) ==>
              forall id :: id in rows && id !in Tail(answer, keep) && rows[id].uri.Some? && rows[id].uri.value in held ==>
                rows[id].uri.value in objects
  {
    var tail := Tail(answer, keep);
    forall id | id in rows && after[id] != rows[id] ensures id in tail && InScope(rows[id], c) {
      assert id in tail;
      var i :| 0 <= i < |tail| && tail[i] == id;
      assert answer[keep + i] == id;
    }
    forall id, kept | id in tail && kept in answer[..if keep < |answer| then keep else |answer|]
      ensures rows[id].createdAt <= rows[kept].createdAt
    {
      var i :| 0 <= i < |tail| && tail[i] == id;
      var j :| 0 <= j < keep && j < |answer| && answer[j] == kept;
      assert answer[keep + i] == id;
    }
    forall k | k in held && k !in objects
      ensures exists id :: id in tail && id in rows && rows[id].uri == Some(k)
    {
      var i :| 0 <= i < |tail| && tail[i] in rows && Erases(rows[tail[i]], fates[i]) && rows[tail[i]].uri == Some(k);
      assert tail[i] in tail;
    }
  }

  ghost predicate NoFailure(fates: seq<Fate>) { forall i :: 0 <= i < |fates| ==> fates[i].storage == Erased && fates[i].update }

  /** The query result after a failure-free pass is exactly the kept head of the first one. */
  lemma CleanPassKeepsHead(rows: map<nat, Backup>, c: Scope, keep: nat, answer: seq<nat>, fates: seq<Fate>,
                           after: map<nat, Backup>, next: seq<nat>)
    requires Answer(rows, c, answer) && |answer| <= |fates| && NoFailure(fates)
    requires RowsAfter(rows, Tail(answer, keep), fates, after) && Answer(after, c, next)
    ensures forall id :: id in next <==> id in answer[..if keep < |answer| then keep else |answer|]
    ensures |next| <= keep
    ensures Tail(next, keep) == []
  {
    var n := if keep < |answer| then keep else |answer|;
    var head, tail := answer[..n], Tail(answer, keep);
    forall id ensures id in next <==> id in head {
      HeadOrTail(answer, keep, id);
      if id in tail {
        var i :| 0 <= i < |tail| && tail[i] == id;
        assert id in answer && after[tail[i]].status == Deleted;
      }
    }
    assert Distinct(head);
    SameMembersSameLength(next, head);
  }

  lemma HeadOrTail(answer: seq<nat>, keep: nat, id: nat)
    requires Distinct(answer)
    ensures var n := if keep < |answer| then keep else |answer|;
            && (id in answer <==> id in answer[..n] || id in Tail(answer, keep))
            && !(id in answer[..n] && id in Tail(answer, keep))
  {
    var n := if keep < |answer| then keep else |answer|;
    var tail := Tail(answer, keep);
    assert answer == answer[..n] + tail;
    assert forall j :: 0 <= j < |tail| ==> tail[j] == answer[n + j];
    assert forall i, j :: 0 <= i < n && 0 <= j < |tail| ==> answer[i] != tail[j];
  }

  lemma SameMembersSameLength(a: seq<nat>, b: seq<nat>)
    requires Distinct(a) && Distinct(b) && forall id :: id in a <==> id in b
    ensures |a| == |b|
  {
    DistinctSize(a);
    DistinctSize(b);
    assert Members(a) == Members(b);
  }

  function Members(a: seq<nat>): set<nat> { set id | id in a }

  lemma {:induction false} DistinctSize(a: seq<nat>)
    requires Distinct(a)
    ensures |Members(a)| == |a|
  {
    if a == [] {
      assert Members(a) == {};
    } else {
      var n := |a| - 1;
      DistinctSize(a[..n]);
      assert forall id :: id in a <==> id in a[..n] || id == a[n] by { assert a == a[..n] + [a[n]]; }
      assert Members(a) == Members(a[..n]) + {a[n]};
    }
  }

  lemma {:induction false} CleanPassCount(rows: map<nat, Backup>, ids: seq<nat>, fates: seq<Fate>)
    requires |ids| <= |fates| && NoFailure(fates) && forall id <- ids :: id in rows
    ensures Removed(rows, ids, fates) == |ids|
  {
    if ids != [] {
      var n := |ids| - 1;
      assert ids[n] in ids && forall id <- ids[..n] :: id in ids;
      CleanPassCount(rows, ids[..n], fates);
    }
  }

  /**
   Whatever fails, field by field: a row of another tenant, server or database, one that is not a
   SQL backup or not available keeps every field, and its object when no two rows share an address.
   */
  lemma OthersUntouched(rows: map<nat, Backup>, c: Scope, keep: nat, answer: seq<nat>, fates: seq<Fate>,
                        after: map<nat, Backup>, held: set<string>, objects: set<string>, id: nat)
    requires Answer(rows, c, answer) && |answer| <= |fates|
    requires RowsAfter(rows, Tail(answer, keep), fates, after)
    requires ObjectsAfter(rows, Tail(answer, keep), fates, held, objects)
    requires id in rows
    requires || rows[id].tenantId != c.tenantId || rows[id].serverId != c.serverId || rows[id].database != c.database
             || rows[id].format != Sql || rows[id].status != Available
    ensures after[id] == rows[id]
    ensures OwnAddresses(rows) && rows[id].uri.Some? && rows[id].uri.value in held ==> rows[id].uri.value in objects
  {
    KeptAreNewest(rows, c, keep, answer, fates, after, held, objects);
    HeadOrTail(answer, keep, id);
  }

  /** The answer lists exactly the available SQL backups of that tenant, server and database. */
  lemma AnswerSize(rows: map<nat, Backup>, c: Scope, answer: seq<nat>)
    requires Answer(rows, c, answer)
    ensures |set id | id in rows && rows[id].tenantId == c.tenantId && rows[id].serverId == c.serverId
                      && rows[id].database == c.database && rows[id].format == Sql && rows[id].status == Available| == |answer|
  {
    DistinctSize(answer);
    assert Members(answer) ==
           set id | id in rows && rows[id].tenantId == c.tenantId && rows[id].serverId == c.serverId
                    && rows[id].database == c.database && rows[id].format == Sql && rows[id].status == Available;
  }

  /** After a failure-free pass at most `keep` such rows are left, none older than a deleted one. */
  lemma AtMostKeep(rows: map<nat, Backup>, c: Scope, keep: nat, answer: seq<nat>, fates: seq<Fate>, after: map<nat, Backup>)
    requires Answer(rows, c, answer) && |answer| <= |fates| && NoFailure(fates)
    requires RowsAfter(rows, Tail(answer, keep), fates, after)
    ensures |set id | id in after && after[id].tenantId == c.tenantId && after[id].serverId == c.serverId
                      && after[id].database == c.database && after[id].format == Sql && after[id].status == Available|
            == if keep < |answer| then keep else |answer|
    ensures forall gone, kept | gone in rows && after[gone] != rows[gone] && kept in after
              && after[kept].tenantId == c.tenantId && after[kept].serverId == c.serverId && after[kept].database == c.database
              && after[kept].format == Sql && after[kept].status == Available ::
              rows[gone].createdAt <= after[kept].createdAt
  {
    var n := if keep < |answer| then keep else |answer|;
    var head := answer[..n];
    HeadIsSecond(rows, c, keep, answer, fates);
    assert Answer(after, c, head);
    AnswerSize(after, c, head);
    forall gone, kept | gone in rows && after[gone] != rows[gone] && kept in head
      ensures rows[gone].createdAt <= after[kept].createdAt
    {
      var tail := Tail(answer, keep);
      assert gone in tail;
      var i :| 0 <= i < |tail| && tail[i] == gone;
      var j :| 0 <= j < n && answer[j] == kept;
      assert answer[keep + i] == gone;
      HeadOrTail(answer, keep, kept);
    }
  }

  /** When there are no more than `keep` such rows, no row and no object changes. */
  lemma FewAreKept(rows: map<nat, Backup>, c: Scope, keep: nat, answer: seq<nat>, fates: seq<Fate>,
                   after: map<nat, Backup>, held: set<string>, objects: set<string>)
    requires Answer(rows, c, answer) && |answer| <= |fates|
    requires RowsAfter(rows, Tail(answer, keep), fates, after)
    requires ObjectsAfter(rows, Tail(answer, keep), fates, held, objects)
    requires |set id | id in rows && rows[id].tenantId == c.tenantId && rows[id].serverId == c.serverId
                       && rows[id].database == c.database && rows[id].format == Sql && rows[id].status == Available| <= keep
    ensures after == rows && objects == held && Removed(rows, Tail(answer, keep), fates) == 0
  {
    AnswerSize(rows, c, answer);
    assert Tail(answer, keep) == [];
    EmptyTail(rows, fates, after, held, objects);
  }

  /** An answer the query can give after a failure-free pass over `first`. */
  ghost predicate Second(rows: map<nat, Backup>, c: Scope, keep: nat, first: seq<nat>, fates: seq<Fate>, next: seq<nat>)
    requires |first| <= |fates|
  {
    forall after :: RowsAfter(rows, Tail(first, keep), fates, after) ==> Answer(after, c, next)
  }

  /**
   Two passes in a row, the first without failures: whatever happens in the second, it deletes
   nothing and leaves every row and object as the first one left them.
   */
  method TwoPasses(s: Store, c: Scope, keep: nat, first: seq<nat>, fates: seq<Fate>, second: seq<nat>, more: seq<Fate>)
    returns (deleted: nat, again: nat, ghost rows: map<nat, Backup>, ghost objects: set<string>)
    requires Answer(s.rows, c, first) && |first| <= |fates| && NoFailure(fates)
    requires Second(s.rows, c, keep, first, fates, second) && |second| <= |more|
    modifies s
    ensures RowsAfter(old(s.rows), Tail(first, keep), fates, rows)
    ensures ObjectsAfter(old(s.rows), Tail(first, keep), fates, old(s.objects), objects)
    ensures deleted == |Tail(first, keep)|
    ensures again == 0 && s.rows == rows && s.objects == objects
  {
    ghost var before := s.rows;
    deleted := s.EnforceRetention(c, keep, first, fates);
    rows, objects := s.rows, s.objects;
    TailFacts(before, c, first, keep);
    CleanPassCount(before, Tail(first, keep), fates);
    CleanPassKeepsHead(before, c, keep, first, fates, rows, second);
    again := s.EnforceRetention(c, keep, second, more);
    EmptyTail(rows, more, s.rows, objects, s.objects);
  }

  lemma EmptyTail(rows: map<nat, Backup>, fates: seq<Fate>, after: map<nat, Backup>,
                  held: set<string>, objects: set<string>)
    requires RowsAfter(rows, [], fates, after) && ObjectsAfter(rows, [], fates, held, objects)
    ensures after == rows && objects == held && Removed(rows, [], fates) == 0
  {
    assert after == rows;
    assert forall k :: !ErasedBy(rows, [], fates, k);
  }

  /** The kept rows, newest first, are such an answer. */
  lemma HeadIsSecond(rows: map<nat, Backup>, c: Scope, keep: nat, first: seq<nat>, fates: seq<Fate>)
    requires Answer(rows, c, first) && |first| <= |fates| && NoFailure(fates)
    ensures Second(rows, c, keep, first, fates, first[..if keep < |first| then keep else |first|])
  {
    var n := if keep < |first| then keep else |first|;
    var head, tail := first[..n], Tail(first, keep);
    forall after: map<nat, Backup> | RowsAfter(rows, tail, fates, after) ensures Answer(after, c, head) {
      forall id ensures id in head <==> id in after && InScope(after[id], c) {
        HeadOrTail(first, keep, id);
        if id in tail {
          var i :| 0 <= i < |tail| && tail[i] == id;
          assert first[keep + i] == id && after[tail[i]].status == Deleted;
        }
      }
    }
  }
}
