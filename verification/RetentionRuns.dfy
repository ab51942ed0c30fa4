/**
 enforceRetention as a run of the interleaving model: the rows and objects a pass leaves are those
 that its delete and update events lead to, so what is proved of all runs holds of real passes.
 */
module RetentionRuns {
  import opened Text
  import Jobs
  import A = Artifacts
  import R = Retention

  /** The store and the machine show the same rows, addresses and objects. */
  ghost predicate Mirrors(rows: map<nat, R.Backup>, objects: set<string>, s: A.System) {
    && rows.Keys == s.backups.Keys && objects == s.objects.Keys
    && forall id <- rows ::
         && rows[id].uri == Some(s.backups[id].uri)
         && (rows[id].status == R.Available || rows[id].status == R.Deleted)
         && (rows[id].status == R.Available <==> s.backups[id].status == A.Available)
  }

  /** The events of one row: its storage delete and, when that succeeds, its status update. */
  function RowEvents(p: nat, f: R.Fate): seq<A.Event> {
    [A.RetentionDelete(p, f.storage)] + if f.storage == R.Erased then [A.RetentionUpdate(p, f.update)] else []
  }

  function Events(p: nat, n: nat, fates: seq<R.Fate>): seq<A.Event>
    requires n <= |fates|
  {
    if n == 0 then [] else Events(p, n - 1, fates) + RowEvents(p, fates[n - 1])
  }

  /** The store after the rows of `ids`, one by one. */
  function RowsBy(rows: map<nat, R.Backup>, ids: seq<nat>, fates: seq<R.Fate>): map<nat, R.Backup>
    requires |ids| <= |fates| && forall i :: 0 <= i < |ids| ==> ids[i] in rows
  {
    if ids == [] then rows
    else
      var n := |ids| - 1;
      var before, id := RowsBy(rows, ids[..n], fates), ids[n];
      if R.Removes(rows[id], fates[n]) then before[id := rows[id].(status := R.Deleted)] else before
  }

  function ObjectsBy(rows: map<nat, R.Backup>, ids: seq<nat>, fates: seq<R.Fate>, objects: set<string>): set<string>
    requires |ids| <= |fates| && forall i :: 0 <= i < |ids| ==> ids[i] in rows
  {
    if ids == [] then objects
    else
      var n := |ids| - 1;
      var before, b := ObjectsBy(rows, ids[..n], fates, objects), rows[ids[n]];
      if R.Erases(b, fates[n]) then before - {b.uri.value} else before
  }

  lemma {:induction false} ByIsAfter(rows: map<nat, R.Backup>, ids: seq<nat>, fates: seq<R.Fate>, objects: set<string>)
    requires |ids| <= |fates| && Distinct(ids) && forall i :: 0 <= i < |ids| ==> ids[i] in rows
    ensures R.RowsAfter(rows, ids, fates, RowsBy(rows, ids, fates))
    ensures R.ObjectsAfter(rows, ids, fates, objects, ObjectsBy(rows, ids, fates, objects))
  {
    if ids != [] {
      var init := ids[..|ids| - 1];
      ByIsAfter(rows, init, fates, objects);
      assert ids[|ids| - 1] !in init;
      R.RowsStep(rows, ids, fates, RowsBy(rows, init, fates), RowsBy(rows, ids, fates));
      R.ObjectsStep(rows, ids, fates, objects, ObjectsBy(rows, init, fates, objects), ObjectsBy(rows, ids, fates, objects));
    }
  }

  /** The outcome of a pass is determined. */
  lemma OneOutcome(rows: map<nat, R.Backup>, ids: seq<nat>, fates: seq<R.Fate>, a: map<nat, R.Backup>, b: map<nat, R.Backup>)
    requires |ids| <= |fates| && R.RowsAfter(rows, ids, fates, a) && R.RowsAfter(rows, ids, fates, b)
    ensures a == b
  {
    forall id | id in rows ensures a[id] == b[id] {
      if id in ids {
        var i :| 0 <= i < |ids| && ids[i] == id;
        assert a[ids[i]] == b[ids[i]];
      }
    }
  }

  lemma ExecRow(sha256: Jobs.Bytes -> string, s: A.System, p: nat, f: R.Fate)
    ensures var t := A.Step(sha256, s, A.RetentionDelete(p, f.storage));
            A.Exec(sha256, s, RowEvents(p, f)) == if f.storage == R.Erased then A.Step(sha256, t, A.RetentionUpdate(p, f.update)) else t
  {
    var first, t := A.RetentionDelete(p, f.storage), A.Step(sha256, s, A.RetentionDelete(p, f.storage));
    if f.storage == R.Erased {
      var second := A.RetentionUpdate(p, f.update);
      assert RowEvents(p, f)[1..] == [second] && [second][1..] == [];
      assert A.Exec(sha256, t, [second]) == A.Exec(sha256, A.Step(sha256, t, second), []);
    } else {
      assert RowEvents(p, f)[1..] == [];
    }
  }

  /** The store after the loop body for the row `id`. */
  function RowsOf(rows: map<nat, R.Backup>, id: nat, f: R.Fate): map<nat, R.Backup>
    requires id in rows
  {
    if R.Removes(rows[id], f) then rows[id := rows[id].(status := R.Deleted)] else rows
  }

  function ObjectsOf(rows: map<nat, R.Backup>, id: nat, f: R.Fate, objects: set<string>): set<string>
    requires id in rows
  {
    if R.Erases(rows[id], f) then objects - {rows[id].uri.value} else objects
  }

  /** The machine after the row's events. */
  lemma RowSteps(sha256: Jobs.Bytes -> string, s: A.System, p: nat, f: R.Fate)
    requires A.Working(s, p) && !s.passes[p].gone
    ensures var next := s.passes[p].todo[1..];
            A.Exec(sha256, s, RowEvents(p, f)) ==
              match f.storage
              case Erased => A.Settle(A.Erase(s, p), p, f.update, next)
              case Refused => A.Leave(s, p, next)
              case Unanswered => A.Settle(A.Erase(s, p), p, false, next)
  {
    ExecRow(sha256, s, p, f);
    A.DeleteSteps(sha256, s, p);
    if f.storage == R.Erased { A.UpdateSteps(sha256, A.Erase(s, p), p, f.update); }
  }

  lemma EraseMirrored(s: A.System, p: nat, rows: map<nat, R.Backup>, objects: set<string>)
    requires Mirrors(rows, objects, s) && A.Working(s, p)
    ensures Mirrors(rows, objects - {rows[A.Current(s, p)].uri.value}, A.Erase(s, p))
  {
  }

  lemma SettleMirrored(s: A.System, p: nat, ok: bool, next: seq<nat>, rows: map<nat, R.Backup>, objects: set<string>)
    requires Mirrors(rows, objects, s) && A.Working(s, p)
    ensures var id := A.Current(s, p);
            Mirrors(if ok then rows[id := rows[id].(status := R.Deleted)] else rows, objects, A.Settle(s, p, ok, next))
  {
  }

  /** One row: the events do to the machine what the loop body does to the store. */
  lemma RowMirrored(sha256: Jobs.Bytes -> string, s: A.System, p: nat, f: R.Fate,
                    rows: map<nat, R.Backup>, objects: set<string>)
    requires Mirrors(rows, objects, s) && A.Working(s, p) && !s.passes[p].gone
    ensures var id := A.Current(s, p);
            var t := A.Exec(sha256, s, RowEvents(p, f));
            && p in t.passes && t.passes[p] == A.Pass(s.passes[p].todo[1..], false) && t.jobs == s.jobs
            && Mirrors(RowsOf(rows, id, f), ObjectsOf(rows, id, f, objects), t)
  {
    var id, next := A.Current(s, p), s.passes[p].todo[1..];
    RowSteps(sha256, s, p, f);
    if f.storage != R.Refused {
      EraseMirrored(s, p, rows, objects);
      var ok := f.storage == R.Erased && f.update;
      SettleMirrored(A.Erase(s, p), p, ok, next, rows, objects - {rows[id].uri.value});
    }
  }

  lemma {:induction false} PassMirrored(sha256: Jobs.Bytes -> string, s: A.System, p: nat, ids: seq<nat>, n: nat,
                                        fates: seq<R.Fate>, rows: map<nat, R.Backup>, objects: set<string>)
    requires n <= |ids| <= |fates| && Distinct(ids) && (forall i :: 0 <= i < |ids| ==> ids[i] in rows)
    requires Mirrors(rows, objects, s) && p in s.passes && s.passes[p] == A.Pass(ids, false)
    ensures var t := A.Exec(sha256, s, Events(p, n, fates));
            && p in t.passes && t.passes[p] == A.Pass(ids[n..], false) && t.jobs == s.jobs
            && Mirrors(RowsBy(rows, ids[..n], fates), ObjectsBy(rows, ids[..n], fates, objects), t)
  {
    if n > 0 {
      var m := n - 1;
      PassMirrored(sha256, s, p, ids, m, fates, rows, objects);
      var u := A.Exec(sha256, s, Events(p, m, fates));
      A.ExecConcat(sha256, s, Events(p, m, fates), RowEvents(p, fates[m]));
      var held, kept := RowsBy(rows, ids[..m], fates), ObjectsBy(rows, ids[..m], fates, objects);
      OneMore(rows, ids, m, fates, objects);
      RowMirrored(sha256, u, p, fates[m], held, kept);
      assert ids[m..][1..] == ids[n..];
    }
  }

  /** The rows and objects after one more row. */
  lemma OneMore(rows: map<nat, R.Backup>, ids: seq<nat>, m: nat, fates: seq<R.Fate>, objects: set<string>)
    requires m < |ids| <= |fates| && Distinct(ids) && forall i :: 0 <= i < |ids| ==> ids[i] in rows
    ensures var held := RowsBy(rows, ids[..m], fates);
            && ids[m] in held && RowsBy(rows, ids[..m + 1], fates) == RowsOf(held, ids[m], fates[m])
            && ObjectsBy(rows, ids[..m + 1], fates, objects) ==
                 ObjectsOf(held, ids[m], fates[m], ObjectsBy(rows, ids[..m], fates, objects))
  {
    SoFar(rows, ids, m, fates);
    assert ids[..m + 1][..m] == ids[..m] && ids[..m + 1][m] == ids[m];
  }

  /** A row that has not been handled yet is as it was. */
  lemma SoFar(rows: map<nat, R.Backup>, ids: seq<nat>, m: nat, fates: seq<R.Fate>)
    requires m < |ids| <= |fates| && Distinct(ids) && forall i :: 0 <= i < |ids| ==> ids[i] in rows
    ensures var held := RowsBy(rows, ids[..m], fates); ids[m] in held && held[ids[m]] == rows[ids[m]]
  {
    ByIsAfter(rows, ids[..m], fates, {});
    assert ids[m] !in ids[..m];
  }

  /** The whole pass, from its query to its last row. */
  lemma RunMirrored(sha256: Jobs.Bytes -> string, s: A.System, p: nat, ids: seq<nat>, fates: seq<R.Fate>,
                    rows: map<nat, R.Backup>, objects: set<string>)
    requires |ids| <= |fates| && Distinct(ids) && (forall i :: 0 <= i < |ids| ==> ids[i] in rows)
    requires Mirrors(rows, objects, s) && (p in s.passes ==> s.passes[p].todo == [])
    ensures var t := A.Exec(sha256, s, [A.RetentionRead(p, ids)] + Events(p, |ids|, fates));
            && p in t.passes && t.passes[p].todo == [] && t.jobs == s.jobs
            && Mirrors(RowsBy(rows, ids, fates), ObjectsBy(rows, ids, fates, objects), t)
  {
    var read, begun, rest := A.RetentionRead(p, ids), A.Begin(s, p, ids), Events(p, |ids|, fates);
    assert A.Step(sha256, s, read) == begun;
    assert ([read] + rest)[1..] == rest;
    PassMirrored(sha256, begun, p, ids, |ids|, fates, rows, objects);
    assert ids[..|ids|] == ids;
  }

  lemma ObjectsOutcome(rows: map<nat, R.Backup>, ids: seq<nat>, fates: seq<R.Fate>, held: set<string>, a: set<string>, b: set<string>)
    requires |ids| <= |fates| && R.ObjectsAfter(rows, ids, fates, held, a) && R.ObjectsAfter(rows, ids, fates, held, b)
    ensures a == b
  {
  }

  /** enforceRetention on the store is the pass `p` of the machine: same rows, same objects, no job touched. */
  method EnforceAsEvents(st: R.Store, c: R.Scope, keep: nat, answer: seq<nat>, fates: seq<R.Fate>,
                         ghost sha256: Jobs.Bytes -> string, ghost s: A.System, ghost p: nat)
    returns (deleted: nat, ghost t: A.System)
    requires R.Answer(st.rows, c, answer) && |answer| <= |fates|
    requires Mirrors(st.rows, st.objects, s) && (p in s.passes ==> s.passes[p].todo == [])
    modifies st
    ensures var tail := R.Tail(answer, keep);
            && |tail| <= |fates|
            && t == A.Exec(sha256, s, [A.RetentionRead(p, tail)] + Events(p, |tail|, fates))
            && Mirrors(st.rows, st.objects, t) && t.jobs == s.jobs && p in t.passes && t.passes[p].todo == []
            && deleted == R.Removed(old(st.rows), tail, fates)
  {
    ghost var rows, objects, tail := st.rows, st.objects, R.Tail(answer, keep);
    R.TailFacts(rows, c, answer, keep);
    deleted := st.EnforceRetention(c, keep, answer, fates);
    t := A.Exec(sha256, s, [A.RetentionRead(p, tail)] + Events(p, |tail|, fates));
    RunMirrored(sha256, s, p, tail, fates, rows, objects);
    ByIsAfter(rows, tail, fates, objects);
    OneOutcome(rows, tail, fates, st.rows, RowsBy(rows, tail, fates));
    ObjectsOutcome(rows, tail, fates, objects, st.objects, ObjectsBy(rows, tail, fates, objects));
  }
}
