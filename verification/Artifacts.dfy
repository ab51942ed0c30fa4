/**
 Backup jobs and retention passes running at the same time: every await of backupProcessor and
 of enforceRetention is a step that can fail, attempts repeat up to three times, and an upload
 whose attempt already failed may still finish later.
 */
module Artifacts {
  import opened Text
  import opened Jobs
  import R = Retention

  const ATTEMPTS := 3

  datatype JobData = JobData(tenantId: string, serverId: string, database: string)

  /** Where an attempt is: each value names the last await that succeeded. */
  datatype Pc =
    | Waiting | Open | Marked | Started | Streaming | Uploaded(content: Bytes) | Recorded | Reported
    | Catching | Closing | Succeeded | Exhausted

  /** `lost`: the latest attempt ended without an adapter or without marking the row failed. */
  datatype Job = Job(data: JobData, state: JobState, tries: nat, pc: Pc, lost: bool)

  datatype BackupStatus = Available | Deleted

  datatype Backup = Backup(jobId: string, uri: string, size: nat, checksum: string, status: BackupStatus)

  /** A retention pass: the rows still to delete; `gone` once the first one's object is deleted. */
  datatype Pass = Pass(todo: seq<nat>, gone: bool)

  /**
   `overwritten` and `stranded` are history: jobs whose object was written again after a backup
   was recorded or while one was about to be, and rows whose object was deleted while their status
   update did not come: it failed, the delete's answer was lost, or the process stopped in between.
   */
  datatype System = System(objects: map<string, Bytes>, backups: map<nat, Backup>, jobs: map<string, Job>,
                           dangling: set<string>, passes: map<nat, Pass>,
                           overwritten: set<string>, stranded: set<nat>)

  datatype UploadResult =
    | Stored                           // put and dump both succeed
    | PutFailed(residue: Option<Bytes>)  // put rejects, possibly leaving a partial object
    | DumpFailedAfter                  // the tool exits non-zero after the put finished
    | DumpFailedBefore                 // ... while the put is still running

  datatype Event =
    | Submit(job: string, data: JobData)
    | GetAdapter(job: string, ok: bool)
    | Running(job: string, reach: Reach)
    | Progress(job: string, reach: Reach)
    | DumpRejects(job: string)
    | Upload(job: string, content: Bytes, result: UploadResult)
    | LateWrite(job: string, content: Bytes)
    | Create(job: string, id: nat, ok: bool)
    | Finish(job: string, reach: Reach)
    | Notify(job: string, ok: bool)
    | Fail(job: string, reach: Reach)
    | Close(job: string, ok: bool)
    | RetentionRead(pass: nat, ids: seq<nat>)
    | RetentionDelete(pass: nat, answer: R.Deletion)
    | RetentionUpdate(pass: nat, ok: bool)
    | RetentionStop(pass: nat)          // the scheduler process ends during the pass

  /** A step of a retention pass after its query, a step of a job after its submission. */
  predicate OfPass(e: Event) { e.RetentionDelete? || e.RetentionUpdate? || e.RetentionStop? }

  predicate OfJob(e: Event) { !e.Submit? && !e.RetentionRead? && !OfPass(e) }

  function Key(jobId: string, d: JobData): string {
    "tenants/" + d.tenantId + "/backups/" + jobId + "/" + d.database + ".sql"
  }

  predicate HasRow(s: System, jobId: string) { exists id | id in s.backups :: s.backups[id].jobId == jobId }

  function JobKey(s: System, jobId: string): string
    requires jobId in s.jobs
  {
    Key(jobId, s.jobs[jobId].data)
  }

  // --------------------------------------------------------------------- steps

  function At(s: System, jobId: string, pc: Pc): System
    requires jobId in s.jobs
  {
    s.(jobs := s.jobs[jobId := s.jobs[jobId].(pc := pc)])
  }

  /** A service call: on to `next` when it completes, into the catch branch when it rejects. */
  function Call(s: System, jobId: string, state: JobState, r: Reach, next: Pc): System
    requires jobId in s.jobs
  {
    s.(jobs := s.jobs[jobId := s.jobs[jobId].(state := state, pc := if r == All then next else Catching)])
  }

  function Again(tries: nat): Pc { if tries < ATTEMPTS then Waiting else Exhausted }

  /** Storage now holds `content` at the job's key. */
  function WriteObject(s: System, jobId: string, content: Bytes): System
    requires jobId in s.jobs
  {
    s.(objects := s.objects[JobKey(s, jobId) := content],
       overwritten := if HasRow(s, jobId) || s.jobs[jobId].pc.Uploaded? then s.overwritten + {jobId} else s.overwritten)
  }

  function StepUpload(s: System, j: string, content: Bytes, r: UploadResult): System
    requires j in s.jobs
  {
    match r
    case Stored => At(WriteObject(s, j, content), j, Uploaded(content))
    case PutFailed(None) => At(s, j, Catching)
    case PutFailed(Some(left)) => At(WriteObject(s, j, left), j, Catching)
    case DumpFailedAfter => At(WriteObject(s, j, content), j, Catching)
    case DumpFailedBefore => At(s, j, Catching).(dangling := s.dangling + {j})
  }

  /** The job's row: what the upload sent, under the key it was sent to. */
  function Record(sha256: Bytes -> string, s: System, j: string, id: nat): System
    requires j in s.jobs && s.jobs[j].pc.Uploaded?
  {
    var content := s.jobs[j].pc.content;
    At(s, j, Recorded).(backups := s.backups[id := Backup(j, JobKey(s, j), |content|, sha256(content), Available)])
  }

  function StepJob(sha256: Bytes -> string, s: System, e: Event): System
    requires OfJob(e) && e.job in s.jobs
  {
    var j, job := e.job, s.jobs[e.job];
    match e
    case GetAdapter(_, ok) =>
      if job.pc != Waiting then s
      else if ok then s.(jobs := s.jobs[j := job.(tries := job.tries + 1, pc := Open, lost := false)])
      else s.(jobs := s.jobs[j := job.(tries := job.tries + 1, pc := Again(job.tries + 1), lost := true)])
    case Running(_, r) =>
      if job.pc != Open then s else Call(s, j, MarkRunning(job.state, r), r, Marked)
    case Progress(_, r) =>
      if job.pc == Marked then Call(s, j, UpdateProgress(job.state, 5, r), r, Started)
      else if job.pc == Started then Call(s, j, UpdateProgress(job.state, 30, r), r, Streaming)
      else s
    case DumpRejects(_) => if job.pc != Started then s else At(s, j, Catching)
    case Upload(_, content, r) => if job.pc != Streaming then s else StepUpload(s, j, content, r)
    case LateWrite(_, content) => if j !in s.dangling then s else WriteObject(s, j, content)
    case Create(_, id, ok) =>
      if !job.pc.Uploaded? || id in s.backups then s
      else if !ok || HasRow(s, j) then At(s, j, Catching)  // Backup.jobId is unique
      else Record(sha256, s, j, id)
    case Finish(_, r) => if job.pc != Recorded then s else Call(s, j, MarkDone(job.state, r), r, Reported)
    case Notify(_, ok) => if job.pc != Reported then s else At(s, j, if ok then Closing else Catching)
    case Fail(_, r) =>
      if job.pc != Catching then s
      else s.(jobs := s.jobs[j := job.(state := MarkFailed(job.state, r), pc := Again(job.tries), lost := r == Nothing)])
    case Close(_, ok) => if job.pc != Closing then s else At(s, j, if ok then Succeeded else Again(job.tries))
  }

  /** The pass is at a row. */
  predicate Working(s: System, p: nat) {
    p in s.passes && s.passes[p].todo != [] && s.passes[p].todo[0] in s.backups
  }

  function Current(s: System, p: nat): nat
    requires Working(s, p)
  {
    s.passes[p].todo[0]
  }

  /** The pass leaves its row and has `rest` still to do. */
  function Leave(s: System, p: nat, rest: seq<nat>): System {
    s.(passes := s.passes[p := Pass(rest, false)])
  }

  /** The object is deleted: the row is still available. */
  function Erase(s: System, p: nat): System
    requires Working(s, p)
  {
    s.(objects := s.objects - {s.backups[Current(s, p)].uri}, passes := s.passes[p := s.passes[p].(gone := true)])
  }

  /** The row is marked deleted, or left without that. */
  function Settle(s: System, p: nat, ok: bool, rest: seq<nat>): System
    requires Working(s, p)
  {
    var id := Current(s, p);
    if ok then Leave(s, p, rest).(backups := s.backups[id := s.backups[id].(status := Deleted)])
    else Leave(s, p, rest).(stranded := s.stranded + {id})
  }

  function StepPass(s: System, e: Event): System
    requires OfPass(e)
  {
    if !Working(s, e.pass) then s
    else
      var p, next := e.pass, s.passes[e.pass].todo[1..];
      match e
      case RetentionDelete(_, result) =>
        if s.passes[p].gone then s
        else if result == R.Erased then Erase(s, p)
        else if result == R.Refused then Leave(s, p, next)
        else Settle(Erase(s, p), p, false, next)
      case RetentionUpdate(_, ok) => if s.passes[p].gone then Settle(s, p, ok, next) else s
      case RetentionStop(_) => if s.passes[p].gone then Settle(s, p, false, []) else Leave(s, p, [])
  }

  function Enrol(s: System, j: string, data: JobData): System {
    s.(jobs := s.jobs[j := Job(data, CREATED, 0, Waiting, false)])
  }

  function Begin(s: System, p: nat, ids: seq<nat>): System {
    s.(passes := s.passes[p := Pass(ids, false)])
  }

  function Step(sha256: Bytes -> string, s: System, e: Event): System {
    match e
    case Submit(j, data) =>
      if j in s.jobs || '/' in j || '/' in data.tenantId then s
      else Enrol(s, j, data)
    case RetentionRead(p, ids) =>
      if (p in s.passes && s.passes[p].todo != []) || exists i | 0 <= i < |ids| :: ids[i] !in s.backups then s
      else Begin(s, p, ids)
    case RetentionDelete(_, _) => StepPass(s, e)
    case RetentionUpdate(_, _) => StepPass(s, e)
    case RetentionStop(_) => StepPass(s, e)
    case _ => if e.job in s.jobs then StepJob(sha256, s, e) else s
  }

  function Exec(sha256: Bytes -> string, s: System, es: seq<Event>): System
    decreases |es|
  {
    if es == [] then s else Exec(sha256, Step(sha256, s, es[0]), es[1..])
  }

  const EMPTY := System(map[], map[], map[], {}, map[], {}, {})

  lemma {:induction false} ExecConcat(sha256: Bytes -> string, s: System, es: seq<Event>, fs: seq<Event>)
    ensures Exec(sha256, s, es + fs) == Exec(sha256, Exec(sha256, s, es), fs)
    decreases |es|
  {
    if es == [] {
      assert es + fs == fs;
    } else {
      ExecConcat(sha256, Step(sha256, s, es[0]), es[1..], fs);
      assert (es + fs)[1..] == es[1..] + fs;
    }
  }

  // ---------------------------------------------------------------------- keys

  /** Jobs with slash-free ids never share a storage key. */
  lemma KeysDiffer(i: string, d: JobData, j: string, e: JobData)
    requires '/' !in i && '/' !in j && '/' !in d.tenantId && '/' !in e.tenantId && Key(i, d) == Key(j, e)
    ensures i == j
  {
    KeyParts(i, d);
    KeyParts(j, e);
  }

  lemma FourthPart(a: string, b: string, c: string, d: string, rest: string)
    requires '/' !in a && '/' !in b && '/' !in c && '/' !in d
    ensures var parts := Split(a + ['/'] + (b + ['/'] + (c + ['/'] + (d + ['/'] + rest))), '/');
            |parts| > 3 && parts[3] == d
  {
    SplitPrefix(d, rest, '/');
    SplitPrefix(c, d + ['/'] + rest, '/');
    SplitPrefix(b, c + ['/'] + (d + ['/'] + rest), '/');
    SplitPrefix(a, b + ['/'] + (c + ['/'] + (d + ['/'] + rest)), '/');
  }

  lemma KeyParts(j: string, d: JobData)
    requires '/' !in j && '/' !in d.tenantId
    ensures |Split(Key(j, d), '/')| > 3 && Split(Key(j, d), '/')[3] == j
  {
    var rest := d.database + ".sql";
    FourthPart("tenants", d.tenantId, "backups", j, rest);
    KeyShape(j, d, rest);
  }

  lemma KeyShape(j: string, d: JobData, rest: string)
    requires rest == d.database + ".sql"
    ensures Key(j, d) == "tenants" + ['/'] + (d.tenantId + ['/'] + ("backups" + ['/'] + (j + ['/'] + rest)))
  {
    var tail := j + "/" + d.database + ".sql";
    assert tail == j + ['/'] + rest;
    assert "tenants/" == "tenants" + ['/'] && "/backups/" == ['/'] + ("backups" + ['/']);
  }

  // ---------------------------------------------------------------- invariant

  /** The object at the row's address has the recorded digest and length. */
  ghost predicate Intact(sha256: Bytes -> string, s: System, b: Backup) {
    b.uri in s.objects && sha256(s.objects[b.uri]) == b.checksum && |s.objects[b.uri]| == b.size
  }

  ghost predicate BeingDeleted(s: System, id: nat) {
    exists p :: p in s.passes && s.passes[p].todo != [] && s.passes[p].todo[0] == id && s.passes[p].gone
  }

  ghost predicate WellFormed(s: System) {
    && (forall j <- s.jobs :: '/' !in j && '/' !in s.jobs[j].data.tenantId)
    && (forall id <- s.backups :: s.backups[id].jobId in s.jobs && s.backups[id].uri == JobKey(s, s.backups[id].jobId))
    && (forall a, b | a in s.backups && b in s.backups && s.backups[a].jobId == s.backups[b].jobId :: a == b)
    && (forall p <- s.passes :: s.passes[p].gone ==> s.passes[p].todo != [])
  }

  ghost predicate RowAgrees(sha256: Bytes -> string, s: System, id: nat)
    requires id in s.backups
  {
    s.backups[id].status == Available ==> Intact(sha256, s, s.backups[id]) || BeingDeleted(s, id)
  }

  ghost predicate UploadAgrees(s: System, j: string)
    requires j in s.jobs
  {
    s.jobs[j].pc.Uploaded? && !HasRow(s, j) ==>
      JobKey(s, j) in s.objects && s.objects[JobKey(s, j)] == s.jobs[j].pc.content
  }

  ghost predicate RowOk(sha256: Bytes -> string, s: System, id: nat)
    requires id in s.backups
  {
    RowAgrees(sha256, s, id) || id in s.stranded || s.backups[id].jobId in s.overwritten
  }

  ghost predicate UploadOk(s: System, j: string)
    requires j in s.jobs
  {
    UploadAgrees(s, j) || j in s.overwritten
  }

  ghost predicate Inv(sha256: Bytes -> string, s: System) {
    && WellFormed(s)
    && (forall id <- s.backups :: RowOk(sha256, s, id))
    && (forall j <- s.jobs :: UploadOk(s, j))
  }

  // ----------------------------------------------------------- artifact proofs

  lemma HasRowIntro(s: System, id: nat)
    requires id in s.backups
    ensures HasRow(s, s.backups[id].jobId)
  {
  }

  /** The content has the digest and length the row records. */
  predicate Matches(sha256: Bytes -> string, content: Bytes, b: Backup) {
    sha256(content) == b.checksum && |content| == b.size
  }

  lemma WriteRow(sha256: Bytes -> string, s: System, j: string, content: Bytes, id: nat)
    requires WellFormed(s) && id in s.backups && j in s.jobs && RowAgrees(sha256, s, id)
    ensures RowAgrees(sha256, WriteObject(s, j, content), id) <==>
            !(s.backups[id].jobId == j && s.backups[id].status == Available
              && !BeingDeleted(s, id) && !Matches(sha256, content, s.backups[id]))
  {
    var b := s.backups[id];
    assert BeingDeleted(WriteObject(s, j, content), id) <==> BeingDeleted(s, id);
    if b.jobId != j && b.uri == JobKey(s, j) {
      KeysDiffer(b.jobId, s.jobs[b.jobId].data, j, s.jobs[j].data);
    }
  }

  lemma WriteUpload(s: System, j: string, content: Bytes, i: string)
    requires WellFormed(s) && i in s.jobs && j in s.jobs && UploadAgrees(s, i)
    ensures UploadAgrees(WriteObject(s, j, content), i) <==>
            !(i == j && s.jobs[j].pc.Uploaded? && !HasRow(s, j) && s.jobs[j].pc.content != content)
  {
    if i != j && JobKey(s, i) == JobKey(s, j) { KeysDiffer(i, s.jobs[i].data, j, s.jobs[j].data); }
    assert HasRow(WriteObject(s, j, content), i) <==> HasRow(s, i);
  }

  /** Writing one job's object cannot disturb another job's row. */
  lemma WriteKeepsInv(sha256: Bytes -> string, s: System, j: string, content: Bytes)
    requires Inv(sha256, s) && j in s.jobs
    ensures Inv(sha256, WriteObject(s, j, content))
  {
    var t := WriteObject(s, j, content);
    forall id | id in t.backups ensures RowOk(sha256, t, id) {
      assert RowOk(sha256, s, id);
      HasRowIntro(s, id);
      if RowAgrees(sha256, s, id) { WriteRow(sha256, s, j, content, id); }
    }
    forall i | i in t.jobs ensures UploadOk(t, i) {
      assert UploadOk(s, i);
      if UploadAgrees(s, i) { WriteUpload(s, j, content, i); }
    }
  }

  /** Changing where a job is, without touching storage, rows or passes. */
  lemma MoveKeepsInv(sha256: Bytes -> string, s: System, j: string, job: Job)
    requires Inv(sha256, s) && j in s.jobs && job.data == s.jobs[j].data
    requires job.pc.Uploaded? ==> UploadOk(s.(jobs := s.jobs[j := job]), j)
    ensures Inv(sha256, s.(jobs := s.jobs[j := job]))
  {
    var t := s.(jobs := s.jobs[j := job]);
    forall id | id in t.backups ensures RowOk(sha256, t, id) {
      assert RowOk(sha256, s, id);
      if BeingDeleted(s, id) { assert BeingDeleted(t, id); }
    }
    forall i | i in t.jobs ensures UploadOk(t, i) { assert UploadOk(s, i); }
  }

  lemma SameButHistory(sha256: Bytes -> string, s: System, t: System)
    requires Inv(sha256, s) && t == s.(dangling := t.dangling)
    ensures Inv(sha256, t)
  {
    forall id | id in t.backups ensures RowOk(sha256, t, id) {
      assert RowOk(sha256, s, id);
      if BeingDeleted(s, id) { assert BeingDeleted(t, id); }
    }
    forall i | i in t.jobs ensures UploadOk(t, i) { assert UploadOk(s, i); }
  }

  lemma UploadKeepsInv(sha256: Bytes -> string, s: System, j: string, content: Bytes, r: UploadResult)
    requires Inv(sha256, s) && j in s.jobs
    ensures Inv(sha256, StepUpload(s, j, content, r))
  {
    match r
    case Stored =>
      WriteKeepsInv(sha256, s, j, content);
      var t := WriteObject(s, j, content);
      MoveKeepsInv(sha256, t, j, t.jobs[j].(pc := Uploaded(content)));
    case PutFailed(None) => MoveKeepsInv(sha256, s, j, s.jobs[j].(pc := Catching));
    case PutFailed(Some(left)) =>
      WriteKeepsInv(sha256, s, j, left);
      var t := WriteObject(s, j, left);
      MoveKeepsInv(sha256, t, j, t.jobs[j].(pc := Catching));
    case DumpFailedAfter =>
      WriteKeepsInv(sha256, s, j, content);
      var t := WriteObject(s, j, content);
      MoveKeepsInv(sha256, t, j, t.jobs[j].(pc := Catching));
    case DumpFailedBefore =>
      MoveKeepsInv(sha256, s, j, s.jobs[j].(pc := Catching));
      var t := At(s, j, Catching);
      SameButHistory(sha256, t, t.(dangling := s.dangling + {j}));
  }

  lemma RecordWellFormed(sha256: Bytes -> string, s: System, j: string, id: nat)
    requires WellFormed(s) && j in s.jobs && s.jobs[j].pc.Uploaded? && id !in s.backups && !HasRow(s, j)
    ensures WellFormed(Record(sha256, s, j, id))
  {
    assert forall a :: a in s.backups ==> s.backups[a].jobId != j;
  }

  /** The new row has its artifact when the upload is in place; the other rows stay as they are. */
  lemma RecordRow(sha256: Bytes -> string, s: System, j: string, id: nat, a: nat)
    requires j in s.jobs && s.jobs[j].pc.Uploaded? && id !in s.backups && !HasRow(s, j)
    requires a in s.backups || a == id
    ensures var t := Record(sha256, s, j, id);
            && (a == id ==> (UploadAgrees(s, j) ==> RowAgrees(sha256, t, a)))
            && (a != id ==> (RowAgrees(sha256, t, a) <==> RowAgrees(sha256, s, a)))
  {
    var t := Record(sha256, s, j, id);
    if a != id {
      assert t.backups[a] == s.backups[a];
      assert BeingDeleted(t, a) <==> BeingDeleted(s, a);
    }
  }

  lemma RecordUpload(sha256: Bytes -> string, s: System, j: string, id: nat, i: string)
    requires j in s.jobs && s.jobs[j].pc.Uploaded? && id !in s.backups && !HasRow(s, j)
    requires i in s.jobs && UploadAgrees(s, i)
    ensures UploadAgrees(Record(sha256, s, j, id), i)
  {
    var t := Record(sha256, s, j, id);
    if HasRow(s, i) {
      var a :| a in s.backups && s.backups[a].jobId == i;
      assert t.backups[a] == s.backups[a];
      HasRowIntro(t, a);
    }
  }

  lemma RecordKeepsInv(sha256: Bytes -> string, s: System, j: string, id: nat)
    requires Inv(sha256, s) && j in s.jobs && s.jobs[j].pc.Uploaded? && id !in s.backups && !HasRow(s, j)
    ensures Inv(sha256, Record(sha256, s, j, id))
  {
    var t := Record(sha256, s, j, id);
    RecordWellFormed(sha256, s, j, id);
    assert UploadOk(s, j);
    forall a | a in t.backups ensures RowOk(sha256, t, a) {
      RecordRow(sha256, s, j, id, a);
      assert a != id ==> RowOk(sha256, s, a);
    }
    forall i | i in t.jobs ensures UploadOk(t, i) {
      assert UploadOk(s, i);
      if UploadAgrees(s, i) { RecordUpload(sha256, s, j, id, i); }
    }
  }

  /** The remaining steps of a job change only the job, which ends with no upload waiting. */
  lemma QuietStep(sha256: Bytes -> string, s: System, e: Event)
    requires OfJob(e) && !e.Upload? && !e.LateWrite? && e.job in s.jobs && StepJob(sha256, s, e) != s
    requires !(e.Create? && e.ok && s.jobs[e.job].pc.Uploaded? && e.id !in s.backups && !HasRow(s, e.job))
    ensures var t := StepJob(sha256, s, e);
            && e.job in t.jobs && t == s.(jobs := s.jobs[e.job := t.jobs[e.job]])
            && t.jobs[e.job].data == s.jobs[e.job].data && !t.jobs[e.job].pc.Uploaded?
  {
  }

  lemma JobStepKeepsInv(sha256: Bytes -> string, s: System, e: Event)
    requires Inv(sha256, s) && OfJob(e)
    requires e.job in s.jobs
    ensures Inv(sha256, StepJob(sha256, s, e))
  {
    var j, t := e.job, StepJob(sha256, s, e);
    if e.Upload? {
      if s.jobs[j].pc == Streaming { UploadKeepsInv(sha256, s, j, e.content, e.result); }
    } else if e.LateWrite? {
      if j in s.dangling { WriteKeepsInv(sha256, s, j, e.content); }
    } else if e.Create? && e.ok && s.jobs[j].pc.Uploaded? && e.id !in s.backups && !HasRow(s, j) {
      RecordKeepsInv(sha256, s, j, e.id);
    } else if t != s {
      QuietStep(sha256, s, e);
      MoveKeepsInv(sha256, s, j, t.jobs[j]);
    }
  }

  lemma Deleter(s: System, id: nat) returns (p: nat)
    requires BeingDeleted(s, id)
    ensures p in s.passes && s.passes[p].todo != [] && s.passes[p].todo[0] == id && s.passes[p].gone
  {
    p :| p in s.passes && s.passes[p].todo != [] && s.passes[p].todo[0] == id && s.passes[p].gone;
  }

  /** Uploads stay as they are when objects, jobs and the jobs with a row do. */
  lemma SameRowsAgree(s: System, t: System, i: string)
    requires t.objects == s.objects && t.jobs == s.jobs && i in s.jobs
    requires t.backups.Keys == s.backups.Keys && forall a <- s.backups :: t.backups[a].jobId == s.backups[a].jobId
    ensures UploadAgrees(t, i) <==> UploadAgrees(s, i)
  {
    if HasRow(s, i) {
      var a :| a in s.backups && s.backups[a].jobId == i;
      HasRowIntro(t, a);
    }
    if HasRow(t, i) {
      var a :| a in t.backups && t.backups[a].jobId == i;
      HasRowIntro(s, a);
    }
  }

  ghost predicate DeletedByOther(s: System, id: nat, p: nat) {
    exists q :: q in s.passes && q != p && s.passes[q].todo != [] && s.passes[q].todo[0] == id && s.passes[q].gone
  }

  /** Once a pass has left its row, only the other passes delete it. */
  lemma AfterLeave(s: System, t: System, p: nat, rest: seq<nat>, a: nat)
    requires Working(s, p) && t.passes == s.passes[p := Pass(rest, false)]
    ensures BeingDeleted(t, a) <==> DeletedByOther(s, a, p)
    ensures a != Current(s, p) ==> (BeingDeleted(t, a) <==> BeingDeleted(s, a))
  {
    if BeingDeleted(s, a) {
      var q := Deleter(s, a);
      assert q != p ==> t.passes[q] == s.passes[q];
    }
    if BeingDeleted(t, a) {
      var q := Deleter(t, a);
      assert q != p && t.passes[q] == s.passes[q];
    }
    if DeletedByOther(s, a, p) {
      var q :| q in s.passes && q != p && s.passes[q].todo != [] && s.passes[q].todo[0] == a && s.passes[q].gone;
      assert t.passes[q] == s.passes[q];
    }
  }

  /** Leaving the row before its object is gone. */
  lemma LeaveRow(sha256: Bytes -> string, s: System, p: nat, rest: seq<nat>, a: nat)
    requires Working(s, p) && !s.passes[p].gone && a in s.backups && RowAgrees(sha256, s, a)
    ensures RowAgrees(sha256, Leave(s, p, rest), a)
  {
    AfterLeave(s, Leave(s, p, rest), p, rest, a);
    if BeingDeleted(s, a) {
      var q := Deleter(s, a);
      assert q != p;
    }
  }

  lemma LeaveKeepsInv(sha256: Bytes -> string, s: System, p: nat, rest: seq<nat>)
    requires Inv(sha256, s) && Working(s, p) && !s.passes[p].gone
    ensures Inv(sha256, Leave(s, p, rest))
  {
    var t := Leave(s, p, rest);
    forall a | a in t.backups ensures RowOk(sha256, t, a) {
      assert RowOk(sha256, s, a);
      if RowAgrees(sha256, s, a) { LeaveRow(sha256, s, p, rest, a); }
    }
    forall i | i in t.jobs ensures UploadOk(t, i) {
      assert UploadOk(s, i);
      SameRowsAgree(s, t, i);
    }
  }

  /** After the storage delete the row is between the two awaits; no other row used the object. */
  lemma EraseRow(sha256: Bytes -> string, s: System, p: nat, a: nat)
    requires WellFormed(s) && Working(s, p) && a in s.backups && (a == Current(s, p) || RowAgrees(sha256, s, a))
    ensures RowAgrees(sha256, Erase(s, p), a)
  {
    var t, id := Erase(s, p), Current(s, p);
    if a == id {
      assert t.passes[p].todo[0] == a;
    } else {
      var b, c := s.backups[a], s.backups[id];
      if b.uri == c.uri { KeysDiffer(b.jobId, s.jobs[b.jobId].data, c.jobId, s.jobs[c.jobId].data); }
      if BeingDeleted(s, a) {
        var q := Deleter(s, a);
        assert t.passes[q].todo == s.passes[q].todo && t.passes[q].gone;
      }
    }
  }

  lemma EraseUpload(s: System, p: nat, i: string)
    requires WellFormed(s) && Working(s, p) && i in s.jobs && UploadAgrees(s, i)
    ensures UploadAgrees(Erase(s, p), i)
  {
    var t, id := Erase(s, p), Current(s, p);
    if JobKey(s, i) == s.backups[id].uri {
      KeysDiffer(i, s.jobs[i].data, s.backups[id].jobId, s.jobs[s.backups[id].jobId].data);
      HasRowIntro(t, id);
    }
    assert HasRow(t, i) <==> HasRow(s, i);
  }

  lemma EraseKeepsInv(sha256: Bytes -> string, s: System, p: nat)
    requires Inv(sha256, s) && Working(s, p)
    ensures Inv(sha256, Erase(s, p))
  {
    var t := Erase(s, p);
    forall a | a in t.backups ensures RowOk(sha256, t, a) {
      assert RowOk(sha256, s, a);
      if RowAgrees(sha256, s, a) { EraseRow(sha256, s, p, a); }
    }
    forall i | i in t.jobs ensures UploadOk(t, i) {
      assert UploadOk(s, i);
      if UploadAgrees(s, i) { EraseUpload(s, p, i); }
    }
  }

  /** Other rows stay as they are; the settled one is deleted, or left to its object and the other passes. */
  lemma SettleRow(sha256: Bytes -> string, s: System, p: nat, ok: bool, rest: seq<nat>, a: nat)
    requires Working(s, p) && a in s.backups
    ensures var t, id := Settle(s, p, ok, rest), Current(s, p);
            && a in t.backups && t.backups[a].jobId == s.backups[a].jobId
            && (a != id ==> (RowAgrees(sha256, t, a) <==> RowAgrees(sha256, s, a)))
            && (a == id ==> (RowAgrees(sha256, t, a) <==>
                  ok || s.backups[a].status == Deleted || Intact(sha256, s, s.backups[a]) || DeletedByOther(s, a, p)))
  {
    AfterLeave(s, Settle(s, p, ok, rest), p, rest, a);
  }

  lemma SettleWellFormed(s: System, p: nat, ok: bool, rest: seq<nat>)
    requires WellFormed(s) && Working(s, p)
    ensures WellFormed(Settle(s, p, ok, rest))
  {
    var t := Settle(s, p, ok, rest);
    assert forall a <- s.backups :: t.backups[a].jobId == s.backups[a].jobId && t.backups[a].uri == s.backups[a].uri;
  }

  lemma SettleKeepsInv(sha256: Bytes -> string, s: System, p: nat, ok: bool, rest: seq<nat>)
    requires Inv(sha256, s) && Working(s, p)
    ensures Inv(sha256, Settle(s, p, ok, rest))
  {
    var t := Settle(s, p, ok, rest);
    SettleWellFormed(s, p, ok, rest);
    forall a | a in t.backups ensures RowOk(sha256, t, a) {
      assert RowOk(sha256, s, a);
      SettleRow(sha256, s, p, ok, rest, a);
    }
    forall i | i in t.jobs ensures UploadOk(t, i) {
      assert UploadOk(s, i);
      SameRowsAgree(s, t, i);
    }
  }

  lemma PassKeepsInv(sha256: Bytes -> string, s: System, e: Event)
    requires Inv(sha256, s) && OfPass(e)
    ensures Inv(sha256, StepPass(s, e))
  {
    if Working(s, e.pass) {
      var p, next := e.pass, s.passes[e.pass].todo[1..];
      match e
      case RetentionDelete(_, result) =>
        if !s.passes[p].gone {
          EraseKeepsInv(sha256, s, p);
          LeaveKeepsInv(sha256, s, p, next);
          SettleKeepsInv(sha256, Erase(s, p), p, false, next);
        }
      case RetentionUpdate(_, ok) => SettleKeepsInv(sha256, s, p, ok, next);
      case RetentionStop(_) =>
        SettleKeepsInv(sha256, s, p, false, []);
        if !s.passes[p].gone { LeaveKeepsInv(sha256, s, p, []); }
    }
  }

  lemma EnrolRow(sha256: Bytes -> string, s: System, j: string, data: JobData, id: nat)
    requires id in s.backups
    ensures RowAgrees(sha256, Enrol(s, j, data), id) <==> RowAgrees(sha256, s, id)
  {
    assert BeingDeleted(Enrol(s, j, data), id) <==> BeingDeleted(s, id);
  }

  lemma EnrolUpload(s: System, j: string, data: JobData, i: string)
    requires j !in s.jobs && (i in s.jobs || i == j)
    ensures i == j || UploadAgrees(s, i) ==> UploadAgrees(Enrol(s, j, data), i)
  {
    assert HasRow(Enrol(s, j, data), i) <==> HasRow(s, i);
  }

  lemma EnrolKeepsInv(sha256: Bytes -> string, s: System, j: string, data: JobData)
    requires Inv(sha256, s) && j !in s.jobs && '/' !in j && '/' !in data.tenantId
    ensures Inv(sha256, Enrol(s, j, data))
  {
    var t := Enrol(s, j, data);
    forall id | id in t.backups ensures RowOk(sha256, t, id) {
      assert RowOk(sha256, s, id);
      EnrolRow(sha256, s, j, data, id);
    }
    forall i | i in t.jobs ensures UploadOk(t, i) {
      assert i in s.jobs ==> UploadOk(s, i);
      EnrolUpload(s, j, data, i);
    }
  }

  lemma BeginRow(sha256: Bytes -> string, s: System, p: nat, ids: seq<nat>, id: nat)
    requires id in s.backups && (p in s.passes ==> s.passes[p].todo == [])
    ensures RowAgrees(sha256, s, id) ==> RowAgrees(sha256, Begin(s, p, ids), id)
  {
    if BeingDeleted(s, id) {
      var q := Deleter(s, id);
      assert Begin(s, p, ids).passes[q] == s.passes[q];
    }
  }

  lemma BeginKeepsInv(sha256: Bytes -> string, s: System, p: nat, ids: seq<nat>)
    requires Inv(sha256, s) && (p in s.passes ==> s.passes[p].todo == [])
    ensures Inv(sha256, Begin(s, p, ids))
  {
    var t := Begin(s, p, ids);
    forall id | id in t.backups ensures RowOk(sha256, t, id) {
      assert RowOk(sha256, s, id);
      BeginRow(sha256, s, p, ids, id);
    }
    forall i | i in t.jobs ensures UploadOk(t, i) {
      assert UploadOk(s, i);
      SameRowsAgree(s, t, i);
    }
  }

  lemma StepKeepsInv(sha256: Bytes -> string, s: System, e: Event)
    requires Inv(sha256, s)
    ensures Inv(sha256, Step(sha256, s, e))
  {
    if e.Submit? {
      if Step(sha256, s, e) != s { EnrolKeepsInv(sha256, s, e.job, e.data); }
    } else if e.RetentionRead? {
      if Step(sha256, s, e) != s { BeginKeepsInv(sha256, s, e.pass, e.ids); }
    } else if OfPass(e) {
      PassKeepsInv(sha256, s, e);
    } else if e.job in s.jobs {
      JobStepKeepsInv(sha256, s, e);
    }
  }

  lemma {:induction false} ExecKeepsInv(sha256: Bytes -> string, s: System, es: seq<Event>)
    requires Inv(sha256, s)
    ensures Inv(sha256, Exec(sha256, s, es))
    decreases |es|
  {
    if es != [] {
      StepKeepsInv(sha256, s, es[0]);
      ExecKeepsInv(sha256, Step(sha256, s, es[0]), es[1..]);
    }
  }

  /**
   Every interleaving of backup attempts and retention passes: each available row's object has
   the recorded digest and length, unless the row is between a pass's two awaits, its status
   update once failed after the storage delete, or its job's object was written again. A job
   never has two rows.
   */
  lemma ArtifactAgreement(sha256: Bytes -> string, es: seq<Event>, id: nat)
    requires id in Exec(sha256, EMPTY, es).backups
    ensures var t := Exec(sha256, EMPTY, es);
            var b := t.backups[id];
            && (b.status == Available ==>
                  Intact(sha256, t, b) || id in t.stranded || b.jobId in t.overwritten || BeingDeleted(t, id))
            && (forall a | a in t.backups && t.backups[a].jobId == b.jobId :: a == id)
  {
    assert Inv(sha256, EMPTY);
    ExecKeepsInv(sha256, EMPTY, es);
    assert RowOk(sha256, Exec(sha256, EMPTY, es), id);
  }

  // ------------------------------------------------------- when agreement breaks

  /**
   Rows and storage agree: every available row has its artifact or is between a pass's two awaits,
   and an upload that waits for its row is in storage as it was sent.
   */
  ghost predicate Agree(sha256: Bytes -> string, s: System) {
    (forall id <- s.backups :: RowAgrees(sha256, s, id)) && (forall j <- s.jobs :: UploadAgrees(s, j))
  }

  /** The step writes the job's object (whole, partial or late). */
  predicate WritesObject(s: System, e: Event) {
    || (e.Upload? && e.job in s.jobs && s.jobs[e.job].pc == Streaming
        && (e.result == Stored || e.result == DumpFailedAfter || (e.result.PutFailed? && e.result.residue.Some?)))
    || (e.LateWrite? && e.job in s.jobs && e.job in s.dangling)
  }

  function Written(s: System, e: Event): Bytes
    requires WritesObject(s, e)
  {
    if e.Upload? && e.result.PutFailed? then e.result.residue.value else e.content
  }

  /** Writing this content spoils the job's available row, or the upload that waits for its row. */
  ghost predicate WriteBreaks(sha256: Bytes -> string, s: System, j: string, content: Bytes)
    requires j in s.jobs
  {
    || (exists id | id in s.backups :: s.backups[id].jobId == j && s.backups[id].status == Available
                                       && !BeingDeleted(s, id) && !Matches(sha256, content, s.backups[id]))
    || (s.jobs[j].pc.Uploaded? && !HasRow(s, j) && s.jobs[j].pc.content != content)
  }

  /** The pass leaves a row whose object it deleted, without marking it. */
  predicate Strands(s: System, e: Event) {
    && OfPass(e) && Working(s, e.pass)
    && match e
       case RetentionDelete(_, result) => !s.passes[e.pass].gone && result == R.Unanswered
       case RetentionUpdate(_, ok) => s.passes[e.pass].gone && !ok
       case RetentionStop(_) => s.passes[e.pass].gone
  }

  /** The row is then available without its object, which no other pass accounts for. */
  ghost predicate StrandBreaks(sha256: Bytes -> string, s: System, e: Event)
    requires Strands(s, e)
  {
    var id := Current(s, e.pass);
    && s.backups[id].status == Available && !DeletedByOther(s, id, e.pass)
    && (e.RetentionDelete? || !Intact(sha256, s, s.backups[id]))
  }

  /** The steps that end agreement: a write of different content, or a pass that strands a row. */
  ghost predicate Breaks(sha256: Bytes -> string, s: System, e: Event) {
    || (WritesObject(s, e) && WriteBreaks(sha256, s, e.job, Written(s, e)))
    || (Strands(s, e) && StrandBreaks(sha256, s, e))
  }

  lemma WriteAgrees(sha256: Bytes -> string, s: System, j: string, content: Bytes)
    requires WellFormed(s) && Agree(sha256, s) && j in s.jobs
    ensures Agree(sha256, WriteObject(s, j, content)) <==> !WriteBreaks(sha256, s, j, content)
  {
    var t := WriteObject(s, j, content);
    forall id | id in s.backups
      ensures RowAgrees(sha256, t, id) <==>
              !(s.backups[id].jobId == j && s.backups[id].status == Available
                && !BeingDeleted(s, id) && !Matches(sha256, content, s.backups[id]))
    {
      WriteRow(sha256, s, j, content, id);
    }
    forall i | i in s.jobs
      ensures UploadAgrees(t, i) <==> !(i == j && s.jobs[j].pc.Uploaded? && !HasRow(s, j) && s.jobs[j].pc.content != content)
    {
      WriteUpload(s, j, content, i);
    }
  }

  /** Changing one job, whose upload agrees before and after, changes nothing else. */
  lemma MoveAgrees(sha256: Bytes -> string, s: System, j: string, t: System)
    requires j in s.jobs && j in t.jobs && t.jobs[j].data == s.jobs[j].data && t.jobs == s.jobs[j := t.jobs[j]]
    requires t.objects == s.objects && t.backups == s.backups && t.passes == s.passes
    requires UploadAgrees(s, j) && UploadAgrees(t, j)
    ensures Agree(sha256, t) <==> Agree(sha256, s)
  {
    forall id | id in s.backups ensures RowAgrees(sha256, t, id) <==> RowAgrees(sha256, s, id) {
      assert BeingDeleted(t, id) <==> BeingDeleted(s, id);
    }
    forall i | i in s.jobs && i != j ensures UploadAgrees(t, i) <==> UploadAgrees(s, i) {
      assert HasRow(t, i) <==> HasRow(s, i);
    }
  }

  lemma UploadStepAgrees(sha256: Bytes -> string, s: System, e: Event)
    requires WellFormed(s) && Agree(sha256, s) && e.Upload? && e.job in s.jobs && s.jobs[e.job].pc == Streaming
    ensures Agree(sha256, StepUpload(s, e.job, e.content, e.result)) <==>
            !(WritesObject(s, e) && WriteBreaks(sha256, s, e.job, Written(s, e)))
  {
    var j, t := e.job, StepUpload(s, e.job, e.content, e.result);
    if WritesObject(s, e) {
      WriteAgrees(sha256, s, j, Written(s, e));
      MoveAgrees(sha256, WriteObject(s, j, Written(s, e)), j, t);
    } else {
      MoveAgrees(sha256, s, j, t);
    }
  }

  lemma RecordAgrees(sha256: Bytes -> string, s: System, j: string, id: nat)
    requires WellFormed(s) && Agree(sha256, s) && j in s.jobs && s.jobs[j].pc.Uploaded? && id !in s.backups && !HasRow(s, j)
    ensures Agree(sha256, Record(sha256, s, j, id))
  {
    var t := Record(sha256, s, j, id);
    assert UploadAgrees(s, j);
    forall a | a in t.backups ensures RowAgrees(sha256, t, a) { RecordRow(sha256, s, j, id, a); }
    forall i | i in t.jobs ensures UploadAgrees(t, i) { RecordUpload(sha256, s, j, id, i); }
  }

  lemma JobStepAgrees(sha256: Bytes -> string, s: System, e: Event)
    requires WellFormed(s) && Agree(sha256, s) && OfJob(e) && e.job in s.jobs
    ensures Agree(sha256, StepJob(sha256, s, e)) <==> !Breaks(sha256, s, e)
  {
    var j, t := e.job, StepJob(sha256, s, e);
    if e.Upload? {
      if s.jobs[j].pc == Streaming { UploadStepAgrees(sha256, s, e); }
    } else if e.LateWrite? {
      if j in s.dangling { WriteAgrees(sha256, s, j, e.content); }
    } else if e.Create? && e.ok && s.jobs[j].pc.Uploaded? && e.id !in s.backups && !HasRow(s, j) {
      RecordAgrees(sha256, s, j, e.id);
    } else if t != s {
      QuietStep(sha256, s, e);
      MoveAgrees(sha256, s, j, t);
    }
  }

  lemma SettleAgrees(sha256: Bytes -> string, s: System, p: nat, ok: bool, rest: seq<nat>)
    requires Working(s, p)
    requires forall a <- s.backups :: a == Current(s, p) || RowAgrees(sha256, s, a)
    requires forall j <- s.jobs :: UploadAgrees(s, j)
    ensures Agree(sha256, Settle(s, p, ok, rest)) <==>
            var b := s.backups[Current(s, p)];
            ok || b.status == Deleted || Intact(sha256, s, b) || DeletedByOther(s, Current(s, p), p)
  {
    var t := Settle(s, p, ok, rest);
    forall a | a in s.backups
      ensures a != Current(s, p) ==> RowAgrees(sha256, t, a)
      ensures a == Current(s, p) ==> (RowAgrees(sha256, t, a) <==>
                ok || s.backups[a].status == Deleted || Intact(sha256, s, s.backups[a]) || DeletedByOther(s, a, p))
    {
      SettleRow(sha256, s, p, ok, rest, a);
    }
    forall i | i in t.jobs ensures UploadAgrees(t, i) { SameRowsAgree(s, t, i); }
  }

  lemma EraseAgrees(sha256: Bytes -> string, s: System, p: nat)
    requires WellFormed(s) && Agree(sha256, s) && Working(s, p)
    ensures Agree(sha256, Erase(s, p))
  {
    forall a | a in s.backups ensures RowAgrees(sha256, Erase(s, p), a) { EraseRow(sha256, s, p, a); }
    forall i | i in s.jobs ensures UploadAgrees(Erase(s, p), i) { EraseUpload(s, p, i); }
  }

  /** The object is deleted and its row is left unmarked at once. */
  lemma LostAgrees(sha256: Bytes -> string, s: System, p: nat, rest: seq<nat>)
    requires WellFormed(s) && Agree(sha256, s) && Working(s, p)
    ensures Agree(sha256, Settle(Erase(s, p), p, false, rest)) <==>
            s.backups[Current(s, p)].status == Deleted || DeletedByOther(s, Current(s, p), p)
  {
    var m, id := Erase(s, p), Current(s, p);
    EraseAgrees(sha256, s, p);
    SettleAgrees(sha256, m, p, false, rest);
    assert !Intact(sha256, m, m.backups[id]);
    assert DeletedByOther(m, id, p) <==> DeletedByOther(s, id, p) by {
      assert forall q :: q in s.passes && q != p ==> m.passes[q] == s.passes[q];
    }
  }

  lemma LeaveAgrees(sha256: Bytes -> string, s: System, p: nat, rest: seq<nat>)
    requires Agree(sha256, s) && Working(s, p) && !s.passes[p].gone
    ensures Agree(sha256, Leave(s, p, rest))
  {
    forall a | a in s.backups ensures RowAgrees(sha256, Leave(s, p, rest), a) { LeaveRow(sha256, s, p, rest, a); }
    forall i | i in s.jobs ensures UploadAgrees(Leave(s, p, rest), i) { SameRowsAgree(s, Leave(s, p, rest), i); }
  }

  lemma DeleteStepAgrees(sha256: Bytes -> string, s: System, e: Event)
    requires WellFormed(s) && Agree(sha256, s) && e.RetentionDelete? && Working(s, e.pass)
    ensures Agree(sha256, StepPass(s, e)) <==> !(Strands(s, e) && StrandBreaks(sha256, s, e))
  {
    var p, next := e.pass, s.passes[e.pass].todo[1..];
    if !s.passes[p].gone {
      match e.answer
      case Erased => EraseAgrees(sha256, s, p);
      case Refused => LeaveAgrees(sha256, s, p, next);
      case Unanswered => LostAgrees(sha256, s, p, next);
    }
  }

  lemma UpdateStepAgrees(sha256: Bytes -> string, s: System, e: Event)
    requires Agree(sha256, s) && e.RetentionUpdate? && Working(s, e.pass)
    ensures Agree(sha256, StepPass(s, e)) <==> !(Strands(s, e) && StrandBreaks(sha256, s, e))
  {
    SettleAgrees(sha256, s, e.pass, e.ok, s.passes[e.pass].todo[1..]);
  }

  lemma StopStepAgrees(sha256: Bytes -> string, s: System, e: Event)
    requires Agree(sha256, s) && e.RetentionStop? && Working(s, e.pass)
    ensures Agree(sha256, StepPass(s, e)) <==> !(Strands(s, e) && StrandBreaks(sha256, s, e))
  {
    if s.passes[e.pass].gone {
      SettleAgrees(sha256, s, e.pass, false, []);
    } else {
      LeaveAgrees(sha256, s, e.pass, []);
    }
  }

  lemma PassStepAgrees(sha256: Bytes -> string, s: System, e: Event)
    requires WellFormed(s) && Agree(sha256, s) && OfPass(e)
    ensures Agree(sha256, StepPass(s, e)) <==> !Breaks(sha256, s, e)
  {
    if Working(s, e.pass) {
      match e
      case RetentionDelete(_, _) => DeleteStepAgrees(sha256, s, e);
      case RetentionUpdate(_, _) => UpdateStepAgrees(sha256, s, e);
      case RetentionStop(_) => StopStepAgrees(sha256, s, e);
    }
  }

  lemma EnrolAgrees(sha256: Bytes -> string, s: System, j: string, data: JobData)
    requires Agree(sha256, s) && j !in s.jobs
    ensures Agree(sha256, Enrol(s, j, data))
  {
    forall id | id in s.backups ensures RowAgrees(sha256, Enrol(s, j, data), id) { EnrolRow(sha256, s, j, data, id); }
    forall i | i in Enrol(s, j, data).jobs ensures UploadAgrees(Enrol(s, j, data), i) { EnrolUpload(s, j, data, i); }
  }

  lemma BeginAgrees(sha256: Bytes -> string, s: System, p: nat, ids: seq<nat>)
    requires Agree(sha256, s) && (p in s.passes ==> s.passes[p].todo == [])
    ensures Agree(sha256, Begin(s, p, ids))
  {
    forall id | id in s.backups ensures RowAgrees(sha256, Begin(s, p, ids), id) { BeginRow(sha256, s, p, ids, id); }
    forall i | i in s.jobs ensures UploadAgrees(Begin(s, p, ids), i) { SameRowsAgree(s, Begin(s, p, ids), i); }
  }

  /** From agreement, exactly the breaking steps end it. */
  lemma StepAgrees(sha256: Bytes -> string, s: System, e: Event)
    requires WellFormed(s) && Agree(sha256, s)
    ensures Agree(sha256, Step(sha256, s, e)) <==> !Breaks(sha256, s, e)
  {
    if OfPass(e) {
      PassStepAgrees(sha256, s, e);
    } else if e.Submit? {
      if Step(sha256, s, e) != s { EnrolAgrees(sha256, s, e.job, e.data); }
    } else if e.RetentionRead? {
      if Step(sha256, s, e) != s { BeginAgrees(sha256, s, e.pass, e.ids); }
    } else if e.job in s.jobs {
      JobStepAgrees(sha256, s, e);
    }
  }

  ghost predicate NeverBreaks(sha256: Bytes -> string, s: System, es: seq<Event>)
    decreases |es|
  {
    es == [] || (!Breaks(sha256, s, es[0]) && NeverBreaks(sha256, Step(sha256, s, es[0]), es[1..]))
  }

  ghost predicate AlwaysAgrees(sha256: Bytes -> string, s: System, es: seq<Event>) {
    forall n :: 0 <= n <= |es| ==> Agree(sha256, Exec(sha256, s, es[..n]))
  }

  lemma AlwaysUnfolds(sha256: Bytes -> string, s: System, es: seq<Event>)
    requires es != []
    ensures AlwaysAgrees(sha256, s, es) <==> Agree(sha256, s) && AlwaysAgrees(sha256, Step(sha256, s, es[0]), es[1..])
  {
    var next, rest := Step(sha256, s, es[0]), es[1..];
    forall n | 0 <= n <= |rest| ensures Exec(sha256, s, es[..n + 1]) == Exec(sha256, next, rest[..n]) {
      assert es[..n + 1][1..] == rest[..n];
    }
    assert Exec(sha256, s, es[..0]) == s;
    if Agree(sha256, s) && AlwaysAgrees(sha256, next, rest) {
      forall n | 0 <= n <= |es| ensures Agree(sha256, Exec(sha256, s, es[..n])) {
        if n > 0 { assert Agree(sha256, Exec(sha256, next, rest[..n - 1])); }
      }
    }
    if AlwaysAgrees(sha256, s, es) {
      assert Agree(sha256, Exec(sha256, s, es[..0]));
      forall n | 0 <= n <= |rest| ensures Agree(sha256, Exec(sha256, next, rest[..n])) {
        assert Agree(sha256, Exec(sha256, s, es[..n + 1]));
      }
    }
  }

  /** Rows and storage agree in every state of a run exactly when none of its steps breaks agreement. */
  lemma {:induction false} AgreesThroughout(sha256: Bytes -> string, s: System, es: seq<Event>)
    requires Inv(sha256, s) && Agree(sha256, s)
    ensures AlwaysAgrees(sha256, s, es) <==> NeverBreaks(sha256, s, es)
    decreases |es|
  {
    if es == [] {
      assert forall n :: 0 <= n <= 0 ==> es[..n] == [];
    } else {
      AlwaysUnfolds(sha256, s, es);
      StepAgrees(sha256, s, es[0]);
      StepKeepsInv(sha256, s, es[0]);
      var next := Step(sha256, s, es[0]);
      if Agree(sha256, next) {
        AgreesThroughout(sha256, next, es[1..]);
      } else {
        assert es[1..][..0] == [] && Exec(sha256, next, []) == next;
        assert !AlwaysAgrees(sha256, next, es[1..]);
      }
    }
  }

  /** Every interleaving of attempts and passes, from nothing. */
  lemma ArtifactsAgreeExactly(sha256: Bytes -> string, es: seq<Event>)
    ensures AlwaysAgrees(sha256, EMPTY, es) <==> NeverBreaks(sha256, EMPTY, es)
  {
    AgreesThroughout(sha256, EMPTY, es);
  }

  /**
   Any write for a job that already has its row, whole, partial or late: the row stays as it is, and
   is intact exactly when what was written has its digest and length. An attempt that uploads it
   can only fail.
   */
  lemma RetryRewrites(sha256: Bytes -> string, s: System, e: Event, id: nat, newId: nat)
    requires WellFormed(s) && WritesObject(s, e) && id in s.backups && s.backups[id].jobId == e.job && newId !in s.backups
    ensures var t := Step(sha256, s, e);
            && t.backups == s.backups
            && (Intact(sha256, t, s.backups[id]) <==> Matches(sha256, Written(s, e), s.backups[id]))
            && (e.Upload? ==> var u := Step(sha256, t, Create(e.job, newId, true)); e.job in u.jobs && u.jobs[e.job].pc == Catching)
  {
    var t := Step(sha256, s, e);
    WriteEffect(sha256, s, e);
    assert s.backups[id].uri == JobKey(s, e.job);
    HasRowIntro(t, id);
    if e.Upload? { CreateFails(sha256, t, e.job, newId); }
  }

  lemma WriteEffect(sha256: Bytes -> string, s: System, e: Event)
    requires WritesObject(s, e)
    ensures var t := Step(sha256, s, e);
            && e.job in t.jobs && t.backups == s.backups && t.objects == s.objects[JobKey(s, e.job) := Written(s, e)]
            && (e.Upload? ==> t.jobs[e.job].pc.Uploaded? || t.jobs[e.job].pc == Catching)
  {
  }

  lemma CreateFails(sha256: Bytes -> string, s: System, j: string, id: nat)
    requires j in s.jobs && HasRow(s, j) && id !in s.backups && (s.jobs[j].pc.Uploaded? || s.jobs[j].pc == Catching)
    ensures j in Step(sha256, s, Create(j, id, true)).jobs && Step(sha256, s, Create(j, id, true)).jobs[j].pc == Catching
  {
  }

  /**
   A storage delete whose status update does not come, because it fails, the delete's answer is lost
   or the process ends: agreement survives exactly when the row was already marked deleted or another
   pass is deleting it too.
   */
  lemma FailedUpdateStrands(sha256: Bytes -> string, s: System, p: nat)
    requires Inv(sha256, s) && Agree(sha256, s) && Working(s, p) && !s.passes[p].gone
    ensures var id := Current(s, p);
            var fine := s.backups[id].status == Deleted || DeletedByOther(s, id, p);
            var m := Step(sha256, s, RetentionDelete(p, R.Erased));
            && (Agree(sha256, Step(sha256, m, RetentionUpdate(p, false))) <==> fine)
            && (Agree(sha256, Step(sha256, m, RetentionStop(p))) <==> fine)
            && (Agree(sha256, Step(sha256, s, RetentionDelete(p, R.Unanswered))) <==> fine)
  {
    var m, next := Erase(s, p), s.passes[p].todo[1..];
    DeleteSteps(sha256, s, p);
    UpdateSteps(sha256, m, p, false);
    StopSteps(sha256, m, p);
    LostAgrees(sha256, s, p, next);
    LostAgrees(sha256, s, p, []);
  }

  lemma DeleteSteps(sha256: Bytes -> string, s: System, p: nat)
    requires Working(s, p) && !s.passes[p].gone
    ensures var next := s.passes[p].todo[1..];
            && Step(sha256, s, RetentionDelete(p, R.Erased)) == Erase(s, p)
            && Step(sha256, s, RetentionDelete(p, R.Refused)) == Leave(s, p, next)
            && Step(sha256, s, RetentionDelete(p, R.Unanswered)) == Settle(Erase(s, p), p, false, next)
  {
  }

  lemma UpdateSteps(sha256: Bytes -> string, s: System, p: nat, ok: bool)
    requires Working(s, p) && s.passes[p].gone
    ensures Step(sha256, s, RetentionUpdate(p, ok)) == Settle(s, p, ok, s.passes[p].todo[1..])
  {
  }

  lemma StopSteps(sha256: Bytes -> string, s: System, p: nat)
    requires Working(s, p) && s.passes[p].gone
    ensures Step(sha256, s, RetentionStop(p)) == Settle(s, p, false, [])
  {
  }

  // ------------------------------------------------------------------- history

  lemma UploadHistory(s: System, j: string, content: Bytes, r: UploadResult)
    requires j in s.jobs && s.jobs[j].pc == Streaming
    ensures var t, e := StepUpload(s, j, content, r), Upload(j, content, r);
            && t.stranded == s.stranded
            && t.overwritten == s.overwritten + (if WritesObject(s, e) && HasRow(s, j) then {j} else {})
            && t.dangling == s.dangling + (if r == DumpFailedBefore then {j} else {})
  {
  }

  lemma JobHistory(sha256: Bytes -> string, s: System, e: Event)
    requires OfJob(e) && e.job in s.jobs
    ensures var t, job := StepJob(sha256, s, e), s.jobs[e.job];
            && t.stranded == s.stranded
            && t.overwritten == s.overwritten
                 + (if WritesObject(s, e) && (HasRow(s, e.job) || job.pc.Uploaded?) then {e.job} else {})
            && t.dangling == s.dangling
                 + (if e.Upload? && job.pc == Streaming && e.result == DumpFailedBefore then {e.job} else {})
  {
    if e.Upload? && s.jobs[e.job].pc == Streaming { UploadHistory(s, e.job, e.content, e.result); }
  }

  lemma PassHistory(s: System, e: Event)
    requires OfPass(e)
    ensures var t := StepPass(s, e);
            && t.overwritten == s.overwritten && t.dangling == s.dangling
            && t.stranded == s.stranded + (if Strands(s, e) then {Current(s, e.pass)} else {})
  {
  }

  /**
   What the history records, and nothing else: jobs whose object is written while they have a row or
   an upload that waits for one, and rows left without their status update. An upload that goes on
   after its attempt failed is one that is still open when the tool fails.
   */
  lemma HistoryExactly(sha256: Bytes -> string, s: System, e: Event)
    ensures var t := Step(sha256, s, e);
            && (forall j :: j in t.overwritten <==>
                  || j in s.overwritten
                  || (WritesObject(s, e) && e.job == j && (HasRow(s, j) || s.jobs[j].pc.Uploaded?)))
            && (forall id :: id in t.stranded <==> id in s.stranded || (Strands(s, e) && Current(s, e.pass) == id))
            && (forall j :: j in t.dangling <==>
                  || j in s.dangling
                  || (e.Upload? && e.job == j && j in s.jobs && s.jobs[j].pc == Streaming && e.result == DumpFailedBefore))
  {
    if OfPass(e) {
      PassHistory(s, e);
    } else if OfJob(e) && e.job in s.jobs {
      OwnStep(sha256, s, e);
      JobHistory(sha256, s, e);
    }
  }

  /** Such an upload may still put its content in place, after the attempt has gone into its catch branch. */
  lemma LateUploadLands(sha256: Bytes -> string, s: System, j: string, sent: Bytes, late: Bytes)
    requires j in s.jobs && s.jobs[j].pc == Streaming
    ensures var t := Step(sha256, Step(sha256, s, Upload(j, sent, DumpFailedBefore)), LateWrite(j, late));
            && j in t.jobs && t.jobs[j].pc == Catching && t.backups == s.backups
            && t.objects == s.objects[JobKey(s, j) := late]
  {
    var u := Step(sha256, s, Upload(j, sent, DumpFailedBefore));
    assert u == At(s, j, Catching).(dangling := s.dangling + {j});
    assert JobKey(u, j) == JobKey(s, j);
  }

  /** An attempt is lost from the moment it gets no adapter, or cannot mark the row failed, until the next one starts. */
  lemma LostExactly(sha256: Bytes -> string, s: System, e: Event)
    requires OfJob(e) && e.job in s.jobs
    ensures e.job in StepJob(sha256, s, e).jobs
    ensures var was, now := s.jobs[e.job], StepJob(sha256, s, e).jobs[e.job];
            && (!was.lost && now.lost <==>
                  && !was.lost
                  && ((e.GetAdapter? && was.pc == Waiting && !e.ok) || (e.Fail? && was.pc == Catching && e.reach == Nothing)))
            && (was.lost && !now.lost <==>
                  && was.lost
                  && ((e.GetAdapter? && was.pc == Waiting && e.ok) || (e.Fail? && was.pc == Catching && e.reach != Nothing)))
  {
    OwnStays(sha256, s, e);
    if e.Upload? && s.jobs[e.job].pc == Streaming {
      UploadMoves(sha256, s, e);
    } else if e.Create? {
      CreateMoves(sha256, s, e);
    }
  }

  // ------------------------------------------------------------- job lifecycle

  ghost predicate LifeOk(job: Job) {
    var row := job.state.row;
    && Sound(job.state) && job.tries <= ATTEMPTS
    && (job.pc == Waiting ==> job.tries < ATTEMPTS) && (job.pc == Exhausted ==> job.tries == ATTEMPTS)
    && (job.pc != Waiting ==> job.tries > 0)
    && match job.pc
       case Waiting => job.tries == 0 || job.lost || row.status == Done || row.status == Failed
       case Exhausted => job.lost || row.status == Done || row.status == Failed
       case Marked => row.status == Status.Running && row.progress == 0
       case Started => row.status == Status.Running && row.progress == 5
       case Streaming => row.status == Status.Running && row.progress == 30
       case Uploaded(_) => row.status == Status.Running && row.progress == 30
       case Recorded => row.status == Status.Running && row.progress == 30
       case Reported => row.status == Done
       case Closing => row.status == Done
       case Succeeded => row.status == Done
       case _ => true
  }

  predicate HasRecorded(pc: Pc) { pc == Recorded || pc == Reported || pc == Closing || pc == Succeeded }

  ghost predicate Lives(s: System, j: string)
    requires j in s.jobs
  {
    LifeOk(s.jobs[j]) && (HasRecorded(s.jobs[j].pc) ==> HasRow(s, j))
  }

  ghost predicate AllLife(s: System) {
    forall j <- s.jobs :: Lives(s, j)
  }

  lemma PassKeepsRows(s: System, e: Event, id: nat)
    requires OfPass(e) && id in s.backups
    ensures id in StepPass(s, e).backups
    ensures StepPass(s, e).backups[id] == s.backups[id] || StepPass(s, e).backups[id] == s.backups[id].(status := Deleted)
  {
  }

  lemma JobKeepsRows(sha256: Bytes -> string, s: System, e: Event, id: nat)
    requires OfJob(e) && e.job in s.jobs && id in s.backups
    ensures id in StepJob(sha256, s, e).backups && StepJob(sha256, s, e).backups[id] == s.backups[id]
  {
    if e.Upload? { assert StepUpload(s, e.job, e.content, e.result).backups == s.backups; }
  }

  lemma StepKeepsRow(sha256: Bytes -> string, s: System, e: Event, id: nat)
    requires id in s.backups
    ensures id in Step(sha256, s, e).backups
    ensures var was, now := s.backups[id], Step(sha256, s, e).backups[id];
            && now.jobId == was.jobId && now.uri == was.uri && now.size == was.size && now.checksum == was.checksum
            && (now.status != was.status ==> was.status == Available && now.status == BackupStatus.Deleted && e.RetentionUpdate?)
  {
    if OfPass(e) {
      PassKeepsRows(s, e, id);
    } else if OfJob(e) && e.job in s.jobs {
      JobKeepsRows(sha256, s, e, id);
    }
  }

  lemma RowsStay(sha256: Bytes -> string, s: System, e: Event, j: string)
    requires HasRow(s, j)
    ensures HasRow(Step(sha256, s, e), j)
  {
    var id :| id in s.backups && s.backups[id].jobId == j;
    StepKeepsRow(sha256, s, e, id);
    HasRowIntro(Step(sha256, s, e), id);
  }

  lemma OwnStep(sha256: Bytes -> string, s: System, e: Event)
    requires OfJob(e) && e.job in s.jobs
    ensures Step(sha256, s, e) == StepJob(sha256, s, e)
  {
  }

  predicate Own(e: Event, j: string) { OfJob(e) && e.job == j }

  lemma UploadFrame(s: System, i: string, content: Bytes, r: UploadResult, j: string)
    requires i in s.jobs && j in s.jobs && i != j
    ensures j in StepUpload(s, i, content, r).jobs && StepUpload(s, i, content, r).jobs[j] == s.jobs[j]
  {
  }

  lemma JobFrame(sha256: Bytes -> string, s: System, e: Event, j: string)
    requires OfJob(e) && e.job in s.jobs && j in s.jobs && j != e.job
    ensures j in StepJob(sha256, s, e).jobs && StepJob(sha256, s, e).jobs[j] == s.jobs[j]
  {
    if e.Upload? { UploadFrame(s, e.job, e.content, e.result, j); }
  }

  lemma OtherJobsStay(sha256: Bytes -> string, s: System, e: Event, j: string)
    requires j in s.jobs && !Own(e, j)
    ensures j in Step(sha256, s, e).jobs && Step(sha256, s, e).jobs[j] == s.jobs[j]
  {
    if OfPass(e) {
      assert StepPass(s, e).jobs == s.jobs;
    } else if OfJob(e) && e.job in s.jobs {
      OwnStep(sha256, s, e);
      JobFrame(sha256, s, e, j);
    }
  }

  lemma RunningKeepsLife(sha256: Bytes -> string, s: System, e: Event)
    requires e.Running? && e.job in s.jobs && LifeOk(s.jobs[e.job])
    ensures LifeOk(StepJob(sha256, s, e).jobs[e.job])
  {
    CallsKeepSound(s.jobs[e.job].state, 0, e.reach);
  }

  lemma ReportKeepsLife(sha256: Bytes -> string, s: System, e: Event)
    requires e.Progress? && e.job in s.jobs && LifeOk(s.jobs[e.job])
    ensures LifeOk(StepJob(sha256, s, e).jobs[e.job])
    ensures StepJob(sha256, s, e).jobs[e.job].state.row.progress >= s.jobs[e.job].state.row.progress
  {
    var job := s.jobs[e.job];
    CallsKeepSound(job.state, if job.pc == Marked then 5 else 30, e.reach);
  }

  lemma FinishKeepsLife(sha256: Bytes -> string, s: System, e: Event)
    requires (e.Finish? || e.Fail?) && e.job in s.jobs && LifeOk(s.jobs[e.job])
    ensures LifeOk(StepJob(sha256, s, e).jobs[e.job])
    ensures StepJob(sha256, s, e).jobs[e.job].state.row.progress >= s.jobs[e.job].state.row.progress
  {
    CallsKeepSound(s.jobs[e.job].state, 0, e.reach);
  }

  /** The job after one of its own steps that is a jobService call. */
  lemma CallKeepsLife(sha256: Bytes -> string, s: System, e: Event)
    requires e.Running? || e.Progress? || e.Finish? || e.Fail?
    requires e.job in s.jobs && LifeOk(s.jobs[e.job])
    ensures LifeOk(StepJob(sha256, s, e).jobs[e.job])
    ensures e.Running? || StepJob(sha256, s, e).jobs[e.job].state.row.progress >= s.jobs[e.job].state.row.progress
  {
    if e.Running? {
      RunningKeepsLife(sha256, s, e);
    } else if e.Progress? {
      ReportKeepsLife(sha256, s, e);
    } else {
      FinishKeepsLife(sha256, s, e);
    }
  }

  lemma MoveKeepsLife(sha256: Bytes -> string, s: System, e: Event)
    requires OfJob(e) && !e.Running? && !e.Progress? && !e.Finish? && !e.Fail?
    requires e.job in s.jobs && LifeOk(s.jobs[e.job])
    ensures LifeOk(StepJob(sha256, s, e).jobs[e.job])
    ensures StepJob(sha256, s, e).jobs[e.job].state == s.jobs[e.job].state
  {
    if e.Upload? && s.jobs[e.job].pc == Streaming {
      UploadMoves(sha256, s, e);
    } else if e.Create? {
      CreateMoves(sha256, s, e);
    }
  }

  lemma CreateMoves(sha256: Bytes -> string, s: System, e: Event)
    requires e.Create? && e.job in s.jobs
    ensures var job, was := StepJob(sha256, s, e).jobs[e.job], s.jobs[e.job];
            job == was || (was.pc.Uploaded? && (job == was.(pc := Recorded) || job == was.(pc := Catching)))
  {
  }

  lemma UploadMoves(sha256: Bytes -> string, s: System, e: Event)
    requires e.Upload? && e.job in s.jobs && s.jobs[e.job].pc == Streaming
    ensures var job := StepJob(sha256, s, e).jobs[e.job];
            job == s.jobs[e.job].(pc := job.pc) && (job.pc.Uploaded? || job.pc == Catching)
  {
  }

  lemma StepKeepsRecorded(sha256: Bytes -> string, s: System, e: Event)
    requires OfJob(e) && e.job in s.jobs
    requires HasRecorded(s.jobs[e.job].pc) ==> HasRow(s, e.job)
    ensures HasRecorded(StepJob(sha256, s, e).jobs[e.job].pc) ==> HasRow(StepJob(sha256, s, e), e.job)
  {
    var j := e.job;
    if HasRow(s, j) {
      OwnStep(sha256, s, e);
      RowsStay(sha256, s, e, j);
    } else if e.Create? {
      if HasRecorded(StepJob(sha256, s, e).jobs[j].pc) { CreateRecords(sha256, s, e); }
    } else {
      OnlyCreateRecords(sha256, s, e);
    }
  }

  lemma CreateRecords(sha256: Bytes -> string, s: System, e: Event)
    requires e.Create? && e.job in s.jobs && !HasRecorded(s.jobs[e.job].pc)
    requires HasRecorded(StepJob(sha256, s, e).jobs[e.job].pc)
    ensures HasRow(StepJob(sha256, s, e), e.job)
  {
    var t := StepJob(sha256, s, e);
    assert t.backups[e.id].jobId == e.job;
    HasRowIntro(t, e.id);
  }

  lemma OnlyCreateRecords(sha256: Bytes -> string, s: System, e: Event)
    requires OfJob(e) && !e.Create? && e.job in s.jobs && !HasRecorded(s.jobs[e.job].pc)
    ensures !HasRecorded(StepJob(sha256, s, e).jobs[e.job].pc)
  {
    if e.Upload? && s.jobs[e.job].pc == Streaming { UploadMoves(sha256, s, e); }
  }

  lemma OwnLives(sha256: Bytes -> string, s: System, e: Event)
    requires OfJob(e) && e.job in s.jobs && Lives(s, e.job)
    ensures Lives(StepJob(sha256, s, e), e.job)
  {
    StepKeepsRecorded(sha256, s, e);
    if e.Running? || e.Progress? || e.Finish? || e.Fail? {
      CallKeepsLife(sha256, s, e);
    } else {
      MoveKeepsLife(sha256, s, e);
    }
  }

  lemma OtherLives(sha256: Bytes -> string, s: System, e: Event, j: string)
    requires j in s.jobs && !Own(e, j) && Lives(s, j)
    ensures j in Step(sha256, s, e).jobs && Lives(Step(sha256, s, e), j)
  {
    OtherJobsStay(sha256, s, e, j);
    if HasRow(s, j) { RowsStay(sha256, s, e, j); }
  }

  lemma OnlySubmitAdds(sha256: Bytes -> string, s: System, e: Event, j: string)
    ensures var t := Step(sha256, s, e);
            j in t.jobs ==> j in s.jobs || (e.Submit? && t.jobs[j] == Job(e.data, CREATED, 0, Waiting, false))
  {
    if OfPass(e) { assert StepPass(s, e).jobs == s.jobs; }
  }

  lemma StepKeepsLife(sha256: Bytes -> string, s: System, e: Event)
    requires AllLife(s)
    ensures AllLife(Step(sha256, s, e))
  {
    forall j | j in Step(sha256, s, e).jobs ensures Lives(Step(sha256, s, e), j) {
      StepLives(sha256, s, e, j);
    }
  }

  lemma StepLives(sha256: Bytes -> string, s: System, e: Event, j: string)
    requires AllLife(s) && j in Step(sha256, s, e).jobs
    ensures Lives(Step(sha256, s, e), j)
  {
    if j !in s.jobs {
      OnlySubmitAdds(sha256, s, e, j);
    } else if Own(e, j) {
      OwnStep(sha256, s, e);
      OwnLives(sha256, s, e);
    } else {
      OtherLives(sha256, s, e, j);
    }
  }

  lemma {:induction false} ExecKeepsLife(sha256: Bytes -> string, s: System, es: seq<Event>)
    requires AllLife(s)
    ensures AllLife(Exec(sha256, s, es))
    decreases |es|
  {
    if es != [] {
      StepKeepsLife(sha256, s, es[0]);
      ExecKeepsLife(sha256, Step(sha256, s, es[0]), es[1..]);
    }
  }

  /**
   Every run, every fault point: progress stays within 0..100 and, while no event was lost, is the
   last progress in the log; a done row has progress 100 and an end time; a job that succeeded has
   its backup row; and between attempts the row is done or failed, unless the latest attempt had no
   adapter or could not mark the row failed.
   */
  lemma JobLifecycle(sha256: Bytes -> string, es: seq<Event>, j: string)
    requires j in Exec(sha256, EMPTY, es).jobs
    ensures var t := Exec(sha256, EMPTY, es);
            var job := t.jobs[j];
            var row := job.state.row;
            && 0 <= row.progress <= 100 && job.tries <= 3
            && (job.pc == Waiting ==> job.tries < 3) && (job.pc == Exhausted ==> job.tries == 3)
            && (job.state.complete ==> row.progress == LastProgress(job.state.log))
            && (row.status == Done ==> row.progress == 100 && row.finished)
            && (job.pc == Succeeded ==> row.status == Done && HasRow(t, j))
            && ((job.pc == Waiting || job.pc == Exhausted) && job.tries > 0 && !job.lost ==>
                  row.status == Done || row.status == Failed)
  {
    assert AllLife(EMPTY);
    ExecKeepsLife(sha256, EMPTY, es);
    assert Lives(Exec(sha256, EMPTY, es), j);
  }

  lemma OwnProgress(sha256: Bytes -> string, s: System, e: Event)
    requires OfJob(e) && !e.Running? && e.job in s.jobs && LifeOk(s.jobs[e.job])
    ensures StepJob(sha256, s, e).jobs[e.job].state.row.progress >= s.jobs[e.job].state.row.progress
  {
    if e.Progress? || e.Finish? || e.Fail? {
      CallKeepsLife(sha256, s, e);
    } else {
      MoveKeepsLife(sha256, s, e);
    }
  }

  /** Within an attempt the progress never goes down: only markRunning, at its start, resets it. */
  lemma ProgressMonotone(sha256: Bytes -> string, s: System, e: Event, j: string)
    requires AllLife(s) && j in s.jobs && !(e.Running? && e.job == j)
    ensures j in Step(sha256, s, e).jobs
    ensures Step(sha256, s, e).jobs[j].state.row.progress >= s.jobs[j].state.row.progress
  {
    assert Lives(s, j);
    if Own(e, j) {
      OwnStep(sha256, s, e);
      OwnProgress(sha256, s, e);
      OwnStays(sha256, s, e);
    } else {
      OtherJobsStay(sha256, s, e, j);
    }
  }

  lemma OwnStays(sha256: Bytes -> string, s: System, e: Event)
    requires OfJob(e) && e.job in s.jobs
    ensures e.job in StepJob(sha256, s, e).jobs
  {
  }
}
