/** backupProcessor in its own statement order, as a run of the interleaving model's steps. */
module BackupProcessor {
  import opened Text
  import opened Jobs
  import opened Artifacts
  import R = Retention

  /** How each await of one attempt turns out. */
  datatype Outcomes = Outcomes(
    adapter: bool, running: Reach, first: Reach, dump: bool, second: Reach, content: Bytes, upload: UploadResult,
    id: nat, create: bool, done: Reach, notify: bool, failed: Reach, close: bool)

  class Platform {
    const sha256: Bytes -> string
    var s: System
    ghost var trace: seq<Event>

    constructor (sha256: Bytes -> string, s: System)
      ensures this.sha256 == sha256 && this.s == s && trace == []
    {
      this.sha256, this.s, trace := sha256, s, [];
    }

    method Do(e: Event)
      modifies this
      ensures s == Step(sha256, old(s), e) && trace == old(trace) + [e]
    {
      s, trace := Step(sha256, s, e), trace + [e];
    }
  }

  /** The attempt so far: the state is what the new part of the trace leads to, all steps job `j`'s own. */
  ghost predicate Ran(sha256: Bytes -> string, before: System, trace0: seq<Event>,
                      after: System, trace1: seq<Event>, j: string)
  {
    && trace0 <= trace1 && after == Exec(sha256, before, trace1[|trace0|..])
    && forall i :: |trace0| <= i < |trace1| ==> Own(trace1[i], j)
  }

  lemma {:induction false} ExecSnoc(sha256: Bytes -> string, s: System, es: seq<Event>, e: Event)
    ensures Exec(sha256, s, es + [e]) == Step(sha256, Exec(sha256, s, es), e)
    decreases |es|
  {
    if es == [] {
      assert es + [e] == [e] && [e][1..] == [];
    } else {
      ExecSnoc(sha256, Step(sha256, s, es[0]), es[1..], e);
      assert (es + [e])[1..] == es[1..] + [e];
    }
  }

  lemma RanSnoc(sha256: Bytes -> string, before: System, trace0: seq<Event>,
                mid: System, trace1: seq<Event>, j: string, e: Event)
    requires Ran(sha256, before, trace0, mid, trace1, j) && Own(e, j)
    ensures Ran(sha256, before, trace0, Step(sha256, mid, e), trace1 + [e], j)
  {
    ExecSnoc(sha256, before, trace1[|trace0|..], e);
    assert (trace1 + [e])[|trace0|..] == trace1[|trace0|..] + [e];
  }

  /** One step of the attempt, recorded as part of the run. */
  method Take(p: Platform, j: string, e: Event, ghost before: System, ghost trace0: seq<Event>)
    requires Own(e, j) && Ran(p.sha256, before, trace0, p.s, p.trace, j)
    modifies p
    ensures p.s == Step(p.sha256, old(p.s), e) && Ran(p.sha256, before, trace0, p.s, p.trace, j)
  {
    RanSnoc(p.sha256, before, trace0, p.s, p.trace, j, e);
    p.Do(e);
  }

  /** The attempt gets as far as streaming to storage. */
  predicate Streams(o: Outcomes) { o.adapter && o.running == All && o.first == All && o.dump && o.second == All }

  /** The attempt creates the job's row: everything up to the row succeeds, and the job has none yet. */
  predicate Creates(s: System, j: string, o: Outcomes) { Streams(o) && o.upload == Stored && o.create && !HasRow(s, j) }

  /** What storage is left with by the upload, if it is touched at all. */
  function Kept(o: Outcomes): Option<Bytes> {
    match o.upload
    case Stored => Some(o.content)
    case PutFailed(residue) => residue
    case DumpFailedAfter => Some(o.content)
    case DumpFailedBefore => None
  }

  function ObjectsAfter(s: System, j: string, o: Outcomes): map<string, Bytes>
    requires j in s.jobs
  {
    if Streams(o) && Kept(o).Some? then s.objects[JobKey(s, j) := Kept(o).value] else s.objects
  }

  function BackupsAfter(sha256: Bytes -> string, s: System, j: string, o: Outcomes): map<nat, Backup>
    requires j in s.jobs
  {
    if Creates(s, j, o) then s.backups[o.id := Backup(j, JobKey(s, j), |o.content|, sha256(o.content), Available)]
    else s.backups
  }

  /** How the Job row ends, whatever happens in the attempt. */
  function FinalStatus(s: System, j: string, o: Outcomes): Status
    requires j in s.jobs
  {
    if !o.adapter then s.jobs[j].state.row.status
    else if Creates(s, j, o) && o.done == All && o.notify then Done
    else if o.failed != Nothing then Failed
    else if Creates(s, j, o) && o.done != Nothing then Done
    else if o.running == Nothing then s.jobs[j].state.row.status
    else Status.Running
  }

  /** The parts of the state that a job's own reporting steps leave alone. */
  ghost predicate SameStore(s: System, t: System, j: string) {
    && j in s.jobs && j in t.jobs && t.objects == s.objects && t.backups == s.backups
    && t.jobs[j].data == s.jobs[j].data && t.jobs[j].tries == s.jobs[j].tries
  }

  lemma AfterRunning(sha256: Bytes -> string, s: System, j: string, r: Reach)
    requires j in s.jobs && s.jobs[j].pc == Open
    ensures var t := Step(sha256, s, Event.Running(j, r));
            && SameStore(s, t, j) && t.jobs[j].pc == (if r == All then Marked else Catching)
            && t.jobs[j].state.row.status == if r == Nothing then s.jobs[j].state.row.status else Status.Running
  {
  }

  lemma AfterProgress(sha256: Bytes -> string, s: System, j: string, r: Reach)
    requires j in s.jobs && (s.jobs[j].pc == Marked || s.jobs[j].pc == Started)
    ensures var t := Step(sha256, s, Progress(j, r));
            && SameStore(s, t, j)
            && t.jobs[j].pc == (if r != All then Catching else if s.jobs[j].pc == Marked then Started else Streaming)
            && t.jobs[j].state.row.status == s.jobs[j].state.row.status
  {
  }

  lemma AfterDump(sha256: Bytes -> string, s: System, j: string)
    requires j in s.jobs && s.jobs[j].pc == Started
    ensures var t := Step(sha256, s, DumpRejects(j));
            SameStore(s, t, j) && t.jobs[j] == s.jobs[j].(pc := Catching)
  {
  }

  method Connect(p: Platform, j: string, ok: bool, ghost before: System, ghost trace0: seq<Event>)
    requires j in p.s.jobs && p.s.jobs[j].pc == Waiting && Ran(p.sha256, before, trace0, p.s, p.trace, j)
    modifies p
    ensures Ran(p.sha256, before, trace0, p.s, p.trace, j)
    ensures j in p.s.jobs && p.s.objects == old(p.s.objects) && p.s.backups == old(p.s.backups)
    ensures p.s.jobs[j].data == old(p.s.jobs[j].data) && p.s.jobs[j].state == old(p.s.jobs[j].state)
    ensures p.s.jobs[j].tries == old(p.s.jobs[j].tries) + 1
    ensures p.s.jobs[j].pc == if ok then Open else Again(p.s.jobs[j].tries)
  {
    Take(p, j, GetAdapter(j, ok), before, trace0);
  }

  method Mark(p: Platform, j: string, r: Reach, ghost before: System, ghost trace0: seq<Event>)
    requires j in p.s.jobs && p.s.jobs[j].pc == Open && Ran(p.sha256, before, trace0, p.s, p.trace, j)
    modifies p
    ensures Ran(p.sha256, before, trace0, p.s, p.trace, j) && SameStore(old(p.s), p.s, j)
    ensures p.s.jobs[j].pc == if r == All then Marked else Catching
    ensures p.s.jobs[j].state.row.status == if r == Nothing then old(p.s.jobs[j].state.row.status) else Status.Running
  {
    AfterRunning(p.sha256, p.s, j, r);
    Take(p, j, Event.Running(j, r), before, trace0);
  }

  method Note(p: Platform, j: string, r: Reach, ghost before: System, ghost trace0: seq<Event>)
    requires j in p.s.jobs && (p.s.jobs[j].pc == Marked || p.s.jobs[j].pc == Started)
    requires Ran(p.sha256, before, trace0, p.s, p.trace, j)
    modifies p
    ensures Ran(p.sha256, before, trace0, p.s, p.trace, j) && SameStore(old(p.s), p.s, j)
    ensures p.s.jobs[j].pc == if r != All then Catching else if old(p.s.jobs[j].pc) == Marked then Started else Streaming
    ensures p.s.jobs[j].state.row.status == old(p.s.jobs[j].state.row.status)
  {
    AfterProgress(p.sha256, p.s, j, r);
    Take(p, j, Progress(j, r), before, trace0);
  }

  method Reject(p: Platform, j: string, ghost before: System, ghost trace0: seq<Event>)
    requires j in p.s.jobs && p.s.jobs[j].pc == Started && Ran(p.sha256, before, trace0, p.s, p.trace, j)
    modifies p
    ensures Ran(p.sha256, before, trace0, p.s, p.trace, j) && SameStore(old(p.s), p.s, j)
    ensures p.s.jobs[j].pc == Catching && p.s.jobs[j].state == old(p.s.jobs[j].state)
  {
    AfterDump(p.sha256, p.s, j);
    Take(p, j, DumpRejects(j), before, trace0);
  }

  /** markRunning to the end of the second progress report. */
  method Prepare(p: Platform, j: string, o: Outcomes, ghost before: System, ghost trace0: seq<Event>) returns (ok: bool)
    requires j in p.s.jobs && p.s.jobs[j].pc == Open && Ran(p.sha256, before, trace0, p.s, p.trace, j)
    modifies p
    ensures Ran(p.sha256, before, trace0, p.s, p.trace, j)
    ensures SameStore(old(p.s), p.s, j) && p.s.jobs[j].pc == if ok then Streaming else Catching
    ensures ok <==> o.running == All && o.first == All && o.dump && o.second == All
    ensures p.s.jobs[j].state.row.status ==
            if o.running == Nothing then old(p.s.jobs[j].state.row.status) else Status.Running
  {
    Mark(p, j, o.running, before, trace0);
    if o.running != All { return false; }
    Note(p, j, o.first, before, trace0);
    if o.first != All { return false; }
    if !o.dump {
      Reject(p, j, before, trace0);
      return false;
    }
    Note(p, j, o.second, before, trace0);
    return o.second == All;
  }

  lemma UploadEffect(s: System, j: string, o: Outcomes)
    requires j in s.jobs
    ensures var t := StepUpload(s, j, o.content, o.upload);
            && t.backups == s.backups
            && t.jobs == s.jobs[j := s.jobs[j].(pc := if o.upload == Stored then Uploaded(o.content) else Catching)]
            && t.objects == if Kept(o).Some? then s.objects[JobKey(s, j) := Kept(o).value] else s.objects
  {
    match o.upload
    case Stored => assert JobKey(WriteObject(s, j, o.content), j) == JobKey(s, j);
    case PutFailed(None) =>
    case PutFailed(Some(left)) => assert WriteObject(s, j, left).jobs == s.jobs;
    case DumpFailedAfter => assert WriteObject(s, j, o.content).jobs == s.jobs;
    case DumpFailedBefore =>
  }

  lemma AfterUpload(sha256: Bytes -> string, s: System, j: string, o: Outcomes)
    requires j in s.jobs && s.jobs[j].pc == Streaming && Streams(o)
    ensures var t := Step(sha256, s, Upload(j, o.content, o.upload));
            && j in t.jobs && t.backups == s.backups && t.jobs[j] == s.jobs[j].(pc := t.jobs[j].pc)
            && t.jobs[j].pc == (if o.upload == Stored then Uploaded(o.content) else Catching)
            && t.objects == ObjectsAfter(s, j, o)
  {
    OwnStep(sha256, s, Upload(j, o.content, o.upload));
    UploadEffect(s, j, o);
  }

  lemma AfterCreate(sha256: Bytes -> string, s: System, j: string, o: Outcomes)
    requires j in s.jobs && s.jobs[j].pc == Uploaded(o.content) && o.id !in s.backups && Streams(o) && o.upload == Stored
    ensures var t := Step(sha256, s, Create(j, o.id, o.create));
            && j in t.jobs && t.jobs[j] == s.jobs[j].(pc := if Creates(s, j, o) then Recorded else Catching)
            && t.objects == s.objects && t.backups == BackupsAfter(sha256, s, j, o)
  {
  }

  lemma AfterReport(sha256: Bytes -> string, s: System, e: Event, j: string)
    requires Own(e, j) && j in s.jobs && (e.Finish? || e.Notify? || e.Fail? || e.Close?)
    ensures SameStore(s, Step(sha256, s, e), j)
  {
  }

  /** Upload, row, markDone, notification. */
  method Deliver(p: Platform, j: string, o: Outcomes, ghost before: System, ghost trace0: seq<Event>) returns (ok: bool)
    requires j in p.s.jobs && p.s.jobs[j].pc == Streaming && Ran(p.sha256, before, trace0, p.s, p.trace, j)
    requires o.id !in p.s.backups && Streams(o) && p.s.jobs[j].state.row.status == Status.Running
    modifies p
    ensures Ran(p.sha256, before, trace0, p.s, p.trace, j)
    ensures j in p.s.jobs && p.s.jobs[j].pc == if ok then Closing else Catching
    ensures ok <==> Creates(old(p.s), j, o) && o.done == All && o.notify
    ensures p.s.objects == ObjectsAfter(old(p.s), j, o) && p.s.backups == BackupsAfter(p.sha256, old(p.s), j, o)
    ensures p.s.jobs[j].state.row.status == if Creates(old(p.s), j, o) && o.done != Nothing then Done else Status.Running
    ensures p.s.jobs[j].tries == old(p.s.jobs[j].tries) && p.s.jobs[j].data == old(p.s.jobs[j].data)
  {
    AfterUpload(p.sha256, p.s, j, o);
    Take(p, j, Upload(j, o.content, o.upload), before, trace0);
    if o.upload != Stored { return false; }
    assert HasRow(p.s, j) == HasRow(old(p.s), j) && Creates(p.s, j, o) == Creates(old(p.s), j, o);
    assert JobKey(p.s, j) == JobKey(old(p.s), j);
    AfterCreate(p.sha256, p.s, j, o);
    Take(p, j, Create(j, o.id, o.create), before, trace0);
    if p.s.jobs[j].pc == Catching { return false; }
    ok := Report(p, j, o, before, trace0);
  }

  /** markDone and the notification: both only report, storage and rows stay. */
  method Report(p: Platform, j: string, o: Outcomes, ghost before: System, ghost trace0: seq<Event>) returns (ok: bool)
    requires j in p.s.jobs && p.s.jobs[j].pc == Recorded && Ran(p.sha256, before, trace0, p.s, p.trace, j)
    requires p.s.jobs[j].state.row.status == Status.Running
    modifies p
    ensures Ran(p.sha256, before, trace0, p.s, p.trace, j)
    ensures SameStore(old(p.s), p.s, j) && p.s.jobs[j].pc == if ok then Closing else Catching
    ensures ok <==> o.done == All && o.notify
    ensures p.s.jobs[j].state.row.status == if o.done == Nothing then Status.Running else Done
  {
    AfterFinish(p.sha256, p.s, j, o);
    Take(p, j, Finish(j, o.done), before, trace0);
    if o.done != All { return false; }
    AfterNotify(p.sha256, p.s, j, o);
    Take(p, j, Notify(j, o.notify), before, trace0);
    return o.notify;
  }

  lemma AfterFinish(sha256: Bytes -> string, s: System, j: string, o: Outcomes)
    requires j in s.jobs && s.jobs[j].pc == Recorded
    ensures var t := Step(sha256, s, Finish(j, o.done));
            && SameStore(s, t, j) && t.jobs[j].pc == (if o.done == All then Reported else Catching)
            && t.jobs[j].state.row.status == if o.done == Nothing then s.jobs[j].state.row.status else Done
  {
  }

  lemma AfterNotify(sha256: Bytes -> string, s: System, j: string, o: Outcomes)
    requires j in s.jobs && s.jobs[j].pc == Reported
    ensures var t := Step(sha256, s, Notify(j, o.notify));
            && SameStore(s, t, j) && t.jobs[j].pc == (if o.notify then Closing else Catching)
            && t.jobs[j].state == s.jobs[j].state
  {
  }

  /** The catch branch, or the close of a delivered attempt. */
  method Settle(p: Platform, j: string, o: Outcomes, delivered: bool, ghost before: System, ghost trace0: seq<Event>)
    returns (ok: bool)
    requires j in p.s.jobs && p.s.jobs[j].pc == (if delivered then Closing else Catching)
    requires Ran(p.sha256, before, trace0, p.s, p.trace, j)
    modifies p
    ensures Ran(p.sha256, before, trace0, p.s, p.trace, j)
    ensures ok <==> delivered && o.close
    ensures SameStore(old(p.s), p.s, j) && p.s.jobs[j].pc == if ok then Succeeded else Again(old(p.s.jobs[j].tries))
    ensures p.s.jobs[j].state.row.status ==
            if !delivered && o.failed != Nothing then Failed else old(p.s.jobs[j].state.row.status)
  {
    var e := if delivered then Close(j, o.close) else Fail(j, o.failed);
    AfterReport(p.sha256, p.s, e, j);
    Take(p, j, e, before, trace0);
    return delivered && o.close;
  }

  /**
   One attempt is a run of the job's own steps. It succeeds exactly when it creates the row and
   every later await succeeds; storage and rows are known for every outcome; and an attempt whose
   backup is there ends with the Job row failed exactly when markDone or the notification fails and
   the failure is written. A failing close leaves the row done and the job queued again.
   */
  method Attempt(p: Platform, j: string, o: Outcomes) returns (ok: bool)
    requires j in p.s.jobs && p.s.jobs[j].pc == Waiting && o.id !in p.s.backups
    modifies p
    ensures Ran(p.sha256, old(p.s), old(p.trace), p.s, p.trace, j)
    ensures j in p.s.jobs
    ensures p.s.jobs[j].pc == if ok then Succeeded else Again(old(p.s.jobs[j].tries) + 1)
    ensures ok <==> Creates(old(p.s), j, o) && o.done == All && o.notify && o.close
    ensures p.s.objects == ObjectsAfter(old(p.s), j, o) && p.s.backups == BackupsAfter(p.sha256, old(p.s), j, o)
    ensures p.s.jobs[j].state.row.status == FinalStatus(old(p.s), j, o)
    ensures p.s.jobs[j].data == old(p.s.jobs[j].data) && p.s.jobs[j].tries == old(p.s.jobs[j].tries) + 1
    ensures o.id in p.s.backups && p.s.jobs[j].state.row.status == Failed <==>
            Creates(old(p.s), j, o) && (o.done != All || !o.notify) && o.failed != Nothing
  {
    ghost var before, trace0 := p.s, p.trace;
    assert trace0[|trace0|..] == [];
    Connect(p, j, o.adapter, before, trace0);
    if !o.adapter { return false; }
    ok := Prepare(p, j, o, before, trace0);
    assert HasRow(p.s, j) == HasRow(before, j) && JobKey(p.s, j) == JobKey(before, j);
    if ok { ok := Deliver(p, j, o, before, trace0); }
    ok := Settle(p, j, o, ok, before, trace0);
  }

  // ------------------------------------------------ disagreement, from the start

  /** The platform is where its trace leads from nothing. */
  ghost predicate Reached(p: Platform)
    reads p
  {
    p.s == Exec(p.sha256, EMPTY, p.trace)
  }

  lemma RunReached(sha256: Bytes -> string, before: System, trace0: seq<Event>, after: System, trace1: seq<Event>, j: string)
    requires before == Exec(sha256, EMPTY, trace0) && Ran(sha256, before, trace0, after, trace1, j)
    ensures after == Exec(sha256, EMPTY, trace1)
  {
    ExecConcat(sha256, EMPTY, trace0, trace1[|trace0|..]);
    assert trace1 == trace0 + trace1[|trace0|..];
  }

  /** Every await succeeds up to the row; then markDone too, unless `notify` is false. */
  function Smooth(content: Bytes, id: nat, notify: bool): Outcomes {
    Outcomes(true, All, All, true, All, content, Stored, id, true, All, notify, All, true)
  }

  method FirstAttempt(p: Platform, j: string, data: JobData, content: Bytes, notify: bool)
    requires p.s == EMPTY && p.trace == [] && '/' !in j && '/' !in data.tenantId
    modifies p
    ensures Reached(p) && j in p.s.jobs && p.s.jobs[j].data == data && p.s.passes == map[]
    ensures p.s.jobs[j].pc == if notify then Succeeded else Waiting
    ensures 0 in p.s.backups && p.s.backups.Keys == {0} && JobKey(p.s, j) in p.s.objects
    ensures p.s.backups[0] == Backup(j, JobKey(p.s, j), |content|, p.sha256(content), Available)
  {
    p.Do(Submit(j, data));
    assert p.s == Enrol(EMPTY, j, data);
    assert p.trace[1..] == [];
    ghost var before, trace0 := p.s, p.trace;
    var ok := Attempt(p, j, Smooth(content, 0, notify));
    RunReached(p.sha256, before, trace0, p.s, p.trace, j);
    OwnKeepsPasses(p.sha256, before, p.trace[|trace0|..], j);
  }

  lemma {:induction false} OwnKeepsPasses(sha256: Bytes -> string, s: System, es: seq<Event>, j: string)
    requires forall i :: 0 <= i < |es| ==> Own(es[i], j)
    ensures Exec(sha256, s, es).passes == s.passes
    decreases |es|
  {
    if es != [] {
      assert Own(es[0], j);
      JobStepKeepsPasses(sha256, s, es[0]);
      OwnKeepsPasses(sha256, Step(sha256, s, es[0]), es[1..], j);
    }
  }

  lemma JobStepKeepsPasses(sha256: Bytes -> string, s: System, e: Event)
    requires OfJob(e)
    ensures Step(sha256, s, e).passes == s.passes
  {
    if e.job in s.jobs {
      OwnStep(sha256, s, e);
      if e.Upload? { assert StepUpload(s, e.job, e.content, e.result).passes == s.passes; }
    }
  }

  /**
   From nothing: a backup is stored and recorded, its notification fails, and the retry stores other
   content. The row stays available for an object that no longer has its length.
   */
  method RetrySpoils(p: Platform, j: string, data: JobData, first: Bytes, second: Bytes)
    requires p.s == EMPTY && p.trace == [] && '/' !in j && '/' !in data.tenantId && |first| != |second|
    modifies p
    ensures Reached(p) && 0 in p.s.backups && p.s.backups[0].status == Available && p.s.backups[0].jobId == j
    ensures !Intact(p.sha256, p.s, p.s.backups[0]) && !Agree(p.sha256, p.s)
  {
    FirstAttempt(p, j, data, first, false);
    ghost var before, trace0 := p.s, p.trace;
    var ok := Attempt(p, j, Smooth(second, 1, true));
    RunReached(p.sha256, before, trace0, p.s, p.trace, j);
    OwnKeepsPasses(p.sha256, before, p.trace[|trace0|..], j);
    assert HasRow(before, j) && !Creates(before, j, Smooth(second, 1, true));
    assert !RowAgrees(p.sha256, p.s, 0);
  }

  /** From nothing: a backup succeeds, and a retention pass deletes its object but not its availability. */
  method PassStrands(p: Platform, j: string, data: JobData, content: Bytes)
    requires p.s == EMPTY && p.trace == [] && '/' !in j && '/' !in data.tenantId
    modifies p
    ensures Reached(p) && 0 in p.s.backups && p.s.backups[0].status == Available && p.s.backups[0].uri !in p.s.objects
    ensures !Agree(p.sha256, p.s)
  {
    FirstAttempt(p, j, data, content, true);
    ghost var before := p.s;
    Add(p, RetentionRead(0, [0]));
    assert p.s == Begin(before, 0, [0]) && Working(p.s, 0);
    DeleteSteps(p.sha256, p.s, 0);
    Add(p, RetentionDelete(0, R.Erased));
    UpdateSteps(p.sha256, p.s, 0, false);
    Add(p, RetentionUpdate(0, false));
    assert !RowAgrees(p.sha256, p.s, 0);
  }

  method Add(p: Platform, e: Event)
    requires Reached(p)
    modifies p
    ensures Reached(p) && p.s == Step(p.sha256, old(p.s), e)
  {
    ExecSnoc(p.sha256, EMPTY, p.trace, e);
    p.Do(e);
  }
}
