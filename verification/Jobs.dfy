/** The Job row and its event log as jobService updates them, and the hashing pass-through stream. */
module Jobs {
  import opened Text

  datatype Status = Queued | Running | Done | Failed

  datatype JobRow = JobRow(status: Status, progress: int, started: bool, finished: bool, failed: bool)

  /** The row with the progress column of its events, oldest first; `complete` while none was lost. */
  datatype JobState = JobState(row: JobRow, log: seq<Option<int>>, complete: bool)

  /** How far `update row; create event; publish` got before an await rejected. */
  datatype Reach = Nothing | RowOnly | RowAndEvent | All

  const CREATED := JobState(JobRow(Queued, 0, false, false, false), [], true)

  function Clamp(p: int): (c: int)
    ensures 0 <= c <= 100
    ensures 0 <= p <= 100 ==> c == p
    ensures (p < 0 ==> c == 0) && (p > 100 ==> c == 100)
  {
    if p < 0 then 0 else if p > 100 then 100 else p
  }

  function RunningRow(row: JobRow): JobRow { row.(status := Running, started := true, progress := 0) }

  function DoneRow(row: JobRow): JobRow { row.(status := Done, progress := 100, finished := true) }

  function FailedRow(row: JobRow): JobRow { row.(status := Failed, finished := true, failed := true) }

  /** One service call: the new row, then the event, as far as it got. */
  function Apply(s: JobState, row: JobRow, event: Option<int>, r: Reach): JobState {
    match r
    case Nothing => s
    case RowOnly => s.(row := row, complete := false)
    case _ => s.(row := row, log := s.log + [event])
  }

  function MarkRunning(s: JobState, r: Reach): JobState { Apply(s, RunningRow(s.row), Some(0), r) }

  function UpdateProgress(s: JobState, p: int, r: Reach): JobState {
    Apply(s, s.row.(progress := Clamp(p)), Some(Clamp(p)), r)
  }

  function MarkDone(s: JobState, r: Reach): JobState { Apply(s, DoneRow(s.row), Some(100), r) }

  function MarkFailed(s: JobState, r: Reach): JobState { Apply(s, FailedRow(s.row), None, r) }

  /** The last progress the log mentions. */
  function LastProgress(log: seq<Option<int>>): int {
    if log == [] then 0
    else if log[|log| - 1].Some? then log[|log| - 1].value
    else LastProgress(log[..|log| - 1])
  }

  /** What holds of a job row after any sequence of service calls, however they fail. */
  ghost predicate Sound(s: JobState) {
    && 0 <= s.row.progress <= 100
    && (s.row.status == Done ==> s.row.progress == 100 && s.row.finished)
    && (s.row.status == Failed ==> s.row.finished)
    && (s.complete ==> s.row.progress == LastProgress(s.log))
  }

  lemma ApplySound(s: JobState, row: JobRow, event: Option<int>, r: Reach)
    requires Sound(s) && Sound(s.(row := row, complete := false))
    requires row.progress == if event.Some? then event.value else s.row.progress
    ensures Sound(Apply(s, row, event, r))
  {
    assert (s.log + [event])[..|s.log|] == s.log;
  }

  /**
   The service calls: all keep the row sound. updateProgress does not look at the status, so on
   a done row it would lower the progress: it is only called on a running one.
   */
  lemma CallsKeepSound(s: JobState, p: int, r: Reach)
    requires Sound(s)
    ensures Sound(MarkRunning(s, r)) && Sound(MarkDone(s, r)) && Sound(MarkFailed(s, r))
    ensures s.row.status != Done ==> Sound(UpdateProgress(s, p, r))
  {
    ApplySound(s, RunningRow(s.row), Some(0), r);
    ApplySound(s, DoneRow(s.row), Some(100), r);
    ApplySound(s, FailedRow(s.row), None, r);
    if s.row.status != Done { ApplySound(s, s.row.(progress := Clamp(p)), Some(Clamp(p)), r); }
  }

  /** The event is appended unless the call stopped before it; a row written without its event is remembered. */
  ghost predicate Logged(before: JobState, after: JobState, event: Option<int>, r: Reach) {
    match r
    case Nothing => after.log == before.log && after.complete == before.complete
    case RowOnly => after.log == before.log && !after.complete
    case _ => after.log == before.log + [event] && after.complete == before.complete
  }

  /** jobService on one job: each call updates the row, then appends the event, then publishes. */
  class JobService {
    var state: JobState
    var published: seq<Status>

    constructor ()
      ensures state == CREATED && published == []
    {
      state, published := CREATED, [];
    }

    method Emit(status: Status, progress: Option<int>, r: Reach) returns (ok: bool)
      requires r != Nothing
      modifies this
      ensures ok <==> r == All
      ensures state == if r == RowOnly then old(state).(complete := false) else old(state).(log := old(state.log) + [progress])
      ensures published == old(published) + if r == All then [status] else []
    {
      if r == RowOnly {
        state := state.(complete := false);
        return false;
      }
      state := state.(log := state.log + [progress]);
      if r != All { return false; }
      published := published + [status];
      return true;
    }

    method Running(r: Reach) returns (ok: bool)
      modifies this
      ensures state == MarkRunning(old(state), r) && (ok <==> r == All)
      ensures var was, now := old(state.row), state.row;
              if r == Nothing then now == was
              else now.status == Status.Running && now.started && now.progress == 0
                   && now.finished == was.finished && now.failed == was.failed
      ensures Logged(old(state), state, Some(0), r)
      ensures published == old(published) + if r == All then [Status.Running] else []
    {
      if r == Nothing { return false; }
      state := state.(row := state.row.(status := Status.Running, started := true, progress := 0));
      ok := Emit(Status.Running, Some(0), r);
    }

    method Progress(p: int, r: Reach) returns (ok: bool)
      modifies this
      ensures state == UpdateProgress(old(state), p, r) && (ok <==> r == All)
      ensures var was, now := old(state.row), state.row;
              && now.progress == (if r == Nothing then was.progress else if p < 0 then 0 else if p > 100 then 100 else p)
              && now.status == was.status && now.started == was.started
              && now.finished == was.finished && now.failed == was.failed
      ensures Logged(old(state), state, Some(if p < 0 then 0 else if p > 100 then 100 else p), r)
      ensures published == old(published) + if r == All then [Status.Running] else []
    {
      var clamped := Clamp(p);
      if r == Nothing { return false; }
      state := state.(row := state.row.(progress := clamped));
      ok := Emit(Status.Running, Some(clamped), r);
    }

    method Done(r: Reach) returns (ok: bool)
      modifies this
      ensures state == MarkDone(old(state), r) && (ok <==> r == All)
      ensures var was, now := old(state.row), state.row;
              if r == Nothing then now == was
              else now.status == Status.Done && now.finished && now.progress == 100
                   && now.started == was.started && now.failed == was.failed
      ensures Logged(old(state), state, Some(100), r)
      ensures published == old(published) + if r == All then [Status.Done] else []
    {
      if r == Nothing { return false; }
      state := state.(row := state.row.(status := Status.Done, progress := 100, finished := true));
      ok := Emit(Status.Done, Some(100), r);
    }

    method Failed(r: Reach) returns (ok: bool)
      modifies this
      ensures state == MarkFailed(old(state), r) && (ok <==> r == All)
      ensures var was, now := old(state.row), state.row;
              if r == Nothing then now == was
              else now.status == Status.Failed && now.finished && now.failed
                   && now.started == was.started && now.progress == was.progress
      ensures Logged(old(state), state, None, r)
      ensures published == old(published) + if r == All then [Status.Failed] else []
    {
      if r == Nothing { return false; }
      state := state.(row := state.row.(status := Status.Failed, finished := true, failed := true));
      ok := Emit(Status.Failed, None, r);
    }
  }

  // -------------------------------------------------------------- HashingStream

  type Bytes = seq<int>

  /** A pass-through: `fed` is what the running SHA-256 has been given so far. */
  class HashingStream {
    var fed: Bytes
    var bytes: nat
    var pushed: Bytes

    constructor ()
      ensures fed == [] && bytes == 0 && pushed == []
    {
      fed, bytes, pushed := [], 0, [];
    }

    method Transform(chunk: Bytes)
      modifies this
      ensures fed == old(fed) + chunk && pushed == old(pushed) + chunk && bytes == old(bytes) + |chunk|
    {
      fed := fed + chunk;
      bytes := bytes + |chunk|;
      pushed := pushed + chunk;
    }

    method Digest(sha256: Bytes -> string) returns (hex: string)
      ensures hex == sha256(fed)
    {
      hex := sha256(fed);
    }
  }

  /** However the content is cut into chunks: same bytes out, their digest, their number. */
  method Pump(sha256: Bytes -> string, chunks: seq<Bytes>) returns (out: Bytes, checksum: string, bytes: nat)
    ensures out == Flatten(chunks) && checksum == sha256(out) && bytes == |out|
  {
    var stream := new HashingStream();
    for i := 0 to |chunks|
      invariant stream.fed == stream.pushed == Flatten(chunks[..i]) && stream.bytes == |stream.pushed|
    {
      FlattenSnoc(chunks[..i], chunks[i]);
      assert chunks[..i + 1] == chunks[..i] + [chunks[i]];
      stream.Transform(chunks[i]);
    }
    assert chunks[..|chunks|] == chunks;
    checksum := stream.Digest(sha256);
    out, bytes := stream.pushed, stream.bytes;
  }
}
