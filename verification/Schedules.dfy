/** The schedule table against the queue's repeatable entries: routes, boot sync and triggers. */
module Schedules {
  import opened Text

  datatype Schedule = Schedule(tenantId: string, serverId: string, database: string, cron: string, enabled: bool,
                               retention: nat)

  /** A repeatable queue entry is identified by the schedule and its cron pattern. */
  datatype Repeatable = Repeatable(scheduleId: string, cron: string)

  datatype Request = Request(tenantId: string, serverId: string, database: string, scheduleId: string)

  /** `servers` maps a server to its tenant; `created` are Job rows, `queued` those handed to the queue. */
  datatype State = State(servers: map<string, string>, schedules: map<string, Schedule>, repeatables: set<Repeatable>,
                         created: seq<Request>, queued: seq<Request>)

  /**
   Which awaits of one request succeed: its lookup, its write of the row, the route's own removal of
   the entry, and registerSchedule's two queue calls.
   */
  datatype Fate = Fate(read: bool, row: bool, first: bool, remove: bool, add: bool)

  const HEALTHY := Fate(true, true, true, true, true)

  /** Which awaits of one trigger succeed: lookup, Job row, enqueue, lastRunAt, and retention's query. */
  datatype Firing = Firing(read: bool, create: bool, enqueue: bool, stamp: bool, query: bool)

  datatype Update = Update(cron: Option<string>, enabled: Option<bool>, retention: Option<nat>)

  datatype Op =
    | Post(tenantId: string, id: string, input: Schedule, fate: Fate)
    | Patch(tenantId: string, id: string, update: Update, fate: Fate)
    | Delete(tenantId: string, id: string, fate: Fate)
    | DropServer(serverId: string)
    | Sync(read: bool, answer: seq<string>, fates: seq<Fate>)
    | Trigger(id: string, firing: Firing)

  /** What the queue should hold. */
  function Desired(s: State): set<Repeatable> {
    set id | id in s.schedules && s.schedules[id].enabled :: Repeatable(id, s.schedules[id].cron)
  }

  ghost predicate Agrees(s: State) { s.repeatables == Desired(s) }

  // -------------------------------------------------------------- specification

  function SafeRemove(rs: set<Repeatable>, id: string, cron: string, ok: bool): set<Repeatable> {
    if ok then rs - {Repeatable(id, cron)} else rs
  }

  function Register(rs: set<Repeatable>, id: string, cron: string, f: Fate): set<Repeatable> {
    var left := SafeRemove(rs, id, cron, f.remove);
    if f.add then left + {Repeatable(id, cron)} else left
  }

  function Updated(s: Schedule, u: Update): Schedule {
    s.(cron := if u.cron.Some? then u.cron.value else s.cron,
       enabled := if u.enabled.Some? then u.enabled.value else s.enabled,
       retention := if u.retention.Some? then u.retention.value else s.retention)
  }

  /** `findFirst` scoped to the caller's tenant. */
  predicate Found(s: State, tenantId: string, id: string) {
    id in s.schedules && s.schedules[id].tenantId == tenantId
  }

  predicate Live(s: State, id: string) { id in s.schedules && s.schedules[id].enabled }

  /** The backup job a trigger of the schedule asks for. */
  function RequestOf(s: State, id: string): Request
    requires id in s.schedules
  {
    Request(s.schedules[id].tenantId, s.schedules[id].serverId, s.schedules[id].database, id)
  }

  /** The entries after registering the listed schedules in order, stopping when an add rejects. */
  function SyncFrom(s: State, rs: set<Repeatable>, ids: seq<string>, fates: seq<Fate>): set<Repeatable>
    requires |ids| <= |fates| && forall i :: 0 <= i < |ids| ==> ids[i] in s.schedules
    decreases |ids|
  {
    if ids == [] then rs
    else
      var next := Register(rs, ids[0], s.schedules[ids[0]].cron, fates[0]);
      if fates[0].add then SyncFrom(s, next, ids[1..], fates[1..]) else next
  }

  /** `findMany where enabled`. */
  predicate EnabledOnes(s: State, ids: seq<string>) {
    && (forall i :: 0 <= i < |ids| ==> ids[i] in s.schedules && s.schedules[ids[i]].enabled)
    && (forall id <- s.schedules :: s.schedules[id].enabled ==> id in ids)
  }

  /** The state after one request; a request that is not possible (reused id, wrong answer) changes nothing. */
  function Apply(s: State, op: Op): State {
    match op
    case Post(tenantId, id, input, f) =>
      if !f.read || !f.row || id in s.schedules || input.serverId !in s.servers || s.servers[input.serverId] != tenantId then s
      else
        var added := input.(tenantId := tenantId);
        s.(schedules := s.schedules[id := added],
           repeatables := if added.enabled then Register(s.repeatables, id, added.cron, f) else s.repeatables)
    case Patch(tenantId, id, u, f) =>
      if !f.read || !f.row || !Found(s, tenantId, id) then s
      else
        var existing := s.schedules[id];
        var now := Updated(existing, u);
        var left := SafeRemove(s.repeatables, id, existing.cron, f.first);
        s.(schedules := s.schedules[id := now],
           repeatables := if now.enabled then Register(left, id, now.cron, f) else left)
    case Delete(tenantId, id, f) =>
      if !f.read || !Found(s, tenantId, id) then s
      else s.(schedules := if f.row then s.schedules - {id} else s.schedules,  // the row goes last
              repeatables := SafeRemove(s.repeatables, id, s.schedules[id].cron, f.first))
    case DropServer(serverId) =>
      s.(servers := s.servers - {serverId},
         schedules := map id | id in s.schedules && s.schedules[id].serverId != serverId :: s.schedules[id])
    case Sync(read, ids, fates) =>
      if !read || !EnabledOnes(s, ids) || |fates| < |ids| then s
      else s.(repeatables := SyncFrom(s, s.repeatables, ids, fates))
    case Trigger(id, f) =>
      if !f.read || !Live(s, id) || !f.create then s
      else
        s.(created := s.created + [RequestOf(s, id)],
           queued := if f.enqueue then s.queued + [RequestOf(s, id)] else s.queued)
  }

  // ------------------------------------------------------------------- the code

  class Scheduler {
    var servers: map<string, string>
    var schedules: map<string, Schedule>
    var repeatables: set<Repeatable>
    var created: seq<Request>
    var queued: seq<Request>

    function Snapshot(): State
      reads this
    {
      State(servers, schedules, repeatables, created, queued)
    }

    /** Never throws: a failing removal is ignored. */
    method RemoveRepeatable(id: string, cron: string, ok: bool)
      modifies this`repeatables
      ensures repeatables == SafeRemove(old(repeatables), id, cron, ok)
    {
      if ok { repeatables := repeatables - {Repeatable(id, cron)}; }
    }

    method RegisterSchedule(id: string, cron: string, f: Fate) returns (ok: bool)
      modifies this`repeatables
      ensures repeatables == Register(old(repeatables), id, cron, f) && (ok <==> f.add)
      ensures forall r :: r in repeatables <==>
                || (f.add && r == Repeatable(id, cron))
                || (r in old(repeatables) && !(f.remove && r == Repeatable(id, cron)))
    {
      RemoveRepeatable(id, cron, f.remove);
      if !f.add { return false; }
      repeatables := repeatables + {Repeatable(id, cron)};
      return true;
    }

    method CreateSchedule(tenantId: string, id: string, input: Schedule, f: Fate) returns (ok: bool)
      requires id !in schedules
      modifies this
      ensures Snapshot() == Apply(old(Snapshot()), Post(tenantId, id, input, f))
      ensures ok <==> f.read && f.row && input.serverId in servers && servers[input.serverId] == tenantId
                      && (input.enabled ==> f.add)
      ensures var made := f.read && f.row && input.serverId in servers && servers[input.serverId] == tenantId;
              && schedules.Keys == old(schedules).Keys + (if made then {id} else {})
              && (made ==> schedules[id].tenantId == tenantId && schedules[id].serverId == input.serverId
                           && schedules[id].database == input.database && schedules[id].cron == input.cron
                           && schedules[id].enabled == input.enabled && schedules[id].retention == input.retention)
              && (forall k <- old(schedules) :: schedules[k] == old(schedules)[k])
              && (forall r :: r in repeatables <==>
                    || (made && input.enabled && f.add && r == Repeatable(id, input.cron))
                    || (r in old(repeatables) && !(made && input.enabled && f.remove && r == Repeatable(id, input.cron))))
    {
      if !f.read || input.serverId !in servers || servers[input.serverId] != tenantId { return false; }
      if !f.row { return false; }
      var added := input.(tenantId := tenantId);
      schedules := schedules[id := added];
      ok := true;
      if added.enabled { ok := RegisterSchedule(id, added.cron, f); }
    }

    method UpdateSchedule(tenantId: string, id: string, u: Update, f: Fate) returns (ok: bool)
      modifies this
      ensures Snapshot() == Apply(old(Snapshot()), Patch(tenantId, id, u, f))
      ensures ok <==> f.read && f.row && Found(old(Snapshot()), tenantId, id) && (schedules[id].enabled ==> f.add)
      ensures schedules.Keys == old(schedules).Keys
      ensures forall k <- schedules :: k != id ==> schedules[k] == old(schedules)[k]
      ensures !(f.read && f.row && id in old(schedules) && old(schedules)[id].tenantId == tenantId) ==>
                schedules == old(schedules) && repeatables == old(repeatables)
      ensures f.read && f.row && id in old(schedules) && old(schedules)[id].tenantId == tenantId ==>
                var was, now := old(schedules)[id], schedules[id];
                && (match u.cron case Some(cron) => now.cron == cron case None => now.cron == was.cron)
                && (match u.enabled case Some(enabled) => now.enabled == enabled case None => now.enabled == was.enabled)
                && (match u.retention case Some(n) => now.retention == n case None => now.retention == was.retention)
                && now.tenantId == was.tenantId && now.serverId == was.serverId && now.database == was.database
                && (now.enabled && f.add ==> Repeatable(id, now.cron) in repeatables)
                && (f.first && (!now.enabled || now.cron != was.cron) ==> Repeatable(id, was.cron) !in repeatables)
                && forall r :: r in repeatables <==>
                     || (now.enabled && f.add && r == Repeatable(id, now.cron))
                     || (r in old(repeatables) && !(f.first && r == Repeatable(id, was.cron))
                         && !(now.enabled && f.remove && r == Repeatable(id, now.cron)))
    {
      if !f.read || id !in schedules || schedules[id].tenantId != tenantId { return false; }
      var existing := schedules[id];
      var now := Updated(existing, u);
      if !f.row { return false; }
      schedules := schedules[id := now];
      RemoveRepeatable(id, existing.cron, f.first);
      ok := true;
      if now.enabled { ok := RegisterSchedule(id, now.cron, f); }
    }

    method DeleteSchedule(tenantId: string, id: string, f: Fate) returns (ok: bool)
      modifies this
      ensures Snapshot() == Apply(old(Snapshot()), Delete(tenantId, id, f))
      ensures ok <==> f.read && f.row && Found(old(Snapshot()), tenantId, id)
      ensures var found := f.read && id in old(schedules) && old(schedules)[id].tenantId == tenantId;
              && schedules.Keys == old(schedules).Keys - (if found && f.row then {id} else {})
              && (forall k <- schedules :: schedules[k] == old(schedules)[k])
              && repeatables == old(repeatables) - if found && f.first then {Repeatable(id, old(schedules)[id].cron)} else {}
    {
      if !f.read || id !in schedules || schedules[id].tenantId != tenantId { return false; }
      RemoveRepeatable(id, schedules[id].cron, f.first);
      if !f.row { return false; }
      schedules := schedules - {id};
      return true;
    }

    /** Boot reconciliation: one registration after another, stopping at the first that throws. */
    method SyncSchedules(read: bool, ids: seq<string>, fates: seq<Fate>) returns (ok: bool)
      requires EnabledOnes(Snapshot(), ids) && |ids| <= |fates|
      modifies this`repeatables
      ensures Snapshot() == Apply(old(Snapshot()), Sync(read, ids, fates))
      ensures ok <==> read && forall i :: 0 <= i < |ids| ==> fates[i].add
      ensures ok ==> forall r :: r in repeatables <==>
                || r in old(repeatables)
                || (r.scheduleId in schedules && schedules[r.scheduleId].enabled && schedules[r.scheduleId].cron == r.cron)
    {
      if !read { return false; }
      ghost var before := Snapshot();
      for i := 0 to |ids|
        invariant SyncFrom(before, before.repeatables, ids, fates) == SyncFrom(before, repeatables, ids[i..], fates[i..])
        invariant forall j :: 0 <= j < i ==> fates[j].add
      {
        assert ids[i..][0] == ids[i] && ids[i..][1..] == ids[i + 1..] && fates[i..][1..] == fates[i + 1..];
        var registered := RegisterSchedule(ids[i], schedules[ids[i]].cron, fates[i]);
        if !registered { return false; }
      }
      SyncRestores(before, ids, fates);
      forall r ensures r in Desired(before) <==> Wanted(before, r) { DesiredAre(before, r); }
      return true;
    }

    /** A fired entry: a backup job only for a schedule that exists and is enabled. */
    method FireTrigger(id: string, f: Firing) returns (ok: bool)
      modifies this`created, this`queued
      ensures Snapshot() == Apply(old(Snapshot()), Trigger(id, f))
      ensures ok <==>
                f.read && (id in schedules && schedules[id].enabled ==> f.create && f.enqueue && f.stamp && f.query)
      ensures var made := f.read && id in schedules && schedules[id].enabled && f.create;
              && |created| == |old(created)| + (if made then 1 else 0) && created[..|old(created)|] == old(created)
              && |queued| == |old(queued)| + (if made && f.enqueue then 1 else 0) && queued[..|old(queued)|] == old(queued)
              && (made ==> var r := created[|old(created)|];
                    && r.tenantId == schedules[id].tenantId && r.serverId == schedules[id].serverId
                    && r.database == schedules[id].database && r.scheduleId == id
                    && (f.enqueue ==> queued[|old(queued)|] == r))
    {
      if !f.read { return false; }
      if id !in schedules || !schedules[id].enabled { return true; }
      if !f.create { return false; }
      var r := Request(schedules[id].tenantId, schedules[id].serverId, schedules[id].database, id);
      created := created + [r];
      if !f.enqueue { return false; }
      queued := queued + [r];
      return f.stamp && f.query;
    }

    /** The queue runs a trigger again until an attempt succeeds: each one that gets its Job row in adds a job. */
    method RunTrigger(id: string, plan: seq<Firing>) returns (ok: bool)
      requires Live(Snapshot(), id)
      modifies this`created, this`queued
      ensures ok <==> exists i :: 0 <= i < |plan| && Completes(plan[i])
      ensures var r := RequestOf(old(Snapshot()), id);
              && created == old(created) + Copies(r, JobsMade(plan))
              && queued == old(queued) + Copies(r, JobsQueued(plan))
              && r.tenantId == schedules[id].tenantId && r.serverId == schedules[id].serverId
              && r.database == schedules[id].database && r.scheduleId == id
    {
      if plan == [] { return false; }
      ghost var r, before, sent := RequestOf(Snapshot(), id), created, queued;
      ok := FireTrigger(id, plan[0]);
      if !ok {
        ghost var first, handed := if Fires(plan[0]) then [r] else [], if Hands(plan[0]) then [r] else [];
        assert created == before + first && queued == sent + handed;
        Associate(before, first, Copies(r, JobsMade(plan[1..])));
        Associate(sent, handed, Copies(r, JobsQueued(plan[1..])));
        assert first + Copies(r, JobsMade(plan[1..])) == Copies(r, JobsMade(plan));
        assert handed + Copies(r, JobsQueued(plan[1..])) == Copies(r, JobsQueued(plan));
        ok := RunTrigger(id, plan[1..]);
        assert forall i :: 1 <= i < |plan| ==> plan[i] == plan[1..][i - 1];
      }
    }
  }

  function Copies(r: Request, n: nat): seq<Request> { if n == 0 then [] else [r] + Copies(r, n - 1) }

  /** The attempt gets its Job row in, hands the job to the queue, goes through. */
  predicate Fires(f: Firing) { f.read && f.create }

  predicate Hands(f: Firing) { Fires(f) && f.enqueue }

  predicate Completes(f: Firing) { Hands(f) && f.stamp && f.query }

  /** The jobs made, and those queued, by the attempts up to the first that goes through. */
  function JobsMade(plan: seq<Firing>): nat {
    if plan == [] then 0
    else (if Fires(plan[0]) then 1 else 0) + if Completes(plan[0]) then 0 else JobsMade(plan[1..])
  }

  function JobsQueued(plan: seq<Firing>): nat {
    if plan == [] then 0
    else (if Hands(plan[0]) then 1 else 0) + if Completes(plan[0]) then 0 else JobsQueued(plan[1..])
  }

  /** When the n-th attempt is the first to go through, one backup job is made exactly when no earlier one made any. */
  lemma {:induction false} OneJobExactly(plan: seq<Firing>, n: nat)
    requires n < |plan| && Completes(plan[n]) && forall i :: 0 <= i < n ==> !Completes(plan[i])
    ensures JobsMade(plan) >= 1
    ensures JobsMade(plan) == 1 <==> forall i :: 0 <= i < n ==> !Fires(plan[i])
  {
    if n > 0 {
      OneJobExactly(plan[1..], n - 1);
      assert forall i :: 1 <= i < |plan| ==> plan[i] == plan[1..][i - 1];
    }
  }

  // ------------------------------------------------------------------ properties

  ghost predicate Wanted(s: State, r: Repeatable) {
    r.scheduleId in s.schedules && s.schedules[r.scheduleId].enabled && s.schedules[r.scheduleId].cron == r.cron
  }

  lemma DesiredAre(s: State, r: Repeatable)
    ensures r in Desired(s) <==> Wanted(s, r)
  {
    if Wanted(s, r) { assert r == Repeatable(r.scheduleId, s.schedules[r.scheduleId].cron); }
  }

  lemma AgreesIntro(s: State)
    requires forall r :: r in s.repeatables <==> Wanted(s, r)
    ensures Agrees(s)
  {
    forall r ensures r in s.repeatables <==> r in Desired(s) { DesiredAre(s, r); }
  }

  lemma AgreesElim(s: State)
    requires Agrees(s)
    ensures forall r :: r in s.repeatables <==> Wanted(s, r)
  {
    forall r ensures r in s.repeatables <==> Wanted(s, r) { DesiredAre(s, r); }
  }

  /** The exact condition, on the request and its faults, for it to leave table and queue in agreement. */
  predicate KeepsAgreement(s: State, op: Op) {
    match op
    case Post(tenantId, id, input, f) =>
      !f.read || !f.row || id in s.schedules || input.serverId !in s.servers || s.servers[input.serverId] != tenantId
      || !input.enabled || f.add
    case Patch(tenantId, id, u, f) =>
      if !f.read || !f.row || !Found(s, tenantId, id) then true
      else
        var was, now := s.schedules[id], Updated(s.schedules[id], u);
        if !now.enabled then f.first || !was.enabled
        else if f.add then f.first || !was.enabled || was.cron == now.cron
        else was.enabled && was.cron == now.cron && !f.first && !f.remove
    case Delete(tenantId, id, f) =>
      !f.read || !Found(s, tenantId, id) || !s.schedules[id].enabled || f.first == f.row
    case DropServer(serverId) => forall id <- s.schedules :: s.schedules[id].enabled ==> s.schedules[id].serverId != serverId
    case Sync(read, ids, fates) =>
      !read || !EnabledOnes(s, ids) || |fates| < |ids|
      || forall i :: 0 <= i < |ids| && !fates[i].add && Reached(fates, i) ==> !fates[i].remove
    case Trigger(_, _) => true
  }

  /** The sync loop gets to the i-th schedule. */
  predicate Reached(fates: seq<Fate>, i: nat)
    requires i <= |fates|
  {
    forall j :: 0 <= j < i ==> fates[j].add
  }

  lemma PostExact(s: State, tenantId: string, id: string, input: Schedule, f: Fate)
    requires Agrees(s)
    ensures var op := Post(tenantId, id, input, f); Agrees(Apply(s, op)) <==> KeepsAgreement(s, op)
  {
    AgreesElim(s);
    var op := Post(tenantId, id, input, f);
    var t := Apply(s, op);
    if KeepsAgreement(s, op) {
      if t != s { AgreesIntro(t); }
    } else {
      assert Wanted(t, Repeatable(id, input.cron)) && Repeatable(id, input.cron) !in t.repeatables;
      DesiredAre(t, Repeatable(id, input.cron));
    }
  }

  lemma PatchExact(s: State, tenantId: string, id: string, u: Update, f: Fate)
    requires Agrees(s)
    ensures var op := Patch(tenantId, id, u, f); Agrees(Apply(s, op)) <==> KeepsAgreement(s, op)
  {
    AgreesElim(s);
    var op := Patch(tenantId, id, u, f);
    var t := Apply(s, op);
    if f.read && f.row && Found(s, tenantId, id) {
      var was, now := s.schedules[id], Updated(s.schedules[id], u);
      var r0, r1 := Repeatable(id, was.cron), Repeatable(id, now.cron);
      DesiredAre(t, r0);
      DesiredAre(t, r1);
      if KeepsAgreement(s, op) {
        forall r ensures r in t.repeatables <==> Wanted(t, r) {
          if r.scheduleId != id { assert r in t.repeatables <==> r in s.repeatables; }
        }
        AgreesIntro(t);
      }
    }
  }

  lemma DeleteExact(s: State, tenantId: string, id: string, f: Fate)
    requires Agrees(s)
    ensures var op := Delete(tenantId, id, f); Agrees(Apply(s, op)) <==> KeepsAgreement(s, op)
  {
    AgreesElim(s);
    var op := Delete(tenantId, id, f);
    var t := Apply(s, op);
    if f.read && Found(s, tenantId, id) {
      DesiredAre(t, Repeatable(id, s.schedules[id].cron));
      if KeepsAgreement(s, op) { AgreesIntro(t); }
    }
  }

  lemma DropServerExact(s: State, serverId: string)
    requires Agrees(s)
    ensures Agrees(Apply(s, DropServer(serverId))) <==> KeepsAgreement(s, DropServer(serverId))
  {
    AgreesElim(s);
    var t := Apply(s, DropServer(serverId));
    if KeepsAgreement(s, DropServer(serverId)) {
      AgreesIntro(t);
    } else {
      var id :| id in s.schedules && s.schedules[id].enabled && s.schedules[id].serverId == serverId;
      var r := Repeatable(id, s.schedules[id].cron);
      assert Wanted(s, r) && !Wanted(t, r);
      DesiredAre(t, r);
    }
  }

  /** A dropped server takes exactly its schedules with it, leaves every entry, and no schedule can be added to it. */
  lemma DroppedServer(s: State, serverId: string, tenantId: string, id: string, input: Schedule, f: Fate)
    requires input.serverId == serverId
    ensures var t := Apply(s, DropServer(serverId));
            && (forall k :: k in t.schedules <==> k in s.schedules && s.schedules[k].serverId != serverId)
            && (forall k <- t.schedules :: t.schedules[k] == s.schedules[k])
            && t.repeatables == s.repeatables && t.created == s.created && t.queued == s.queued
            && Apply(t, Post(tenantId, id, input, f)) == t
  {
  }

  /** The entry of a schedule as it is in the table. */
  function EntryOf(s: State, id: string): Repeatable
    requires id in s.schedules
  {
    Repeatable(id, s.schedules[id].cron)
  }

  ghost predicate Known(s: State, ids: seq<string>) { forall i :: 0 <= i < |ids| ==> ids[i] in s.schedules }

  /** When no add rejects, sync adds exactly the listed entries and removes none. */
  lemma {:induction false} SyncCompletes(s: State, rs: set<Repeatable>, ids: seq<string>, fates: seq<Fate>)
    requires |ids| <= |fates| && Known(s, ids) && forall i :: 0 <= i < |ids| ==> fates[i].add
    ensures SyncFrom(s, rs, ids, fates) == rs + set id | id in ids && id in s.schedules :: EntryOf(s, id)
    decreases |ids|
  {
    if ids != [] {
      var next := Register(rs, ids[0], s.schedules[ids[0]].cron, fates[0]);
      SyncCompletes(s, next, ids[1..], fates[1..]);
      assert ids == [ids[0]] + ids[1..];
      assert next == rs + {EntryOf(s, ids[0])};
    }
  }

  /** When the i-th add is the first to reject, only that schedule's entry can be lost. */
  lemma {:induction false} SyncStops(s: State, rs: set<Repeatable>, ids: seq<string>, fates: seq<Fate>, i: nat)
    requires |ids| <= |fates| && Known(s, ids) && i < |ids| && Reached(fates, i) && !fates[i].add
    requires forall id <- ids :: id in s.schedules && EntryOf(s, id) in rs
    ensures SyncFrom(s, rs, ids, fates) == if fates[i].remove then rs - {EntryOf(s, ids[i])} else rs
    decreases i
  {
    if i > 0 {
      var next := Register(rs, ids[0], s.schedules[ids[0]].cron, fates[0]);
      assert fates[0].add && EntryOf(s, ids[0]) in rs;
      assert next == rs;
      SyncStops(s, next, ids[1..], fates[1..], i - 1);
    }
  }

  /**
   A completed boot sync of any state: every enabled schedule has its entry, no entry is lost, and
   the queue agrees with the table exactly when no stale entry was there before.
   */
  lemma SyncRestores(s: State, ids: seq<string>, fates: seq<Fate>)
    requires EnabledOnes(s, ids) && |ids| <= |fates| && forall i :: 0 <= i < |ids| ==> fates[i].add
    ensures var t := Apply(s, Sync(true, ids, fates));
            && t.repeatables == s.repeatables + Desired(s) && t.schedules == s.schedules
            && (Agrees(t) <==> s.repeatables <= Desired(s))
  {
    SyncCompletes(s, s.repeatables, ids, fates);
    var listed := set id | id in ids && id in s.schedules :: EntryOf(s, id);
    forall r ensures r in listed <==> r in Desired(s) {
      DesiredAre(s, r);
      if Wanted(s, r) { assert r == EntryOf(s, r.scheduleId); }
    }
    assert listed == Desired(s);
    var t := Apply(s, Sync(true, ids, fates));
    assert Desired(t) == Desired(s);
  }

  lemma SyncExact(s: State, read: bool, ids: seq<string>, fates: seq<Fate>)
    requires Agrees(s)
    ensures Agrees(Apply(s, Sync(read, ids, fates))) <==> KeepsAgreement(s, Sync(read, ids, fates))
  {
    if read && EnabledOnes(s, ids) && |ids| <= |fates| {
      AgreesElim(s);
      var t := Apply(s, Sync(read, ids, fates));
      assert Desired(t) == Desired(s);
      if forall i :: 0 <= i < |ids| ==> fates[i].add {
        SyncRestores(s, ids, fates);
      } else {
        var i := FirstReject(fates, |ids|);
        forall id | id in ids ensures id in s.schedules && EntryOf(s, id) in s.repeatables {
          assert Wanted(s, EntryOf(s, id));
        }
        SyncStops(s, s.repeatables, ids, fates, i);
        assert ids[i] in ids;
        assert forall k :: 0 <= k < |ids| && !fates[k].add && Reached(fates, k) ==> k == i;
      }
    }
  }

  function FirstReject(fates: seq<Fate>, n: nat): (i: nat)
    requires n <= |fates| && exists k :: 0 <= k < n && !fates[k].add
    ensures i < n && !fates[i].add && Reached(fates, i)
  {
    if !fates[0].add then 0
    else
      var rest := fates[1..];
      assert exists k :: 0 <= k < n - 1 && !rest[k].add by {
        var k :| 0 <= k < n && !fates[k].add;
        assert !rest[k - 1].add;
      }
      var i := FirstReject(rest, n - 1);
      assert forall j :: 1 <= j < i + 1 ==> fates[j] == rest[j - 1];
      i + 1
  }

  /** From agreement, a request leaves agreement exactly when its stated condition holds. */
  lemma StepExact(s: State, op: Op)
    requires Agrees(s)
    ensures Agrees(Apply(s, op)) <==> KeepsAgreement(s, op)
  {
    match op
    case Post(tenantId, id, input, f) => PostExact(s, tenantId, id, input, f);
    case Patch(tenantId, id, u, f) => PatchExact(s, tenantId, id, u, f);
    case Delete(tenantId, id, f) => DeleteExact(s, tenantId, id, f);
    case DropServer(serverId) => DropServerExact(s, serverId);
    case Sync(read, ids, fates) => SyncExact(s, read, ids, fates);
    case Trigger(_, _) => assert Desired(Apply(s, op)) == Desired(s);
  }

  function Run(s: State, ops: seq<Op>): State
    decreases |ops|
  {
    if ops == [] then s else Run(Apply(s, ops[0]), ops[1..])
  }

  /** No await fails, and no server is deleted. */
  predicate Quiet(op: Op) {
    match op
    case Post(_, _, _, f) => f == HEALTHY
    case Patch(_, _, _, f) => f == HEALTHY
    case Delete(_, _, f) => f == HEALTHY
    case DropServer(_) => false
    case Sync(read, _, fates) => read && forall f <- fates :: f == HEALTHY
    case Trigger(_, _) => true
  }

  /** Every serial fault-free run without server deletion keeps the queue equal to the table. */
  lemma {:induction false} SerialRunsAgree(s: State, ops: seq<Op>)
    requires Agrees(s) && forall i :: 0 <= i < |ops| ==> Quiet(ops[i])
    ensures Agrees(Run(s, ops))
    decreases |ops|
  {
    if ops != [] {
      assert Quiet(ops[0]);
      if ops[0].Sync? { assert forall i :: 0 <= i < |ops[0].fates| ==> ops[0].fates[i] in ops[0].fates; }
      assert KeepsAgreement(s, ops[0]);
      StepExact(s, ops[0]);
      SerialRunsAgree(Apply(s, ops[0]), ops[1..]);
    }
  }

  // ---------------------------------------------------- sync beside the requests

  /**
   The scheduler process and the API are separate: a boot sync registers, one by one, rows it read
   earlier, while requests come in between. `Enter` carries the row as it was read.
   */
  datatype Move = Serve(op: Op) | Enter(id: string, cron: string, fate: Fate)

  function Next(s: State, m: Move): State {
    match m
    case Serve(op) => Apply(s, op)
    case Enter(id, cron, f) => s.(repeatables := Register(s.repeatables, id, cron, f))
  }

  /** The exact condition for one move: a registration must still be wanted, or come to nothing. */
  ghost predicate MoveKeeps(s: State, m: Move) {
    match m
    case Serve(op) => KeepsAgreement(s, op)
    case Enter(id, cron, f) => if Wanted(s, Repeatable(id, cron)) then f.add || !f.remove else !f.add
  }

  lemma MoveExact(s: State, m: Move)
    requires Agrees(s)
    ensures Agrees(Next(s, m)) <==> MoveKeeps(s, m)
  {
    if m.Serve? {
      StepExact(s, m.op);
    } else {
      AgreesElim(s);
      var r, t := Repeatable(m.id, m.cron), Next(s, m);
      assert Desired(t) == Desired(s);
      DesiredAre(s, r);
      if MoveKeeps(s, m) {
        assert t.repeatables == s.repeatables;
      } else {
        assert r in t.repeatables <==> r !in s.repeatables;
      }
    }
  }

  function Play(s: State, ms: seq<Move>): State
    decreases |ms|
  {
    if ms == [] then s else Play(Next(s, ms[0]), ms[1..])
  }

  ghost predicate AllKeep(s: State, ms: seq<Move>)
    decreases |ms|
  {
    ms == [] || (MoveKeeps(s, ms[0]) && AllKeep(Next(s, ms[0]), ms[1..]))
  }

  ghost predicate AlwaysAgrees(s: State, ms: seq<Move>) { forall n :: 0 <= n <= |ms| ==> Agrees(Play(s, ms[..n])) }

  lemma AlwaysUnfolds(s: State, ms: seq<Move>)
    requires ms != []
    ensures AlwaysAgrees(s, ms) <==> Agrees(s) && AlwaysAgrees(Next(s, ms[0]), ms[1..])
  {
    var next, rest := Next(s, ms[0]), ms[1..];
    forall n | 0 <= n <= |rest| ensures Play(s, ms[..n + 1]) == Play(next, rest[..n]) {
      assert ms[..n + 1][1..] == rest[..n];
    }
    assert Play(s, ms[..0]) == s;
    if Agrees(s) && AlwaysAgrees(next, rest) {
      forall n | 0 <= n <= |ms| ensures Agrees(Play(s, ms[..n])) {
        if n > 0 { assert Agrees(Play(next, rest[..n - 1])); }
      }
    }
    if AlwaysAgrees(s, ms) {
      assert Agrees(Play(s, ms[..0]));
      forall n | 0 <= n <= |rest| ensures Agrees(Play(next, rest[..n])) {
        assert Agrees(Play(s, ms[..n + 1]));
      }
    }
  }

  /**
   Over any interleaving of requests and registrations, table and queue agree in every state exactly
   when every move keeps them so.
   */
  lemma {:induction false} InterleavedExact(s: State, ms: seq<Move>)
    requires Agrees(s)
    ensures AlwaysAgrees(s, ms) <==> AllKeep(s, ms)
    decreases |ms|
  {
    if ms == [] {
      assert forall n :: 0 <= n <= 0 ==> ms[..n] == [];
    } else {
      AlwaysUnfolds(s, ms);
      MoveExact(s, ms[0]);
      var next, rest := Next(s, ms[0]), ms[1..];
      if Agrees(next) {
        InterleavedExact(next, rest);
      } else {
        assert rest[..0] == [] && Play(next, []) == next;
        assert !AlwaysAgrees(next, rest);
      }
    }
  }

  /** A delete between the sync's read and its registration, nothing failing, leaves a stale entry. */
  lemma DeleteDuringSync(s: State, id: string)
    requires Agrees(s) && id in s.schedules && s.schedules[id].enabled
    ensures var row := s.schedules[id];
            var r := Repeatable(id, row.cron);
            var t := Play(s, [Serve(Delete(row.tenantId, id, HEALTHY)), Enter(id, row.cron, HEALTHY)]);
            id !in t.schedules && r in t.repeatables && !Wanted(t, r)
  {
    var row := s.schedules[id];
    var gone, back := Serve(Delete(row.tenantId, id, HEALTHY)), Enter(id, row.cron, HEALTHY);
    assert [gone, back][1..] == [back] && [back][1..] == [];
    assert Play(Next(s, gone), [back]) == Play(Next(Next(s, gone), back), []);
  }

  /** A delete whose row write fails after its removal leaves the schedule enabled and without its entry. */
  lemma FailedDeleteSilences(s: State, id: string)
    requires Agrees(s) && Live(s, id)
    ensures var t := Apply(s, Delete(s.schedules[id].tenantId, id, HEALTHY.(row := false)));
            t.schedules == s.schedules && Wanted(t, EntryOf(s, id)) && EntryOf(s, id) !in t.repeatables && !Agrees(t)
  {
    DeleteExact(s, s.schedules[id].tenantId, id, HEALTHY.(row := false));
  }

  // -------------------------------------------------------------- stale entries

  /** The request can make the schedule live. */
  predicate Revives(op: Op, id: string) {
    (op.Post? && op.id == id) || (op.Patch? && op.id == id && op.update.enabled == Some(true))
  }

  /**
   Once a schedule is deleted or disabled, no job is created for it until it is created or enabled
   again, whatever entries are left in the queue, whatever fails and however often they fire.
   */
  lemma {:induction false} NoJobForStaleEntries(s: State, ops: seq<Op>, id: string)
    requires !Live(s, id) && forall i :: 0 <= i < |ops| ==> !Revives(ops[i], id)
    ensures var t := Run(s, ops);
            && !Live(t, id) && s.created <= t.created
            && forall k :: |s.created| <= k < |t.created| ==> t.created[k].scheduleId != id
    decreases |ops|
  {
    if ops != [] {
      var next, rest := Apply(s, ops[0]), ops[1..];
      assert !Revives(ops[0], id) && forall i :: 0 <= i < |rest| ==> rest[i] == ops[i + 1];
      StaysDead(s, ops[0], id);
      NoJobForStaleEntries(next, rest, id);
    }
  }

  lemma StaysDead(s: State, op: Op, id: string)
    requires !Live(s, id) && !Revives(op, id)
    ensures var t := Apply(s, op);
            && !Live(t, id) && s.created <= t.created
            && forall k :: |s.created| <= k < |t.created| ==> t.created[k].scheduleId != id
  {
  }
}
