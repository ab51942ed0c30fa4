/**
 The response interceptor of the API client: on a 401 it refreshes the access token once for all
 waiting requests and resends each of them once. Network replies are steps; the continuations of
 a settled refresh run one by one.
 */
module Refresh {
  import opened Text

  datatype Request =
    | Flying(sent: nat)             // sent, no reply yet
    | Waiting(flight: nat, sent: nat)
    | Resolved(sent: nat)
    | Rejected(sent: nat)

  /** A call of refreshAccessToken; `Settled(None)` is a failed one. */
  datatype Flight = Pending | Settled(token: Option<string>)

  /**
   `flights` are all refreshes so far, oldest first; `refreshing` the module variable;
   `retry` the requests whose config has `_retry`; `steps` counts interceptor turns per request.
   */
  datatype State = State(requests: map<nat, Request>, retry: set<nat>, flights: seq<Flight>,
                         refreshing: Option<nat>, token: Option<string>, carried: map<nat, Option<string>>,
                         steps: map<nat, nat>)

  const INITIAL := State(map[], {}, [], None, None, map[], map[])

  datatype Event =
    | Send(id: nat)                                          // a new logical request
    | Reply(id: nat, unauthorized: bool, authEndpoint: bool, ok: bool)
    | RefreshReply(flight: nat, token: Option<string>)
    | Resume(id: nat)                                        // the code after `await refreshing`
    | Store(token: Option<string>)                           // login or logout writes the auth store

  /** JavaScript truth of a token: present and not empty. */
  predicate Truthy(token: Option<string>) { token.Some? && token.value != "" }

  /** The request goes out with the token the store holds now, or with the header it already has. */
  function Dispatch(s: State, id: nat, sent: nat, own: Option<string>): State {
    s.(requests := s.requests[id := Flying(sent)], carried := s.carried[id := if Truthy(s.token) then s.token else own])
  }

  function Turn(s: State, id: nat): State {
    s.(steps := s.steps[id := (if id in s.steps then s.steps[id] else 0) + 1])
  }

  function Step(s: State, e: Event): State {
    match e
    case Send(id) => if id in s.requests then s else Dispatch(s, id, 1, None)
    case Reply(id, unauthorized, authEndpoint, ok) =>
      if id !in s.requests || !s.requests[id].Flying? then s
      else
        var t, sent := Turn(s, id), s.requests[id].sent;
        if !unauthorized then t.(requests := t.requests[id := if ok then Resolved(sent) else Rejected(sent)])
        else if id in s.retry || authEndpoint then t.(requests := t.requests[id := Rejected(sent)])
        else
          var flight := if s.refreshing.Some? then s.refreshing.value else |s.flights|;
          t.(retry := s.retry + {id}, refreshing := Some(flight),
             flights := if s.refreshing.Some? then s.flights else s.flights + [Pending],
             requests := t.requests[id := Waiting(flight, sent)])
    case RefreshReply(f, token) =>
      if f >= |s.flights| || s.flights[f] != Pending then s
      else s.(flights := s.flights[f := Settled(token)], token := token)  // setToken, or clear
    case Resume(id) =>
      if !Resumable(s, id) then s
      else
        var t := Turn(s, id).(refreshing := None);
        var r := s.requests[id];
        if Truthy(s.flights[r.flight].token) then Dispatch(t, id, r.sent + 1, s.flights[r.flight].token)
        else t.(requests := t.requests[id := Rejected(r.sent)])
    case Store(token) => s.(token := token)
  }

  predicate Resumable(s: State, id: nat) {
    && id in s.requests && s.requests[id].Waiting?
    && s.requests[id].flight < |s.flights| && s.flights[s.requests[id].flight].Settled?
  }

  /** Continuations run before the next network event is looked at. */
  predicate Orderly(s: State, e: Event) {
    e.Resume? || forall id <- s.requests :: !Resumable(s, id)
  }

  function Exec(s: State, es: seq<Event>): State
    decreases |es|
  {
    if es == [] then s else Exec(Step(s, es[0]), es[1..])
  }

  predicate AllOrderly(s: State, es: seq<Event>)
    decreases |es|
  {
    es == [] || (Orderly(s, es[0]) && AllOrderly(Step(s, es[0]), es[1..]))
  }

  // ------------------------------------------------------------------ invariant

  /** How many interceptor turns a request can still take. */
  function Left(s: State, id: nat): nat
    requires id in s.requests
  {
    match s.requests[id]
    case Flying(_) => if id in s.retry then 1 else 3
    case Waiting(_, _) => 2
    case _ => 0
  }

  function Turns(s: State, id: nat): nat { if id in s.steps then s.steps[id] else 0 }

  ghost predicate RequestOk(s: State, id: nat)
    requires id in s.requests
  {
    && (match s.requests[id]
        case Flying(sent) => sent == if id in s.retry then 2 else 1
        case Waiting(f, sent) => sent == 1 && id in s.retry && f < |s.flights|
        case Resolved(sent) => 1 <= sent <= 2
        case Rejected(sent) => 1 <= sent <= 2)
    && Turns(s, id) + Left(s, id) <= 3
  }

  ghost predicate InFlight(s: State, f: nat) { f < |s.flights| && s.flights[f] == Pending }

  ghost predicate WaitsOn(s: State, id: nat, f: nat) {
    id in s.requests && s.requests[id].Waiting? && s.requests[id].flight == f
  }

  /** The shared variable names the one flight that is pending or still has continuations to run. */
  ghost predicate SharedOk(s: State) {
    && (forall f: nat :: InFlight(s, f) ==> s.refreshing == Some(f))
    && (s.refreshing.Some? ==> exists id: nat :: WaitsOn(s, id, s.refreshing.value))
  }

  /** All waiting requests wait on one flight; while it is pending it is the shared one. */
  ghost predicate WaitersOk(s: State) {
    && (forall i: nat, j: nat, f: nat, g: nat :: WaitsOn(s, i, f) && WaitsOn(s, j, g) ==> f == g)
    && (forall i: nat, f: nat :: WaitsOn(s, i, f) ==>
          f < |s.flights| && (s.flights[f] != Pending ==> s.flights[f].token == s.token))
    && (forall i: nat, f: nat, g: nat :: WaitsOn(s, i, f) && InFlight(s, g) ==> f == g)
  }

  ghost predicate Inv(s: State) {
    && (forall id <- s.requests :: RequestOk(s, id))
    && s.retry <= s.requests.Keys && s.steps.Keys <= s.requests.Keys
    && SharedOk(s) && WaitersOk(s)
  }

  lemma SendKeepsInv(s: State, id: nat)
    requires Inv(s)
    ensures Inv(Step(s, Send(id)))
  {
    var t := Step(s, Send(id));
    forall i | i in t.requests ensures RequestOk(t, i) { assert i in s.requests ==> RequestOk(s, i); }
    assert forall i: nat, f: nat :: WaitsOn(t, i, f) <==> WaitsOn(s, i, f);
    assert forall f: nat :: InFlight(t, f) <==> InFlight(s, f);
  }

  /** In an orderly state, waiting and the shared variable both mean one pending flight. */
  lemma Quiet(s: State)
    requires Inv(s) && forall id <- s.requests :: !Resumable(s, id)
    ensures s.refreshing.Some? ==> InFlight(s, s.refreshing.value)
    ensures forall i: nat, f: nat :: WaitsOn(s, i, f) ==> InFlight(s, f) && s.refreshing == Some(f)
  {
    forall i: nat, f: nat | WaitsOn(s, i, f) ensures InFlight(s, f) && s.refreshing == Some(f) {
      assert !Resumable(s, i);
    }
  }

  lemma ReplyKeepsRequests(s: State, e: Event)
    requires Inv(s) && e.Reply? && e.id in s.requests && s.requests[e.id].Flying?
    ensures forall i <- Step(s, e).requests :: RequestOk(Step(s, e), i)
  {
    var t := Step(s, e);
    assert RequestOk(s, e.id);
    forall i | i in t.requests ensures RequestOk(t, i) {
      assert RequestOk(s, i);
      if i != e.id { assert t.requests[i] == s.requests[i]; }
    }
  }

  lemma ReplyKeepsShared(s: State, e: Event)
    requires Inv(s) && e.Reply? && Orderly(s, e) && e.id in s.requests && s.requests[e.id].Flying?
    ensures SharedOk(Step(s, e)) && WaitersOk(Step(s, e))
  {
    var t, id := Step(s, e), e.id;
    Quiet(s);
    if t.requests[id].Waiting? {
      var f := t.requests[id].flight;
      assert WaitsOn(t, id, f);
      forall g: nat | InFlight(t, g) ensures g == f {
        if g < |s.flights| { assert InFlight(s, g); }
      }
      forall i: nat, g: nat | WaitsOn(t, i, g) ensures g == f {
        if i != id { assert WaitsOn(s, i, g); }
      }
    } else {
      assert forall i: nat, g: nat :: WaitsOn(t, i, g) <==> WaitsOn(s, i, g);
      assert forall g: nat :: InFlight(t, g) <==> InFlight(s, g);
    }
  }

  lemma ReplyKeepsInv(s: State, e: Event)
    requires Inv(s) && e.Reply? && Orderly(s, e)
    ensures Inv(Step(s, e))
  {
    if e.id in s.requests && s.requests[e.id].Flying? {
      ReplyKeepsRequests(s, e);
      ReplyKeepsShared(s, e);
    }
  }

  lemma RefreshKeepsInv(s: State, f: nat, token: Option<string>)
    requires Inv(s) && Orderly(s, RefreshReply(f, token))
    ensures Inv(Step(s, RefreshReply(f, token)))
  {
    var t := Step(s, RefreshReply(f, token));
    Quiet(s);
    if t != s {
      forall i | i in t.requests ensures RequestOk(t, i) { assert RequestOk(s, i); }
      assert forall i: nat, g: nat :: WaitsOn(t, i, g) <==> WaitsOn(s, i, g);
      assert forall g: nat :: InFlight(t, g) ==> InFlight(s, g) && g != f;
    }
  }

  lemma ResumeKeepsInv(s: State, id: nat)
    requires Inv(s)
    ensures Inv(Step(s, Resume(id)))
  {
    var t := Step(s, Resume(id));
    if t != s {
      assert RequestOk(s, id) && WaitsOn(s, id, s.requests[id].flight);
      forall i | i in t.requests ensures RequestOk(t, i) {
        assert RequestOk(s, i);
        if i != id { assert t.requests[i] == s.requests[i]; }
      }
      assert forall i: nat, g: nat :: WaitsOn(t, i, g) ==> WaitsOn(s, i, g);
      assert forall g: nat :: InFlight(t, g) <==> InFlight(s, g);
      assert forall g: nat :: !InFlight(t, g);
    }
  }

  lemma StoreKeepsInv(s: State, token: Option<string>)
    requires Inv(s) && Orderly(s, Store(token))
    ensures Inv(Step(s, Store(token)))
  {
    var t := Step(s, Store(token));
    Quiet(s);
    forall i | i in t.requests ensures RequestOk(t, i) { assert RequestOk(s, i); }
    assert forall i: nat, g: nat :: WaitsOn(t, i, g) <==> WaitsOn(s, i, g);
    assert forall g: nat :: InFlight(t, g) <==> InFlight(s, g);
  }

  lemma StepKeepsInv(s: State, e: Event)
    requires Inv(s) && Orderly(s, e)
    ensures Inv(Step(s, e))
  {
    match e
    case Send(id) => SendKeepsInv(s, id);
    case Reply(_, _, _, _) => ReplyKeepsInv(s, e);
    case RefreshReply(f, token) => RefreshKeepsInv(s, f, token);
    case Resume(id) => ResumeKeepsInv(s, id);
    case Store(token) => StoreKeepsInv(s, token);
  }

  lemma {:induction false} ExecKeepsInv(s: State, es: seq<Event>)
    requires Inv(s) && AllOrderly(s, es)
    ensures Inv(Exec(s, es))
    decreases |es|
  {
    if es != [] {
      StepKeepsInv(s, es[0]);
      ExecKeepsInv(Step(s, es[0]), es[1..]);
    }
  }

  // ------------------------------------------------------------------- theorems

  /**
   Every orderly run: at most one refresh is in flight, all waiting requests wait for the same
   one, and every request is sent at most twice and takes at most three interceptor turns.
   */
  lemma SingleFlight(es: seq<Event>)
    requires AllOrderly(INITIAL, es)
    ensures var t := Exec(INITIAL, es);
            && (forall f: nat, g: nat :: InFlight(t, f) && InFlight(t, g) ==> f == g)
            && (forall i: nat, j: nat, f: nat, g: nat :: WaitsOn(t, i, f) && WaitsOn(t, j, g) ==> f == g)
            && (forall id <- t.requests :: 1 <= t.requests[id].sent <= 2 && Turns(t, id) <= 3)
  {
    ExecKeepsInv(INITIAL, es);
    var t := Exec(INITIAL, es);
    forall id | id in t.requests ensures 1 <= t.requests[id].sent <= 2 && Turns(t, id) <= 3 { assert RequestOk(t, id); }
  }

  /**
   A continuation that runs resends with the token of the flight it waited on, whatever ran
   before it, or rejects when that flight failed or brought an empty token; and it always takes one turn off the measure.
   */
  lemma ResumeUsesFlightToken(s: State, id: nat)
    requires Inv(s) && Resumable(s, id)
    ensures var token := s.flights[s.requests[id].flight].token;
            var t := Step(s, Resume(id));
            && t.requests[id] == (if Truthy(token) then Flying(2) else Rejected(1))
            && (Truthy(token) ==> t.carried[id] == token)
            && Left(t, id) < Left(s, id)
  {
    assert RequestOk(s, id) && WaitsOn(s, id, s.requests[id].flight);
  }

  /** A settled flight never changes: all its waiters see the same outcome. */
  lemma {:induction false} OutcomeIsFixed(s: State, es: seq<Event>, f: nat)
    requires f < |s.flights| && s.flights[f].Settled?
    ensures f < |Exec(s, es).flights| && Exec(s, es).flights[f] == s.flights[f]
    decreases |es|
  {
    if es != [] { OutcomeIsFixed(Step(s, es[0]), es[1..], f); }
  }

  /** Among the events is a successful reply to the request while it is in the air. */
  ghost predicate Answered(s: State, es: seq<Event>, id: nat)
    decreases |es|
  {
    if es == [] then false
    else if id in s.requests && s.requests[id].Flying?
            && es[0].Reply? && es[0].id == id && !es[0].unauthorized && es[0].ok
    then true
    else Answered(Step(s, es[0]), es[1..], id)
  }

  /** What is settled stays settled. */
  lemma {:induction false} SettledStays(s: State, es: seq<Event>, id: nat)
    requires id in s.requests && (s.requests[id].Resolved? || s.requests[id].Rejected?)
    ensures id in Exec(s, es).requests && Exec(s, es).requests[id] == s.requests[id]
    decreases |es|
  {
    if es != [] { SettledStays(Step(s, es[0]), es[1..], id); }
  }

  /** In any order of events, a request ends resolved exactly when a success reached it in the air. */
  lemma {:induction false} ResolvedExactly(s: State, es: seq<Event>, id: nat)
    requires id in s.requests ==> !s.requests[id].Resolved?
    ensures var t := Exec(s, es); (id in t.requests && t.requests[id].Resolved?) <==> Answered(s, es, id)
    decreases |es|
  {
    if es != [] {
      var next := Step(s, es[0]);
      if id in next.requests && next.requests[id].Resolved? {
        SettledStays(next, es[1..], id);
      } else {
        ResolvedExactly(next, es[1..], id);
      }
    }
  }

  lemma OthersKeepTurns(s: State, e: Event, id: nat)
    requires id in s.requests && ((e.Reply? || e.Resume? || e.Send?) ==> e.id != id)
    ensures var t := Step(s, e);
            && id in t.requests && t.requests[id] == s.requests[id]
            && (id in t.retry <==> id in s.retry) && Turns(t, id) == Turns(s, id)
  {
  }

  lemma ReplyTakesTurn(s: State, e: Event, id: nat)
    requires RequestKnown(s, id) && e.Reply? && e.id == id && s.requests[id].Flying?
    ensures id in Step(s, e).requests && Turns(Step(s, e), id) > Turns(s, id) && Left(Step(s, e), id) < Left(s, id)
  {
  }

  ghost predicate RequestKnown(s: State, id: nat) { id in s.requests && RequestOk(s, id) }

  /** Each interceptor turn of a request lowers its measure and no other request's. */
  lemma TurnsDecrease(s: State, e: Event, id: nat)
    requires Inv(s) && Orderly(s, e) && id in s.requests
    ensures var t := Step(s, e);
            && id in t.requests
            && (Turns(t, id) > Turns(s, id) ==> Left(t, id) < Left(s, id))
            && (Turns(t, id) == Turns(s, id) ==> Left(t, id) == Left(s, id))
  {
    assert RequestOk(s, id);
    if e.RefreshReply? || e.Store? || e.id != id {
      OthersKeepTurns(s, e, id);
    } else if e.Resume? && Resumable(s, id) {
      ResumeUsesFlightToken(s, id);
    } else if e.Reply? && s.requests[id].Flying? {
      ReplyTakesTurn(s, e, id);
    }
  }

  /**
   The order matters: from any state with two continuations of one flight and two fresh requests
   in the air, handling a 401 between the continuations ends with two refreshes in flight.
   */
  lemma OrderIsNeeded(s: State, i: nat, j: nat, k: nat, l: nat)
    requires i != j && k != l && Resumable(s, i) && Resumable(s, j)
    requires k in s.requests && s.requests[k].Flying? && k !in s.retry
    requires l in s.requests && s.requests[l].Flying? && l !in s.retry
    ensures var s1 := Step(s, Resume(i));
            var s2 := Step(s1, Reply(k, true, false, false));
            var s4 := Step(Step(s2, Resume(j)), Reply(l, true, false, false));
            var n := |s.flights|;
            && !Orderly(s1, Reply(k, true, false, false))
            && InFlight(s4, n) && InFlight(s4, n + 1)
  {
    ResumeEffect(s, i);
    var s1 := Step(s, Resume(i));
    assert Resumable(s1, j);
    NewFlight(s1, k);
    var s2 := Step(s1, Reply(k, true, false, false));
    assert s2.flights[..|s.flights|] == s.flights && Resumable(s2, j);
    ResumeEffect(s2, j);
    var s3 := Step(s2, Resume(j));
    NewFlight(s3, l);
  }

  /** At most one refresh is in flight. */
  ghost predicate OneFlight(s: State) { forall f: nat, g: nat :: InFlight(s, f) && InFlight(s, g) ==> f == g }

  /** The event starts a refresh although one is in flight: a first 401 while the variable is clear. */
  ghost predicate Forks(s: State, e: Event) {
    && e.Reply? && e.unauthorized && !e.authEndpoint && e.id in s.requests && s.requests[e.id].Flying? && e.id !in s.retry
    && s.refreshing == None && exists f: nat :: InFlight(s, f)
  }

  /** From one flight at most, any step, in any order, leaves one at most exactly when it does not fork. */
  lemma StepFlights(s: State, e: Event)
    requires OneFlight(s)
    ensures OneFlight(Step(s, e)) <==> !Forks(s, e)
  {
    var t := Step(s, e);
    if |t.flights| > |s.flights| {
      assert t.flights == s.flights + [Pending] && InFlight(t, |s.flights|);
      forall f: nat | f < |s.flights| ensures InFlight(t, f) <==> InFlight(s, f) { assert t.flights[f] == s.flights[f]; }
    } else {
      assert forall f: nat :: InFlight(t, f) ==> InFlight(s, f);
    }
  }

  ghost predicate AlwaysOneFlight(s: State, es: seq<Event>) {
    forall n :: 0 <= n <= |es| ==> OneFlight(Exec(s, es[..n]))
  }

  ghost predicate NeverForks(s: State, es: seq<Event>)
    decreases |es|
  {
    es == [] || (!Forks(s, es[0]) && NeverForks(Step(s, es[0]), es[1..]))
  }

  lemma AlwaysUnfolds(s: State, es: seq<Event>)
    requires es != []
    ensures AlwaysOneFlight(s, es) <==> OneFlight(s) && AlwaysOneFlight(Step(s, es[0]), es[1..])
  {
    var next, rest := Step(s, es[0]), es[1..];
    forall n | 0 <= n <= |rest| ensures Exec(s, es[..n + 1]) == Exec(next, rest[..n]) {
      assert es[..n + 1][1..] == rest[..n];
    }
    assert Exec(s, es[..0]) == s;
    if OneFlight(s) && AlwaysOneFlight(next, rest) {
      forall n | 0 <= n <= |es| ensures OneFlight(Exec(s, es[..n])) {
        if n > 0 { assert OneFlight(Exec(next, rest[..n - 1])); }
      }
    }
    if AlwaysOneFlight(s, es) {
      assert OneFlight(Exec(s, es[..0]));
      forall n | 0 <= n <= |rest| ensures OneFlight(Exec(next, rest[..n])) {
        assert OneFlight(Exec(s, es[..n + 1]));
      }
    }
  }

  /** Over every run, orderly or not: one refresh at a time in every state exactly when no step forks. */
  lemma {:induction false} FlightsExactly(s: State, es: seq<Event>)
    requires OneFlight(s)
    ensures AlwaysOneFlight(s, es) <==> NeverForks(s, es)
    decreases |es|
  {
    if es == [] {
      assert forall n :: 0 <= n <= 0 ==> es[..n] == [];
    } else {
      AlwaysUnfolds(s, es);
      StepFlights(s, es[0]);
      var next, rest := Step(s, es[0]), es[1..];
      if OneFlight(next) {
        FlightsExactly(next, rest);
      } else {
        assert rest[..0] == [] && Exec(next, []) == next;
        assert !AlwaysOneFlight(next, rest);
      }
    }
  }

  /** Four requests, two of them answered with 401 before the refresh settles. */
  function TwoWaiters(token: string): seq<Event> {
    [Send(0)] + ([Send(1)] + ([Send(2)] + ([Send(3)] + Refused(token))))
  }

  function Refused(token: string): seq<Event> {
    [Reply(0, true, false, false)] + ([Reply(1, true, false, false)] + ([RefreshReply(0, Some(token))] + []))
  }

  predicate FourFlying(s: State) {
    && s.requests == map[0 := Flying(1), 1 := Flying(1), 2 := Flying(1), 3 := Flying(1)]
    && s.retry == {} && s.flights == [] && s.refreshing == None
  }

  lemma FourSends(rest: seq<Event>)
    ensures var s := Step(Step(Step(Step(INITIAL, Send(0)), Send(1)), Send(2)), Send(3));
            && FourFlying(s) && Exec(INITIAL, [Send(0)] + ([Send(1)] + ([Send(2)] + ([Send(3)] + rest)))) == Exec(s, rest)
            && (AllOrderly(INITIAL, [Send(0)] + ([Send(1)] + ([Send(2)] + ([Send(3)] + rest)))) <==> AllOrderly(s, rest))
  {
    var s1 := Step(INITIAL, Send(0));
    var s2 := Step(s1, Send(1));
    var s3 := Step(s2, Send(2));
    Unroll(INITIAL, Send(0), [Send(1)] + ([Send(2)] + ([Send(3)] + rest)));
    Unroll(s1, Send(1), [Send(2)] + ([Send(3)] + rest));
    Unroll(s2, Send(2), [Send(3)] + rest);
    Unroll(s3, Send(3), rest);
    assert s3.requests == map[0 := Flying(1), 1 := Flying(1), 2 := Flying(1)];
  }

  lemma FirstRefused(s: State)
    requires FourFlying(s)
    ensures var t := Step(s, Reply(0, true, false, false));
            && t.requests == s.requests[0 := Waiting(0, 1)] && t.retry == {0} && t.flights == [Pending]
            && t.refreshing == Some(0) && Orderly(s, Reply(0, true, false, false))
  {
  }

  lemma SecondRefused(s: State, token: string)
    requires s.requests == map[0 := Waiting(0, 1), 1 := Flying(1), 2 := Flying(1), 3 := Flying(1)]
    requires s.retry == {0} && s.flights == [Pending] && s.refreshing == Some(0)
    ensures var r1, done := Reply(1, true, false, false), RefreshReply(0, Some(token));
            var m := Step(s, r1);
            var t := Step(m, done);
            && Orderly(s, r1) && Orderly(m, done) && Resumable(t, 0) && Resumable(t, 1) && t.retry == {0, 1}
            && 2 in t.requests && t.requests[2].Flying? && 3 in t.requests && t.requests[3].Flying?
  {
    var m := Step(s, Reply(1, true, false, false));
    assert m.requests == s.requests[1 := Waiting(0, 1)] && m.flights == [Pending];
  }

  /** Two of the four are refused, then the refresh settles. */
  lemma TwoRefused(s: State, token: string)
    requires FourFlying(s)
    ensures var r0, r1, done := Reply(0, true, false, false), Reply(1, true, false, false), RefreshReply(0, Some(token));
            var t := Step(Step(Step(s, r0), r1), done);
            && Exec(s, [r0] + ([r1] + ([done] + []))) == t && AllOrderly(s, [r0] + ([r1] + ([done] + [])))
            && Resumable(t, 0) && Resumable(t, 1) && t.retry == {0, 1}
            && 2 in t.requests && t.requests[2].Flying? && 3 in t.requests && t.requests[3].Flying?
  {
    var r0, r1, done := Reply(0, true, false, false), Reply(1, true, false, false), RefreshReply(0, Some(token));
    var s1 := Step(s, r0);
    FirstRefused(s);
    SecondRefused(s1, token);
    Unroll(s, r0, [r1] + ([done] + []));
    Unroll(s1, r1, [done] + []);
    Unroll(Step(s1, r1), done, []);
  }

  lemma TwoWaitersReached(token: string)
    ensures AllOrderly(INITIAL, TwoWaiters(token))
    ensures var s := Exec(INITIAL, TwoWaiters(token));
            && Resumable(s, 0) && Resumable(s, 1) && s.retry == {0, 1}
            && 2 in s.requests && s.requests[2].Flying? && 3 in s.requests && s.requests[3].Flying?
  {
    FourSends(Refused(token));
    TwoRefused(Step(Step(Step(Step(INITIAL, Send(0)), Send(1)), Send(2)), Send(3)), token);
  }

  lemma Unroll(s: State, e: Event, rest: seq<Event>)
    ensures Exec(s, [e] + rest) == Exec(Step(s, e), rest)
    ensures AllOrderly(s, [e] + rest) <==> Orderly(s, e) && AllOrderly(Step(s, e), rest)
  {
    assert ([e] + rest)[1..] == rest;
  }

  /** From the start, one reply out of order is enough for two refreshes in flight. */
  lemma TwoFlightsReachable(token: string)
    ensures var s := Exec(INITIAL, TwoWaiters(token));
            var late := Reply(2, true, false, false);
            var t := Step(Step(Step(Step(s, Resume(0)), late), Resume(1)), Reply(3, true, false, false));
            && AllOrderly(INITIAL, TwoWaiters(token)) && Orderly(s, Resume(0)) && !Orderly(Step(s, Resume(0)), late)
            && exists f: nat, g: nat :: f != g && InFlight(t, f) && InFlight(t, g)
  {
    TwoWaitersReached(token);
    OrderIsNeeded(Exec(INITIAL, TwoWaiters(token)), 0, 1, 2, 3);
  }

  lemma ResumeEffect(s: State, id: nat)
    requires Resumable(s, id)
    ensures var t := Step(s, Resume(id));
            && t.refreshing == None && t.flights == s.flights && t.retry == s.retry
            && forall i :: i in s.requests && i != id ==> i in t.requests && t.requests[i] == s.requests[i]
  {
  }

  lemma NewFlight(s: State, id: nat)
    requires id in s.requests && s.requests[id].Flying? && id !in s.retry && s.refreshing == None
    ensures var t := Step(s, Reply(id, true, false, false));
            && t.flights == s.flights + [Pending] && t.retry == s.retry + {id}
            && forall i :: i in s.requests && i != id ==> i in t.requests && t.requests[i] == s.requests[i]
  {
  }

  // --------------------------------------------------------------------- the code

  /** The client module: `refreshing`, the auth store's token, and each request's config. */
  class Client {
    var requests: map<nat, Request>
    var retry: set<nat>
    var flights: seq<Flight>
    var refreshing: Option<nat>
    var token: Option<string>
    var carried: map<nat, Option<string>>
    var steps: map<nat, nat>

    function Snapshot(): State
      reads this
    {
      State(requests, retry, flights, refreshing, token, carried, steps)
    }

    constructor ()
      ensures Snapshot() == INITIAL
    {
      requests, retry, flights, refreshing, token, carried, steps := map[], {}, [], None, None, map[], map[];
    }

    /** The request interceptor attaches the store's token and the request goes out. */
    method SendOut(id: nat, sent: nat, own: Option<string>)
      modifies this`requests, this`carried
      ensures Snapshot() == Dispatch(old(Snapshot()), id, sent, own)
      ensures requests == old(requests)[id := Flying(sent)]
      ensures carried == old(carried)[id := if token.Some? && token.value != "" then token else own]
    {
      carried := carried[id := if Truthy(token) then token else own];
      requests := requests[id := Flying(sent)];
    }

    method CountTurn(id: nat)
      modifies this`steps
      ensures Snapshot() == Turn(old(Snapshot()), id)
    {
      steps := steps[id := (if id in steps then steps[id] else 0) + 1];
    }

    /** The response interceptor up to its await: resolve, reject, or wait for the shared refresh. */
    method OnReply(id: nat, unauthorized: bool, authEndpoint: bool, ok: bool)
      requires id in requests && requests[id].Flying?
      modifies this
      ensures Snapshot() == Step(old(Snapshot()), Reply(id, unauthorized, authEndpoint, ok))
      ensures requests.Keys == old(requests).Keys && forall i <- requests :: i != id ==> requests[i] == old(requests)[i]
      ensures token == old(token) && carried == old(carried)
      ensures !unauthorized && ok ==> requests[id] == Resolved(old(requests)[id].sent)
      ensures !unauthorized && !ok ==> requests[id] == Rejected(old(requests)[id].sent)
      ensures unauthorized && (id in old(retry) || authEndpoint) ==> requests[id] == Rejected(old(requests)[id].sent)
      ensures unauthorized && id !in old(retry) && !authEndpoint ==>
                && requests[id].Waiting? && requests[id].sent == old(requests)[id].sent && retry == old(retry) + {id}
                && refreshing == Some(requests[id].flight)
                && (old(refreshing).Some? ==> refreshing == old(refreshing) && flights == old(flights))
                && (old(refreshing).None? ==> requests[id].flight == |old(flights)| && flights == old(flights) + [Pending])
      ensures !(unauthorized && id !in old(retry) && !authEndpoint) ==>
                retry == old(retry) && flights == old(flights) && refreshing == old(refreshing)
    {
      var sent := requests[id].sent;
      CountTurn(id);
      if unauthorized && id !in retry && !authEndpoint {
        retry := retry + {id};
        if refreshing.None? {
          refreshing := Some(|flights|);
          flights := flights + [Pending];
        }
        requests := requests[id := Waiting(refreshing.value, sent)];
      } else if ok && !unauthorized {
        requests := requests[id := Resolved(sent)];
      } else {
        requests := requests[id := Rejected(sent)];
      }
    }

    /** refreshAccessToken settles: the store takes the token, or is cleared. */
    method OnRefreshReply(f: nat, answer: Option<string>)
      requires f < |flights| && flights[f].Pending?
      modifies this`token, this`flights
      ensures Snapshot() == Step(old(Snapshot()), RefreshReply(f, answer))
      ensures token == answer && |flights| == |old(flights)| && flights[f] == Settled(answer)
      ensures forall g :: 0 <= g < |flights| && g != f ==> flights[g] == old(flights)[g]
    {
      token := answer;
      flights := flights[f := Settled(answer)];
    }

    /** The interceptor after its await: forget the shared refresh, then resend or reject. */
    method OnResume(id: nat)
      requires Resumable(Snapshot(), id)
      modifies this
      ensures Snapshot() == Step(old(Snapshot()), Resume(id))
      ensures refreshing == None && flights == old(flights) && retry == old(retry) && token == old(token)
      ensures requests.Keys == old(requests).Keys && forall i <- requests :: i != id ==> requests[i] == old(requests)[i]
      ensures var r := old(requests)[id];
              match flights[r.flight].token
              case None => requests[id] == Rejected(r.sent) && carried == old(carried)
              case Some(given) =>
                if given == "" then requests[id] == Rejected(r.sent) && carried == old(carried)
                else requests[id] == Flying(r.sent + 1)
                     && carried == old(carried)[id := if token.Some? && token.value != "" then token else Some(given)]
    {
      var newToken, sent := flights[requests[id].flight].token, requests[id].sent;
      CountTurn(id);
      refreshing := None;
      if Truthy(newToken) {
        SendOut(id, sent + 1, newToken);
      } else {
        requests := requests[id := Rejected(sent)];
      }
    }

    /** An event that cannot happen in the present state is not delivered. */
    method Handle(e: Event)
      modifies this
      ensures Snapshot() == Step(old(Snapshot()), e)
      ensures e.Send? && e.id !in old(requests) ==>
                && requests == old(requests)[e.id := Flying(1)]
                && carried == old(carried)[e.id := if token.Some? && token.value != "" then token else None]
    {
      match e
      case Send(id) => if id !in requests { SendOut(id, 1, None); }
      case Reply(id, unauthorized, authEndpoint, ok) =>
        if id in requests && requests[id].Flying? { OnReply(id, unauthorized, authEndpoint, ok); }
      case RefreshReply(f, answer) => if f < |flights| && flights[f].Pending? { OnRefreshReply(f, answer); }
      case Resume(id) => if Resumable(Snapshot(), id) { OnResume(id); }
      case Store(answer) => token := answer;
    }
  }

  /** A whole orderly run of the client: one refresh at a time, and at most two sends per request. */
  method Drive(es: seq<Event>) returns (c: Client)
    requires AllOrderly(INITIAL, es)
    ensures fresh(c) && c.Snapshot() == Exec(INITIAL, es)
    ensures forall f: nat, g: nat :: InFlight(c.Snapshot(), f) && InFlight(c.Snapshot(), g) ==> f == g
    ensures forall id <- c.requests :: 1 <= c.requests[id].sent <= 2
  {
    c := new Client();
    for i := 0 to |es|
      invariant fresh(c) && Exec(c.Snapshot(), es[i..]) == Exec(INITIAL, es)
    {
      assert es[i..][0] == es[i] && es[i..][1..] == es[i + 1..];
      c.Handle(es[i]);
    }
    SingleFlight(es);
  }
}
