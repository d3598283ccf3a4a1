/** Request/reply protocol between a client process and its server (`padsi/simple_comm.py`):
    concurrent calls, two line-framed pipes, one server job per request, and the client task that
    hands replies back. One step per piece of code that runs without yielding. */
module SimpleComm {
  import opened Wrappers

  /** What a handler produced: a message or the text of an exception. */
  datatype Outcome = Result(data: string) | Exception(text: string)

  datatype Message = Message(data: string, reqId: Option<nat>)
  datatype Request = Request(id: nat, data: string)
  datatype Reply = Reply(id: nat, outcome: Outcome)

  /** The client process: the last id given out, the registered queues, what was put in a queue
      and not taken yet, what calls came back with, and "not a reply to a call" reports. */
  datatype Client = Client(
    counter: nat, queues: set<nat>, delivered: map<nat, Outcome>, returned: map<nat, Outcome>,
    serverDied: bool, orphans: nat)

  /** The server process: requests read and not finished, the job inside the handler lock, whether
      the client process is still there, and requests that will never be replied to. */
  datatype Server = Server(jobs: map<nat, string>, handling: Option<nat>, clientKnown: bool, lost: set<nat>)

  /** Both processes, the two pipes, and what was sent and answered so far. */
  datatype State = State(
    client: Client, requests: seq<Request>, server: Server, replies: seq<Reply>,
    sent: map<nat, string>, answered: map<nat, Outcome>)

  datatype Step =
    | Call(m: Message)
    | CallBroken(m: Message)            // the pipe is broken when the request is written
    | ServerRead
    | Enter(id: nat)
    | Finish(id: nat, outcome: Outcome)
    | ClientGone
    | ClientRead
    | Return(id: nat)

  function Init(): State {
    State(Client(0, {}, map[], map[], false, 0), [], Server(map[], None, true, {}), [], map[], map[])
  }

  // ----- steps

  /** The counter moves on even when the message is refused because it already has an id. */
  function Begin(c: Client, m: Message): Client {
    var id := c.counter + 1;
    if m.reqId.Some? then c.(counter := id) else c.(counter := id, queues := c.queues + {id})
  }

  function DoCall(s: State, m: Message): State {
    var id, c := s.client.counter + 1, Begin(s.client, m);
    if m.reqId.Some? then s.(client := c)
    else s.(client := c, requests := s.requests + [Request(id, m.data)], sent := s.sent[id := m.data])
  }

  function DoCallBroken(s: State, m: Message): State {
    var id, c := s.client.counter + 1, Begin(s.client, m);
    if m.reqId.Some? then s.(client := c)
    else s.(client := c.(serverDied := true), server := s.server.(lost := s.server.lost + {id}),
            sent := s.sent[id := m.data])
  }

  function DoServerRead(s: State): State
    requires s.requests != []
  {
    var r := s.requests[0];
    s.(requests := s.requests[1..], server := s.server.(jobs := s.server.jobs[r.id := r.data]))
  }

  /** The reply is written only while the server has its client process. */
  function DoFinish(s: State, id: nat, outcome: Outcome): State {
    var v := s.server.(jobs := s.server.jobs - {id}, handling := None);
    var done := s.answered[id := outcome];
    if v.clientKnown then s.(server := v, replies := s.replies + [Reply(id, outcome)], answered := done)
    else s.(server := v.(lost := v.lost + {id}), answered := done)
  }

  function HandleReply(c: Client, r: Reply): Client {
    if r.id in c.queues then c.(queues := c.queues - {r.id}, delivered := c.delivered[r.id := r.outcome])
    else c.(orphans := c.orphans + 1)
  }

  function DoClientRead(s: State): State
    requires s.replies != []
  {
    s.(client := HandleReply(s.client, s.replies[0]), replies := s.replies[1..])
  }

  function TakeReply(c: Client, id: nat): Client
    requires id in c.delivered
  {
    c.(delivered := c.delivered - {id}, returned := c.returned[id := c.delivered[id]])
  }

  function DoReturn(s: State, id: nat): State
    requires id in s.client.delivered
  {
    s.(client := TakeReply(s.client, id))
  }

  predicate Enabled(s: State, step: Step) {
    match step
    case Call(_) => !s.client.serverDied
    case CallBroken(_) => !s.client.serverDied
    case ServerRead => s.requests != []
    case Enter(id) => id in s.server.jobs && s.server.handling.None?
    case Finish(id, _) => id in s.server.jobs && s.server.handling == Some(id)
    case ClientGone => true
    case ClientRead => s.replies != []
    case Return(id) => id in s.client.delivered
  }

  function Do(s: State, step: Step): State
    requires Enabled(s, step)
  {
    match step
    case Call(m) => DoCall(s, m)
    case CallBroken(m) => DoCallBroken(s, m)
    case ServerRead => DoServerRead(s)
    case Enter(id) => s.(server := s.server.(handling := Some(id)))
    case Finish(id, outcome) => DoFinish(s, id, outcome)
    case ClientGone => s.(server := s.server.(clientKnown := false))
    case ClientRead => DoClientRead(s)
    case Return(id) => DoReturn(s, id)
  }

  /** A step that cannot happen leaves the state alone, so every sequence of steps is an
      interleaving and every interleaving is one. */
  function Run(steps: seq<Step>): State {
    if steps == [] then Init()
    else
      var s, last := Run(steps[..|steps| - 1]), steps[|steps| - 1];
      if Enabled(s, last) then Do(s, last) else s
  }

  // ----- where a request is

  function RequestIds(rs: seq<Request>): (ids: seq<nat>)
    ensures |ids| == |rs| && forall i :: 0 <= i < |rs| ==> ids[i] == rs[i].id
  {
    seq(|rs|, i requires 0 <= i < |rs| => rs[i].id)
  }

  function ReplyIds(rs: seq<Reply>): (ids: seq<nat>)
    ensures |ids| == |rs| && forall i :: 0 <= i < |rs| ==> ids[i] == rs[i].id
  {
    seq(|rs|, i requires 0 <= i < |rs| => rs[i].id)
  }

  function One(b: bool): nat { if b then 1 else 0 }

  /** How many times a request is somewhere: in the request pipe, in a job, in the reply pipe, in
      its queue, back at its caller, lost. */
  function Places(s: State, id: nat): nat {
    multiset(RequestIds(s.requests))[id] + One(id in s.server.jobs) + multiset(ReplyIds(s.replies))[id]
    + One(id in s.client.delivered) + One(id in s.client.returned) + One(id in s.server.lost)
  }

  // ----- invariant

  ghost predicate Traces(s: State) {
    && (forall r <- s.requests :: r.id in s.sent && r.data == s.sent[r.id] && r.id !in s.answered)
    && (forall id <- s.server.jobs :: id in s.sent && s.server.jobs[id] == s.sent[id] && id !in s.answered)
    && (forall r <- s.replies :: r.id in s.answered && r.outcome == s.answered[r.id])
    && (forall id <- s.client.delivered :: id in s.answered && s.client.delivered[id] == s.answered[id])
    && (forall id <- s.client.returned :: id in s.answered && s.client.returned[id] == s.answered[id])
  }

  ghost predicate Books(s: State) {
    && s.client.queues == s.sent.Keys - s.client.delivered.Keys - s.client.returned.Keys
    && (forall id <- s.sent :: 1 <= id <= s.client.counter)
    && s.answered.Keys <= s.sent.Keys
    && (s.server.handling.Some? ==> s.server.handling.value in s.server.jobs)
    && s.client.orphans == 0
  }

  ghost predicate Conserved(s: State) { forall id :: Places(s, id) == One(id in s.sent) }

  ghost predicate Inv(s: State) { Conserved(s) && Books(s) && Traces(s) }

  // ----- requests move from place to place

  lemma AppendCount(s: seq<nat>, x: nat, id: nat)
    ensures multiset(s + [x])[id] == multiset(s)[id] + One(id == x)
  {
  }

  lemma HeadCount(s: seq<nat>, id: nat)
    requires s != []
    ensures multiset(s)[id] == multiset(s[1..])[id] + One(id == s[0])
  {
    assert s == [s[0]] + s[1..];
  }

  /** In a conserved state, a request in one place is in no other. */
  lemma InOnePlace(s: State, id: nat)
    requires Conserved(s)
    ensures id in s.server.jobs || id in s.client.delivered || id in s.client.returned || id in s.server.lost ==>
            id in s.sent
    ensures id in RequestIds(s.requests) || id in ReplyIds(s.replies) ==> id in s.sent
    ensures id in s.server.jobs ==> id !in s.server.lost && id !in RequestIds(s.requests)
    ensures id in s.client.delivered ==> id !in s.client.returned
    ensures id in ReplyIds(s.replies) ==> id !in s.client.delivered && id !in s.client.returned
  {
    assert Places(s, id) == One(id in s.sent);
    assert id in RequestIds(s.requests) ==> multiset(RequestIds(s.requests))[id] > 0;
    assert id in ReplyIds(s.replies) ==> multiset(ReplyIds(s.replies))[id] > 0;
  }

  lemma CallPlaces(s: State, m: Message, id: nat)
    requires m.reqId.None?
    ensures Places(DoCall(s, m), id) == Places(s, id) + One(id == s.client.counter + 1)
  {
    var x := s.client.counter + 1;
    assert RequestIds(s.requests + [Request(x, m.data)]) == RequestIds(s.requests) + [x];
    AppendCount(RequestIds(s.requests), x, id);
  }

  lemma CallConserved(s: State, m: Message)
    requires Conserved(s) && s.client.counter + 1 !in s.sent
    ensures Conserved(DoCall(s, m))
  {
    if m.reqId.None? {
      forall id: nat ensures Places(DoCall(s, m), id) == One(id in DoCall(s, m).sent) {
        CallPlaces(s, m, id);
      }
    } else {
      assert forall id :: Places(DoCall(s, m), id) == Places(s, id);
    }
  }

  lemma CallBrokenPlaces(s: State, m: Message, id: nat)
    requires m.reqId.None? && s.client.counter + 1 !in s.server.lost
    ensures Places(DoCallBroken(s, m), id) == Places(s, id) + One(id == s.client.counter + 1)
  {
  }

  lemma CallBrokenConserved(s: State, m: Message)
    requires Conserved(s) && s.client.counter + 1 !in s.sent && s.client.counter + 1 !in s.server.lost
    ensures Conserved(DoCallBroken(s, m))
  {
    if m.reqId.None? {
      forall id: nat ensures Places(DoCallBroken(s, m), id) == One(id in DoCallBroken(s, m).sent) {
        CallBrokenPlaces(s, m, id);
      }
    } else {
      assert forall id :: Places(DoCallBroken(s, m), id) == Places(s, id);
    }
  }

  lemma ServerReadConserved(s: State)
    requires Conserved(s) && s.requests != [] && s.requests[0].id !in s.server.jobs
    ensures Conserved(DoServerRead(s))
  {
    assert RequestIds(s.requests)[1..] == RequestIds(s.requests[1..]);
    forall id: nat ensures Places(DoServerRead(s), id) == One(id in s.sent) {
      assert Places(s, id) == One(id in s.sent);
      HeadCount(RequestIds(s.requests), id);
    }
  }

  lemma FinishConserved(s: State, x: nat, outcome: Outcome)
    requires Conserved(s) && x in s.server.jobs && x !in s.server.lost
    ensures Conserved(DoFinish(s, x, outcome))
  {
    assert ReplyIds(s.replies + [Reply(x, outcome)]) == ReplyIds(s.replies) + [x];
    forall id: nat ensures Places(DoFinish(s, x, outcome), id) == One(id in s.sent) {
      assert Places(s, id) == One(id in s.sent);
      AppendCount(ReplyIds(s.replies), x, id);
    }
  }

  lemma ClientReadConserved(s: State)
    requires Conserved(s) && s.replies != []
    requires s.replies[0].id in s.client.queues && s.replies[0].id !in s.client.delivered
    ensures Conserved(DoClientRead(s))
  {
    assert ReplyIds(s.replies)[1..] == ReplyIds(s.replies[1..]);
    forall id: nat ensures Places(DoClientRead(s), id) == One(id in s.sent) {
      assert Places(s, id) == One(id in s.sent);
      HeadCount(ReplyIds(s.replies), id);
    }
  }

  lemma ReturnConserved(s: State, x: nat)
    requires Conserved(s) && x in s.client.delivered && x !in s.client.returned
    ensures Conserved(DoReturn(s, x))
  {
    forall id: nat ensures Places(DoReturn(s, x), id) == One(id in s.sent) {
      assert Places(s, id) == One(id in s.sent);
    }
  }

  // ----- every step keeps the invariant

  lemma CallKeeps(s: State, m: Message)
    requires Inv(s)
    ensures Inv(DoCall(s, m)) && Inv(DoCallBroken(s, m))
  {
    InOnePlace(s, s.client.counter + 1);
    CallConserved(s, m);
    CallBrokenConserved(s, m);
    CallBooks(s, m);
    CallTraces(s, m);
  }

  lemma CallBooks(s: State, m: Message)
    requires Books(s) && (s.client.counter + 1 !in s.client.delivered) && (s.client.counter + 1 !in s.client.returned)
    ensures Books(DoCall(s, m)) && Books(DoCallBroken(s, m))
  {
  }

  lemma CallTraces(s: State, m: Message)
    requires Traces(s) && s.client.counter + 1 !in s.sent && s.client.counter + 1 !in s.answered
    ensures Traces(DoCall(s, m)) && Traces(DoCallBroken(s, m))
  {
  }

  lemma ServerReadKeeps(s: State)
    requires Inv(s) && s.requests != []
    ensures Inv(DoServerRead(s))
  {
    var r := s.requests[0];
    assert r in s.requests && RequestIds(s.requests)[0] == r.id;
    InOnePlace(s, r.id);
    ServerReadConserved(s);
    ServerReadTraces(s);
  }

  lemma ServerReadTraces(s: State)
    requires Traces(s) && s.requests != []
    ensures Traces(DoServerRead(s))
  {
    assert s.requests[0] in s.requests;
  }

  lemma FinishKeeps(s: State, id: nat, outcome: Outcome)
    requires Inv(s) && id in s.server.jobs && s.server.handling == Some(id)
    ensures id !in s.answered && Inv(DoFinish(s, id, outcome))
  {
    InOnePlace(s, id);
    FinishConserved(s, id, outcome);
    forall i | 0 <= i < |s.requests| ensures s.requests[i].id != id {
      assert RequestIds(s.requests)[i] == s.requests[i].id;
    }
    FinishTraces(s, id, outcome);
  }

  lemma FinishTraces(s: State, id: nat, outcome: Outcome)
    requires Traces(s) && id in s.server.jobs
    requires forall i :: 0 <= i < |s.requests| ==> s.requests[i].id != id
    ensures Traces(DoFinish(s, id, outcome))
  {
  }

  lemma ClientReadKeeps(s: State)
    requires Inv(s) && s.replies != []
    ensures s.replies[0].id in s.client.queues && Inv(DoClientRead(s))
  {
    var r := s.replies[0];
    assert r in s.replies && ReplyIds(s.replies)[0] == r.id;
    InOnePlace(s, r.id);
    ClientReadConserved(s);
  }

  lemma ReturnKeeps(s: State, id: nat)
    requires Inv(s) && id in s.client.delivered
    ensures Inv(DoReturn(s, id))
  {
    InOnePlace(s, id);
    ReturnConserved(s, id);
  }

  lemma StepKeeps(s: State, step: Step)
    requires Inv(s) && Enabled(s, step)
    ensures Inv(Do(s, step))
  {
    match step
    case Call(m) => CallKeeps(s, m);
    case CallBroken(m) => CallKeeps(s, m);
    case ServerRead => ServerReadKeeps(s);
    case Enter(id) => assert forall x :: Places(Do(s, step), x) == Places(s, x);
    case Finish(id, outcome) => FinishKeeps(s, id, outcome);
    case ClientGone => assert forall x :: Places(Do(s, step), x) == Places(s, x);
    case ClientRead => ClientReadKeeps(s);
    case Return(id) => ReturnKeeps(s, id);
  }

  lemma {:induction false} RunInv(steps: seq<Step>)
    ensures Inv(Run(steps))
  {
    if steps != [] {
      var before, last := steps[..|steps| - 1], steps[|steps| - 1];
      RunInv(before);
      if Enabled(Run(before), last) { StepKeeps(Run(before), last); }
    }
  }

  // ----- what callers get

  /** In every interleaving, a request that was given an id is in exactly one place: a pipe, a
      job, its queue, back at its caller, or lost; and nothing else is anywhere. */
  lemma ExactlyOnePlace(steps: seq<Step>, id: nat)
    ensures Places(Run(steps), id) == if id in Run(steps).sent then 1 else 0
  {
    RunInv(steps);
  }

  /** A call that came back has the outcome its own request was answered with, and the handler
      is given what the call sent. */
  lemma ReturnsOwnAnswer(steps: seq<Step>, id: nat)
    ensures var s := Run(steps);
            && (id in s.client.returned ==> id in s.answered && s.client.returned[id] == s.answered[id])
            && (id in s.server.jobs ==> id in s.sent && s.server.jobs[id] == s.sent[id])
  {
    RunInv(steps);
  }

  /** A request is answered at most once: no job finishes for a request already answered. */
  lemma AnsweredOnce(steps: seq<Step>, id: nat, outcome: Outcome)
    requires Enabled(Run(steps), Finish(id, outcome))
    ensures id !in Run(steps).answered
  {
    RunInv(steps);
  }

  /** The reply reader always finds the queue of the reply it reads: no reply is reported as
      "not a reply to a call". */
  lemma NoOrphanReply(steps: seq<Step>)
    ensures var s := Run(steps);
            s.client.orphans == 0 && forall r <- s.replies :: r.id in s.client.queues
  {
    RunInv(steps);
    var s := Run(steps);
    forall i | 0 <= i < |s.replies| ensures s.replies[i].id in s.client.queues {
      assert ReplyIds(s.replies)[i] == s.replies[i].id;
      InOnePlace(s, s.replies[i].id);
    }
  }

  /** Answers are final: no later step changes what a request was answered with or what a call
      came back with. */
  lemma AnswersAreFinal(s: State, step: Step, id: nat)
    requires Inv(s) && Enabled(s, step)
    ensures id in s.answered ==> id in Do(s, step).answered && Do(s, step).answered[id] == s.answered[id]
    ensures id in s.client.returned ==>
            id in Do(s, step).client.returned && Do(s, step).client.returned[id] == s.client.returned[id]
  {
    match step
    case Finish(i, outcome) => FinishIsFinal(s, i, outcome, id);
    case Return(i) => ReturnIsFinal(s, i, id);
    case ClientRead =>
    case ServerRead =>
    case Call(_) =>
    case CallBroken(_) =>
    case Enter(_) =>
    case ClientGone =>
  }

  lemma FinishIsFinal(s: State, i: nat, outcome: Outcome, id: nat)
    requires Inv(s) && i in s.server.jobs
    ensures id in s.answered ==> DoFinish(s, i, outcome).answered[id] == s.answered[id]
  {
  }

  lemma ReturnIsFinal(s: State, i: nat, id: nat)
    requires Inv(s) && i in s.client.delivered
    ensures id in s.client.returned ==> DoReturn(s, i).client.returned[id] == s.client.returned[id]
  {
    InOnePlace(s, i);
  }

  // ----- a waiting call can come back

  predicate Waiting(s: State, id: nat) { id in s.sent && id !in s.client.returned && id !in s.server.lost }

  /** How far a request is from its caller: in the request pipe, in a job, in the reply pipe, in its
      queue. */
  function Stage(s: State, id: nat): nat {
    if id in RequestIds(s.requests) then 4
    else if id in s.server.jobs then 3
    else if id in ReplyIds(s.replies) then 2
    else if id in s.client.delivered then 1
    else 0
  }

  /** What is before it there. */
  function Ahead(s: State, id: nat): nat {
    match Stage(s, id)
    case 4 => |s.requests|
    case 3 => if s.server.handling == Some(id) then 0 else if s.server.handling.None? then 1 else 2
    case 2 => |s.replies|
    case _ => 0
  }

  /** The step that serves the request: reading its pipe, letting the job in the handler finish,
      entering the handler, or returning. */
  function NextFor(s: State, id: nat): Step {
    match Stage(s, id)
    case 4 => ServerRead
    case 3 => if s.server.handling.Some? then Finish(s.server.handling.value, Result("")) else Enter(id)
    case 2 => ClientRead
    case _ => Return(id)
  }

  ghost predicate Closer(s: State, t: State, id: nat) {
    && t.server.clientKnown == s.server.clientKnown
    && id in t.sent && (s.server.clientKnown ==> id !in t.server.lost)
    && (Waiting(t, id) ==> Stage(t, id) < Stage(s, id) || (Stage(t, id) == Stage(s, id) && Ahead(t, id) < Ahead(s, id)))
  }

  lemma HeadOrTail(ids: seq<nat>, id: nat)
    requires id in ids
    ensures id == ids[0] || id in ids[1..]
  {
  }

  lemma RequestCloser(s: State, id: nat)
    requires Inv(s) && Waiting(s, id) && Stage(s, id) == 4
    ensures Enabled(s, ServerRead) && Closer(s, DoServerRead(s), id)
  {
    var t := DoServerRead(s);
    HeadOrTail(RequestIds(s.requests), id);
    assert RequestIds(t.requests) == RequestIds(s.requests)[1..];
  }

  lemma JobCloser(s: State, id: nat)
    requires Inv(s) && Waiting(s, id) && Stage(s, id) == 3
    ensures Enabled(s, NextFor(s, id)) && Closer(s, Do(s, NextFor(s, id)), id)
  {
    var t := Do(s, NextFor(s, id));
    assert t.requests == s.requests;
    if s.server.handling.Some? && s.server.clientKnown {
      assert t.replies == s.replies + [Reply(s.server.handling.value, Result(""))];
      assert ReplyIds(t.replies)[|s.replies|] == s.server.handling.value;
    }
  }

  lemma ReplyCloser(s: State, id: nat)
    requires Inv(s) && Waiting(s, id) && Stage(s, id) == 2
    ensures Enabled(s, ClientRead) && Closer(s, DoClientRead(s), id)
  {
    var t := DoClientRead(s);
    HeadOrTail(ReplyIds(s.replies), id);
    assert ReplyIds(t.replies) == ReplyIds(s.replies)[1..];
    InOnePlace(s, id);
  }

  lemma NextIsCloser(s: State, id: nat)
    requires Inv(s) && Waiting(s, id)
    ensures Enabled(s, NextFor(s, id)) && Closer(s, Do(s, NextFor(s, id)), id)
  {
    assert Places(s, id) == 1;
    if Stage(s, id) == 4 { RequestCloser(s, id); }
    else if Stage(s, id) == 3 { JobCloser(s, id); }
    else if Stage(s, id) == 2 { ReplyCloser(s, id); }
    else { assert Stage(s, id) == 1; }
  }

  /** Each of the steps can happen when its turn comes. */
  predicate AllPossible(s: State, more: seq<Step>)
    decreases more
  {
    more == [] || (Enabled(s, more[0]) && AllPossible(Do(s, more[0]), more[1..]))
  }

  function After(s: State, more: seq<Step>): State
    requires AllPossible(s, more)
    decreases more
  {
    if more == [] then s else After(Do(s, more[0]), more[1..])
  }

  lemma {:induction false} AfterIsRun(steps: seq<Step>, more: seq<Step>)
    requires AllPossible(Run(steps), more)
    ensures Run(steps + more) == After(Run(steps), more)
    decreases more
  {
    if more == [] {
      assert steps + more == steps;
    } else {
      var on := steps + [more[0]];
      assert on[..|steps|] == steps;
      AfterIsRun(on, more[1..]);
      assert on + more[1..] == steps + more;
    }
  }

  lemma {:induction false} WaitingReturns(s: State, id: nat) returns (more: seq<Step>)
    requires Inv(s) && id in s.sent
    ensures AllPossible(s, more)
    ensures id in After(s, more).client.returned || id in After(s, more).server.lost
    ensures s.server.clientKnown && id !in s.server.lost ==> id in After(s, more).client.returned
    decreases Stage(s, id), Ahead(s, id)
  {
    more := [];
    if Waiting(s, id) {
      var next := NextFor(s, id);
      NextIsCloser(s, id);
      StepKeeps(s, next);
      var rest := [];
      if Waiting(Do(s, next), id) { rest := WaitingReturns(Do(s, next), id); }
      more := [next] + rest;
      assert more[1..] == rest;
    }
  }

  /** Every waiting call can come back: as long as handlers finish, there are steps, each possible in
      its turn, that bring it its answer (or lose it with a client process that is gone). */
  lemma WaitingCallCanReturn(steps: seq<Step>, id: nat) returns (more: seq<Step>)
    requires id in Run(steps).sent
    ensures AllPossible(Run(steps), more)
    ensures id in Run(steps + more).client.returned || id in Run(steps + more).server.lost
    ensures Run(steps).server.clientKnown && id !in Run(steps).server.lost ==> id in Run(steps + more).client.returned
  {
    RunInv(steps);
    more := WaitingReturns(Run(steps), id);
    AfterIsRun(steps, more);
  }
}

/** The two ends as objects that update their fields; each method is one step of the protocol, at
    any point of any run. */
module SimpleCommObjects {
  import opened Wrappers
  import opened SimpleComm

  lemma OneMore(steps: seq<Step>, step: Step)
    ensures Run(steps + [step]) == if Enabled(Run(steps), step) then Do(Run(steps), step) else Run(steps)
  {
    assert (steps + [step])[..|steps|] == steps;
  }

  class ClientObject {
    var requestsCounter: nat
    var requestsQueues: set<nat>
    var delivered: map<nat, Outcome>
    var returned: map<nat, Outcome>
    var systemServiceDied: bool
    var unknownReplies: nat

    function View(): Client
      reads this
    {
      Client(requestsCounter, requestsQueues, delivered, returned, systemServiceDied, unknownReplies)
    }

    constructor ()
      ensures View() == Run([]).client
    {
      requestsCounter, requestsQueues, delivered, returned := 0, {}, map[], map[];
      systemServiceDied, unknownReplies := false, 0;
    }

    /** Start of a call, up to the request handed to the pipe: it has a number no request had before.
        Nothing is sent once the server is known to have died, and a message that already has a number
        is refused. */
    method CallServer(m: Message, ghost steps: seq<Step>) returns (r: Option<Request>)
      requires View() == Run(steps).client
      modifies this
      ensures View() == Run(steps + [Call(m)]).client
      ensures r.None? <==> old(systemServiceDied) || m.reqId.Some?
      ensures Run(steps + [Call(m)]).requests == Run(steps).requests + if r.Some? then [r.value] else []
      ensures r.Some? ==>
              && r.value.data == m.data && r.value.id !in Run(steps).sent
              && forall id <- Run(steps).sent :: id < r.value.id
    {
      OneMore(steps, Call(m));
      RunInv(steps);
      if systemServiceDied { return None; }
      requestsCounter := requestsCounter + 1;
      var id := requestsCounter;
      if m.reqId.Some? { return None; }
      requestsQueues := requestsQueues + {id};
      return Some(Request(id, m.data));
    }

    /** The same call when the pipe turns out to be broken: it is counted and has a queue, and the client
        knows from then on that the server died. */
    method CallServerBroken(m: Message, ghost steps: seq<Step>) returns (r: Option<Request>)
      requires View() == Run(steps).client
      modifies this
      ensures View() == Run(steps + [CallBroken(m)]).client
      ensures r.None? <==> old(systemServiceDied) || m.reqId.Some?
      ensures r.Some? ==> systemServiceDied && r.value.id in Run(steps + [CallBroken(m)]).server.lost
    {
      OneMore(steps, CallBroken(m));
      OneMore(steps, Call(m));
      r := CallServer(m, steps);
      if r.Some? {
        assert Run(steps + [Call(m)]).requests[|Run(steps).requests|] == r.value;
        systemServiceDied := true;
      }
    }

    /** The reader task: the reply at the head of the pipe always finds the queue of its call; the
        outcome is the one its request was answered with. */
    method OnReply(r: Reply, ghost steps: seq<Step>) returns (known: bool)
      requires View() == Run(steps).client && Run(steps).replies != [] && r == Run(steps).replies[0]
      modifies this
      ensures View() == Run(steps + [ClientRead]).client
      ensures known && r.id in delivered && r.id in Run(steps).answered && delivered[r.id] == Run(steps).answered[r.id]
      ensures forall id :: id != r.id ==>
              (id in delivered <==> id in old(delivered)) && (id in requestsQueues <==> id in old(requestsQueues))
    {
      OneMore(steps, ClientRead);
      NoOrphanReply(steps);
      RunInv(steps);
      assert r in Run(steps).replies;
      known := Deliver(r);
    }

    /** The reply goes to the queue of its number; without one it is reported. */
    method Deliver(r: Reply) returns (known: bool)
      modifies this
      ensures View() == HandleReply(old(View()), r)
      ensures known <==> r.id in old(requestsQueues)
    {
      known := r.id in requestsQueues;
      if known {
        delivered := delivered[r.id := r.outcome];
        requestsQueues := requestsQueues - {r.id};
      } else {
        unknownReplies := unknownReplies + 1;
      }
    }

    /** End of a call: what the caller gets is what the server answered its own request with, and it
        is given back once. */
    method FinishCall(id: nat, ghost steps: seq<Step>) returns (outcome: Outcome)
      requires View() == Run(steps).client && id in delivered
      modifies this
      ensures View() == Run(steps + [Return(id)]).client
      ensures id in Run(steps).answered && outcome == Run(steps).answered[id]
      ensures id !in old(returned) && id !in delivered
    {
      OneMore(steps, Return(id));
      RunInv(steps);
      InOnePlace(Run(steps), id);
      outcome := delivered[id];
      returned := returned[id := outcome];
      delivered := delivered - {id};
    }
  }

  class ServerObject {
    var jobs: map<nat, string>
    var handling: Option<nat>
    var clientKnown: bool

    /** The object is the server of the model; which requests are lost is not in its memory. */
    predicate Matches(v: Server)
      reads this
    {
      jobs == v.jobs && handling == v.handling && clientKnown == v.clientKnown
    }

    constructor ()
      ensures Matches(Run([]).server)
    {
      jobs, handling, clientKnown := map[], None, true;
    }

    /** A request read from the pipe gets a job of its own, with the data its call sent: it had none
        and was not answered. */
    method StartJob(r: Request, ghost steps: seq<Step>)
      requires Matches(Run(steps).server) && Run(steps).requests != [] && r == Run(steps).requests[0]
      modifies this
      ensures Matches(Run(steps + [ServerRead]).server)
      ensures r.id !in old(jobs) && r.id !in Run(steps).answered
      ensures r.id in Run(steps).sent && r.id in jobs && jobs[r.id] == Run(steps).sent[r.id]
    {
      OneMore(steps, ServerRead);
      RunInv(steps);
      assert r in Run(steps).requests;
      assert RequestIds(Run(steps).requests)[0] == r.id;
      InOnePlace(Run(steps), r.id);
      jobs := jobs[r.id := r.data];
    }

    /** A job takes the handler lock if it is free; the handler is given what the call sent. */
    method EnterHandler(id: nat, ghost steps: seq<Step>) returns (data: Option<string>)
      requires Matches(Run(steps).server)
      modifies this
      ensures Matches(Run(steps + [Enter(id)]).server)
      ensures data.Some? <==> id in old(jobs) && old(handling).None?
      ensures data.Some? ==> id in Run(steps).sent && data.value == Run(steps).sent[id]
    {
      OneMore(steps, Enter(id));
      RunInv(steps);
      if id !in jobs || handling.Some? { return None; }
      handling := Some(id);
      return Some(jobs[id]);
    }

    /** The end of a job: the first answer to its request. The reply carries the number of the
        request, and is written only if the client process is still there. */
    method FinishJob(id: nat, outcome: Outcome, ghost steps: seq<Step>) returns (reply: Option<Reply>)
      requires Matches(Run(steps).server) && handling == Some(id)
      modifies this
      ensures Matches(Run(steps + [Finish(id, outcome)]).server)
      ensures id !in Run(steps).answered && id !in jobs
      ensures Run(steps + [Finish(id, outcome)]).replies ==
              Run(steps).replies + if reply.Some? then [reply.value] else []
      ensures reply.Some? <==> old(clientKnown)
      ensures reply.Some? ==> reply.value == Reply(id, outcome)
      ensures reply.None? <==> id in Run(steps + [Finish(id, outcome)]).server.lost
    {
      RunInv(steps);
      OneMore(steps, Finish(id, outcome));
      InOnePlace(Run(steps), id);
      jobs := jobs - {id};
      handling := None;
      return if clientKnown then Some(Reply(id, outcome)) else None;
    }

    /** The client process ended: no reply is written from then on. */
    method ForgetClient(ghost steps: seq<Step>)
      requires Matches(Run(steps).server)
      modifies this
      ensures Matches(Run(steps + [ClientGone]).server)
      ensures !clientKnown && jobs == old(jobs) && handling == old(handling)
    {
      OneMore(steps, ClientGone);
      clientKnown := false;
    }
  }

  /** The two objects and the two pipes between them are the run of the model. */
  ghost predicate InStep(
    client: ClientObject, server: ServerObject, requests: seq<Request>, replies: seq<Reply>, s: State)
    reads client, server
  {
    client.View() == s.client && server.Matches(s.server) && requests == s.requests && replies == s.replies
  }

  method PerformCall(
    client: ClientObject, server: ServerObject, requests: seq<Request>, replies: seq<Reply>, step: Step,
    ghost steps: seq<Step>)
    returns (requests': seq<Request>)
    requires InStep(client, server, requests, replies, Run(steps)) && (step.Call? || step.CallBroken?)
    modifies client
    ensures InStep(client, server, requests', replies, Run(steps + [step]))
  {
    OneMore(steps, step);
    requests' := requests;
    if step.Call? {
      var r := client.CallServer(step.m, steps);
      if r.Some? { requests' := requests + [r.value]; }
    } else {
      var _ := client.CallServerBroken(step.m, steps);
    }
  }

  method PerformJob(
    client: ClientObject, server: ServerObject, requests: seq<Request>, replies: seq<Reply>, step: Step,
    ghost steps: seq<Step>)
    returns (replies': seq<Reply>)
    requires InStep(client, server, requests, replies, Run(steps)) && (step.Enter? || step.Finish? || step.ClientGone?)
    modifies server
    ensures InStep(client, server, requests, replies', Run(steps + [step]))
  {
    OneMore(steps, step);
    RunInv(steps);
    replies' := replies;
    match step {
      case Enter(id) => var _ := server.EnterHandler(id, steps);
      case Finish(id, outcome) =>
        if server.handling == Some(id) {
          var reply := server.FinishJob(id, outcome, steps);
          if reply.Some? { replies' := replies + [reply.value]; }
        }
      case ClientGone => server.ForgetClient(steps);
    }
  }

  method PerformRead(
    client: ClientObject, server: ServerObject, requests: seq<Request>, replies: seq<Reply>, step: Step,
    ghost steps: seq<Step>)
    returns (requests': seq<Request>, replies': seq<Reply>)
    requires InStep(client, server, requests, replies, Run(steps)) &&
             (step.ServerRead? || step.ClientRead? || step.Return?)
    modifies client, server
    ensures InStep(client, server, requests', replies', Run(steps + [step]))
  {
    OneMore(steps, step);
    requests', replies' := requests, replies;
    if step.ServerRead? && requests != [] {
      server.StartJob(requests[0], steps);
      requests' := requests[1..];
    } else if step.ClientRead? && replies != [] {
      var _ := client.OnReply(replies[0], steps);
      replies' := replies[1..];
    } else if step.Return? && step.id in client.delivered {
      var _ := client.FinishCall(step.id, steps);
    }
  }

  /** Any list of calls of the methods, in any order, takes two fresh objects through the run of the
      model, pipes included: whatever holds of every run holds of the objects. */
  method Perform(client: ClientObject, server: ServerObject, steps: seq<Step>)
    returns (requests: seq<Request>, replies: seq<Reply>)
    requires client.View() == Run([]).client && server.Matches(Run([]).server)
    modifies client, server
    ensures InStep(client, server, requests, replies, Run(steps))
  {
    requests, replies := [], [];
    for i := 0 to |steps|
      invariant InStep(client, server, requests, replies, Run(steps[..i]))
    {
      assert steps[..i + 1] == steps[..i] + [steps[i]];
      match steps[i] {
        case Call(_) | CallBroken(_) =>
          requests := PerformCall(client, server, requests, replies, steps[i], steps[..i]);
        case Enter(_) | Finish(_, _) | ClientGone =>
          replies := PerformJob(client, server, requests, replies, steps[i], steps[..i]);
        case _ => requests, replies := PerformRead(client, server, requests, replies, steps[i], steps[..i]);
      }
    }
    assert steps[..|steps|] == steps;
  }
}
