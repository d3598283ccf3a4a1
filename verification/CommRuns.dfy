/** What whole runs of the request and reply protocol say (`padsi/simple_comm.py`): nothing is written to
    a client that is gone, requests are read in the order of their calls, and every call is counted. */
module CommRuns {
  import opened Wrappers
  import opened SimpleComm

  lemma OneMore(steps: seq<Step>, step: Step)
    ensures Run(steps + [step]) == if Enabled(Run(steps), step) then Do(Run(steps), step) else Run(steps)
  {
    assert (steps + [step])[..|steps|] == steps;
  }

  // ----- after the client process has ended

  /** What is left of a pipe that is only read. */
  ghost predicate IsRest(rest: seq<Reply>, pipe: seq<Reply>) { exists k :: 0 <= k <= |pipe| && rest == pipe[k..] }

  lemma RestOfRest(a: seq<Reply>, b: seq<Reply>, c: seq<Reply>)
    requires IsRest(a, b) && IsRest(b, c)
    ensures IsRest(a, c)
  {
    var j :| 0 <= j <= |b| && a == b[j..];
    var k :| 0 <= k <= |c| && b == c[k..];
    DropTwice(c, k, j);
  }

  lemma DropTwice(c: seq<Reply>, k: nat, j: nat)
    requires k + j <= |c|
    ensures c[k..][j..] == c[k + j..]
  {
  }

  lemma GoneStep(s: State, step: Step)
    requires !s.server.clientKnown && Enabled(s, step)
    ensures !Do(s, step).server.clientKnown && IsRest(Do(s, step).replies, s.replies)
  {
    assert s.replies[0..] == s.replies;
    if step.ClientRead? { assert Do(s, step).replies == s.replies[1..]; }
  }

  lemma {:induction false} GoneStays(steps: seq<Step>, more: seq<Step>)
    requires !Run(steps).server.clientKnown
    ensures !Run(steps + more).server.clientKnown && IsRest(Run(steps + more).replies, Run(steps).replies)
    decreases |more|
  {
    var s := Run(steps);
    assert s.replies[0..] == s.replies;
    if more == [] {
      assert steps + more == steps;
    } else {
      var on := steps + [more[0]];
      OneMore(steps, more[0]);
      if Enabled(s, more[0]) { GoneStep(s, more[0]); }
      GoneStays(on, more[1..]);
      assert on + more[1..] == steps + more;
      RestOfRest(Run(steps + more).replies, Run(on).replies, s.replies);
    }
  }

  /** Once the client process has ended, nothing is written to its pipe any more: whatever happens, the
      pipe holds what is left of the replies written before; and a job that finishes loses its request. */
  lemma NothingWrittenToGoneClient(steps: seq<Step>, more: seq<Step>, id: nat, outcome: Outcome)
    ensures exists k :: 0 <= k <= |Run(steps).replies| &&
                        Run(steps + [ClientGone] + more).replies == Run(steps).replies[k..]
    ensures Enabled(Run(steps + [ClientGone] + more), Finish(id, outcome)) ==>
            id in Run(steps + [ClientGone] + more + [Finish(id, outcome)]).server.lost
  {
    OneMore(steps, ClientGone);
    GoneStays(steps + [ClientGone], more);
    OneMore(steps + [ClientGone] + more, Finish(id, outcome));
    assert IsRest(Run(steps + [ClientGone] + more).replies, Run(steps).replies);
  }

  /** And before that every job that finishes writes its reply. */
  lemma {:induction false} KnownUntilGone(steps: seq<Step>)
    ensures Run(steps).server.clientKnown <==> ClientGone !in steps
    decreases steps
  {
    if steps != [] {
      KnownUntilGone(steps[..|steps| - 1]);
      assert steps == steps[..|steps| - 1] + [steps[|steps| - 1]];
    }
  }

  lemma ReplyWrittenIff(steps: seq<Step>, id: nat, outcome: Outcome)
    requires Enabled(Run(steps), Finish(id, outcome))
    ensures Run(steps + [Finish(id, outcome)]).replies ==
            Run(steps).replies + if ClientGone in steps then [] else [Reply(id, outcome)]
  {
    OneMore(steps, Finish(id, outcome));
    KnownUntilGone(steps);
  }

  // ----- numbers and order

  /** How many calls were made before the server was known to have died. */
  function Calls(steps: seq<Step>): nat {
    if steps == [] then 0
    else
      var before, last := steps[..|steps| - 1], steps[|steps| - 1];
      Calls(before) + if (last.Call? || last.CallBroken?) && !Run(before).client.serverDied then 1 else 0
  }

  /** The last number is the number of calls, refused ones included. */
  lemma {:induction false} NumbersCountCalls(steps: seq<Step>)
    ensures Run(steps).client.counter == Calls(steps)
    decreases steps
  {
    if steps != [] { NumbersCountCalls(steps[..|steps| - 1]); }
  }

  predicate WasRead(s: State, id: nat) { id in s.server.jobs || id in s.answered }

  /** The pipe holds requests in the order of their numbers, and what was read before is older. */
  ghost predicate InOrder(s: State) {
    && (forall i, j :: 0 <= i < j < |s.requests| ==> s.requests[i].id < s.requests[j].id)
    && (forall i :: 0 <= i < |s.requests| ==> s.requests[i].id <= s.client.counter)
    && (forall i, id: nat :: 0 <= i < |s.requests| && WasRead(s, id) ==> id < s.requests[i].id)
    && (forall id: nat :: WasRead(s, id) ==> id <= s.client.counter)
  }

  lemma CallOrder(s: State, m: Message)
    requires InOrder(s)
    ensures InOrder(DoCall(s, m))
  {
    var t, n := DoCall(s, m), |s.requests|;
    assert forall id: nat :: WasRead(t, id) <==> WasRead(s, id);
    forall i | 0 <= i < |t.requests|
      ensures if i < n then t.requests[i] == s.requests[i] else i == n && t.requests[i].id == t.client.counter
    {
    }
  }

  lemma CallBrokenOrder(s: State, m: Message)
    requires InOrder(s)
    ensures InOrder(DoCallBroken(s, m))
  {
    var t := DoCallBroken(s, m);
    assert forall id: nat :: WasRead(t, id) <==> WasRead(s, id);
    assert t.requests == s.requests;
  }

  lemma ReadOrder(s: State)
    requires InOrder(s) && s.requests != []
    ensures InOrder(DoServerRead(s))
  {
    var t := DoServerRead(s);
    assert forall id: nat :: WasRead(t, id) <==> WasRead(s, id) || id == s.requests[0].id;
    assert forall i :: 0 <= i < |t.requests| ==> t.requests[i] == s.requests[i + 1];
  }

  lemma FinishOrder(s: State, x: nat, outcome: Outcome)
    requires InOrder(s) && x in s.server.jobs
    ensures InOrder(DoFinish(s, x, outcome))
  {
    assert forall id: nat :: WasRead(DoFinish(s, x, outcome), id) <==> WasRead(s, id);
  }

  lemma OrderStep(s: State, step: Step)
    requires InOrder(s) && Enabled(s, step)
    ensures InOrder(Do(s, step))
  {
    match step
    case Call(m) => CallOrder(s, m);
    case CallBroken(m) => CallBrokenOrder(s, m);
    case ServerRead => ReadOrder(s);
    case Finish(x, outcome) => FinishOrder(s, x, outcome);
    case _ => assert forall id: nat :: WasRead(Do(s, step), id) <==> WasRead(s, id);
  }

  lemma {:induction false} OrderOverRuns(steps: seq<Step>)
    ensures InOrder(Run(steps))
    decreases steps
  {
    if steps != [] {
      var before, last := steps[..|steps| - 1], steps[|steps| - 1];
      OrderOverRuns(before);
      if Enabled(Run(before), last) { OrderStep(Run(before), last); }
    }
  }

  /** First called, first read: the request read next has a smaller number than all others in the pipe,
      and a greater one than every request read before. */
  lemma ReadInOrder(steps: seq<Step>, id: nat)
    requires Run(steps).requests != []
    ensures var s := Run(steps);
            && (forall r <- s.requests :: s.requests[0].id <= r.id)
            && (WasRead(s, id) ==> id < s.requests[0].id)
  {
    OrderOverRuns(steps);
  }
}
