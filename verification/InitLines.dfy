/** What stays of a request to init over a whole run (`crates/init`): its restart flag, whether it is
    required, its capabilities, and what its exit does. */
module InitLines {
  import opened Wrappers
  import opened RestartLimiter
  import opened InitTable

  /** How a process was asked for. */
  predicate AsAsked(spec: Spec, line: nat, req: Request) {
    spec.line == line ==> spec.restart == req.restart && spec.required == req.required && spec.caps == req.caps
  }

  ghost predicate LineKept(s: State, line: nat, req: Request) {
    && line < s.next
    && (forall p :: p in s.table ==> AsAsked(s.table[p].spec, line, req))
    && (forall p :: p in s.pending ==> AsAsked(s.pending[p].proc.spec, line, req))
    && (forall p :: p in s.restarts ==> AsAsked(s.restarts[p], line, req))
  }

  /** A line that is not to be restarted waits for no restart and keeps its only start time. */
  ghost predicate OneStart(s: State, line: nat, now: Time) {
    && line in s.past.times && s.past.times[line] == [now]
    && forall p :: p in s.restarts ==> s.restarts[p].line != line
  }

  lemma LineStep(s: State, allowed: set<Cap>, step: Step, line: nat, req: Request)
    requires LineKept(s, line, req) && Enabled(s, allowed, step)
    ensures LineKept(Do(s, allowed, step), line, req)
  {
    match step
    case Post(_, _, _) =>
    case PostInsert =>
    case Exit(_, _) =>
    case Wait(_) =>
    case Reap => ReapLine(s, line, req);
    case Spawn(_, _, _) =>
    case SpawnFails(_) =>
    case PostStray(_, _, _) =>
    case SpawnStray(_, _, _) =>
    case Insert(_) =>
    case Get(_) =>
  }

  lemma ReapLine(s: State, line: nat, req: Request)
    requires LineKept(s, line, req)
    requires s.reaper.Some? && s.reaper.value in s.children && s.children[s.reaper.value].phase.Waited?
    ensures LineKept(DoReap(s), line, req)
  {
  }

  lemma OneStartStep(s: State, allowed: set<Cap>, step: Step, line: nat, req: Request, now: Time)
    requires LineKept(s, line, req) && !req.restart && OneStart(s, line, now) && Enabled(s, allowed, step)
    ensures OneStart(Do(s, allowed, step), line, now)
  {
    match step
    case Post(_, _, _) =>
    case PostInsert =>
    case Exit(_, _) =>
    case Wait(_) =>
    case Reap => ReapOneStart(s, line, req, now);
    case Spawn(_, _, _) =>
    case SpawnFails(_) =>
    case PostStray(_, _, _) =>
    case SpawnStray(_, _, _) =>
    case Insert(_) =>
    case Get(_) =>
  }

  lemma ReapOneStart(s: State, line: nat, req: Request, now: Time)
    requires LineKept(s, line, req) && !req.restart && OneStart(s, line, now)
    requires s.reaper.Some? && s.reaper.value in s.children && s.children[s.reaper.value].phase.Waited?
    ensures OneStart(DoReap(s), line, now)
  {
    var pid := s.reaper.value;
    if pid in s.table { assert AsAsked(s.table[pid].spec, line, req); }
  }

  lemma OneMore(allowed: set<Cap>, steps: seq<Step>, step: Step)
    ensures var s := Run(allowed, steps);
            Run(allowed, steps + [step]) == if Enabled(s, allowed, step) then Do(s, allowed, step) else s
  {
    assert (steps + [step])[..|steps|] == steps;
  }

  lemma {:induction false} LineOverRuns(allowed: set<Cap>, steps: seq<Step>, more: seq<Step>, line: nat, req: Request,
      now: Time)
    requires LineKept(Run(allowed, steps), line, req)
    requires !req.restart ==> OneStart(Run(allowed, steps), line, now)
    ensures LineKept(Run(allowed, steps + more), line, req)
    ensures !req.restart ==> OneStart(Run(allowed, steps + more), line, now)
    decreases |more|
  {
    if more == [] {
      assert steps + more == steps;
    } else {
      var s, on := Run(allowed, steps), steps + [more[0]];
      OneMore(allowed, steps, more[0]);
      if Enabled(s, allowed, more[0]) {
        LineStep(s, allowed, more[0], line, req);
        if !req.restart { OneStartStep(s, allowed, more[0], line, req, now); }
      }
      LineOverRuns(allowed, on, more[1..], line, req, now);
      assert on + more[1..] == steps + more;
    }
  }

  // ----- a new line is new

  ghost predicate LinesBelow(s: State) {
    && (forall p :: p in s.table ==> s.table[p].spec.line < s.next)
    && (forall p :: p in s.pending ==> s.pending[p].proc.spec.line < s.next)
    && (forall p :: p in s.restarts ==> s.restarts[p].line < s.next)
  }

  lemma LinesBelowStep(s: State, allowed: set<Cap>, step: Step)
    requires LinesBelow(s) && Enabled(s, allowed, step)
    ensures LinesBelow(Do(s, allowed, step))
  {
    match step
    case Post(_, _, _) =>
    case PostInsert =>
    case Exit(_, _) =>
    case Wait(_) =>
    case Reap => ReapLinesBelow(s);
    case Spawn(_, _, _) =>
    case SpawnFails(_) =>
    case PostStray(_, _, _) =>
    case SpawnStray(_, _, _) =>
    case Insert(_) =>
    case Get(_) =>
  }

  lemma ReapLinesBelow(s: State)
    requires LinesBelow(s)
    requires s.reaper.Some? && s.reaper.value in s.children && s.children[s.reaper.value].phase.Waited?
    ensures LinesBelow(DoReap(s))
  {
  }

  lemma {:induction false} LinesBelowOverRuns(allowed: set<Cap>, steps: seq<Step>)
    ensures LinesBelow(Run(allowed, steps))
    decreases steps
  {
    if steps != [] {
      var before, last := steps[..|steps| - 1], steps[|steps| - 1];
      LinesBelowOverRuns(allowed, before);
      if Enabled(Run(allowed, before), allowed, last) { LinesBelowStep(Run(allowed, before), allowed, last); }
    }
  }

  lemma NewLine(s: State, req: Request, pid: Pid, now: Time)
    requires LinesBelow(s)
    ensures LineKept(DoPost(s, req, pid, now), s.next, req) && OneStart(DoPost(s, req, pid, now), s.next, now)
    ensures LineKept(DoPostStray(s, req, pid, now), s.next, req) && OneStart(DoPostStray(s, req, pid, now), s.next, now)
  {
  }

  /** From a request on, whatever happens: every record, start and restart of its line has the restart
      flag, the importance and the capabilities asked for; and if it was not to be restarted, its line
      has exactly one start time. */
  lemma AskedIsKept(allowed: set<Cap>, steps: seq<Step>, post: Step, more: seq<Step>)
    requires (post.Post? || post.PostStray?) && Enabled(Run(allowed, steps), allowed, post)
    ensures var line, s := Run(allowed, steps).next, Run(allowed, steps + [post] + more);
            && LineKept(s, line, post.req)
            && (!post.req.restart ==> line in s.past.times && s.past.times[line] == [post.now])
  {
    var s := Run(allowed, steps);
    LinesBelowOverRuns(allowed, steps);
    NewLine(s, post.req, post.pid, post.now);
    OneMore(allowed, steps, post);
    LineOverRuns(allowed, steps + [post], more, s.next, post.req, post.now);
  }

  // ----- required processes

  /** Some required process is recorded as ended. */
  ghost predicate RequiredEnded(s: State) {
    exists p :: p in s.table && s.table[p].spec.required && !s.table[p].state.Running?
  }

  lemma StopStep(s: State, allowed: set<Cap>, step: Step)
    requires Inv(s) && !s.stopped && !RequiredEnded(s) && Enabled(s, allowed, step)
    ensures Do(s, allowed, step).stopped <==> RequiredEnded(Do(s, allowed, step))
  {
    match step
    case Post(_, _, _) =>
    case PostInsert => assert PidOk(s, s.lock.value);
    case Exit(_, _) =>
    case Wait(_) =>
    case Reap => ReapStops(s);
    case Spawn(_, _, _) =>
    case SpawnFails(_) =>
    case PostStray(_, _, _) =>
    case SpawnStray(_, _, _) =>
    case Insert(pid) => assert PidOk(s, pid);
    case Get(_) =>
  }

  lemma ReapStops(s: State)
    requires Inv(s) && !s.stopped && !RequiredEnded(s)
    requires s.reaper.Some? && s.reaper.value in s.children && s.children[s.reaper.value].phase.Waited?
    ensures DoReap(s).stopped <==> RequiredEnded(DoReap(s))
  {
    var pid, t := s.reaper.value, DoReap(s);
    assert PidOk(s, pid);
    if pid in s.table && s.table[pid].spec.required {
      assert pid in t.table && t.table[pid].spec.required && !t.table[pid].state.Running?;
    }
  }

  /** Over every run, init has stopped if and only if a required process is recorded as ended. */
  lemma {:induction false} StoppedIff(allowed: set<Cap>, steps: seq<Step>)
    ensures Run(allowed, steps).stopped <==> RequiredEnded(Run(allowed, steps))
    decreases steps
  {
    if steps != [] {
      var before, last := steps[..|steps| - 1], steps[|steps| - 1];
      StoppedIff(allowed, before);
      RunInv(allowed, before);
      if Enabled(Run(allowed, before), allowed, last) { StopStep(Run(allowed, before), allowed, last); }
    }
  }

  // ----- restarts are asked for

  /** Seconds from one time to another, modulo 64 bits. */
  function Elapsed(from: int, to: int): int { (to - from) % 0x1_0000_0000_0000_0000 }

  /** Whether a recorded exit brings a restart: the process is to be restarted, and does not hold five
      start times of which the last is less than ten seconds after the first. */
  predicate RestartDue(r: Proc) {
    !r.spec.required && r.spec.restart &&
    !(|r.spec.events| == 5 && Elapsed(r.spec.events[0], r.spec.events[4]) < 10)
  }

  lemma MayRestartIff(r: Proc)
    ensures !r.spec.required && MayRestart(r.spec.restart, r.spec.events) <==> RestartDue(r)
  {
    if |r.spec.events| == 5 { WrapIsMod(r.spec.events[4], r.spec.events[0]); }
  }

  lemma WrapIsMod(a: Time, b: Time)
    ensures WrapSub(a, b) == Elapsed(b, a)
  {
  }

  /** At any point of any run, the reaped process gets a restart task if and only if it has a record and
      a restart is due; the record it is restarted from is its own. */
  lemma RestartTaskIff(allowed: set<Cap>, steps: seq<Step>)
    requires Enabled(Run(allowed, steps), allowed, Reap)
    ensures var s, t := Run(allowed, steps), Run(allowed, steps + [Reap]);
            var pid := s.reaper.value;
            && (pid in t.restarts <==> pid in s.table && RestartDue(s.table[pid]))
            && (pid in t.restarts ==> t.restarts[pid] == s.table[pid].spec)
            && forall q :: q != pid ==> (q in t.restarts <==> q in s.restarts)
  {
    var s := Run(allowed, steps);
    RunInv(allowed, steps);
    OneMore(allowed, steps, Reap);
    assert PidOk(s, s.reaper.value);
    if s.reaper.value in s.table { MayRestartIff(s.table[s.reaper.value]); }
  }
}
