/** The process manager of a bubble (`crates/init`): kernel children, the table behind one lock, the
    reaper, and restart tasks, as steps of one state machine. A step is a piece of code that runs
    under the lock or between two awaits. */
module InitTable {
  import opened Wrappers
  import opened RestartLimiter

  type Pid = int
  type Cap = string

  datatype ProcState = Running | Exited(code: int) | Killed(signal: int)

  /** How to start a process; `line` names the series of starts it belongs to. */
  datatype Spec = Spec(line: nat, required: bool, restart: bool, caps: set<Cap>, events: seq<Time>)

  /** A table record; `inc` numbers the start it is about, `viaPost` tells first starts from
      restarts. */
  datatype Proc = Proc(spec: Spec, inc: nat, state: ProcState, viaPost: bool)

  /** A child known to the kernel: alive, dead, or taken by the reaper and not yet handled. */
  datatype Child = Child(inc: nat, line: nat, phase: Phase)
  datatype Phase = Alive | Zombie(status: ProcState) | Waited(status: ProcState)

  /** A started process on its way into the table: under the lock of a POST request, or in a
      restart task that will first remove the record of the old process. */
  datatype Pending = Pending(proc: Proc, origin: Origin)
  datatype Origin = ByPost(track: bool) | ByRestart(prev: Pid)

  /** What happened: exit statuses, exits the reaper found no record for, statuses handed to a
      client, start times per line, capabilities given out. */
  datatype Past = Past(
    exits: map<nat, ProcState>, dropped: set<nat>, delivered: set<nat>,
    times: map<nat, seq<Time>>, used: set<Cap>)

  datatype State = State(
    children: map<Pid, Child>,
    reaper: Option<Pid>,
    table: map<Pid, Proc>,
    pending: map<Pid, Pending>,
    lock: Option<Pid>,              // the POST request that holds the lock while it starts a child
    restarts: map<Pid, Spec>,       // restart tasks not yet started, by the pid they replace
    next: nat, clock: Time, stopped: bool,
    past: Past)

  datatype Request = Request(caps: set<Cap>, restart: bool, required: bool, track: bool)

  datatype Step =
    | Post(req: Request, pid: Pid, now: Time)
    | PostInsert
    | Exit(pid: Pid, status: ProcState)
    | Wait(pid: Pid)
    | Reap
    | Spawn(prev: Pid, pid: Pid, now: Time)
    | SpawnFails(prev: Pid)
    | PostStray(req: Request, pid: Pid, now: Time)      // the child runs, but its start fails afterwards
    | SpawnStray(prev: Pid, pid: Pid, now: Time)
    | Insert(pid: Pid)
    | Get(pid: Pid)

  function Init(): State {
    State(map[], None, map[], map[], None, map[], 0, 0, false, Past(map[], {}, {}, map[], {}))
  }

  // ----- lock-protected pieces of code, as functions on the table

  /** The reaper's piece: note the status and tell whether to stop or to restart. */
  function RecordExit(table: map<Pid, Proc>, pid: Pid, status: ProcState): map<Pid, Proc> {
    if pid in table then table[pid := table[pid].(state := status)] else table
  }

  function ReplaceRestarted(table: map<Pid, Proc>, prev: Pid, pid: Pid, proc: Proc): map<Pid, Proc> {
    (table - {prev})[pid := proc]
  }

  /** A terminal status is handed over with its record. */
  function TakeStatus(table: map<Pid, Proc>, pid: Pid): map<Pid, Proc> {
    if pid in table && !table[pid].state.Running? then table - {pid} else table
  }

  // ----- steps

  /** No record, task or child mentions the pid: the kernel does not hand it out again before. */
  predicate FreshPid(s: State, pid: Pid) {
    && pid !in s.children && pid !in s.table && pid !in s.pending && pid !in s.restarts
    && forall p <- s.pending :: s.pending[p].origin != ByRestart(pid)
  }

  predicate Enabled(s: State, allowed: set<Cap>, step: Step) {
    && !s.stopped
    && match step
       case Post(req, pid, now) => s.lock.None? && req.caps <= allowed && FreshPid(s, pid) && s.clock <= now
       case PostInsert => s.lock.Some? && s.lock.value in s.pending && s.pending[s.lock.value].origin.ByPost?
       case Exit(pid, status) => pid in s.children && s.children[pid].phase.Alive? && !status.Running?
       case Wait(pid) => s.reaper.None? && pid in s.children && s.children[pid].phase.Zombie?
       case Reap => s.lock.None? && s.reaper.Some? && s.reaper.value in s.children &&
         s.children[s.reaper.value].phase.Waited?
       case Spawn(prev, pid, now) => prev in s.restarts && s.restarts[prev].line in s.past.times &&
         FreshPid(s, pid) && s.clock <= now
       case SpawnFails(prev) => prev in s.restarts
       case PostStray(req, pid, now) => s.lock.None? && req.caps <= allowed && FreshPid(s, pid) && s.clock <= now
       case SpawnStray(prev, pid, now) => prev in s.restarts && s.restarts[prev].line in s.past.times &&
         FreshPid(s, pid) && s.clock <= now
       case Insert(pid) => s.lock.None? && pid in s.pending && s.pending[pid].origin.ByRestart?
       case Get(pid) => s.lock.None?
  }

  function DoPost(s: State, req: Request, pid: Pid, now: Time): State {
    var n := s.next;
    var proc := Proc(Spec(n, req.required, req.restart, req.caps, [now]), n, Running, true);
    s.(children := s.children[pid := Child(n, n, Alive)],
       pending := s.pending[pid := Pending(proc, ByPost(req.track))],
       lock := Some(pid), next := n + 1, clock := now,
       past := s.past.(times := s.past.times[n := [now]], used := s.past.used + req.caps))
  }

  function DoPostInsert(s: State): State
    requires s.lock.Some? && s.lock.value in s.pending && s.pending[s.lock.value].origin.ByPost?
  {
    var pid := s.lock.value;
    var p := s.pending[pid];
    s.(table := if p.origin.track then s.table[pid := p.proc] else s.table,
       pending := s.pending - {pid}, lock := None)
  }

  function DoExit(s: State, pid: Pid, status: ProcState): State
    requires pid in s.children
  {
    var c := s.children[pid];
    s.(children := s.children[pid := c.(phase := Zombie(status))],
       past := s.past.(exits := s.past.exits[c.inc := status]))
  }

  function DoWait(s: State, pid: Pid): State
    requires pid in s.children && s.children[pid].phase.Zombie?
  {
    var c := s.children[pid];
    s.(children := s.children[pid := c.(phase := Waited(c.phase.status))], reaper := Some(pid))
  }

  function DoReap(s: State): State
    requires s.reaper.Some? && s.reaper.value in s.children && s.children[s.reaper.value].phase.Waited?
  {
    var pid := s.reaper.value;
    var c := s.children[pid];
    var t := s.(children := s.children - {pid}, reaper := None, table := RecordExit(s.table, pid, c.phase.status));
    if pid !in s.table then t.(past := s.past.(dropped := s.past.dropped + {c.inc}))
    else
      var spec := s.table[pid].spec;
      if spec.required then t.(stopped := true)
      else if MayRestart(spec.restart, spec.events) then t.(restarts := s.restarts[pid := spec])
      else t
  }

  function DoSpawn(s: State, prev: Pid, pid: Pid, now: Time): State
    requires prev in s.restarts && s.restarts[prev].line in s.past.times
  {
    var n, spec := s.next, s.restarts[prev];
    var proc := Proc(spec.(events := Record(spec.events, now)), n, Running, false);
    s.(children := s.children[pid := Child(n, spec.line, Alive)],
       pending := s.pending[pid := Pending(proc, ByRestart(prev))],
       restarts := s.restarts - {prev}, next := n + 1, clock := now,
       past := s.past.(times := s.past.times[spec.line := s.past.times[spec.line] + [now]],
                       used := s.past.used + spec.caps))
  }

  /** A start that fails after the child was made leaves a child without a record. */
  function DoPostStray(s: State, req: Request, pid: Pid, now: Time): State {
    DoPostInsert(DoPost(s, req.(track := false), pid, now))
  }

  function DoSpawnStray(s: State, prev: Pid, pid: Pid, now: Time): State
    requires prev in s.restarts && s.restarts[prev].line in s.past.times
  {
    Forget(DoSpawn(s, prev, pid, now), pid)
  }

  function Forget(s: State, pid: Pid): State { s.(pending := s.pending - {pid}) }

  function DoSpawnFails(s: State, prev: Pid): State { s.(restarts := s.restarts - {prev}) }

  function DoInsert(s: State, pid: Pid): State
    requires pid in s.pending && s.pending[pid].origin.ByRestart?
  {
    var p := s.pending[pid];
    s.(table := ReplaceRestarted(s.table, p.origin.prev, pid, p.proc), pending := s.pending - {pid})
  }

  function DoGet(s: State, pid: Pid): State {
    var t := s.(table := TakeStatus(s.table, pid));
    if pid in s.table && !s.table[pid].state.Running?
    then t.(past := s.past.(delivered := s.past.delivered + {s.table[pid].inc})) else t
  }

  function Do(s: State, allowed: set<Cap>, step: Step): State
    requires Enabled(s, allowed, step)
  {
    match step
    case Post(req, pid, now) => DoPost(s, req, pid, now)
    case PostInsert => DoPostInsert(s)
    case Exit(pid, status) => DoExit(s, pid, status)
    case Wait(pid) => DoWait(s, pid)
    case Reap => DoReap(s)
    case Spawn(prev, pid, now) => DoSpawn(s, prev, pid, now)
    case SpawnFails(prev) => DoSpawnFails(s, prev)
    case PostStray(req, pid, now) => DoPostStray(s, req, pid, now)
    case SpawnStray(prev, pid, now) => DoSpawnStray(s, prev, pid, now)
    case Insert(pid) => DoInsert(s, pid)
    case Get(pid) => DoGet(s, pid)
  }

  /** Steps that cannot happen are skipped, so any list of steps is an interleaving. */
  function Run(allowed: set<Cap>, steps: seq<Step>): State {
    if steps == [] then Init()
    else
      var s, last := Run(allowed, steps[..|steps| - 1]), steps[|steps| - 1];
      if Enabled(s, allowed, last) then Do(s, allowed, last) else s
  }

  // ----- invariant, for each pid and each pair of pids

  /** A dead child left its exit status; the reaper holds at most one; exits of children were not
      dropped; the line has its start times. */
  predicate ChildOk(s: State, p: Pid) {
    p in s.children ==>
      var c := s.children[p];
      && c.inc < s.next && c.line < s.next && c.inc !in s.past.dropped && c.line in s.past.times
      && (c.phase.Alive? ==> c.inc !in s.past.exits)
      && (!c.phase.Alive? ==>
            !c.phase.status.Running? && c.inc in s.past.exits && s.past.exits[c.inc] == c.phase.status)
      && (c.phase.Waited? <==> s.reaper == Some(p))
  }

  /** A record of a child is running and about that child; a running record without a child is one
      whose exit was dropped, and never of a first start; a terminal record has the exit status. */
  predicate RecordOk(s: State, p: Pid) {
    p in s.table ==>
      var r := s.table[p];
      && r.inc < s.next && p !in s.pending && r.inc !in s.past.delivered
      && (p in s.children ==> r.state.Running? && SameStart(s, p, r))
      && (r.state.Running? && p !in s.children ==> r.inc in s.past.dropped)
      && (!r.state.Running? ==> r.inc in s.past.exits && r.state == s.past.exits[r.inc] && r.inc !in s.past.dropped)
      && (r.viaPost ==> r.inc !in s.past.dropped)
  }

  /** The record is about the child, and holds the start times of its line. */
  predicate SameStart(s: State, p: Pid, r: Proc)
    requires p in s.children
  {
    var c := s.children[p];
    && r.inc == c.inc && r.spec.line == c.line
    && c.line in s.past.times && r.spec.events == Window(s.past.times[c.line])
  }

  predicate PendingOk(s: State, p: Pid) {
    p in s.pending ==>
      var r := s.pending[p].proc;
      && r.inc < s.next && r.state.Running? && r.inc !in s.past.delivered
      && (p in s.children ==> SameStart(s, p, r))
      && (p !in s.children ==> r.inc in s.past.dropped)
      && (r.viaPost <==> s.pending[p].origin.ByPost?)
      && (r.viaPost ==> s.lock == Some(p) && p in s.children)
      && p !in s.restarts
  }

  /** A restart task follows an exit that was recorded, and the window allows it. */
  predicate RestartOk(s: State, p: Pid) {
    p in s.restarts ==>
      var spec := s.restarts[p];
      && spec.line < s.next && p !in s.children
      && spec.line in s.past.times && spec.events == Window(s.past.times[spec.line]) && MayRestart(true, spec.events)
      && (p in s.table ==> !s.table[p].state.Running? && s.table[p].spec.line == spec.line)
  }

  predicate PidOk(s: State, p: Pid) {
    ChildOk(s, p) && RecordOk(s, p) && PendingOk(s, p) && RestartOk(s, p)
  }

  /** A line is one child or one restart task; a start number is used once; a restart only ever
      replaces the dead record of its own line. */
  predicate PairOk(s: State, p: Pid, q: Pid) {
    && (p in s.children && q in s.children && p != q ==>
          s.children[p].line != s.children[q].line && s.children[p].inc != s.children[q].inc)
    && (p in s.children && q in s.restarts ==> s.children[p].line != s.restarts[q].line)
    && (p in s.restarts && q in s.restarts && p != q ==> s.restarts[p].line != s.restarts[q].line)
    && (p in s.table && q in s.table && p != q ==> s.table[p].inc != s.table[q].inc)
    && (p in s.table && q in s.pending ==> s.table[p].inc != s.pending[q].proc.inc)
    && (p in s.pending && q in s.pending && p != q ==> s.pending[p].proc.inc != s.pending[q].proc.inc)
    && (p in s.children && q in s.table && p != q ==> s.children[p].inc != s.table[q].inc)
    && (p in s.children && q in s.pending && p != q ==> s.children[p].inc != s.pending[q].proc.inc)
    && (p in s.pending && s.pending[p].origin == ByRestart(q) ==>
          q !in s.children && q !in s.pending &&
            (q in s.table ==> !s.table[q].state.Running? && s.table[q].spec.line == s.pending[p].proc.spec.line))
  }

  ghost predicate LineOk(s: State, l: nat) {
    l in s.past.times ==>
      var ts := s.past.times[l];
      && l < s.next && ts != [] && Allowed(ts) && NonDecreasing(ts) && ts[|ts| - 1] <= s.clock
  }

  /** Start numbers of the past are below the next one; the lock belongs to a POST request. */
  ghost predicate PastOk(s: State) {
    && (forall i <- s.past.exits :: i < s.next)
    && (forall i <- s.past.dropped :: i < s.next)
    && (forall i <- s.past.delivered :: i < s.next)
    && (s.lock.Some? ==> s.lock.value in s.pending && s.pending[s.lock.value].origin.ByPost?)
    && (s.reaper.Some? ==> s.reaper.value in s.children)
  }

  /** Capabilities of every record, task and start are allowed ones. */
  predicate CapsOk(s: State, allowed: set<Cap>) {
    && s.past.used <= allowed
    && (forall p <- s.table :: s.table[p].spec.caps <= allowed)
    && (forall p <- s.pending :: s.pending[p].proc.spec.caps <= allowed)
    && (forall p <- s.restarts :: s.restarts[p].caps <= allowed)
  }

  ghost predicate Inv(s: State) {
    && (forall p :: PidOk(s, p)) && (forall p, q :: PairOk(s, p, q)) && (forall l :: LineOk(s, l)) && PastOk(s)
  }

  // ----- every step keeps the invariant

  /** The instances of the invariant that bear on two pids. */
  predicate Around(s: State, p: Pid, q: Pid) {
    PidOk(s, p) && PidOk(s, q) && PairOk(s, p, q) && PairOk(s, q, p)
  }

  lemma WindowSnoc(ts: seq<Time>, now: Time)
    ensures Window(ts + [now]) == Record(Window(ts), now)
  {
    assert (ts + [now])[..|ts|] == ts;
  }

  lemma LineGrows(ts: seq<Time>, now: Time)
    requires ts != [] && Allowed(ts) && NonDecreasing(ts) && ts[|ts| - 1] <= now && MayRestart(true, Window(ts))
    ensures Allowed(ts + [now]) && NonDecreasing(ts + [now])
  {
    AllowedGrows(ts, now);
    OrderGrows(ts, now);
  }

  lemma OrderGrows(ts: seq<Time>, now: Time)
    requires ts != [] && NonDecreasing(ts) && ts[|ts| - 1] <= now
    ensures NonDecreasing(ts + [now])
  {
    var us := ts + [now];
    forall i, j | 0 <= i <= j < |us| ensures us[i] <= us[j] {
      if i < |ts| { assert ts[i] <= ts[|ts| - 1]; }
    }
  }

  lemma AllowedGrows(ts: seq<Time>, now: Time)
    requires ts != [] && Allowed(ts) && MayRestart(true, Window(ts))
    ensures Allowed(ts + [now])
  {
    var us := ts + [now];
    forall i | 1 <= i < |us| ensures MayRestart(true, Window(us[..i])) {
      assert us[..i] == ts[..i];
      if i == |ts| { assert ts[..i] == ts; }
    }
  }

  // POST: a child is started under the lock

  lemma PostPid(s: State, req: Request, pid: Pid, now: Time, p: Pid)
    requires Around(s, p, pid) && PastOk(s) && s.lock.None? && FreshPid(s, pid)
    ensures PidOk(DoPost(s, req, pid, now), p)
  {
    assert Window([now]) == [now] by { WindowSnoc([], now); assert [] + [now] == [now]; }
  }

  lemma PostPair(s: State, req: Request, pid: Pid, now: Time, p: Pid, q: Pid)
    requires PidOk(s, p) && PidOk(s, q) && PairOk(s, p, q) && FreshPid(s, pid)
    ensures PairOk(DoPost(s, req, pid, now), p, q)
  {
  }

  lemma PostKeeps(s: State, req: Request, pid: Pid, now: Time)
    requires Inv(s) && s.lock.None? && FreshPid(s, pid) && s.clock <= now
    ensures Inv(DoPost(s, req, pid, now))
  {
    var t := DoPost(s, req, pid, now);
    forall p ensures PidOk(t, p) {
      assert Around(s, p, pid);
      PostPid(s, req, pid, now, p);
    }
    forall p, q ensures PairOk(t, p, q) {
      assert Around(s, p, q);
      PostPair(s, req, pid, now, p, q);
    }
    forall l ensures LineOk(t, l) { assert LineOk(s, l); }
  }

  // POST: the record enters the table and the lock is released

  lemma PostInsertPid(s: State, pid: Pid, p: Pid)
    requires Around(s, p, pid) && s.lock == Some(pid) && pid in s.pending && s.pending[pid].origin.ByPost?
    ensures PidOk(DoPostInsert(s), p)
  {
  }

  lemma PostInsertPair(s: State, pid: Pid, p: Pid, q: Pid)
    requires s.lock == Some(pid) && pid in s.pending && s.pending[pid].origin.ByPost?
    requires Around(s, p, q) && Around(s, p, pid) && Around(s, q, pid)
    ensures PairOk(DoPostInsert(s), p, q)
  {
  }

  lemma PostInsertKeeps(s: State)
    requires Inv(s) && s.lock.Some? && s.lock.value in s.pending && s.pending[s.lock.value].origin.ByPost?
    ensures Inv(DoPostInsert(s))
  {
    var t, pid := DoPostInsert(s), s.lock.value;
    forall p ensures PidOk(t, p) {
      assert Around(s, p, pid);
      PostInsertPid(s, pid, p);
    }
    forall p, q ensures PairOk(t, p, q) {
      assert Around(s, p, q) && Around(s, p, pid) && Around(s, q, pid);
      PostInsertPair(s, pid, p, q);
    }
    forall l ensures LineOk(t, l) { assert LineOk(s, l); }
  }

  // a child dies, then waits for the reaper

  lemma ExitKeeps(s: State, pid: Pid, status: ProcState)
    requires Inv(s) && pid in s.children && s.children[pid].phase.Alive? && !status.Running?
    ensures Inv(DoExit(s, pid, status))
  {
    var t := DoExit(s, pid, status);
    assert PidOk(s, pid);
    forall p ensures PidOk(t, p) {
      assert PidOk(s, p) && PairOk(s, pid, p);
    }
    forall p, q ensures PairOk(t, p, q) { assert PairOk(s, p, q); }
    forall l ensures LineOk(t, l) { assert LineOk(s, l); }
  }

  lemma WaitKeeps(s: State, pid: Pid)
    requires Inv(s) && s.reaper.None? && pid in s.children && s.children[pid].phase.Zombie?
    ensures Inv(DoWait(s, pid))
  {
    var t := DoWait(s, pid);
    forall p ensures PidOk(t, p) { assert PidOk(s, p); }
    forall p, q ensures PairOk(t, p, q) { assert PairOk(s, p, q); }
    forall l ensures LineOk(t, l) { assert LineOk(s, l); }
  }

  // the reaper takes the lock

  lemma ReapPid(s: State, pid: Pid, p: Pid)
    requires Around(s, p, pid) && s.lock.None? && s.reaper == Some(pid)
    requires pid in s.children && s.children[pid].phase.Waited?
    ensures PidOk(DoReap(s), p)
  {
    if p == pid { ReapOwn(s, pid); }
    else if pid in s.table { ReapOtherRecorded(s, pid, p); }
    else { ReapOtherDropped(s, pid, p); }
  }

  lemma ReapOtherRecorded(s: State, pid: Pid, p: Pid)
    requires Around(s, p, pid) && p != pid && s.reaper == Some(pid) && pid in s.table
    requires pid in s.children && s.children[pid].phase.Waited?
    ensures PidOk(DoReap(s), p)
  {
    PidFrame(s, DoReap(s), p);
  }

  /** Nothing about the pid changed. */
  predicate AgreeAt(s: State, t: State, p: Pid) {
    && (p in s.children <==> p in t.children) && (p in s.children ==> t.children[p] == s.children[p])
    && (p in s.table <==> p in t.table) && (p in s.table ==> t.table[p] == s.table[p])
    && (p in s.pending <==> p in t.pending) && (p in s.pending ==> t.pending[p] == s.pending[p])
    && (p in s.restarts <==> p in t.restarts) && (p in s.restarts ==> t.restarts[p] == s.restarts[p])
    && (s.reaper == Some(p) <==> t.reaper == Some(p))
    && t.past == s.past && t.next == s.next && t.lock == s.lock
  }

  lemma PidFrame(s: State, t: State, p: Pid)
    requires PidOk(s, p) && AgreeAt(s, t, p)
    ensures PidOk(t, p)
  {
  }

  lemma ReapOtherDropped(s: State, pid: Pid, p: Pid)
    requires Around(s, p, pid) && p != pid && s.reaper == Some(pid) && pid !in s.table
    requires pid in s.children && s.children[pid].phase.Waited?
    ensures PidOk(DoReap(s), p)
  {
  }

  lemma ReapOwn(s: State, pid: Pid)
    requires PidOk(s, pid) && s.lock.None? && s.reaper == Some(pid)
    requires pid in s.children && s.children[pid].phase.Waited?
    ensures PidOk(DoReap(s), pid)
  {
    if pid in s.table { assert DoReap(s).past == s.past; }
  }

  lemma ReapPair(s: State, pid: Pid, p: Pid, q: Pid)
    requires s.reaper == Some(pid) && pid in s.children && s.children[pid].phase.Waited?
    requires Around(s, p, q) && Around(s, p, pid) && Around(s, q, pid)
    ensures PairOk(DoReap(s), p, q)
  {
  }

  predicate Reapable(s: State) {
    s.lock.None? && s.reaper.Some? && s.reaper.value in s.children && s.children[s.reaper.value].phase.Waited?
  }

  lemma ReapPids(s: State, p: Pid)
    requires Inv(s) && Reapable(s)
    ensures PidOk(DoReap(s), p)
  {
    assert Around(s, p, s.reaper.value);
    ReapPid(s, s.reaper.value, p);
  }

  lemma ReapPairs(s: State, p: Pid, q: Pid)
    requires Inv(s) && Reapable(s)
    ensures PairOk(DoReap(s), p, q)
  {
    var pid := s.reaper.value;
    assert Around(s, p, q) && Around(s, p, pid) && Around(s, q, pid);
    ReapPair(s, pid, p, q);
  }

  lemma ReapPast(s: State, l: nat)
    requires Inv(s) && Reapable(s)
    ensures PastOk(DoReap(s)) && LineOk(DoReap(s), l)
  {
    assert PidOk(s, s.reaper.value) && LineOk(s, l);
  }

  lemma ReapKeeps(s: State)
    requires Inv(s) && Reapable(s)
    ensures Inv(DoReap(s))
  {
    var t := DoReap(s);
    forall p ensures PidOk(t, p) { ReapPids(s, p); }
    forall p, q ensures PairOk(t, p, q) { ReapPairs(s, p, q); }
    forall l: nat ensures LineOk(t, l) { ReapPast(s, l); }
    ReapPast(s, 0);
  }

  // a restart task starts a new child, without the lock

  lemma SpawnPid(s: State, prev: Pid, pid: Pid, now: Time, p: Pid)
    requires Around(s, p, prev) && Around(s, p, pid) && PastOk(s) && FreshPid(s, pid)
    requires prev in s.restarts && s.restarts[prev].line in s.past.times
    ensures PidOk(DoSpawn(s, prev, pid, now), p)
  {
    SpawnChild(s, prev, pid, now, p);
    SpawnRecord(s, prev, pid, now, p);
    SpawnPending(s, prev, pid, now, p);
    SpawnRestart(s, prev, pid, now, p);
  }

  lemma SpawnChild(s: State, prev: Pid, pid: Pid, now: Time, p: Pid)
    requires Around(s, p, prev) && Around(s, p, pid) && PastOk(s) && FreshPid(s, pid)
    requires prev in s.restarts && s.restarts[prev].line in s.past.times
    ensures ChildOk(DoSpawn(s, prev, pid, now), p)
  {
  }

  lemma SpawnRecord(s: State, prev: Pid, pid: Pid, now: Time, p: Pid)
    requires Around(s, p, prev) && Around(s, p, pid) && PastOk(s) && FreshPid(s, pid)
    requires prev in s.restarts && s.restarts[prev].line in s.past.times
    ensures RecordOk(DoSpawn(s, prev, pid, now), p)
  {
  }

  lemma SpawnPending(s: State, prev: Pid, pid: Pid, now: Time, p: Pid)
    requires Around(s, p, prev) && Around(s, p, pid) && PastOk(s) && FreshPid(s, pid)
    requires prev in s.restarts && s.restarts[prev].line in s.past.times
    ensures PendingOk(DoSpawn(s, prev, pid, now), p)
  {
    WindowSnoc(s.past.times[s.restarts[prev].line], now);
  }

  lemma SpawnRestart(s: State, prev: Pid, pid: Pid, now: Time, p: Pid)
    requires Around(s, p, prev) && Around(s, p, pid) && PastOk(s) && FreshPid(s, pid)
    requires prev in s.restarts && s.restarts[prev].line in s.past.times
    ensures RestartOk(DoSpawn(s, prev, pid, now), p)
  {
  }

  lemma SpawnPair(s: State, prev: Pid, pid: Pid, now: Time, p: Pid, q: Pid)
    requires Around(s, p, q) && Around(s, p, prev) && Around(s, q, prev) && FreshPid(s, pid)
    requires prev in s.restarts && s.restarts[prev].line in s.past.times
    ensures PairOk(DoSpawn(s, prev, pid, now), p, q)
  {
  }

  lemma SpawnKeeps(s: State, prev: Pid, pid: Pid, now: Time)
    requires Inv(s) && prev in s.restarts && s.restarts[prev].line in s.past.times && FreshPid(s, pid) && s.clock <= now
    ensures Inv(DoSpawn(s, prev, pid, now))
  {
    var t, l := DoSpawn(s, prev, pid, now), s.restarts[prev].line;
    forall p ensures PidOk(t, p) {
      assert Around(s, p, prev) && Around(s, p, pid);
      SpawnPid(s, prev, pid, now, p);
    }
    forall p, q ensures PairOk(t, p, q) {
      assert Around(s, p, q) && Around(s, p, prev) && Around(s, q, prev);
      SpawnPair(s, prev, pid, now, p, q);
    }
    assert LineOk(s, l) && PidOk(s, prev);
    LineGrows(s.past.times[l], now);
    forall k ensures LineOk(t, k) { assert LineOk(s, k); }
    PendingLock(s, pid);
  }

  lemma PendingLock(s: State, pid: Pid)
    requires PastOk(s) && FreshPid(s, pid)
    ensures s.lock != Some(pid)
  {
  }

  lemma SpawnFailsKeeps(s: State, prev: Pid)
    requires Inv(s)
    ensures Inv(DoSpawnFails(s, prev))
  {
    var t := DoSpawnFails(s, prev);
    forall p ensures PidOk(t, p) { assert PidOk(s, p); }
    forall p, q ensures PairOk(t, p, q) { assert PairOk(s, p, q); }
    forall l ensures LineOk(t, l) { assert LineOk(s, l); }
  }

  // the restart task takes the lock and replaces the old record

  lemma InsertPid(s: State, pid: Pid, p: Pid)
    requires Around(s, p, pid) && pid in s.pending && s.pending[pid].origin.ByRestart?
    ensures PidOk(DoInsert(s, pid), p)
  {
  }

  lemma InsertPair(s: State, pid: Pid, p: Pid, q: Pid)
    requires pid in s.pending && s.pending[pid].origin.ByRestart?
    requires Around(s, p, q) && Around(s, p, pid) && Around(s, q, pid)
    ensures PairOk(DoInsert(s, pid), p, q)
  {
  }

  lemma InsertKeeps(s: State, pid: Pid)
    requires Inv(s) && s.lock.None? && pid in s.pending && s.pending[pid].origin.ByRestart?
    ensures Inv(DoInsert(s, pid))
  {
    var t := DoInsert(s, pid);
    forall p ensures PidOk(t, p) {
      assert Around(s, p, pid);
      InsertPid(s, pid, p);
    }
    forall p, q ensures PairOk(t, p, q) {
      assert Around(s, p, q) && Around(s, p, pid) && Around(s, q, pid);
      InsertPair(s, pid, p, q);
    }
    forall l ensures LineOk(t, l) { assert LineOk(s, l); }
  }

  // GET: a terminal status is handed over

  lemma GetPid(s: State, pid: Pid, p: Pid)
    requires Around(s, p, pid)
    ensures PidOk(DoGet(s, pid), p)
  {
  }

  lemma GetKeeps(s: State, pid: Pid)
    requires Inv(s) && s.lock.None?
    ensures Inv(DoGet(s, pid))
  {
    var t := DoGet(s, pid);
    forall p ensures PidOk(t, p) {
      assert Around(s, p, pid);
      GetPid(s, pid, p);
    }
    forall p, q ensures PairOk(t, p, q) {
      assert PairOk(s, p, q);
      GetPair(s, pid, p, q);
    }
    forall l ensures LineOk(t, l) {
      assert LineOk(s, l);
      GetLine(s, pid, l);
    }
    assert PidOk(s, pid);
    GetPast(s, pid);
  }

  lemma GetLine(s: State, pid: Pid, l: nat)
    requires LineOk(s, l)
    ensures LineOk(DoGet(s, pid), l)
  {
  }

  lemma GetPast(s: State, pid: Pid)
    requires PastOk(s) && PidOk(s, pid)
    ensures PastOk(DoGet(s, pid))
  {
  }

  lemma GetPair(s: State, pid: Pid, p: Pid, q: Pid)
    requires PairOk(s, p, q)
    ensures PairOk(DoGet(s, pid), p, q)
  {
  }

  // a start that fails after the child was made

  lemma ForgetPid(s: State, pid: Pid, p: Pid)
    requires PidOk(s, p)
    ensures PidOk(Forget(s, pid), p)
  {
  }

  lemma ForgetPair(s: State, pid: Pid, p: Pid, q: Pid)
    requires PairOk(s, p, q)
    ensures PairOk(Forget(s, pid), p, q)
  {
  }

  lemma ForgetKeeps(s: State, pid: Pid)
    requires Inv(s) && pid in s.pending && s.pending[pid].origin.ByRestart?
    ensures Inv(Forget(s, pid))
  {
    var t := Forget(s, pid);
    forall p ensures PidOk(t, p) {
      assert PidOk(s, p);
      ForgetPid(s, pid, p);
    }
    forall p, q ensures PairOk(t, p, q) {
      assert PairOk(s, p, q);
      ForgetPair(s, pid, p, q);
    }
    forall l ensures LineOk(t, l) { assert LineOk(s, l); }
  }

  lemma StepKeeps(s: State, allowed: set<Cap>, step: Step)
    requires Inv(s) && Enabled(s, allowed, step)
    ensures Inv(Do(s, allowed, step))
  {
    match step
    case Post(req, pid, now) => PostKeeps(s, req, pid, now);
    case PostInsert => PostInsertKeeps(s);
    case Exit(pid, status) => ExitKeeps(s, pid, status);
    case Wait(pid) => WaitKeeps(s, pid);
    case Reap => ReapKeeps(s);
    case Spawn(prev, pid, now) => SpawnKeeps(s, prev, pid, now);
    case SpawnFails(prev) => SpawnFailsKeeps(s, prev);
    case PostStray(req, pid, now) =>
      PostKeeps(s, req.(track := false), pid, now);
      PostInsertKeeps(DoPost(s, req.(track := false), pid, now));
    case SpawnStray(prev, pid, now) =>
      SpawnKeeps(s, prev, pid, now);
      ForgetKeeps(DoSpawn(s, prev, pid, now), pid);
    case Insert(pid) => InsertKeeps(s, pid);
    case Get(pid) => GetKeeps(s, pid);
  }

  lemma StepCaps(s: State, allowed: set<Cap>, step: Step)
    requires CapsOk(s, allowed) && Enabled(s, allowed, step)
    ensures CapsOk(Do(s, allowed, step), allowed)
  {
    match step
    case Post(req, pid, now) => PostCaps(s, allowed, req, pid, now);
    case PostInsert => PostInsertCaps(s, allowed);
    case Exit(pid, status) =>
    case Wait(pid) =>
    case Reap => ReapCaps(s, allowed);
    case Spawn(prev, pid, now) => SpawnCaps(s, allowed, prev, pid, now);
    case SpawnFails(prev) =>
    case PostStray(req, pid, now) =>
      PostCaps(s, allowed, req.(track := false), pid, now);
      PostInsertCaps(DoPost(s, req.(track := false), pid, now), allowed);
    case SpawnStray(prev, pid, now) => SpawnCaps(s, allowed, prev, pid, now);
    case Insert(pid) => InsertCaps(s, allowed, pid);
    case Get(pid) =>
  }

  lemma PostCaps(s: State, allowed: set<Cap>, req: Request, pid: Pid, now: Time)
    requires CapsOk(s, allowed) && req.caps <= allowed
    ensures CapsOk(DoPost(s, req, pid, now), allowed)
  {
  }

  lemma PostInsertCaps(s: State, allowed: set<Cap>)
    requires CapsOk(s, allowed) && s.lock.Some? && s.lock.value in s.pending && s.pending[s.lock.value].origin.ByPost?
    ensures CapsOk(DoPostInsert(s), allowed)
  {
  }

  lemma ReapCaps(s: State, allowed: set<Cap>)
    requires CapsOk(s, allowed) && s.reaper.Some? && s.reaper.value in s.children &&
             s.children[s.reaper.value].phase.Waited?
    ensures CapsOk(DoReap(s), allowed)
  {
  }

  lemma SpawnCaps(s: State, allowed: set<Cap>, prev: Pid, pid: Pid, now: Time)
    requires CapsOk(s, allowed) && prev in s.restarts && s.restarts[prev].line in s.past.times
    ensures CapsOk(DoSpawn(s, prev, pid, now), allowed)
  {
  }

  lemma InsertCaps(s: State, allowed: set<Cap>, pid: Pid)
    requires CapsOk(s, allowed) && pid in s.pending && s.pending[pid].origin.ByRestart?
    ensures CapsOk(DoInsert(s, pid), allowed)
  {
  }

  lemma {:induction false} RunInv(allowed: set<Cap>, steps: seq<Step>)
    ensures Inv(Run(allowed, steps)) && CapsOk(Run(allowed, steps), allowed)
  {
    if steps != [] {
      var before, last := steps[..|steps| - 1], steps[|steps| - 1];
      RunInv(allowed, before);
      var s := Run(allowed, before);
      if Enabled(s, allowed, last) {
        StepKeeps(s, allowed, last);
        StepCaps(s, allowed, last);
      }
    }
  }

  // ----- what holds in every run

  /** At most one child or restart task per process line: a restart never doubles a process. */
  lemma OnePlacePerLine(allowed: set<Cap>, steps: seq<Step>, p: Pid, q: Pid)
    ensures var s := Run(allowed, steps);
            && (p in s.children && q in s.children && s.children[p].line == s.children[q].line ==> p == q)
            && (p in s.restarts && q in s.restarts && s.restarts[p].line == s.restarts[q].line ==> p == q)
            && (p in s.children && q in s.restarts ==> s.children[p].line != s.restarts[q].line)
  {
    RunInv(allowed, steps);
    assert PairOk(Run(allowed, steps), p, q);
  }

  /** The exit of a process started by a request is never lost, even when it dies before its record
      is in the table: a record that says "running" has its child, dead or alive, still to be
      reaped, and a terminal record has the status the process exited with. */
  lemma PostExitNeverLost(allowed: set<Cap>, steps: seq<Step>, pid: Pid)
    requires var s := Run(allowed, steps); pid in s.table && s.table[pid].viaPost
    ensures var s := Run(allowed, steps);
            var r := s.table[pid];
            && (r.state.Running? <==> pid in s.children)
            && (pid in s.children ==> s.children[pid].inc == r.inc)
            && (!r.state.Running? ==> r.inc in s.past.exits && r.state == s.past.exits[r.inc])
  {
    RunInv(allowed, steps);
    assert PidOk(Run(allowed, steps), pid);
  }

  /** For any record: it says "running" with no child left exactly when the reaper handled the exit
      before the record was there, which can only happen to a restarted process. */
  lemma StaleExactlyWhenDropped(allowed: set<Cap>, steps: seq<Step>, pid: Pid)
    requires pid in Run(allowed, steps).table
    ensures var s := Run(allowed, steps);
            var r := s.table[pid];
            && (r.state.Running? && pid !in s.children <==> r.inc in s.past.dropped)
            && (r.inc in s.past.dropped ==> !r.viaPost)
  {
    RunInv(allowed, steps);
    assert PidOk(Run(allowed, steps), pid);
  }

  /** A terminal status is handed to at most one request. */
  lemma HandedAtMostOnce(allowed: set<Cap>, steps: seq<Step>, pid: Pid)
    requires var s := Run(allowed, steps); pid in s.table && !s.table[pid].state.Running?
    ensures var s := Run(allowed, steps);
            && s.table[pid].inc !in s.past.delivered
            && s.table[pid].inc in DoGet(s, pid).past.delivered
            && forall q :: q in DoGet(s, pid).table ==> DoGet(s, pid).table[q].inc != s.table[pid].inc
  {
    RunInv(allowed, steps);
    var s := Run(allowed, steps);
    assert PidOk(s, pid);
    forall q | q in s.table && q != pid ensures s.table[q].inc != s.table[pid].inc { assert PairOk(s, pid, q); }
  }

  /** Every start, restarts included, was given allowed capabilities only. */
  lemma OnlyAllowedCapabilities(allowed: set<Cap>, steps: seq<Step>)
    ensures Run(allowed, steps).past.used <= allowed
  {
    RunInv(allowed, steps);
  }

  /** The starts of a line obey the rate bound: any of them that span E seconds number at most
      4 * (E / 10) + 5. */
  lemma StartsObeyRate(allowed: set<Cap>, steps: seq<Step>, l: nat, i: nat, j: nat)
    requires l in Run(allowed, steps).past.times && i <= j < |Run(allowed, steps).past.times[l]|
    ensures var ts := Run(allowed, steps).past.times[l];
            j - i + 1 <= 4 * ((ts[j] - ts[i]) / RESTART_MIN_DELAY) + 5
  {
    RunInv(allowed, steps);
    assert LineOk(Run(allowed, steps), l);
    OrderedRateBound(Run(allowed, steps).past.times[l], i, j);
  }

  /** A restart task removes at most the dead record of its own line. */
  lemma RestartReplacesOwnRecord(allowed: set<Cap>, steps: seq<Step>, pid: Pid, prev: Pid)
    requires var s := Run(allowed, steps);
             pid in s.pending && s.pending[pid].origin == ByRestart(prev) && prev in s.table
    ensures var s := Run(allowed, steps);
            !s.table[prev].state.Running? && s.table[prev].spec.line == s.pending[pid].proc.spec.line
  {
    RunInv(allowed, steps);
    assert PairOk(Run(allowed, steps), pid, prev);
  }

  // ----- the exit of a restarted process can be lost

  function Loop(): Request { Request({}, true, false, true) }

  /** Process 1 exits and is restarted as process 2, which exits and is reaped before its record is
      in the table. */
  function LosingRun(): seq<Step> {
    [Post(Loop(), 1, 0), PostInsert, Exit(1, Exited(0)), Wait(1), Reap,
     Spawn(1, 2, 0), Exit(2, Exited(0)), Wait(2), Reap, Insert(2)]
  }

  lemma RunPrefix(allowed: set<Cap>, steps: seq<Step>, k: nat)
    requires k < |steps| && Enabled(Run(allowed, steps[..k]), allowed, steps[k])
    ensures Run(allowed, steps[..k + 1]) == Do(Run(allowed, steps[..k]), allowed, steps[k])
  {
    assert steps[..k + 1][..k] == steps[..k];
  }

  lemma LosingRunStart()
    ensures var s := Run({}, LosingRun()[..2]);
            && !s.stopped && s.reaper == None && s.lock == None && s.pending == map[] && s.restarts == map[]
            && s.clock == 0 && s.next == 1 && 0 in s.past.times
            && s.children == map[1 := Child(0, 0, Alive)]
            && s.table == map[1 := Proc(Spec(0, false, true, {}, [0]), 0, Running, true)]
  {
    var r := LosingRun();
    assert r[..0] == [];
    RunPrefix({}, r, 0);
    RunPrefix({}, r, 1);
  }

  lemma LosingRunExits()
    ensures var s := Run({}, LosingRun()[..3]);
            && !s.stopped && s.reaper == None && s.lock == None && s.pending == map[] && s.restarts == map[]
            && s.clock == 0 && s.next == 1 && 0 in s.past.times
            && s.children == map[1 := Child(0, 0, Zombie(Exited(0)))]
            && s.table == map[1 := Proc(Spec(0, false, true, {}, [0]), 0, Running, true)]
  {
    LosingRunStart();
    RunPrefix({}, LosingRun(), 2);
  }

  /** Half of the run: process 1 was reaped and its restart is due. */
  lemma LosingRunHalf()
    ensures var s := Run({}, LosingRun()[..5]);
            && !s.stopped && s.children == map[] && s.reaper == None && s.lock == None && s.pending == map[]
            && s.clock == 0 && s.next == 1 && 0 in s.past.times
            && s.restarts == map[1 := Spec(0, false, true, {}, [0])]
            && s.table.Keys == {1}
  {
    var r := LosingRun();
    LosingRunExits();
    RunPrefix({}, r, 3);
    RunPrefix({}, r, 4);
  }

  /** Process 2 was started and has exited, before it is in the table. */
  lemma LosingRunRestarted()
    ensures var s := Run({}, LosingRun()[..7]);
            && !s.stopped && s.reaper == None && s.lock == None
            && s.children == map[2 := Child(1, 0, Zombie(Exited(0)))] && s.table.Keys == {1}
            && 2 in s.pending && s.pending[2].origin == ByRestart(1) && s.pending[2].proc.state.Running? &&
               !s.pending[2].proc.viaPost
  {
    var r := LosingRun();
    LosingRunHalf();
    RunPrefix({}, r, 5);
    RunPrefix({}, r, 6);
  }

  /** The table is left saying that process 2 is running, though it is gone. */
  lemma RestartedExitLost()
    ensures var s := Run({}, LosingRun());
            2 in s.table && s.table[2].state.Running? && 2 !in s.children && !s.table[2].viaPost
  {
    var r := LosingRun();
    LosingRunRestarted();
    RunPrefix({}, r, 7);
    RunPrefix({}, r, 8);
    RunPrefix({}, r, 9);
    assert r[..10] == r;
  }
}
