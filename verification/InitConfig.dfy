/** The shared configuration of init as an object: the pieces of code that run under its lock
    (`crates/init/src/api.rs`, `crates/init/src/reap.rs`), each proved to be the table change used by
    the steps of `InitTable`. */
module InitConfig {
  import opened Wrappers
  import opened RestartLimiter
  import opened InitTable
  import opened InitLines

  datatype StatusReply = NotFound | StillRunning | Code(code: int)

  /** The restart task spawned for a recorded exit, if any. */
  function RestartOf(table: map<Pid, Proc>, pid: Pid): Option<Spec> {
    if pid in table && MayRestart(table[pid].spec.restart, table[pid].spec.events) then Some(table[pid].spec) else None
  }

  function StatusOf(table: map<Pid, Proc>, pid: Pid): StatusReply {
    if pid !in table then NotFound
    else match table[pid].state
      case Exited(c) => Code(c)
      case Killed(s) => Code(s + 128)
      case Running => StillRunning
  }

  predicate IsRequired(table: map<Pid, Proc>, pid: Pid) { pid in table && table[pid].spec.required }

  /** The exits handled before a required process stops init. */
  function HandledExits(table: map<Pid, Proc>, exits: seq<(Pid, ProcState)>): (n: nat)
    ensures n <= |exits|
  {
    if exits == [] then 0
    else if exits[0].0 in table && table[exits[0].0].spec.required then 1
    else 1 + HandledExits(RecordExit(table, exits[0].0, exits[0].1), exits[1..])
  }

  function RecordExits(table: map<Pid, Proc>, exits: seq<(Pid, ProcState)>): map<Pid, Proc> {
    if exits == [] then table
    else RecordExits(RecordExit(table, exits[0].0, exits[0].1), exits[1..])
  }

  /** The restart tasks spawned for the exits, in order. */
  function RestartsOf(table: map<Pid, Proc>, exits: seq<(Pid, ProcState)>): seq<(Pid, Spec)> {
    if exits == [] then []
    else
      var (pid, status) := exits[0];
      (if RestartNow(table, pid).Some? then [(pid, RestartNow(table, pid).value)] else []) +
        RestartsOf(RecordExit(table, pid, status), exits[1..])
  }

  /** A required process stops init instead of being restarted. */
  function RestartNow(table: map<Pid, Proc>, pid: Pid): Option<Spec> {
    if pid in table && table[pid].spec.required then None else RestartOf(table, pid)
  }

  /** The restarts asked for are those of the ended processes that have a record and whose restart is
      due. */
  lemma {:induction false} RestartsAreDue(table: map<Pid, Proc>, exits: seq<(Pid, ProcState)>, pid: Pid, spec: Spec)
    ensures (pid, spec) in RestartsOf(table, exits) <==>
            && (exists k :: 0 <= k < |exits| && exits[k].0 == pid)
            && pid in table && RestartDue(table[pid]) && spec == table[pid].spec
    decreases exits
  {
    if exits != [] {
      var e := exits[0];
      if e.0 in table { MayRestartIff(table[e.0]); }
      RestartsAreDue(RecordExit(table, e.0, e.1), exits[1..], pid, spec);
      assert forall k :: 0 < k < |exits| ==> exits[k] == exits[1..][k - 1];
      assert (exists k :: 0 <= k < |exits| && exits[k].0 == pid) <==>
             e.0 == pid || exists k :: 0 <= k < |exits[1..]| && exits[1..][k].0 == pid;
    }
  }

  /** At any point of any run: the code of a record is that of the exit of its process, or 128 more than
      the signal that ended it; there is none before. */
  lemma CodeIsOfExit(allowed: set<Cap>, steps: seq<Step>, pid: Pid)
    requires pid in Run(allowed, steps).table
    ensures var s := Run(allowed, steps);
            var r := s.table[pid];
            match StatusOf(s.table, pid)
            case NotFound => false
            case StillRunning => r.state.Running?
            case Code(code) =>
              && r.inc in s.past.exits
              && (s.past.exits[r.inc] == Exited(code) || s.past.exits[r.inc] == Killed(code - 128))
  {
    RunInv(allowed, steps);
    assert PidOk(Run(allowed, steps), pid);
  }

  class Config {
    var procs: map<Pid, Proc>
    const capabilities: set<Cap>

    constructor (capabilities: set<Cap>)
      ensures procs == Init().table && this.capabilities == capabilities
    {
      procs := map[];
      this.capabilities := capabilities;
    }

    /** A request with one capability that is not allowed is refused. */
    method CheckCapabilities(caps: seq<Cap>) returns (denied: Option<Cap>)
      ensures denied.None? <==> (set c | c in caps) <= capabilities
      ensures denied.Some? ==> denied.value in caps && denied.value !in capabilities
    {
      for k := 0 to |caps|
        invariant forall j :: 0 <= j < k ==> caps[j] in capabilities
      {
        if caps[k] !in capabilities { return Some(caps[k]); }
      }
      return None;
    }

    /** The end of a start request, at any point of any run: the record goes in unless its status is
        not wanted, under a number no record had; no other record changes. */
    method PostProcs(pid: Pid, proc: Proc, ignoreStatus: bool, ghost allowed: set<Cap>, ghost steps: seq<Step>)
      requires var s := Run(allowed, steps);
               procs == s.table && s.lock == Some(pid) && !s.stopped && pid in s.pending &&
                 s.pending[pid] == Pending(proc, ByPost(!ignoreStatus))
      modifies this
      ensures procs == Run(allowed, steps + [PostInsert]).table
      ensures pid !in old(procs) && (pid in procs <==> !ignoreStatus) &&
              (pid in procs ==> procs[pid] == proc && proc.state.Running?)
      ensures forall q :: q != pid ==> (q in procs <==> q in old(procs)) && (q in procs ==> procs[q] == old(procs)[q])
    {
      assert (steps + [PostInsert])[..|steps|] == steps;
      RunInv(allowed, steps);
      assert PidOk(Run(allowed, steps), pid);
      if !ignoreStatus { procs := procs[pid := proc]; }
    }

    /** One reaped child: its status is noted; a required process stops init; otherwise it may be
        restarted. */
    method ReapChild(pid: Pid, status: ProcState) returns (stop: bool, restart: Option<Spec>)
      modifies this
      ensures procs == RecordExit(old(procs), pid, status)
      ensures stop <==> pid in old(procs) && old(procs)[pid].spec.required
      ensures restart == RestartNow(old(procs), pid)
      ensures restart.Some? <==>
              pid in old(procs) &&
              var spec := old(procs)[pid].spec;
              && !spec.required && spec.restart
              && !(|spec.events| == 5 && Elapsed(spec.events[0], spec.events[4]) < 10)
      ensures restart.Some? ==> restart.value == old(procs)[pid].spec
    {
      stop, restart := false, None;
      if pid in procs { MayRestartIff(procs[pid]); }
      if pid in procs {
        var p := procs[pid];
        procs := procs[pid := p.(state := status)];
        if p.spec.required { stop := true; }
        else if MayRestart(p.spec.restart, p.spec.events) { restart := Some(p.spec); }
      }
    }

    /** The loop over the children that waitpid returns. */
    method ReapChildren(exits: seq<(Pid, ProcState)>) returns (n: nat, stopped: bool, restarts: seq<(Pid, Spec)>)
      modifies this
      ensures n == HandledExits(old(procs), exits)
      ensures procs == RecordExits(old(procs), exits[..n])
      ensures restarts == RestartsOf(old(procs), exits[..n])
      ensures !stopped ==> n == |exits|
      ensures stopped ==> n > 0 && IsRequired(old(procs), exits[n - 1].0)
      ensures forall k :: 0 <= k < (if stopped then n - 1 else |exits|) ==> !IsRequired(old(procs), exits[k].0)
    {
      ghost var start := procs;
      n, stopped, restarts := 0, false, [];
      assert exits[0..] == exits;
      while n < |exits| && !stopped
        invariant n <= |exits|
        invariant procs == RecordExits(start, exits[..n]) && restarts == RestartsOf(start, exits[..n])
        invariant forall pid :: IsRequired(procs, pid) <==> IsRequired(start, pid)
        invariant stopped ==> n > 0 && IsRequired(start, exits[n - 1].0)
        invariant forall k :: 0 <= k < (if stopped then n - 1 else n) ==> !IsRequired(start, exits[k].0)
        invariant HandledExits(start, exits) == n + if stopped then 0 else HandledExits(procs, exits[n..])
      {
        var stop, restart := ReapChild(exits[n].0, exits[n].1);
        assert exits[..n + 1] == exits[..n] + [exits[n]];
        RecordOneMore(start, exits[..n], exits[n]);
        if restart.Some? { restarts := restarts + [(exits[n].0, restart.value)]; }
        assert exits[n..][1..] == exits[n + 1..];
        n, stopped := n + 1, stop;
      }
    }

    /** The end of a restart task, at any point of any run: the record of the new process goes in,
        that of the old one out if it is still there, which is then dead and of the same line; no
        other record changes. */
    method RestartDone(current: Pid, pid: Pid, proc: Proc, ghost allowed: set<Cap>, ghost steps: seq<Step>)
      requires var s := Run(allowed, steps);
               procs == s.table && Enabled(s, allowed, Insert(pid)) &&
                 s.pending[pid] == Pending(proc, ByRestart(current))
      modifies this
      ensures procs == Run(allowed, steps + [Insert(pid)]).table
      ensures pid in procs && procs[pid] == proc && pid !in old(procs) && current !in procs
      ensures current in old(procs) ==>
              !old(procs)[current].state.Running? && old(procs)[current].spec.line == proc.spec.line
      ensures forall q :: q != pid && q != current ==>
              (q in procs <==> q in old(procs)) && (q in procs ==> procs[q] == old(procs)[q])
    {
      assert (steps + [Insert(pid)])[..|steps|] == steps;
      PendingIsApart(allowed, steps, pid, current);
      procs := procs - {current};
      procs := procs[pid := proc];
    }

    /** A terminal status is returned once, with its record removed; a signal counts from 128. */
    method ProcStatusGet(pid: Pid) returns (r: StatusReply)
      modifies this
      ensures procs == TakeStatus(old(procs), pid)
      ensures r == StatusOf(old(procs), pid)
      ensures r.Code? ==> old(procs)[pid].state == Exited(r.code) || old(procs)[pid].state == Killed(r.code - 128)
    {
      if pid !in procs { return NotFound; }
      match procs[pid].state
      case Exited(c) =>
        procs := procs - {pid};
        return Code(c);
      case Killed(s) =>
        procs := procs - {pid};
        return Code(s + 128);
      case Running =>
        return StillRunning;
    }
  }

  lemma PendingIsApart(allowed: set<Cap>, steps: seq<Step>, pid: Pid, prev: Pid)
    requires var s := Run(allowed, steps); pid in s.pending && s.pending[pid].origin == ByRestart(prev)
    ensures var s := Run(allowed, steps);
            && pid != prev && pid !in s.table
            && (prev in s.table ==>
                  !s.table[prev].state.Running? && s.table[prev].spec.line == s.pending[pid].proc.spec.line)
  {
    var s := Run(allowed, steps);
    RunInv(allowed, steps);
    assert PairOk(s, pid, prev) && PidOk(s, pid);
  }

  lemma {:induction false} RecordOneMore(table: map<Pid, Proc>, exits: seq<(Pid, ProcState)>, e: (Pid, ProcState))
    ensures RecordExits(table, exits + [e]) == RecordExit(RecordExits(table, exits), e.0, e.1)
    ensures var r := RestartNow(RecordExits(table, exits), e.0);
            RestartsOf(table, exits + [e]) == RestartsOf(table, exits) + if r.Some? then [(e.0, r.value)] else []
    decreases exits
  {
    if exits == [] {
      assert exits + [e] == [e];
      assert [e][1..] == [];
    } else {
      assert (exits + [e])[1..] == exits[1..] + [e];
      RecordOneMore(RecordExit(table, exits[0].0, exits[0].1), exits[1..], e);
    }
  }
}
