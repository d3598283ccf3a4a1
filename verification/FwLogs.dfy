/** Which packets are logged, run by run, when the log prefix goes to no group: the catch-all is then
    never found again, stays where it was written, and every later one comes on top. */
module FwLogs {
  import opened Wrappers
  import opened Netflow
  import opened NftCompile
  import opened NftChain
  import opened FwTool
  import opened FwVerdicts
  import opened FwToolTheorems

  // ----- what the calls say

  predicate Decides(c: Call, p: Packet) {
    match c
    case SetFlow(f, _, _) => CallHas(f, p)
    case SetRelated(_) => p.established
    case SetDefault(_) => false
    case Flush => false
  }

  /** The first call that decides the packet. */
  function Decider(calls: seq<Call>, p: Packet): (k: nat)
    ensures k <= |calls|
    ensures k < |calls| ==> Decides(calls[k], p)
    ensures forall j :: 0 <= j < k ==> !Decides(calls[j], p)
  {
    if calls == [] || Decides(calls[0], p) then 0
    else
      assert forall j :: 0 < j < |calls| ==> calls[j] == calls[1..][j - 1];
      1 + Decider(calls[1..], p)
  }

  /** How many calls turned the default from "accept" to "drop". */
  function Falls(calls: seq<Call>): nat {
    if calls == [] then 0
    else
      var before := calls[..|calls| - 1];
      Falls(before) + if calls[|calls| - 1] == SetDefault(Deny) && LastDefault(before) == Allow then 1 else 0
  }

  /** The verdict of a call, if it is one of the calls, and how often a packet it decides is logged. */
  function At(calls: seq<Call>, k: nat): (Option<Policy>, nat)
    requires k < |calls| ==> !calls[k].Flush?
  {
    if k >= |calls| then (None, Falls(calls))
    else (Some(calls[k].policy), Falls(calls[..k]) + if calls[k].policy == Deny then 1 else 0)
  }

  /** The verdict of the calls on a packet, if any, and how many times they have it logged. */
  function Expected(calls: seq<Call>, p: Packet): (Option<Policy>, nat) { At(calls, Decider(calls, p)) }

  lemma PrefixSame(calls: seq<Call>, last: Call, k: nat)
    requires k <= |calls|
    ensures (calls + [last])[..k] == calls[..k] && calls[..|calls|] == calls
  {
  }

  lemma AtBefore(calls: seq<Call>, last: Call, k: nat)
    requires k < |calls| && !calls[k].Flush?
    ensures (calls + [last])[k] == calls[k] && At(calls + [last], k) == At(calls, k)
  {
    PrefixSame(calls, last, k);
  }

  lemma AtLast(calls: seq<Call>, last: Call)
    requires !last.Flush?
    ensures At(calls + [last], |calls|) == (Some(last.policy), Falls(calls) + if last.policy == Deny then 1 else 0)
  {
    PrefixSame(calls, last, |calls|);
    assert (calls + [last])[|calls|] == last;
  }

  lemma DeciderAppend(calls: seq<Call>, last: Call, p: Packet)
    ensures Decider(calls + [last], p) ==
            if Decider(calls, p) < |calls| then Decider(calls, p) else if Decides(last, p) then |calls| else |calls| + 1
  {
    var all, k := calls + [last], Decider(calls + [last], p);
    assert forall j :: 0 <= j < |calls| ==> all[j] == calls[j];
    assert all[|calls|] == last;
  }

  // ----- a list of rules on one packet

  /** The verdict a list of rules gives, if any, and how many times it logs. */
  function Scan(bs: seq<Body>, p: Packet): (Option<Policy>, nat) {
    if bs == [] then (None, 0)
    else if !AllMatch(bs[0].matches, p) then Scan(bs[1..], p)
    else
      var (v, n) := RunStmts(bs[0].stmts);
      if v.Some? then (v, n) else var (w, m) := Scan(bs[1..], p); (w, m + n)
  }

  lemma {:induction false} WalkIsScan(bs: seq<Body>, policy: Policy, p: Packet)
    ensures Walk(bs, policy, p) == Outcome(if Scan(bs, p).0.Some? then Scan(bs, p).0.value else policy, Scan(bs, p).1)
    decreases bs
  {
    if bs != [] { WalkIsScan(bs[1..], policy, p); }
  }

  lemma {:induction false} ScanConcat(a: seq<Body>, b: seq<Body>, p: Packet)
    ensures Scan(a + b, p) == Then(Scan(a, p), Scan(b, p))
    decreases a
  {
    if a == [] {
      assert a + b == b;
    } else {
      assert (a + b)[1..] == a[1..] + b;
      ScanConcat(a[1..], b, p);
    }
  }

  lemma EntryScan(spec: Spec, e: Entry, p: Packet)
    ensures Scan(RenderEntry(spec, e), p) ==
            if EntryHas(e, p) then (Some(e.policy), EntryOutcome(e, spec).logs) else (None, 0)
  {
    var bs := RenderEntry(spec, e);
    assert bs + [] == bs;
    EntryWalk(spec, e, [], Allow, p);
    EntryWalk(spec, e, [], Deny, p);
    WalkIsScan(bs, Allow, p);
    WalkIsScan(bs, Deny, p);
  }

  lemma CatchAllScan(spec: LogSpec, p: Packet)
    ensures Scan([CatchAll(spec)], p) == (None, 1)
  {
    assert [CatchAll(spec)][1..] == [] && RunStmts([LogStmt(spec)]) == (None, 1);
  }

  // ----- every call keeps the count

  /** One part of a list of rules after another. */
  function Then(a: (Option<Policy>, nat), b: (Option<Policy>, nat)): (Option<Policy>, nat) {
    if a.0.Some? then a else (b.0, a.1 + b.1)
  }

  /** What one more call adds. */
  function Own(calls: seq<Call>, last: Call, p: Packet): (Option<Policy>, nat) {
    if Decides(last, p) then (Some(last.policy), if last.policy == Deny then 1 else 0)
    else (None, if last == SetDefault(Deny) && LastDefault(calls) == Allow then 1 else 0)
  }

  lemma ExpectedAppend(calls: seq<Call>, last: Call, p: Packet)
    ensures Expected(calls + [last], p) == Then(Expected(calls, p), Own(calls, last, p))
  {
    var k := Decider(calls, p);
    DeciderAppend(calls, last, p);
    FallsAppend(calls, last);
    if k < |calls| { AtBefore(calls, last, k); }
    else if Decides(last, p) { AtLast(calls, last); }
  }

  ghost predicate Counts(c: Chain, calls: seq<Call>, p: Packet) { Scan(Bodies(c.rules), p) == Expected(calls, p) }

  lemma CountsOn(c: Chain, d: Chain, calls: seq<Call>, last: Call, p: Packet, bs: seq<Body>)
    requires Counts(c, calls, p) && Bodies(d.rules) == Bodies(c.rules) + bs && Scan(bs, p) == Own(calls, last, p)
    ensures Counts(d, calls + [last], p)
  {
    ScanConcat(Bodies(c.rules), bs, p);
    ExpectedAppend(calls, last, p);
  }

  lemma FallsAppend(calls: seq<Call>, last: Call)
    ensures Falls(calls + [last]) ==
            Falls(calls) + if last == SetDefault(Deny) && LastDefault(calls) == Allow then 1 else 0
  {
    assert (calls + [last])[..|calls|] == calls;
  }

  lemma DefaultCounts(c: Chain, spec: LogSpec, calls: seq<Call>, policy: Policy, p: Packet)
    requires Counts(c, calls, p) && HandlesFresh(c) && c.policy == LastDefault(calls)
    requires forall k :: 0 <= k < |c.rules| ==> !IsDenyLog(c.rules[k].body, Some(spec))
    ensures Counts(SetDefaultPolicy(c, Some(spec), policy), calls + [SetDefault(policy)], p)
  {
    var d := c.(policy := policy);
    NotFound(c, Some(spec));
    FallsAppend(calls, SetDefault(policy));
    if policy == Deny && c.policy == Allow {
      CatchAllScan(spec, p);
      AppendBodies(d, [CatchAll(spec)]);
      AddIsPut(d, CatchAll(spec));
      CountsOn(c, AddRule(d, CatchAll(spec)), calls, SetDefault(policy), p, [CatchAll(spec)]);
    } else {
      CountsOn(c, d, calls, SetDefault(policy), p, []);
    }
  }

  /** The decision a call that sets a flow or related connections stands for. */
  function EntryOf(last: Call): Entry
    requires last.SetFlow? || last.SetRelated?
  {
    if last.SetFlow? then FlowEntry(last.flow, last.policy, last.logIfDeny) else RelatedEntry(last.policy)
  }

  lemma OwnIsWritten(spec: LogSpec, calls: seq<Call>, last: Call, p: Packet)
    requires last == SetRelated(Allow) || (last.SetFlow? && last.logIfDeny)
    ensures Scan(RenderEntry(Some(spec), EntryOf(last)), p) == Own(calls, last, p)
  {
    EntryScan(Some(spec), EntryOf(last), p);
    assert EntryHas(EntryOf(last), p) <==> Decides(last, p);
  }

  lemma EntryCounts(c: Chain, spec: LogSpec, calls: seq<Call>, last: Call, p: Packet)
    requires Counts(c, calls, p) && HandlesFresh(c)
    requires forall k :: 0 <= k < |c.rules| ==> !IsDenyLog(c.rules[k].body, Some(spec))
    requires last == SetRelated(Allow) || (last.SetFlow? && last.logIfDeny)
    ensures Counts(PutAll(c, DenyLogHandle(c, Some(spec)), RenderEntry(Some(spec), EntryOf(last))), calls + [last], p)
  {
    var bs := RenderEntry(Some(spec), EntryOf(last));
    NotFound(c, Some(spec));
    AppendBodies(c, bs);
    OwnIsWritten(spec, calls, last, p);
    CountsOn(c, PutAll(c, None, bs), calls, last, p, bs);
  }

  /** A decision on related connections comes from a call that set it. */
  lemma {:induction false} RelatedWasSet(spec: Spec, calls: seq<Call>)
    requires LoggingCalls(calls)
    ensures RelatedEntry(Allow) in RunIntent(spec, calls).entries ==> SetRelated(Allow) in calls
    decreases calls
  {
    if calls != [] {
      var before, last := calls[..|calls| - 1], calls[|calls| - 1];
      forall c | c in before ensures c in calls {}
      assert last in calls;
      RelatedWasSet(spec, before);
    }
  }

  lemma RelatedFound(c: Chain, spec: Spec, i: Intent)
    requires CarriesVerdicts(c, spec, i)
    ensures FindRelated(Bodies(c.rules)) < |c.rules| ==> RelatedEntry(Allow) in i.entries
  {
    RelatedIsAt(spec, i.entries, []);
    assert RenderEntries(spec, i.entries) + [] == Deciding(Bodies(c.rules));
    RelatedAmongDeciding(Bodies(c.rules), RelatedBody(Allow));
  }

  lemma RelatedCounts(spec: LogSpec, calls: seq<Call>, p: Packet)
    requires spec.group.None? && LoggingCalls(calls) && Counts(Run(Some(spec), calls), calls, p)
    ensures Counts(SetRelatedPolicy(Run(Some(spec), calls), Some(spec), Allow), calls + [SetRelated(Allow)], p)
  {
    var c := Run(Some(spec), calls);
    RunVerdicts(Some(spec), calls);
    if FindRelated(Bodies(c.rules)) == |c.rules| {
      EntryCounts(c, spec, calls, SetRelated(Allow), p);
    } else {
      RelatedFound(c, Some(spec), RunIntent(Some(spec), calls));
      RelatedWasSet(Some(spec), calls);
      SetAgain(calls, SetRelated(Allow), p);
    }
  }

  /** A call made a second time decides nothing more. */
  lemma SetAgain(calls: seq<Call>, last: Call, p: Packet)
    requires last in calls && !last.SetDefault?
    ensures Expected(calls + [last], p) == Expected(calls, p)
  {
    var j :| 0 <= j < |calls| && calls[j] == last;
    ExpectedAppend(calls, last, p);
    FallsAppend(calls, last);
  }

  lemma {:induction false} RunCounts(spec: LogSpec, calls: seq<Call>, p: Packet)
    requires spec.group.None? && LoggingCalls(calls)
    ensures Counts(Run(Some(spec), calls), calls, p)
    decreases calls
  {
    if calls != [] {
      var before, last := calls[..|calls| - 1], calls[|calls| - 1];
      forall c | c in before ensures c in calls {}
      assert last in calls && before + [last] == calls;
      RunCounts(spec, before, p);
      StepCounts(spec, before, last, p);
    }
  }

  lemma StepCounts(spec: LogSpec, calls: seq<Call>, last: Call, p: Packet)
    requires spec.group.None? && LoggingCalls(calls) && LoggingCall(last) && Counts(Run(Some(spec), calls), calls, p)
    ensures Counts(Apply(Run(Some(spec), calls), Some(spec), last), calls + [last], p)
  {
    RunVerdicts(Some(spec), calls);
    RunDefault(Some(spec), calls);
    match last
    case SetDefault(policy) => DefaultCounts(Run(Some(spec), calls), spec, calls, policy, p);
    case SetRelated(_) => RelatedCounts(spec, calls, p);
    case SetFlow(_, _, _) => EntryCounts(Run(Some(spec), calls), spec, calls, last, p);
  }

  // ----- main results

  /** Without a group, a packet is logged once for every time the default had turned to "drop" before
      the first call that decides the packet, and once more if that call drops it. */
  lemma UngroupedLogs(spec: LogSpec, calls: seq<Call>, p: Packet)
    requires spec.group.None? && LoggingCalls(calls)
    ensures var k, o := Decider(calls, p), Eval(Run(Some(spec), calls), p);
            if k < |calls|
            then o == Outcome(calls[k].policy, Falls(calls[..k]) + if calls[k].policy == Deny then 1 else 0)
            else o == Outcome(LastDefault(calls), Falls(calls))
  {
    RunCounts(spec, calls, p);
    RunDefault(Some(spec), calls);
    WalkIsScan(Bodies(Run(Some(spec), calls).rules), LastDefault(calls), p);
  }

  /** Run by run: a packet is logged as it should be, once if dropped and else never, if and only if
      the default had not yet turned to "drop" at the call that decides it, or, with no such call, it
      turned once and stayed, or never did. */
  lemma LoggedRightlyIff(spec: LogSpec, calls: seq<Call>, p: Packet)
    requires spec.group.None? && LoggingCalls(calls)
    ensures var k, o := Decider(calls, p), Eval(Run(Some(spec), calls), p);
            o.logs == (if o.policy == Deny then 1 else 0) <==>
            if k < |calls| then SetDefault(Deny) !in calls[..k]
            else Falls(calls) == if LastDefault(calls) == Deny then 1 else 0
  {
    UngroupedLogs(spec, calls, p);
    var k := Decider(calls, p);
    NoFall(calls[..k]);
  }

  lemma {:induction false} NoFall(calls: seq<Call>)
    ensures Falls(calls) == 0 <==> SetDefault(Deny) !in calls
    ensures SetDefault(Deny) !in calls ==> LastDefault(calls) == Allow
    decreases calls
  {
    if calls != [] {
      var before, last := calls[..|calls| - 1], calls[|calls| - 1];
      NoFall(before);
      assert calls == before + [last];
    }
  }

  // ----- where log lines go

  /** A log statement is to the group of the specification, under its prefix; without a group, under its
      prefix and a space. */
  predicate LogsTo(spec: Spec, stmt: Stmt) {
    stmt.Log? ==>
      spec.Some? && stmt.group == spec.value.group &&
      stmt.prefix == if spec.value.group.Some? then spec.value.prefix else spec.value.prefix + " "
  }

  predicate BodyLogs(spec: Spec, b: Body) { forall j :: 0 <= j < |b.stmts| ==> LogsTo(spec, b.stmts[j]) }

  predicate RulesLog(spec: Spec, rules: seq<Rule>) {
    forall k :: 0 <= k < |rules| ==> BodyLogs(spec, rules[k].body)
  }

  lemma PutLogs(spec: Spec, c: Chain, k: nat, b: Body)
    requires RulesLog(spec, c.rules) && BodyLogs(spec, b) && k <= |c.rules|
    ensures RulesLog(spec, PutAt(c, k, b).rules)
  {
    forall j | 0 <= j < |PutAt(c, k, b).rules| ensures BodyLogs(spec, PutAt(c, k, b).rules[j].body) {
      PutAtIndex(c, k, b, j);
    }
  }

  lemma {:induction false} PutAllLogs(spec: Spec, c: Chain, h: Option<nat>, bs: seq<Body>)
    requires RulesLog(spec, c.rules) && forall k :: 0 <= k < |bs| ==> BodyLogs(spec, bs[k])
    ensures RulesLog(spec, PutAll(c, h, bs).rules)
    decreases bs
  {
    if bs != [] {
      var k := if h.Some? then AtHandle(c.rules, h.value) else |c.rules|;
      PutLogs(spec, c, k, bs[0]);
      PutAllLogs(spec, PutAt(c, k, bs[0]), h, bs[1..]);
    }
  }

  lemma DeleteLogs(spec: Spec, c: Chain, h: nat)
    requires RulesLog(spec, c.rules)
    ensures RulesLog(spec, DeleteRule(c, h).rules)
  {
    var k := AtHandle(c.rules, h);
    if k < |c.rules| {
      forall j | 0 <= j < |c.rules| - 1 ensures BodyLogs(spec, DeleteRule(c, h).rules[j].body) {
        WithoutIndex(c, k, j);
      }
    }
  }

  lemma CallBodiesLog(spec: Spec, f: NetFlow, policy: Policy, log: bool)
    ensures var bs := CallBodies(spec, f, policy, log); forall k :: 0 <= k < |bs| ==> BodyLogs(spec, bs[k])
  {
    var stmts := FlowStmts(spec, policy, log);
    forall j | 0 <= j < |stmts| ensures LogsTo(spec, stmts[j]) {
      assert j < |stmts| - 1 ==> stmts[j] == LogStmt(spec.value);
      assert j == |stmts| - 1 ==> stmts[j] == Verdict(policy);
    }
  }

  lemma ApplyLogs(c: Chain, spec: Spec, call: Call)
    requires RulesLog(spec, c.rules)
    ensures RulesLog(spec, Apply(c, spec, call).rules)
  {
    match call
    case SetDefault(policy) =>
      var d, k := c.(policy := policy), FindDenyLog(Bodies(c.rules), spec);
      if policy == Deny && spec.Some? { PutLogs(spec, d, |d.rules|, CatchAll(spec.value)); }
      if policy == Allow && k < |c.rules| { DeleteLogs(spec, d, c.rules[k].handle); }
    case SetRelated(policy) => RelatedLogs(c, spec, policy);
    case SetFlow(f, policy, log) =>
      CallBodiesLog(spec, f, policy, log);
      PutAllLogs(spec, c, DenyLogHandle(c, spec), CallBodies(spec, f, policy, log));
    case Flush =>
  }

  lemma RelatedLogs(c: Chain, spec: Spec, policy: Policy)
    requires RulesLog(spec, c.rules)
    ensures RulesLog(spec, SetRelatedPolicy(c, spec, policy).rules)
  {
    var k, b := FindRelated(Bodies(c.rules)), RelatedBody(policy);
    if k == |c.rules| {
      PutAllLogs(spec, c, DenyLogHandle(c, spec), [b]);
    } else if policy == Deny {
      var h := c.rules[k].handle;
      PutLogs(spec, c, AtHandle(c.rules, h), b);
      DeleteLogs(spec, InsertRule(c, h, b), h);
    }
  }

  lemma {:induction false} RunLogs(spec: Spec, calls: seq<Call>)
    ensures RulesLog(spec, Run(spec, calls).rules)
    decreases calls
  {
    if calls != [] {
      RunLogs(spec, calls[..|calls| - 1]);
      ApplyLogs(Run(spec, calls[..|calls| - 1]), spec, calls[|calls| - 1]);
    }
  }

  /** After any run of calls, every log statement of every rule goes to the group of the specification,
      with its prefix, or with its prefix and a space if it has no group; without a specification there is
      none. */
  lemma LogsGoWhereAsked(spec: Spec, calls: seq<Call>, k: nat, j: nat)
    requires k < |Run(spec, calls).rules| && j < |Run(spec, calls).rules[k].body.stmts|
    ensures var stmt := Run(spec, calls).rules[k].body.stmts[j];
            stmt.Verdict? ||
            (spec.Some? && match spec.value
                           case LogSpec(prefix, Some(group)) => stmt == Log(prefix, Some(group))
                           case LogSpec(prefix, None) => stmt == Log(prefix + " ", None))
  {
    RunLogs(spec, calls);
    assert LogsTo(spec, Run(spec, calls).rules[k].body.stmts[j]);
  }
}
