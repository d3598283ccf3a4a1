/** What the firewall tool guarantees to its callers, and where it falls short. */
module FwToolTheorems {
  import opened Wrappers
  import opened Netflow
  import opened NftCompile
  import opened NftChain
  import opened FwTool
  import opened FwVerdicts

  // ----- one call on a flow

  /** Addresses only, and ports only together with protocols that have ports, named on the side
      that lists single ports. */
  predicate WellPorted(f: NetFlow) {
    && NftTakesZones(f.src) && NftTakesZones(f.dest)
    && PortsReadable(f.src) && PortsReadable(f.dest)
    && (NamesPorts(f.src) || NamesPorts(f.dest) ==>
          FlowProtocols(f).Some? && forall q <- FlowProtocols(f).value :: q.Tcp? || q.Udp?)
  }

  /** The call does not raise on any piece of the flow. */
  predicate CallAccepted(f: NetFlow) { CompiledPieces(SplitByProtocol(f)) == |SplitByProtocol(f)| }

  lemma PieceCompilable(f: NetFlow, q: Proto)
    requires FlowProtocols(f).Some?
    ensures Compilable(OneProtocol(f, q)) <==>
            && PortsReadable(f.src) && PortsReadable(f.dest) && NftTakesZones(f.src) && NftTakesZones(f.dest)
            && (NamesPorts(f.src) || NamesPorts(f.dest) ==> q.Tcp? || q.Udp?)
  {
    var g := OneProtocol(f, q);
    assert FlowProtocols(g) == Some([q]);
    assert q in [q];
    assert g.src.zones == f.src.zones && g.dest.zones == f.dest.zones;
  }

  /** Without raising, all pieces are compiled. */
  lemma AllPiecesCompile(f: NetFlow)
    requires FlowValid(f)
    ensures CallAccepted(f) <==> forall i :: 0 <= i < |SplitByProtocol(f)| ==> Compilable(SplitByProtocol(f)[i])
  {
  }

  lemma AcceptedWhen(f: NetFlow)
    requires FlowValid(f)
    ensures CallAccepted(f) <==>
            && PortsReadable(f.src) && PortsReadable(f.dest) && NftTakesZones(f.src) && NftTakesZones(f.dest)
            && PortsAllowed(f, FlowProtocols(f))
  {
    var ps, fs := FlowProtocols(f), SplitByProtocol(f);
    AllPiecesCompile(f);
    if ps.None? || |ps.value| == 1 {
      assert fs == [f];
      assert CallAccepted(f) <==> Compilable(fs[0]);
    } else {
      var ds := Distinct(ps.value);
      assert |fs| == |ds| > 0;
      forall i | 0 <= i < |ds| ensures fs[i] == OneProtocol(f, ds[i]) && ds[i] in ps.value {
        assert ds[i] in ds;
      }
      forall i | 0 <= i < |ds| {
        PieceCompilable(f, ds[i]);
      }
      if CallAccepted(f) {
        assert Compilable(fs[0]);
        forall q | q in ps.value && (NamesPorts(f.src) || NamesPorts(f.dest)) ensures q.Tcp? || q.Udp? {
          assert q in ds;
          var i :| 0 <= i < |ds| && ds[i] == q;
          assert Compilable(fs[i]);
        }
      }
    }
  }

  lemma PieceEffective(f: NetFlow, i: nat)
    requires FlowValid(f) && WellPorted(f) && i < |SplitByProtocol(f)|
    ensures Effective(SplitByProtocol(f)[i]) == SplitByProtocol(f)[i]
  {
    var ps := FlowProtocols(f);
    if ps.Some? && |ps.value| > 1 {
      var q := Distinct(ps.value)[i];
      assert FlowProtocols(OneProtocol(f, q)) == Some([q]);
    }
  }

  /** A call returns without raising and decides exactly the packets of its flow, if and only if
      the flow lists addresses and gives ports only with protocols that have them. */
  lemma SetFlowExact(f: NetFlow)
    requires FlowValid(f)
    ensures CallAccepted(f) && (forall p :: CallHas(f, p) <==> FlowHas(f, p)) <==> WellPorted(f)
  {
    var ps, fs := FlowProtocols(f), SplitByProtocol(f);
    AcceptedWhen(f);
    if CallAccepted(f) && ps.None? {
      assert fs == [f];
      assert forall p :: CallHas(f, p) <==> FlowHas(Effective(fs[0]), p);
      assert Compilable(f);
      forall p ensures AllMatch(NftArgs(f), p) <==> CallHas(f, p) { ArgsMean(f, p); }
      CompileExact(f);
    } else if WellPorted(f) {
      forall p ensures CallHas(f, p) <==> FlowHas(f, p) {
        SplitKeepsPackets(f, p);
        forall i | 0 <= i < |fs| { PieceEffective(f, i); }
      }
    }
  }

  // ----- a run of calls on well-ported flows

  /** The first call whose flow has the packet. */
  function FirstCall(calls: seq<Call>, p: Packet): (k: nat)
    ensures k <= |calls|
    ensures k < |calls| ==> calls[k].SetFlow? && FlowHas(calls[k].flow, p)
    ensures forall j :: 0 <= j < k ==> !(calls[j].SetFlow? && FlowHas(calls[j].flow, p))
  {
    if calls == [] then 0
    else if calls[0].SetFlow? && FlowHas(calls[0].flow, p) then 0
    else 1 + FirstCall(calls[1..], p)
  }

  /** The last default policy set; a new chain accepts. */
  function LastDefault(calls: seq<Call>): Policy {
    if calls == [] then Allow
    else if calls[|calls| - 1].SetDefault? then calls[|calls| - 1].policy
    else LastDefault(calls[..|calls| - 1])
  }

  predicate PlainCalls(calls: seq<Call>) {
    forall c <- calls :: c.SetDefault? || (c.SetFlow? && FlowValid(c.flow) && WellPorted(c.flow))
  }

  ghost predicate SomeEntryHas(es: seq<Entry>, p: Packet) { exists e :: e in es && EntryHas(e, p) }

  lemma {:induction false} DecideAppend(i: Intent, spec: Spec, e: Entry, p: Packet)
    ensures Decide(i.(entries := i.entries + [e]), spec, p) ==
            if !SomeEntryHas(i.entries, p) && EntryHas(e, p) then EntryOutcome(e, spec) else Decide(i, spec, p)
    ensures !SomeEntryHas(i.entries, p) ==> Decide(i, spec, p).policy == i.default
    decreases |i.entries|
  {
    if i.entries == [] {
      assert (i.entries + [e])[1..] == [];
    } else {
      var j := i.(entries := i.entries[1..]);
      assert (i.entries + [e])[1..] == j.entries + [e];
      assert i.entries[0] in i.entries;
      assert forall x :: x in i.entries <==> x == i.entries[0] || x in j.entries;
      DecideAppend(j, spec, e, p);
    }
  }

  lemma FirstCallAppend(calls: seq<Call>, last: Call, p: Packet)
    ensures FirstCall(calls + [last], p) ==
            if FirstCall(calls, p) < |calls| then FirstCall(calls, p)
            else if last.SetFlow? && FlowHas(last.flow, p) then |calls| else |calls| + 1
  {
    var all, k := calls + [last], FirstCall(calls + [last], p);
    assert forall j :: 0 <= j < |calls| ==> all[j] == calls[j];
    assert all[|calls|] == last;
  }

  ghost predicate Agrees(i: Intent, spec: Spec, calls: seq<Call>, p: Packet) {
    var k := FirstCall(calls, p);
    && i.default == LastDefault(calls)
    && (SomeEntryHas(i.entries, p) <==> k < |calls|)
    && (k < |calls| ==> Decide(i, spec, p).policy == calls[k].policy)
  }

  lemma AgreesFlow(i: Intent, spec: Spec, calls: seq<Call>, c: Call, p: Packet)
    requires Agrees(i, spec, calls, p)
    requires c.SetFlow? && FlowValid(c.flow) && WellPorted(c.flow)
    ensures Agrees(Intend(i, spec, c), spec, calls + [c], p)
  {
    var e := FlowEntry(c.flow, c.policy, c.logIfDeny);
    SetFlowExact(c.flow);
    FirstCallAppend(calls, c, p);
    DecideAppend(i, spec, e, p);
    assert forall x :: x in i.entries + [e] <==> x in i.entries || x == e;
    assert (calls + [c])[..|calls|] == calls;
  }

  lemma AgreesDefault(i: Intent, spec: Spec, calls: seq<Call>, policy: Policy, p: Packet)
    requires Agrees(i, spec, calls, p)
    ensures Agrees(Intend(i, spec, SetDefault(policy)), spec, calls + [SetDefault(policy)], p)
  {
    FirstCallAppend(calls, SetDefault(policy), p);
    DefaultAside(i, spec, policy, p);
  }

  lemma {:induction false} PlainDecide(spec: Spec, calls: seq<Call>, p: Packet)
    requires PlainCalls(calls)
    ensures Agrees(RunIntent(spec, calls), spec, calls, p)
  {
    if calls != [] {
      var before, last := calls[..|calls| - 1], calls[|calls| - 1];
      forall c | c in before ensures c in calls {}
      assert last in calls && before + [last] == calls;
      PlainDecide(spec, before, p);
      if last.SetFlow? { AgreesFlow(RunIntent(spec, before), spec, before, last, p); }
      else { AgreesDefault(RunIntent(spec, before), spec, before, last.policy, p); }
    }
  }

  lemma {:induction false} DefaultAside(i: Intent, spec: Spec, policy: Policy, p: Packet)
    ensures SomeEntryHas(i.entries, p) ==>
            Decide(Intend(i, spec, SetDefault(policy)), spec, p) == Decide(i, spec, p)
    decreases |i.entries|
  {
    if SomeEntryHas(i.entries, p) && !EntryHas(i.entries[0], p) {
      assert forall x :: x in i.entries <==> x == i.entries[0] || x in i.entries[1..];
      DefaultAside(i.(entries := i.entries[1..]), spec, policy, p);
    }
  }

  /** End to end, through splitting, compilation and placement: after any run of calls setting
      flows and defaults, the chain treats a packet with the policy of the first call whose flow
      has it, and with the last default when there is none. Setting a flow again is covered (the
      earlier call still wins), and so is every log specification. */
  lemma FirstCallDecides(spec: Spec, calls: seq<Call>, p: Packet)
    requires PlainCalls(calls)
    ensures Eval(Run(spec, calls), p).policy ==
            var k := FirstCall(calls, p); if k < |calls| then calls[k].policy else LastDefault(calls)
  {
    ChainDecides(spec, calls, p);
    PlainDecide(spec, calls, p);
    DecideAppend(RunIntent(spec, calls), spec, RelatedEntry(Allow), p);
  }

  lemma {:induction false} SecondDecisionIgnored(i: Intent, spec: Spec, f: NetFlow, policy: Policy, log: bool,
      p: Packet)
    requires exists e :: e in i.entries && e.FlowEntry? && e.flow == f
    ensures Decide(Intend(i, spec, SetFlow(f, policy, log)), spec, p) == Decide(i, spec, p)
    decreases |i.entries|
  {
    var e :| e in i.entries && e.FlowEntry? && e.flow == f;
    if !EntryHas(i.entries[0], p) {
      var j := i.(entries := i.entries[1..]);
      assert (i.entries + [FlowEntry(f, policy, log)])[1..] == j.entries + [FlowEntry(f, policy, log)];
      if e in j.entries {
        SecondDecisionIgnored(j, spec, f, policy, log, p);
      } else {
        assert i.entries[0] == e && !CallHas(f, p);
        DecideAppend(j, spec, FlowEntry(f, policy, log), p);
      }
    }
  }

  /** A policy was given to the flow, and the chain not flushed since. */
  predicate HasPolicy(calls: seq<Call>, f: NetFlow) {
    calls != [] &&
    var last := calls[|calls| - 1];
    !last.Flush? && ((last.SetFlow? && last.flow == f) || HasPolicy(calls[..|calls| - 1], f))
  }

  lemma {:induction false} PolicyIsEntry(spec: Spec, calls: seq<Call>, f: NetFlow)
    requires HasPolicy(calls, f)
    ensures exists e :: e in RunIntent(spec, calls).entries && e.FlowEntry? && e.flow == f
    decreases calls
  {
    var before, last := calls[..|calls| - 1], calls[|calls| - 1];
    var i := RunIntent(spec, before);
    if last.SetFlow? && last.flow == f {
      assert FlowEntry(f, last.policy, last.logIfDeny) in RunIntent(spec, calls).entries;
    } else {
      PolicyIsEntry(spec, before, f);
      var e :| e in i.entries && e.FlowEntry? && e.flow == f;
      EntryStays(i, spec, last, e);
    }
  }

  lemma EntryStays(i: Intent, spec: Spec, call: Call, e: Entry)
    requires e in i.entries && e.FlowEntry? && !call.Flush?
    ensures e in Intend(i, spec, call).entries
  {
    var k :| 0 <= k < |i.entries| && i.entries[k] == e;
    if !call.SetDefault? { assert Intend(i, spec, call).entries[k] == e; }
  }

  /** Giving a new policy to a flow that already has one changes no packet's fate: the lookup of an
      existing rule reads the table name from the wrong object and never finds it, so the new rule
      is placed after the old one. */
  lemma SecondPolicyIgnored(spec: Spec, calls: seq<Call>, f: NetFlow, policy: Policy, log: bool, p: Packet)
    requires HasPolicy(calls, f)
    ensures var before, after := Eval(Run(spec, calls), p), Eval(Run(spec, calls + [SetFlow(f, policy, log)]), p);
            after.policy == before.policy && (Findable(spec) ==> after.logs == before.logs)
  {
    var more := calls + [SetFlow(f, policy, log)];
    assert more[..|calls|] == calls;
    PolicyIsEntry(spec, calls, f);
    SecondDecisionIgnored(RunIntent(spec, calls), spec, f, policy, log, p);
    ChainDecides(spec, calls, p);
    ChainDecides(spec, more, p);
    if Findable(spec) {
      ChainCarriesOutCalls(spec, calls, p);
      ChainCarriesOutCalls(spec, more, p);
    }
  }

  lemma {:induction false} RunDefault(spec: Spec, calls: seq<Call>)
    ensures Run(spec, calls).policy == LastDefault(calls)
    decreases calls
  {
    IntentDefault(spec, calls);
    if Unfindable(spec) { RunVerdicts(spec, calls); } else { RunCarries(spec, calls); }
  }

  lemma {:induction false} IntentDefault(spec: Spec, calls: seq<Call>)
    ensures RunIntent(spec, calls).default == LastDefault(calls)
    decreases calls
  {
    if calls != [] { IntentDefault(spec, calls[..|calls| - 1]); }
  }

  /** After a flush every packet gets the last default, unlogged, whatever was set before. */
  lemma FlushLeavesDefault(spec: Spec, calls: seq<Call>, p: Packet)
    ensures Eval(Run(spec, calls + [Flush]), p) == Outcome(LastDefault(calls), 0)
  {
    assert (calls + [Flush])[..|calls|] == calls;
    RunDefault(spec, calls);
  }

  // ----- logging

  /** Calls after which drops are meant to be logged. */
  predicate LoggingCall(c: Call) { c.SetDefault? || c == SetRelated(Allow) || (c.SetFlow? && c.logIfDeny) }

  predicate LoggingCalls(calls: seq<Call>) { forall c <- calls :: LoggingCall(c) }

  /** Dropped packets are logged once, accepted ones never. */
  ghost predicate LogsDrops(spec: Spec, calls: seq<Call>) {
    forall p :: var o := Eval(Run(spec, calls), p); o.logs == if o.policy == Deny then 1 else 0
  }

  lemma {:induction false} LoggingIntent(spec: Spec, calls: seq<Call>)
    requires spec.Some? && LoggingCalls(calls)
    ensures var i := RunIntent(spec, calls);
            && (i.catchAll <==> i.default == Deny)
            && forall e <- i.entries :: e == RelatedEntry(Allow) || (e.FlowEntry? && e.logIfDeny)
  {
    if calls != [] {
      var before, last := calls[..|calls| - 1], calls[|calls| - 1];
      forall c | c in before ensures c in calls {}
      LoggingIntent(spec, before);
      assert last in calls;
    }
  }

  lemma {:induction false} DecideLogs(i: Intent, spec: Spec, p: Packet)
    requires spec.Some? && (i.catchAll <==> i.default == Deny)
    requires forall e <- i.entries :: e == RelatedEntry(Allow) || (e.FlowEntry? && e.logIfDeny)
    ensures var o := Decide(i, spec, p); o.logs == if o.policy == Deny then 1 else 0
    decreases |i.entries|
  {
    if i.entries != [] {
      assert i.entries[0] in i.entries;
      DecideLogs(i.(entries := i.entries[1..]), spec, p);
    }
  }

  /** The catch-all is there exactly when the default is to drop, once and at the end. */
  lemma CatchAllIsLast(spec: Spec, calls: seq<Call>)
    requires spec.Some? && spec.value.group.Some? && LoggingCalls(calls)
    ensures var c := Run(spec, calls);
            && (c.policy == Deny ==> c.rules != [])
            && forall k :: 0 <= k < |c.rules| ==>
               (IsDenyLog(c.rules[k].body, spec) <==> k == |c.rules| - 1 && c.policy == Deny)
  {
    var c, i := Run(spec, calls), RunIntent(spec, calls);
    RunCarries(spec, calls);
    LoggingIntent(spec, calls);
    LogIsLast(c, spec, i);
    assert forall k :: 0 <= k < |c.rules| ==> Bodies(c.rules)[k] == c.rules[k].body;
  }

  lemma UngroupedNotFound(spec: LogSpec)
    requires spec.group.None?
    ensures !IsDenyLog(CatchAll(spec), Some(spec))
    ensures Run(Some(spec), [SetDefault(Deny)]) == Chain([Rule(0, CatchAll(spec))], Deny, 1)
    ensures DenyLogHandle(Chain([Rule(0, CatchAll(spec))], Deny, 1), Some(spec)).None?
  {
    assert |spec.prefix + " "| != |spec.prefix|;
    assert [SetDefault(Deny)][..0] == [];
    assert Run(Some(spec), []) == Chain([], Allow, 0);
    assert Bodies([Rule(0, CatchAll(spec))]) == [CatchAll(spec)];
  }

  lemma RunTwo(spec: Spec, a: Call, b: Call)
    ensures Run(spec, [a, b]) == Apply(Run(spec, [a]), spec, b)
  {
    assert [a, b][..1] == [a];
  }

  lemma ApplyOneRule(c: Chain, spec: Spec, f: NetFlow, policy: Policy, b: Body)
    requires DenyLogHandle(c, spec).None? && CallBodies(spec, f, policy, true) == [b]
    ensures Apply(c, spec, SetFlow(f, policy, true)) == AddRule(c, b)
  {
    assert [b][1..] == [];
    assert PutAll(AddRule(c, b), None, []) == AddRule(c, b);
  }

  lemma UngroupedChain(spec: LogSpec)
    requires spec.group.None?
    ensures var r := Run(Some(spec), UngroupedCalls());
            r.policy == Deny && Bodies(r.rules) == [CatchAll(spec), Body([], [Verdict(Allow)])]
  {
    var s, b := Some(spec), Body([], [Verdict(Allow)]);
    UngroupedNotFound(spec);
    EveryFlowBody(s);
    RunTwo(s, SetDefault(Deny), SetFlow(EveryFlow(), Allow, true));
    ApplyOneRule(Chain([Rule(0, CatchAll(spec))], Deny, 1), s, EveryFlow(), Allow, b);
  }

  /** A log prefix without a group is written with a trailing space and never found again. Then
      a rule added after the default became "drop" lands behind the catch-all: packets it
      accepts are logged. */
  lemma UngroupedLogsAccepted(spec: LogSpec)
    requires spec.group.None?
    ensures LoggingCalls(UngroupedCalls())
    ensures !LogsDrops(Some(spec), UngroupedCalls())
  {
    var p := Packet(6, "", "", 0, 0, 0, 0, false);
    UngroupedChain(spec);
    LogThenAccept(CatchAll(spec), Body([], [Verdict(Allow)]), LogStmt(spec), p);
    assert Eval(Run(Some(spec), UngroupedCalls()), p) == Outcome(Allow, 1);
  }

  lemma LogThenAccept(log: Body, b: Body, stmt: Stmt, p: Packet)
    requires log == Body([], [stmt]) && stmt.Log? && b == Body([], [Verdict(Allow)])
    ensures Walk([log, b], Deny, p) == Outcome(Allow, 1)
  {
    assert [stmt][1..] == [];
    assert RunStmts([stmt]) == (None, 1);
    assert [log, b][1..] == [b];
    assert Walk([b], Deny, p) == Outcome(Allow, 0);
  }

  function EveryFlow(): NetFlow {
    NetFlow(Endpoint([AnyZone], None, None, None, None), Endpoint([AnyZone], None, None, None, None))
  }

  function UngroupedCalls(): seq<Call> { [SetDefault(Deny), SetFlow(EveryFlow(), Allow, true)] }

  lemma EveryFlowBody(s: Spec)
    ensures CallBodies(s, EveryFlow(), Allow, true) == [Body([], [Verdict(Allow)])]
  {
    var f := EveryFlow();
    assert SplitByProtocol(f) == [f];
    assert Compilable(f);
    assert CompiledPieces([f]) == 1;
    assert NftArgs(f) == [] && [f][..1] == [f];
    assert FlowStmts(s, Allow, true) == [Verdict(Allow)];
  }

  /** Over all runs, drops are logged once and accepted packets never, if and only if the log
      prefix goes to a group. */
  lemma LogsDropsIffGrouped(spec: LogSpec)
    ensures (forall calls | LoggingCalls(calls) :: LogsDrops(Some(spec), calls)) <==> spec.group.Some?
  {
    if spec.group.Some? {
      forall calls | LoggingCalls(calls) ensures LogsDrops(Some(spec), calls) {
        forall p ensures var o := Eval(Run(Some(spec), calls), p); o.logs == if o.policy == Deny then 1 else 0 {
          ChainCarriesOutCalls(Some(spec), calls, p);
          LoggingIntent(Some(spec), calls);
          DecideLogs(RunIntent(Some(spec), calls), Some(spec), p);
        }
      }
    } else {
      UngroupedLogsAccepted(spec);
    }
  }
}
