/** The firewall tool on one IPv4 chain (`padsi/fwlib/nft.py`): the edits each call makes, the
    list of decisions the calls stand for, and the proof that the chain carries it out. */
module FwTool {
  import opened Wrappers
  import opened Netflow
  import opened NftCompile
  import opened NftChain

  datatype Call =
    | SetDefault(policy: Policy)
    | SetRelated(policy: Policy)
    | SetFlow(flow: NetFlow, policy: Policy, logIfDeny: bool)
    | Flush

  type Spec = Option<LogSpec>

  // ----- rules written by the calls

  /** Without a group, the prefix is written with a trailing space. */
  function LogStmt(spec: LogSpec): Stmt {
    if spec.group.None? then Log(spec.prefix + " ", None) else Log(spec.prefix, spec.group)
  }

  function FlowStmts(spec: Spec, policy: Policy, logIfDeny: bool): seq<Stmt> {
    (if spec.Some? && policy == Deny && logIfDeny then [LogStmt(spec.value)] else []) + [Verdict(policy)]
  }

  /** The pieces of a flow up to the first one that raises. */
  function CompiledPieces(fs: seq<NetFlow>): (n: nat)
    ensures n <= |fs|
    ensures forall i :: 0 <= i < n ==> Compilable(fs[i])
    ensures n < |fs| ==> !Compilable(fs[n])
  {
    if fs == [] || !Compilable(fs[0]) then 0 else 1 + CompiledPieces(fs[1..])
  }

  function FlowBodies(fs: seq<NetFlow>, stmts: seq<Stmt>): seq<Body>
    requires forall i :: 0 <= i < |fs| ==> Compilable(fs[i])
  {
    seq(|fs|, i requires 0 <= i < |fs| => Body(NftArgs(fs[i]), stmts))
  }

  function RelatedBody(policy: Policy): Body { Body([CtRelated], [Verdict(policy)]) }

  function CatchAll(spec: LogSpec): Body { Body([], [LogStmt(spec)]) }

  // ----- lookups on a listing

  /** A rule that is one lone log statement, with the prefix of the tool when it has one. */
  predicate IsDenyLog(b: Body, spec: Spec) {
    && b.matches == [] && |b.stmts| == 1 && b.stmts[0].Log?
    && (spec.Some? ==> b.stmts[0].prefix == spec.value.prefix)
  }

  function FindDenyLog(bs: seq<Body>, spec: Spec): (k: nat)
    ensures k <= |bs|
    ensures k < |bs| ==> IsDenyLog(bs[k], spec)
    ensures forall j :: 0 <= j < k ==> !IsDenyLog(bs[j], spec)
  {
    if bs == [] || IsDenyLog(bs[0], spec) then 0 else 1 + FindDenyLog(bs[1..], spec)
  }

  /** A related-connections rule is recognised only with an `accept` verdict. */
  predicate IsRelatedAccept(b: Body) { CtRelated in b.matches && Verdict(Allow) in b.stmts }

  function FindRelated(bs: seq<Body>): (k: nat)
    ensures k <= |bs|
    ensures k < |bs| ==> IsRelatedAccept(bs[k])
    ensures forall j :: 0 <= j < k ==> !IsRelatedAccept(bs[j])
  {
    if bs == [] || IsRelatedAccept(bs[0]) then 0 else 1 + FindRelated(bs[1..])
  }

  // ----- the calls as edits of the chain

  function SetDefaultPolicy(c: Chain, spec: Spec, policy: Policy): Chain {
    var d := c.(policy := policy);
    if policy == c.policy then d
    else
      var k := FindDenyLog(Bodies(c.rules), spec);
      if policy == Deny then
        if spec.Some? && k == |c.rules| then AddRule(d, CatchAll(spec.value)) else d
      else if k < |c.rules| then DeleteRule(d, c.rules[k].handle) else d
  }

  /** Put rules one after the other just before the catch-all, or at the end without one. */
  function PutAll(c: Chain, h: Option<nat>, bs: seq<Body>): Chain
    decreases bs
  {
    if bs == [] then c
    else PutAll(if h.Some? then InsertRule(c, h.value, bs[0]) else AddRule(c, bs[0]), h, bs[1..])
  }

  function DenyLogHandle(c: Chain, spec: Spec): Option<nat> {
    var k := FindDenyLog(Bodies(c.rules), spec);
    if k < |c.rules| then Some(c.rules[k].handle) else None
  }

  function SetRelatedPolicy(c: Chain, spec: Spec, policy: Policy): Chain {
    var k := FindRelated(Bodies(c.rules));
    if k == |c.rules| then PutAll(c, DenyLogHandle(c, spec), [RelatedBody(policy)])
    else if policy == Allow then c
    else
      var h := c.rules[k].handle;
      DeleteRule(InsertRule(c, h, RelatedBody(policy)), h)
  }

  function CallBodies(spec: Spec, f: NetFlow, policy: Policy, logIfDeny: bool): seq<Body> {
    var fs := SplitByProtocol(f);
    FlowBodies(fs[..CompiledPieces(fs)], FlowStmts(spec, policy, logIfDeny))
  }

  function Apply(c: Chain, spec: Spec, call: Call): Chain {
    match call
    case SetDefault(policy) => SetDefaultPolicy(c, spec, policy)
    case SetRelated(policy) => SetRelatedPolicy(c, spec, policy)
    case SetFlow(f, policy, log) => PutAll(c, DenyLogHandle(c, spec), CallBodies(spec, f, policy, log))
    case Flush => FlushRules(c)
  }

  /** A new chain accepts by default; then the calls, in order. */
  function Run(spec: Spec, calls: seq<Call>): Chain {
    if calls == [] then Chain([], Allow, 0)
    else Apply(Run(spec, calls[..|calls| - 1]), spec, calls[|calls| - 1])
  }

  // ----- what the calls stand for

  datatype Entry =
    | FlowEntry(flow: NetFlow, policy: Policy, logIfDeny: bool)
    | RelatedEntry(policy: Policy)

  /** Decisions in order of precedence, the default, and whether packets that reach the
      default are logged. */
  datatype Intent = Intent(entries: seq<Entry>, default: Policy, catchAll: bool)

  /** The first accept decision on related connections. */
  function FirstRelated(es: seq<Entry>): (k: nat)
    ensures k <= |es|
    ensures k < |es| ==> es[k] == RelatedEntry(Allow)
    ensures RelatedEntry(Allow) in es ==> k < |es|
  {
    if es == [] || es[0] == RelatedEntry(Allow) then 0 else 1 + FirstRelated(es[1..])
  }

  function Intend(i: Intent, spec: Spec, call: Call): Intent {
    match call
    case SetDefault(policy) =>
      if policy == i.default then i else i.(default := policy, catchAll := policy == Deny && spec.Some?)
    case SetRelated(policy) =>
      var k := FirstRelated(i.entries);
      if k < |i.entries| then i.(entries := i.entries[k := RelatedEntry(policy)])
      else i.(entries := i.entries + [RelatedEntry(policy)])
    case SetFlow(f, policy, log) => i.(entries := i.entries + [FlowEntry(f, policy, log)])
    case Flush => i.(entries := [], catchAll := false)
  }

  function RunIntent(spec: Spec, calls: seq<Call>): Intent {
    if calls == [] then Intent([], Allow, false)
    else Intend(RunIntent(spec, calls[..|calls| - 1]), spec, calls[|calls| - 1])
  }

  /** The packets a call on a flow decides. */
  predicate CallHas(f: NetFlow, p: Packet) {
    var fs := SplitByProtocol(f);
    exists i :: 0 <= i < CompiledPieces(fs) && FlowHas(Effective(fs[i]), p)
  }

  predicate EntryHas(e: Entry, p: Packet) {
    match e
    case FlowEntry(f, _, _) => CallHas(f, p)
    case RelatedEntry(_) => p.established
  }

  function EntryOutcome(e: Entry, spec: Spec): Outcome {
    Outcome(e.policy, if e.FlowEntry? && spec.Some? && e.policy == Deny && e.logIfDeny then 1 else 0)
  }

  /** First decision that has the packet, else the default. */
  function Decide(i: Intent, spec: Spec, p: Packet): Outcome
    decreases |i.entries|
  {
    if i.entries == [] then Outcome(i.default, if i.catchAll then 1 else 0)
    else if EntryHas(i.entries[0], p) then EntryOutcome(i.entries[0], spec)
    else Decide(i.(entries := i.entries[1..]), spec, p)
  }

  // ----- the chain a list of decisions is written as

  function RenderEntry(spec: Spec, e: Entry): seq<Body> {
    match e
    case FlowEntry(f, policy, log) => CallBodies(spec, f, policy, log)
    case RelatedEntry(policy) => [RelatedBody(policy)]
  }

  function Blocks(spec: Spec, es: seq<Entry>): (bb: seq<seq<Body>>)
    ensures |bb| == |es|
    ensures forall k :: 0 <= k < |es| ==> bb[k] == RenderEntry(spec, es[k])
  {
    seq(|es|, k requires 0 <= k < |es| => RenderEntry(spec, es[k]))
  }

  function RenderEntries(spec: Spec, es: seq<Entry>): seq<Body> { Flatten(Blocks(spec, es)) }

  function Tail(spec: Spec, i: Intent): seq<Body> {
    if i.catchAll && spec.Some? then [CatchAll(spec.value)] else []
  }

  function Render(spec: Spec, i: Intent): seq<Body> { RenderEntries(spec, i.entries) + Tail(spec, i) }

  /** No written decision looks like the catch-all, and only related decisions mention
      connection tracking. */
  lemma FlowBodyShape(spec: Spec, f: NetFlow, policy: Policy, log: bool, b: Body)
    requires b in CallBodies(spec, f, policy, log)
    ensures !IsDenyLog(b, spec) && !IsRelatedAccept(b)
  {
    var fs := SplitByProtocol(f);
    var i :| 0 <= i < CompiledPieces(fs) && b == Body(NftArgs(fs[i]), FlowStmts(spec, policy, log));
    ArgsHaveNoCt(fs[i]);
    assert b.stmts[|b.stmts| - 1] == Verdict(policy);
  }

  lemma EntryBodies(spec: Spec, e: Entry, b: Body)
    requires b in RenderEntry(spec, e)
    ensures !IsDenyLog(b, spec)
    ensures IsRelatedAccept(b) <==> e == RelatedEntry(Allow)
  {
    match e
    case FlowEntry(f, policy, log) => FlowBodyShape(spec, f, policy, log, b);
    case RelatedEntry(policy) =>
      assert b == RelatedBody(policy);
      assert b.matches[0] == CtRelated && b.stmts[0] == Verdict(policy);
  }

  lemma EntriesHaveNoLog(spec: Spec, es: seq<Entry>)
    ensures forall b <- RenderEntries(spec, es) :: !IsDenyLog(b, spec)
  {
    forall b | b in RenderEntries(spec, es) ensures !IsDenyLog(b, spec) {
      var k := FlattenMember(Blocks(spec, es), b);
      EntryBodies(spec, es[k], b);
    }
  }

  // ----- each call keeps the chain equal to the written decisions

  ghost predicate Findable(spec: Spec) { spec.Some? ==> spec.value.group.Some? }

  ghost predicate Carries(c: Chain, spec: Spec, i: Intent) {
    && HandlesFresh(c) && c.policy == i.default
    && (i.catchAll ==> i.default == Deny && spec.Some?)
    && Bodies(c.rules) == Render(spec, i)
  }

  lemma LogIsLast(c: Chain, spec: Spec, i: Intent)
    requires Findable(spec) && Carries(c, spec, i)
    ensures FindDenyLog(Bodies(c.rules), spec) == |RenderEntries(spec, i.entries)|
    ensures |c.rules| == |RenderEntries(spec, i.entries)| + if i.catchAll then 1 else 0
  {
    var es, bs := RenderEntries(spec, i.entries), Bodies(c.rules);
    EntriesHaveNoLog(spec, i.entries);
    assert forall j :: 0 <= j < |es| ==> bs[j] == es[j] && es[j] in es;
    if i.catchAll {
      assert bs[|es|] == CatchAll(spec.value);
      assert IsDenyLog(bs[|es|], spec);
    }
  }

  /** Rules put before a rule with a known handle, or at the end, stay in order. */
  lemma {:induction false} PutAllBodies(c: Chain, k: nat, bs: seq<Body>)
    requires HandlesFresh(c) && k <= |c.rules|
    ensures var h := if k < |c.rules| then Some(c.rules[k].handle) else None;
            var d := PutAll(c, h, bs);
            && HandlesFresh(d) && d.policy == c.policy
            && Bodies(d.rules) == Bodies(c.rules)[..k] + bs + Bodies(c.rules)[k..]
    decreases bs
  {
    if bs != [] {
      var d := PutAt(c, k, bs[0]);
      PutAtBodies(c, k, bs[0]);
      if k < |c.rules| { HandleIsAt(c, k); }
      PutAllBodies(d, k + 1, bs[1..]);
      PutSeq(Bodies(c.rules), k, bs);
    }
  }

  lemma PutSeq(s: seq<Body>, k: nat, bs: seq<Body>)
    requires k <= |s| && bs != []
    ensures var t := s[..k] + [bs[0]] + s[k..]; t[..k + 1] + bs[1..] + t[k + 1..] == s[..k] + bs + s[k..]
  {
  }

  lemma RenderAppend(spec: Spec, es: seq<Entry>, e: Entry)
    ensures RenderEntries(spec, es + [e]) == RenderEntries(spec, es) + RenderEntry(spec, e)
  {
    var bs := RenderEntry(spec, e);
    assert Blocks(spec, es + [e]) == Blocks(spec, es) + [bs];
    FlattenConcat(Blocks(spec, es), [bs]);
    FlattenOne(bs);
  }

  lemma AppendCarries(c: Chain, spec: Spec, i: Intent, e: Entry)
    requires Findable(spec) && Carries(c, spec, i)
    ensures Carries(PutAll(c, DenyLogHandle(c, spec), RenderEntry(spec, e)), spec, i.(entries := i.entries + [e]))
  {
    var es, bs := RenderEntries(spec, i.entries), RenderEntry(spec, e);
    LogIsLast(c, spec, i);
    PutAllBodies(c, |es|, bs);
    RenderAppend(spec, i.entries, e);
    assert Bodies(c.rules)[..|es|] == es;
    assert Bodies(c.rules)[|es|..] == Tail(spec, i);
  }

  lemma DefaultCarries(c: Chain, spec: Spec, i: Intent, policy: Policy)
    requires Findable(spec) && Carries(c, spec, i)
    ensures Carries(SetDefaultPolicy(c, spec, policy), spec, Intend(i, spec, SetDefault(policy)))
  {
    var es, d := RenderEntries(spec, i.entries), c.(policy := policy);
    LogIsLast(c, spec, i);
    if policy != c.policy {
      if policy == Deny {
        if spec.Some? { PutAtBodies(d, |d.rules|, CatchAll(spec.value)); }
      } else if i.catchAll {
        DeleteBodies(d, |es|);
        assert Bodies(c.rules)[..|es|] + Bodies(c.rules)[|es| + 1..] == es;
      }
    }
  }

  lemma {:induction false} FindRelatedSkips(a: seq<Body>, b: seq<Body>)
    requires forall x <- a :: !IsRelatedAccept(x)
    ensures FindRelated(a + b) == |a| + FindRelated(b)
  {
    if a == [] {
      assert a + b == b;
    } else {
      assert a[0] in a && (a + b)[0] == a[0] && (a + b)[1..] == a[1..] + b;
      FindRelatedSkips(a[1..], b);
    }
  }

  lemma NoRelated(bs: seq<Body>)
    requires forall x <- bs :: !IsRelatedAccept(x)
    ensures FindRelated(bs) == |bs|
  {
    FindRelatedSkips(bs, []);
    assert bs + [] == bs;
  }

  lemma FindRelatedAfter(pre: seq<Body>, x: Body, mid: seq<Body>, rest: seq<Body>)
    requires forall b <- pre :: !IsRelatedAccept(b)
    requires IsRelatedAccept(x)
    ensures FindRelated(pre + [x] + mid + rest) == |pre|
  {
    var after := [x] + mid + rest;
    assert pre + [x] + mid + rest == pre + after;
    FindRelatedSkips(pre, after);
    assert after[0] == x;
  }

  /** The first accept rule on related connections is where the first such decision is
      written. */
  lemma RelatedIsAt(spec: Spec, es: seq<Entry>, rest: seq<Body>)
    requires forall b <- rest :: !IsRelatedAccept(b)
    ensures var k, bb := FirstRelated(es), Blocks(spec, es);
            FindRelated(Flatten(bb) + rest) == if k == |es| then |Flatten(bb)| + |rest| else |Flatten(bb[..k])|
  {
    var k, bb := FirstRelated(es), Blocks(spec, es);
    NoRelatedBefore(spec, es, k);
    if k < |es| {
      EntryBodies(spec, es[k], RelatedBody(Allow));
      FlattenSplit(bb, k);
      FindRelatedAfter(Flatten(bb[..k]), RelatedBody(Allow), Flatten(bb[k + 1..]), rest);
    } else {
      assert bb[..k] == bb;
      NoRelated(Flatten(bb) + rest);
    }
  }

  lemma NoRelatedBefore(spec: Spec, es: seq<Entry>, k: nat)
    requires k == FirstRelated(es)
    ensures forall b <- Flatten(Blocks(spec, es)[..k]) :: !IsRelatedAccept(b)
  {
    forall b | b in Flatten(Blocks(spec, es)[..k]) ensures !IsRelatedAccept(b) {
      var j := FlattenMember(Blocks(spec, es)[..k], b);
      FirstRelatedBefore(es, j);
      EntryBodies(spec, es[j], b);
    }
  }

  lemma {:induction false} FirstRelatedBefore(es: seq<Entry>, j: nat)
    requires j < FirstRelated(es)
    ensures es[j] != RelatedEntry(Allow)
  {
    if j > 0 { FirstRelatedBefore(es[1..], j - 1); }
  }

  lemma RelatedCarries(c: Chain, spec: Spec, i: Intent, policy: Policy)
    requires Findable(spec) && Carries(c, spec, i)
    ensures Carries(SetRelatedPolicy(c, spec, policy), spec, Intend(i, spec, SetRelated(policy)))
  {
    RelatedIsAt(spec, i.entries, Tail(spec, i));
    if FirstRelated(i.entries) == |i.entries| {
      AppendCarries(c, spec, i, RelatedEntry(policy));
    } else {
      ReplaceRelated(c, spec, i, FirstRelated(i.entries), policy);
    }
  }

  lemma ReplaceRelated(c: Chain, spec: Spec, i: Intent, k: nat, policy: Policy)
    requires Carries(c, spec, i) && k < |i.entries| && i.entries[k] == RelatedEntry(Allow)
    requires FindRelated(Bodies(c.rules)) == |Flatten(Blocks(spec, i.entries)[..k])|
    ensures Carries(SetRelatedPolicy(c, spec, policy), spec, i.(entries := i.entries[k := RelatedEntry(policy)]))
  {
    var es, bb := i.entries, Blocks(spec, i.entries);
    FlattenUpdate(bb, k, RelatedBody(policy));
    if policy == Allow {
      assert es[k := RelatedEntry(Allow)] == es;
    } else {
      UpdateBlocks(spec, es, k);
      ReplaceBodies(c, |Flatten(bb[..k])|, RelatedBody(Deny));
      UpdateFront(Flatten(bb), Tail(spec, i), |Flatten(bb[..k])|, RelatedBody(Deny));
    }
  }

  lemma UpdateBlocks(spec: Spec, es: seq<Entry>, k: nat)
    requires k < |es|
    ensures Blocks(spec, es[k := RelatedEntry(Deny)]) == Blocks(spec, es)[k := [RelatedBody(Deny)]]
  {
  }

  lemma UpdateFront(a: seq<Body>, b: seq<Body>, k: nat, x: Body)
    requires k < |a|
    ensures (a + b)[k := x] == a[k := x] + b
  {
  }

  lemma ApplyCarries(c: Chain, spec: Spec, i: Intent, call: Call)
    requires Findable(spec) && Carries(c, spec, i)
    ensures Carries(Apply(c, spec, call), spec, Intend(i, spec, call))
  {
    match call
    case SetDefault(policy) => DefaultCarries(c, spec, i, policy);
    case SetRelated(policy) => RelatedCarries(c, spec, i, policy);
    case SetFlow(f, policy, log) => AppendCarries(c, spec, i, FlowEntry(f, policy, log));
    case Flush =>
  }

  lemma {:induction false} RunCarries(spec: Spec, calls: seq<Call>)
    requires Findable(spec)
    ensures Carries(Run(spec, calls), spec, RunIntent(spec, calls))
  {
    if calls != [] {
      var before := calls[..|calls| - 1];
      RunCarries(spec, before);
      ApplyCarries(Run(spec, before), spec, RunIntent(spec, before), calls[|calls| - 1]);
    }
  }

  // ----- the written decisions decide as the decisions do

  lemma StmtsOutcome(spec: Spec, policy: Policy, log: bool)
    ensures RunStmts(FlowStmts(spec, policy, log)) ==
            (Some(policy), if spec.Some? && policy == Deny && log then 1 else 0)
  {
    var s := FlowStmts(spec, policy, log);
    if spec.Some? && policy == Deny && log {
      assert s[1..] == [Verdict(policy)];
    }
  }

  lemma EntryWalk(spec: Spec, e: Entry, rest: seq<Body>, policy: Policy, p: Packet)
    ensures Walk(RenderEntry(spec, e) + rest, policy, p) ==
            if EntryHas(e, p) then EntryOutcome(e, spec) else Walk(rest, policy, p)
  {
    var bs := RenderEntry(spec, e);
    match e
    case RelatedEntry(v) =>
      assert (bs + rest)[1..] == rest;
      assert AllMatch(bs[0].matches, p) <==> p.established by { assert CtRelated in bs[0].matches; }
    case FlowEntry(f, v, log) =>
      var fs := SplitByProtocol(f);
      var n := CompiledPieces(fs);
      var stmts := FlowStmts(spec, v, log);
      StmtsOutcome(spec, v, log);
      WalkBlock(bs, rest, stmts, policy, p);
      forall i | 0 <= i < n ensures AllMatch(bs[i].matches, p) <==> FlowHas(Effective(fs[i]), p) {
        ArgsMean(fs[i], p);
      }
      if CallHas(f, p) {
        var i :| 0 <= i < n && FlowHas(Effective(fs[i]), p);
        assert bs[i] in bs && AllMatch(bs[i].matches, p);
      }
  }

  lemma {:induction false} RenderDecides(spec: Spec, i: Intent, p: Packet)
    requires i.catchAll ==> spec.Some?
    ensures Walk(Render(spec, i), i.default, p) == Decide(i, spec, p)
    decreases |i.entries|
  {
    if i.entries == [] {
      TailDecides(spec, i, p);
    } else {
      var j := i.(entries := i.entries[1..]);
      RenderDecides(spec, j, p);
      EntryWalk(spec, i.entries[0], Render(spec, j), i.default, p);
      RenderFirst(spec, i);
    }
  }

  lemma TailDecides(spec: Spec, i: Intent, p: Packet)
    requires i.entries == [] && (i.catchAll ==> spec.Some?)
    ensures Walk(Render(spec, i), i.default, p) == Outcome(i.default, if i.catchAll then 1 else 0)
  {
    assert Render(spec, i) == Tail(spec, i);
    if i.catchAll {
      assert Tail(spec, i)[1..] == [];
      assert RunStmts([LogStmt(spec.value)]) == (None, 1);
    }
  }

  lemma RenderFirst(spec: Spec, i: Intent)
    requires i.entries != []
    ensures Render(spec, i) == RenderEntry(spec, i.entries[0]) + Render(spec, i.(entries := i.entries[1..]))
  {
    assert Blocks(spec, i.entries)[1..] == Blocks(spec, i.entries[1..]);
  }

  /** Over any run of calls, the chain does to every packet exactly what the first decision
      that has it says, and else the default, logging included; this for a tool that does not
      log, or logs to a group. */
  lemma ChainCarriesOutCalls(spec: Spec, calls: seq<Call>, p: Packet)
    requires Findable(spec)
    ensures Eval(Run(spec, calls), p) == Decide(RunIntent(spec, calls), spec, p)
  {
    RunCarries(spec, calls);
    RenderDecides(spec, RunIntent(spec, calls), p);
  }
}
