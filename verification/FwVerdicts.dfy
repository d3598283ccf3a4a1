/** The verdicts of the firewall tool for every log specification, also one whose catch-all is not
    found again: rules that only log decide nothing. */
module FwVerdicts {
  import opened Wrappers
  import opened Netflow
  import opened NftCompile
  import opened NftChain
  import opened FwTool

  predicate Speaks(b: Body) { RunStmts(b.stmts).0.Some? }

  /** The rules that can give a verdict. */
  function Deciding(bs: seq<Body>): seq<Body> {
    if bs == [] then [] else (if Speaks(bs[0]) then [bs[0]] else []) + Deciding(bs[1..])
  }

  lemma {:induction false} DecidingConcat(a: seq<Body>, b: seq<Body>)
    ensures Deciding(a + b) == Deciding(a) + Deciding(b)
    decreases a
  {
    if a == [] {
      assert a + b == b;
    } else {
      assert (a + b)[1..] == a[1..] + b;
      DecidingConcat(a[1..], b);
    }
  }

  lemma {:induction false} AllDeciding(bs: seq<Body>)
    requires forall b <- bs :: Speaks(b)
    ensures Deciding(bs) == bs
    decreases bs
  {
    if bs != [] {
      assert bs[0] in bs;
      AllDeciding(bs[1..]);
    }
  }

  /** Only rules that can give a verdict bear on a packet's fate. */
  lemma {:induction false} SilentRulesDecideNothing(bs: seq<Body>, policy: Policy, p: Packet)
    ensures Walk(bs, policy, p).policy == Walk(Deciding(bs), policy, p).policy
    decreases bs
  {
    if bs != [] {
      SilentRulesDecideNothing(bs[1..], policy, p);
      if Speaks(bs[0]) { assert Deciding(bs)[1..] == Deciding(bs[1..]); }
      else { assert Deciding(bs) == Deciding(bs[1..]); }
    }
  }

  lemma EntrySpeaks(spec: Spec, e: Entry)
    ensures Deciding(RenderEntry(spec, e)) == RenderEntry(spec, e)
  {
    var bs := RenderEntry(spec, e);
    forall b | b in bs ensures Speaks(b) {
      if e.FlowEntry? {
        StmtsOutcome(spec, e.policy, e.logIfDeny);
        assert b.stmts == FlowStmts(spec, e.policy, e.logIfDeny);
      }
    }
    AllDeciding(bs);
  }

  // ----- a catch-all that is never found

  ghost predicate Unfindable(spec: Spec) { spec.Some? && spec.value.group.None? }

  /** The rules that decide are those of the decisions, in order; no rule is taken for the
      catch-all. */
  ghost predicate CarriesVerdicts(c: Chain, spec: Spec, i: Intent) {
    && HandlesFresh(c) && c.policy == i.default
    && (forall k :: 0 <= k < |c.rules| ==> !IsDenyLog(c.rules[k].body, spec))
    && Deciding(Bodies(c.rules)) == RenderEntries(spec, i.entries)
  }

  lemma NotFound(c: Chain, spec: Spec)
    requires forall k :: 0 <= k < |c.rules| ==> !IsDenyLog(c.rules[k].body, spec)
    ensures FindDenyLog(Bodies(c.rules), spec) == |c.rules| && DenyLogHandle(c, spec).None?
  {
    assert forall k :: 0 <= k < |c.rules| ==> !IsDenyLog(Bodies(c.rules)[k], spec);
  }

  lemma AppendBodies(c: Chain, bs: seq<Body>)
    requires HandlesFresh(c)
    ensures var d := PutAll(c, None, bs);
            HandlesFresh(d) && d.policy == c.policy && Bodies(d.rules) == Bodies(c.rules) + bs
  {
    PutAllBodies(c, |c.rules|, bs);
    var all := Bodies(c.rules);
    assert all[..|c.rules|] == all && all[|c.rules|..] == [];
    assert all + bs + [] == all + bs;
  }

  lemma StillNotFound(c: Chain, d: Chain, spec: Spec, bs: seq<Body>)
    requires forall k :: 0 <= k < |c.rules| ==> !IsDenyLog(c.rules[k].body, spec)
    requires Bodies(d.rules) == Bodies(c.rules) + bs && forall b <- bs :: !IsDenyLog(b, spec)
    ensures forall k :: 0 <= k < |d.rules| ==> !IsDenyLog(d.rules[k].body, spec)
  {
    forall k | 0 <= k < |d.rules| ensures !IsDenyLog(d.rules[k].body, spec) {
      assert d.rules[k].body == Bodies(d.rules)[k];
      if k < |c.rules| { assert Bodies(d.rules)[k] == c.rules[k].body; }
      else { assert Bodies(d.rules)[k] == bs[k - |c.rules|] && bs[k - |c.rules|] in bs; }
    }
  }

  lemma AppendVerdicts(c: Chain, spec: Spec, i: Intent, e: Entry)
    requires CarriesVerdicts(c, spec, i)
    ensures CarriesVerdicts(PutAll(c, DenyLogHandle(c, spec), RenderEntry(spec, e)), spec,
                            i.(entries := i.entries + [e]))
  {
    var bs := RenderEntry(spec, e);
    NotFound(c, spec);
    AppendBodies(c, bs);
    DecidingConcat(Bodies(c.rules), bs);
    EntrySpeaks(spec, e);
    RenderAppend(spec, i.entries, e);
    forall b | b in bs ensures !IsDenyLog(b, spec) { EntryBodies(spec, e, b); }
    StillNotFound(c, PutAll(c, None, bs), spec, bs);
  }

  lemma CatchAllIsSilent(spec: LogSpec)
    ensures Deciding([CatchAll(spec)]) == []
    ensures spec.group.None? ==> !IsDenyLog(CatchAll(spec), Some(spec))
  {
    assert [CatchAll(spec)][1..] == [] && RunStmts([LogStmt(spec)]) == (None, 1);
    assert |spec.prefix + " "| != |spec.prefix|;
  }

  lemma DefaultVerdicts(c: Chain, spec: Spec, i: Intent, policy: Policy)
    requires Unfindable(spec) && CarriesVerdicts(c, spec, i)
    ensures CarriesVerdicts(SetDefaultPolicy(c, spec, policy), spec, Intend(i, spec, SetDefault(policy)))
  {
    NotFound(c, spec);
    if policy != c.policy && policy == Deny {
      var d, log := c.(policy := policy), CatchAll(spec.value);
      CatchAllIsSilent(spec.value);
      AppendBodies(d, [log]);
      AddIsPut(d, log);
      DecidingConcat(Bodies(c.rules), [log]);
      assert Deciding(Bodies(c.rules)) + [] == Deciding(Bodies(c.rules));
      StillNotFound(c, AddRule(d, log), spec, [log]);
    }
  }

  lemma AddIsPut(c: Chain, b: Body)
    ensures PutAll(c, None, [b]) == AddRule(c, b)
  {
    assert [b][1..] == [];
  }

  lemma {:induction false} VerdictGiven(stmts: seq<Stmt>)
    requires Verdict(Allow) in stmts
    ensures RunStmts(stmts).0.Some?
    decreases stmts
  {
    if stmts[0].Log? { VerdictGiven(stmts[1..]); }
  }

  /** The accept rule on related connections is found among the deciding rules as among all. */
  lemma {:induction false} RelatedAmongDeciding(bs: seq<Body>, x: Body)
    requires Speaks(x)
    ensures var k, j := FindRelated(bs), FindRelated(Deciding(bs));
            if k == |bs| then j == |Deciding(bs)|
            else j < |Deciding(bs)| && Deciding(bs[k := x]) == Deciding(bs)[j := x]
    decreases bs
  {
    if bs != [] {
      var rest, ds := bs[1..], Deciding(bs);
      if IsRelatedAccept(bs[0]) {
        VerdictGiven(bs[0].stmts);
        assert ds[0] == bs[0] && bs[0 := x][1..] == rest && ds[0 := x] == [x] + Deciding(rest);
      } else {
        RelatedAmongDeciding(rest, x);
        var k := FindRelated(rest);
        if Speaks(bs[0]) { assert ds[1..] == Deciding(rest); } else { assert ds == Deciding(rest); }
        if k < |rest| {
          assert bs[k + 1 := x][1..] == rest[k := x];
          RelatedStep(bs[0], Deciding(rest), FindRelated(Deciding(rest)), x);
        }
      }
    }
  }

  lemma RelatedStep(b: Body, ds: seq<Body>, j: nat, x: Body)
    requires j < |ds|
    ensures ([b] + ds)[j + 1 := x] == [b] + ds[j := x]
    ensures ([] + ds)[j := x] == [] + ds[j := x]
  {
  }

  lemma RelatedVerdicts(c: Chain, spec: Spec, i: Intent, policy: Policy)
    requires CarriesVerdicts(c, spec, i)
    ensures CarriesVerdicts(SetRelatedPolicy(c, spec, policy), spec, Intend(i, spec, SetRelated(policy)))
  {
    var bs, x := Bodies(c.rules), RelatedBody(policy);
    RelatedIsAt(spec, i.entries, []);
    assert RenderEntries(spec, i.entries) + [] == Deciding(bs);
    RelatedAmongDeciding(bs, x);
    if FirstRelated(i.entries) == |i.entries| {
      AppendVerdicts(c, spec, i, RelatedEntry(policy));
    } else {
      RelatedShorter(spec, i.entries);
      ReplaceVerdicts(c, spec, i, policy);
    }
  }

  lemma RelatedShorter(spec: Spec, es: seq<Entry>)
    requires FirstRelated(es) < |es|
    ensures |Flatten(Blocks(spec, es)[..FirstRelated(es)])| < |RenderEntries(spec, es)|
  {
    FlattenUpdate(Blocks(spec, es), FirstRelated(es), RelatedBody(Allow));
  }

  lemma ReplaceVerdicts(c: Chain, spec: Spec, i: Intent, policy: Policy)
    requires CarriesVerdicts(c, spec, i) && FirstRelated(i.entries) < |i.entries| &&
             FindRelated(Bodies(c.rules)) < |c.rules|
    requires var k, j := FindRelated(Bodies(c.rules)), |Flatten(Blocks(spec, i.entries)[..FirstRelated(i.entries)])|;
             j < |Deciding(Bodies(c.rules))| &&
             Deciding(Bodies(c.rules)[k := RelatedBody(policy)]) ==
               Deciding(Bodies(c.rules))[j := RelatedBody(policy)]
    ensures CarriesVerdicts(SetRelatedPolicy(c, spec, policy), spec, Intend(i, spec, SetRelated(policy)))
  {
    var n, k := FirstRelated(i.entries), FindRelated(Bodies(c.rules));
    if policy == Allow {
      assert i.entries[n := RelatedEntry(Allow)] == i.entries;
    } else {
      ReplaceBodies(c, k, RelatedBody(Deny));
      ReplaceNotFound(c, SetRelatedPolicy(c, spec, policy), spec, k);
      RenderReplaced(spec, i.entries, n);
    }
  }

  lemma RenderReplaced(spec: Spec, es: seq<Entry>, n: nat)
    requires n < |es| && es[n] == RelatedEntry(Allow)
    ensures var j := |Flatten(Blocks(spec, es)[..n])|;
            j < |RenderEntries(spec, es)| &&
            RenderEntries(spec, es[n := RelatedEntry(Deny)]) == RenderEntries(spec, es)[j := RelatedBody(Deny)]
  {
    UpdateBlocks(spec, es, n);
    FlattenUpdate(Blocks(spec, es), n, RelatedBody(Deny));
  }

  lemma ReplaceNotFound(c: Chain, d: Chain, spec: Spec, k: nat)
    requires k < |c.rules| && Bodies(d.rules) == Bodies(c.rules)[k := RelatedBody(Deny)]
    requires forall m :: 0 <= m < |c.rules| ==> !IsDenyLog(c.rules[m].body, spec)
    ensures forall m :: 0 <= m < |d.rules| ==> !IsDenyLog(d.rules[m].body, spec)
  {
    forall m | 0 <= m < |d.rules| ensures !IsDenyLog(d.rules[m].body, spec) {
      assert d.rules[m].body == Bodies(d.rules)[m];
      if m != k { assert Bodies(d.rules)[m] == c.rules[m].body; }
    }
  }

  lemma {:induction false} RunVerdicts(spec: Spec, calls: seq<Call>)
    requires Unfindable(spec)
    ensures CarriesVerdicts(Run(spec, calls), spec, RunIntent(spec, calls))
    decreases calls
  {
    if calls != [] {
      var before := calls[..|calls| - 1];
      var c, i := Run(spec, before), RunIntent(spec, before);
      RunVerdicts(spec, before);
      match calls[|calls| - 1]
      case SetDefault(policy) => DefaultVerdicts(c, spec, i, policy);
      case SetRelated(policy) => RelatedVerdicts(c, spec, i, policy);
      case SetFlow(f, policy, log) => AppendVerdicts(c, spec, i, FlowEntry(f, policy, log));
      case Flush =>
    }
  }

  // ----- every log specification

  lemma {:induction false} CatchAllAside(i: Intent, spec: Spec, p: Packet)
    ensures Decide(i, spec, p).policy == Decide(i.(catchAll := false), spec, p).policy
    decreases |i.entries|
  {
    if i.entries != [] { CatchAllAside(i.(entries := i.entries[1..]), spec, p); }
  }

  /** Over any run of calls and for every log specification, a packet's fate is that of the first
      decision that has it, and else the default. */
  lemma ChainDecides(spec: Spec, calls: seq<Call>, p: Packet)
    ensures Eval(Run(spec, calls), p).policy == Decide(RunIntent(spec, calls), spec, p).policy
  {
    if Unfindable(spec) {
      var c, i := Run(spec, calls), RunIntent(spec, calls);
      var j := i.(catchAll := false);
      RunVerdicts(spec, calls);
      SilentRulesDecideNothing(Bodies(c.rules), c.policy, p);
      assert Render(spec, j) == Deciding(Bodies(c.rules));
      RenderDecides(spec, j, p);
      CatchAllAside(i, spec, p);
    } else {
      ChainCarriesOutCalls(spec, calls, p);
    }
  }
}
