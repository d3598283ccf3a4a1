/** The firewall tool as the object it is: methods that edit the ruleset step by step, each
    proved to make the edit that `FwTool.Apply` describes. */
module FwToolObject {
  import opened Wrappers
  import opened Netflow
  import opened NftCompile
  import opened NftChain
  import FwTool
  import opened FwToolTheorems

  class Tool {
    const spec: FwTool.Spec
    var rules: seq<Rule>
    var policy: Policy
    var next: nat

    function Ruleset(): Chain
      reads this
    {
      Chain(rules, policy, next)
    }

    constructor (spec: FwTool.Spec)
      ensures this.spec == spec
      ensures Ruleset() == FwTool.Run(spec, [])
    {
      this.spec := spec;
      rules, policy, next := [], Allow, 0;
    }

    method NftAdd(b: Body)
      modifies this
      ensures Ruleset() == AddRule(old(Ruleset()), b)
    {
      rules, next := rules + [Rule(next, b)], next + 1;
      assert old(rules) == old(rules)[..|old(rules)|] && old(rules)[|old(rules)|..] == [];
    }

    method NftInsert(h: nat, b: Body)
      modifies this
      ensures Ruleset() == InsertRule(old(Ruleset()), h, b)
    {
      var k := 0;
      while k < |rules| && rules[k].handle != h
        invariant k <= |rules|
        invariant forall j :: 0 <= j < k ==> rules[j].handle != h
      {
        k := k + 1;
      }
      assert k == AtHandle(rules, h);
      rules, next := rules[..k] + [Rule(next, b)] + rules[k..], next + 1;
    }

    method NftDelete(h: nat)
      modifies this
      ensures Ruleset() == DeleteRule(old(Ruleset()), h)
    {
      var k := 0;
      while k < |rules| && rules[k].handle != h
        invariant k <= |rules|
        invariant forall j :: 0 <= j < k ==> rules[j].handle != h
      {
        k := k + 1;
      }
      assert k == AtHandle(rules, h);
      if k < |rules| { rules := rules[..k] + rules[k + 1..]; }
    }

    method FindChainDenyLogRule() returns (h: Option<nat>)
      ensures h == FwTool.DenyLogHandle(Ruleset(), spec)
    {
      var k := 0;
      while k < |rules|
        invariant k <= |rules|
        invariant forall j :: 0 <= j < k ==> !FwTool.IsDenyLog(Bodies(rules)[j], spec)
      {
        if FwTool.IsDenyLog(rules[k].body, spec) {
          assert FwTool.FindDenyLog(Bodies(rules), spec) == k;
          return Some(rules[k].handle);
        }
        k := k + 1;
      }
      return None;
    }

    method SetDefaultPolicy(p: Policy)
      modifies this
      ensures Ruleset() == FwTool.Apply(old(Ruleset()), spec, FwTool.SetDefault(p))
    {
      var current := policy;
      policy := p;
      if p == current { return; }
      var h := FindChainDenyLogRule();
      if p == Deny {
        if spec.Some? && h.None? { NftAdd(FwTool.CatchAll(spec.value)); }
      } else if h.Some? {
        NftDelete(h.value);
      }
    }

    method FindRelatedConnectionsPolicy() returns (h: Option<nat>)
      ensures var k := FwTool.FindRelated(Bodies(rules));
              h == if k < |rules| then Some(rules[k].handle) else None
    {
      var k := 0;
      while k < |rules|
        invariant k <= |rules|
        invariant forall j :: 0 <= j < k ==> !FwTool.IsRelatedAccept(Bodies(rules)[j])
      {
        if FwTool.IsRelatedAccept(rules[k].body) {
          assert FwTool.FindRelated(Bodies(rules)) == k;
          return Some(rules[k].handle);
        }
        k := k + 1;
      }
      return None;
    }

    method SetRelatedConnectionsPolicy(p: Policy)
      modifies this
      ensures Ruleset() == FwTool.Apply(old(Ruleset()), spec, FwTool.SetRelated(p))
    {
      var found := FindRelatedConnectionsPolicy();
      var b := FwTool.RelatedBody(p);
      if found.None? {
        var h := FindChainDenyLogRule();
        Place(h, b);
      } else if p == Deny {
        NftInsert(found.value, b);
        NftDelete(found.value);
      }
    }

    /** One rule per protocol, each placed before the catch-all of the listing taken at the
        start; stops where a piece raises. The lookup of an existing rule for the piece reads the
        table name at the top level of the listing, where there is none, and finds nothing. */
    method FlowSetPolicy(f: NetFlow, p: Policy, logIfDeny: bool) returns (raised: bool)
      requires FlowValid(f)
      modifies this
      ensures Ruleset() == FwTool.Apply(old(Ruleset()), spec, FwTool.SetFlow(f, p, logIfDeny))
      ensures raised <==> !CallAccepted(f)
    {
      var fs := SplitByProtocol(f);
      forall k | 0 <= k < |fs| ensures FlowValid(fs[k]) { PieceValid(f, k); }
      var h := FindChainDenyLogRule();
      var n := PlacePieces(h, fs, FwTool.FlowStmts(spec, p, logIfDeny));
      raised := n < |fs|;
    }

    method PlacePieces(h: Option<nat>, fs: seq<NetFlow>, stmts: seq<Stmt>) returns (n: nat)
      requires forall k :: 0 <= k < |fs| ==> FlowValid(fs[k])
      modifies this
      ensures n == FwTool.CompiledPieces(fs)
      ensures Ruleset() == FwTool.PutAll(old(Ruleset()), h, FwTool.FlowBodies(fs[..n], stmts))
    {
      ghost var c := Ruleset();
      ghost var placed: seq<Body> := [];
      n := 0;
      while n < |fs|
        invariant n <= FwTool.CompiledPieces(fs) && placed == FwTool.FlowBodies(fs[..n], stmts)
        invariant Ruleset() == FwTool.PutAll(c, h, placed)
      {
        var ok := PlacePiece(h, fs[n], stmts);
        if !ok { return; }
        BodiesNext(fs, n, stmts);
        PutLast(c, h, placed, Body(NftArgs(fs[n]), stmts));
        placed := placed + [Body(NftArgs(fs[n]), stmts)];
        n := n + 1;
      }
    }

    method PlacePiece(h: Option<nat>, f: NetFlow, stmts: seq<Stmt>) returns (ok: bool)
      requires FlowValid(f)
      modifies this
      ensures ok <==> Compilable(f)
      ensures Ruleset() == if ok then FwTool.PutAll(old(Ruleset()), h, [Body(NftArgs(f), stmts)]) else old(Ruleset())
    {
      var args := NetflowToNftArgs(f);
      ok := args.Ok?;
      if ok { Place(h, Body(args.value, stmts)); }
    }

    method Place(h: Option<nat>, b: Body)
      modifies this
      ensures Ruleset() == FwTool.PutAll(old(Ruleset()), h, [b])
    {
      PutOne(Ruleset(), h, b);
      if h.None? { NftAdd(b); } else { NftInsert(h.value, b); }
    }

    /** Any list of calls made on the object is a run. */
    method Perform(calls: seq<FwTool.Call>, ghost before: seq<FwTool.Call>)
      requires Ruleset() == FwTool.Run(spec, before)
      requires forall k :: 0 <= k < |calls| && calls[k].SetFlow? ==> FlowValid(calls[k].flow)
      modifies this
      ensures Ruleset() == FwTool.Run(spec, before + calls)
    {
      assert before + [] == before;
      for i := 0 to |calls|
        invariant Ruleset() == FwTool.Run(spec, before + calls[..i])
      {
        OneCallMore(spec, before, calls, i);
        PerformOne(calls[i]);
      }
      assert calls[..|calls|] == calls;
    }

    method PerformOne(call: FwTool.Call)
      requires call.SetFlow? ==> FlowValid(call.flow)
      modifies this
      ensures Ruleset() == FwTool.Apply(old(Ruleset()), spec, call)
    {
      match call
      case SetDefault(p) => SetDefaultPolicy(p);
      case SetRelated(p) => SetRelatedConnectionsPolicy(p);
      case SetFlow(f, p, log) => var raised := FlowSetPolicy(f, p, log);
      case Flush => Flush();
    }

    method Flush()
      modifies this
      ensures Ruleset() == FwTool.Apply(old(Ruleset()), spec, FwTool.Flush)
    {
      rules := [];
    }
  }

  lemma OneCallMore(spec: FwTool.Spec, before: seq<FwTool.Call>, calls: seq<FwTool.Call>, i: nat)
    requires i < |calls|
    ensures FwTool.Run(spec, before + calls[..i + 1]) ==
            FwTool.Apply(FwTool.Run(spec, before + calls[..i]), spec, calls[i])
  {
    assert before + calls[..i + 1] == before + calls[..i] + [calls[i]];
    RunSnoc(spec, before + calls[..i], calls[i]);
  }

  lemma RunSnoc(spec: FwTool.Spec, calls: seq<FwTool.Call>, call: FwTool.Call)
    ensures FwTool.Run(spec, calls + [call]) == FwTool.Apply(FwTool.Run(spec, calls), spec, call)
  {
    assert (calls + [call])[..|calls|] == calls;
  }

  lemma PutOne(c: Chain, h: Option<nat>, b: Body)
    ensures FwTool.PutAll(c, h, [b]) == if h.None? then AddRule(c, b) else InsertRule(c, h.value, b)
  {
    assert [b][1..] == [];
  }

  /** Placing rules one by one is placing them all. */
  lemma {:induction false} PutLast(c: Chain, h: Option<nat>, bs: seq<Body>, b: Body)
    ensures FwTool.PutAll(c, h, bs + [b]) == FwTool.PutAll(FwTool.PutAll(c, h, bs), h, [b])
    decreases bs
  {
    if bs == [] {
      assert bs + [b] == [b];
    } else {
      assert (bs + [b])[1..] == bs[1..] + [b];
      PutLast(if h.Some? then InsertRule(c, h.value, bs[0]) else AddRule(c, bs[0]), h, bs[1..], b);
    }
  }

  lemma BodiesNext(fs: seq<NetFlow>, k: nat, stmts: seq<Stmt>)
    requires k < |fs| && forall i :: 0 <= i <= k ==> Compilable(fs[i])
    ensures FwTool.FlowBodies(fs[..k + 1], stmts) == FwTool.FlowBodies(fs[..k], stmts) + [Body(NftArgs(fs[k]), stmts)]
  {
    assert fs[..k + 1] == fs[..k] + [fs[k]];
  }

  /** Pieces of a valid flow are valid flows. */
  lemma PieceValid(f: NetFlow, k: nat)
    requires FlowValid(f) && k < |SplitByProtocol(f)|
    ensures FlowValid(SplitByProtocol(f)[k])
  {
    var g := SplitByProtocol(f)[k];
    assert g.src.zones == f.src.zones && g.dest.zones == f.dest.zones;
    assert g.src.ranges == f.src.ranges && g.dest.ranges == f.dest.ranges;
  }
}
