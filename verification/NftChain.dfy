/** An nft chain: ordered rules with handles, first verdict wins, and the three edits the
    firewall tool uses (add at the end, insert before a handle, delete a handle). */
module NftChain {
  import opened Wrappers
  import opened Netflow
  import opened NftCompile

  datatype Policy = Allow | Deny
  datatype LogSpec = LogSpec(prefix: string, group: Option<nat>)

  datatype Stmt = Log(prefix: string, group: Option<nat>) | Verdict(policy: Policy)
  datatype Body = Body(matches: seq<Match>, stmts: seq<Stmt>)
  datatype Rule = Rule(handle: nat, body: Body)
  datatype Chain = Chain(rules: seq<Rule>, policy: Policy, next: nat)

  /** What happens to a packet: its fate and how many times it is logged. */
  datatype Outcome = Outcome(policy: Policy, logs: nat)

  // ----- evaluation

  function RunStmts(stmts: seq<Stmt>): (Option<Policy>, nat) {
    if stmts == [] then (None, 0)
    else match stmts[0]
      case Verdict(v) => (Some(v), 0)
      case Log(_, _) => var (v, n) := RunStmts(stmts[1..]); (v, n + 1)
  }

  function Walk(bs: seq<Body>, policy: Policy, p: Packet): Outcome {
    if bs == [] then Outcome(policy, 0)
    else if !AllMatch(bs[0].matches, p) then Walk(bs[1..], policy, p)
    else
      var (v, n) := RunStmts(bs[0].stmts);
      if v.Some? then Outcome(v.value, n)
      else
        var o := Walk(bs[1..], policy, p);
        o.(logs := o.logs + n)
  }

  function Bodies(rules: seq<Rule>): (bs: seq<Body>)
    ensures |bs| == |rules|
    ensures forall i :: 0 <= i < |rules| ==> bs[i] == rules[i].body
  {
    seq(|rules|, i requires 0 <= i < |rules| => rules[i].body)
  }

  function Eval(c: Chain, p: Packet): Outcome { Walk(Bodies(c.rules), c.policy, p) }

  /** A run of rules that all end in the same verdict decides a packet as soon as one matches. */
  lemma {:induction false} WalkBlock(bs: seq<Body>, rest: seq<Body>, stmts: seq<Stmt>, policy: Policy, p: Packet)
    requires forall b <- bs :: b.stmts == stmts
    requires RunStmts(stmts).0.Some?
    ensures Walk(bs + rest, policy, p) ==
            if exists b :: b in bs && AllMatch(b.matches, p)
            then Outcome(RunStmts(stmts).0.value, RunStmts(stmts).1)
            else Walk(rest, policy, p)
  {
    if bs == [] {
      assert bs + rest == rest;
    } else {
      assert bs[0] in bs;
      assert (bs + rest)[1..] == bs[1..] + rest;
      assert forall b :: b in bs <==> b == bs[0] || b in bs[1..];
      WalkBlock(bs[1..], rest, stmts, policy, p);
    }
  }

  // ----- edits

  ghost predicate HandlesFresh(c: Chain) {
    && (forall i :: 0 <= i < |c.rules| ==> c.rules[i].handle < c.next)
    && (forall i, j :: 0 <= i < j < |c.rules| ==> c.rules[i].handle != c.rules[j].handle)
  }

  function AtHandle(rules: seq<Rule>, h: nat): (k: nat)
    ensures k <= |rules|
    ensures k < |rules| ==> rules[k].handle == h
    ensures forall j :: 0 <= j < k ==> rules[j].handle != h
  {
    if rules == [] then 0
    else if rules[0].handle == h then 0
    else 1 + AtHandle(rules[1..], h)
  }

  /** The new rule goes just before the rule at index `k`; at the end when `k` is the length. */
  function PutAt(c: Chain, k: nat, b: Body): Chain
    requires k <= |c.rules|
  {
    c.(rules := c.rules[..k] + [Rule(c.next, b)] + c.rules[k..], next := c.next + 1)
  }

  function AddRule(c: Chain, b: Body): Chain { PutAt(c, |c.rules|, b) }

  function InsertRule(c: Chain, h: nat, b: Body): Chain { PutAt(c, AtHandle(c.rules, h), b) }

  function DeleteRule(c: Chain, h: nat): Chain {
    var k := AtHandle(c.rules, h);
    if k == |c.rules| then c else c.(rules := c.rules[..k] + c.rules[k + 1..])
  }

  function FlushRules(c: Chain): Chain { c.(rules := []) }

  lemma HandleIsAt(c: Chain, k: nat)
    requires HandlesFresh(c) && k < |c.rules|
    ensures AtHandle(c.rules, c.rules[k].handle) == k
  {
    var a := AtHandle(c.rules, c.rules[k].handle);
  }

  lemma PutAtBodies(c: Chain, k: nat, b: Body)
    requires HandlesFresh(c) && k <= |c.rules|
    ensures HandlesFresh(PutAt(c, k, b))
    ensures Bodies(PutAt(c, k, b).rules) == Bodies(c.rules)[..k] + [b] + Bodies(c.rules)[k..]
    ensures k < |c.rules| ==> AtHandle(PutAt(c, k, b).rules, c.rules[k].handle) == k + 1
  {
    PutAtFresh(c, k, b);
    PutAtContents(c, k, b);
    if k < |c.rules| {
      PutAtIndex(c, k, b, k + 1);
      HandleIsAt(PutAt(c, k, b), k + 1);
    }
  }

  lemma PutAtIndex(c: Chain, k: nat, b: Body, j: nat)
    requires k <= |c.rules| && j <= |c.rules|
    ensures |PutAt(c, k, b).rules| == |c.rules| + 1
    ensures PutAt(c, k, b).rules[j] == if j < k then c.rules[j] else if j == k then Rule(c.next, b) else c.rules[j - 1]
  {
  }

  lemma PutAtFresh(c: Chain, k: nat, b: Body)
    requires HandlesFresh(c) && k <= |c.rules|
    ensures HandlesFresh(PutAt(c, k, b))
  {
    var d := PutAt(c, k, b);
    forall i | 0 <= i < |d.rules| ensures d.rules[i].handle < d.next {
      PutAtIndex(c, k, b, i);
    }
    forall i, j | 0 <= i < j < |d.rules| ensures d.rules[i].handle != d.rules[j].handle {
      PutAtIndex(c, k, b, i);
      PutAtIndex(c, k, b, j);
    }
  }

  lemma PutAtContents(c: Chain, k: nat, b: Body)
    requires k <= |c.rules|
    ensures Bodies(PutAt(c, k, b).rules) == Bodies(c.rules)[..k] + [b] + Bodies(c.rules)[k..]
  {
    var d := PutAt(c, k, b);
    forall j | 0 <= j < |d.rules|
      ensures Bodies(d.rules)[j] == (Bodies(c.rules)[..k] + [b] + Bodies(c.rules)[k..])[j]
    {
      PutAtIndex(c, k, b, j);
    }
  }

  lemma DeleteBodies(c: Chain, k: nat)
    requires HandlesFresh(c) && k < |c.rules|
    ensures AtHandle(c.rules, c.rules[k].handle) == k
    ensures HandlesFresh(DeleteRule(c, c.rules[k].handle))
    ensures Bodies(DeleteRule(c, c.rules[k].handle).rules) == Bodies(c.rules)[..k] + Bodies(c.rules)[k + 1..]
  {
    HandleIsAt(c, k);
    var d := DeleteRule(c, c.rules[k].handle);
    forall i | 0 <= i < |d.rules|
      ensures d.rules[i].handle < d.next && Bodies(d.rules)[i] == (Bodies(c.rules)[..k] + Bodies(c.rules)[k + 1..])[i]
    {
      WithoutIndex(c, k, i);
    }
    forall i, j | 0 <= i < j < |d.rules| ensures d.rules[i].handle != d.rules[j].handle {
      WithoutIndex(c, k, i);
      WithoutIndex(c, k, j);
    }
  }

  lemma WithoutIndex(c: Chain, k: nat, j: nat)
    requires k < |c.rules| && j < |c.rules| - 1
    ensures (c.rules[..k] + c.rules[k + 1..])[j] == if j < k then c.rules[j] else c.rules[j + 1]
  {
  }

  /** Inserting before a rule and then deleting that rule replaces its body. */
  lemma ReplaceBodies(c: Chain, k: nat, b: Body)
    requires HandlesFresh(c) && k < |c.rules|
    ensures var d := DeleteRule(InsertRule(c, c.rules[k].handle, b), c.rules[k].handle);
            HandlesFresh(d) && d.policy == c.policy && Bodies(d.rules) == Bodies(c.rules)[k := b]
  {
    HandleIsAt(c, k);
    PutAtBodies(c, k, b);
    var e := PutAt(c, k, b);
    assert e.rules[k + 1].handle == c.rules[k].handle;
    DeleteBodies(e, k + 1);
    ReplaceSeq(Bodies(c.rules), k, b);
  }

  lemma ReplaceSeq(s: seq<Body>, k: nat, b: Body)
    requires k < |s|
    ensures var t := s[..k] + [b] + s[k..]; t[..k + 1] + t[k + 2..] == s[k := b]
  {
  }

  // ----- blocks of rules

  function Flatten(bb: seq<seq<Body>>): seq<Body> {
    if bb == [] then [] else bb[0] + Flatten(bb[1..])
  }

  lemma {:induction false} FlattenConcat(a: seq<seq<Body>>, b: seq<seq<Body>>)
    ensures Flatten(a + b) == Flatten(a) + Flatten(b)
  {
    if a == [] {
      assert a + b == b;
    } else {
      assert (a + b)[1..] == a[1..] + b;
      FlattenConcat(a[1..], b);
    }
  }

  lemma FlattenOne(x: seq<Body>)
    ensures Flatten([x]) == x
  {
    assert [x][1..] == [];
  }

  lemma FlattenSplit(bb: seq<seq<Body>>, k: nat)
    requires k < |bb|
    ensures Flatten(bb) == Flatten(bb[..k]) + bb[k] + Flatten(bb[k + 1..])
  {
    assert bb == bb[..k] + bb[k..];
    FlattenConcat(bb[..k], bb[k..]);
    assert bb[k..][1..] == bb[k + 1..];
  }

  lemma {:induction false} FlattenMember(bb: seq<seq<Body>>, b: Body) returns (k: nat)
    requires b in Flatten(bb)
    ensures k < |bb| && b in bb[k]
  {
    if b in bb[0] { k := 0; }
    else {
      k := FlattenMember(bb[1..], b);
      k := k + 1;
    }
  }

  /** Replacing a one-rule block replaces one rule. */
  lemma FlattenUpdate(bb: seq<seq<Body>>, k: nat, x: Body)
    requires k < |bb| && |bb[k]| == 1
    ensures |Flatten(bb[..k])| < |Flatten(bb)|
    ensures Flatten(bb[k := [x]]) == Flatten(bb)[|Flatten(bb[..k])| := x]
  {
    FlattenSplit(bb, k);
    FlattenSplit(bb[k := [x]], k);
    assert bb[k := [x]][..k] == bb[..k] && bb[k := [x]][k + 1..] == bb[k + 1..];
  }
}
