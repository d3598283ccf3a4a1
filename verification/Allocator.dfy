/** Reservation of small networks inside the host network (`padsi/config/main.py`): /30 networks
    for zones taken from the start, for admin namespaces from a reserved tail. */
module Allocator {
  import opened Wrappers
  import opened Netflow
  import Inclusion

  /** The bridge network of every zone, 192.168.0.0/16. */
  const USERS_BRIDGE := Net(0xC0A8_0000, 16)

  const SUB_SIZE := 4

  /** The host network of a configuration and its number of admin namespaces. */
  datatype Host = Host(base: Ip, len: nat, admins: nat)

  function Zoned(h: Host): Zone { Net(h.base, h.len) }

  /** What the network type guarantees: no host bits. */
  predicate IsNetwork(h: Host) { h.len <= 32 && Inclusion.HostBitFree(Zoned(h)) }

  predicate InNetwork(a: nat, z: Zone)
    requires z.Net? && z.len <= 32
  {
    a < 0x1_0000_0000 && InNet(a, z.base, z.len)
  }

  predicate Overlap(x: Zone, y: Zone)
    requires x.Net? && y.Net? && x.len <= 32 && y.len <= 32
  {
    InNetwork(Inclusion.First(x), y) || InNetwork(Inclusion.Last(x), y) || InNetwork(Inclusion.First(y), x) ||
      InNetwork(Inclusion.Last(y), x)
  }

  /** The configuration is accepted: no overlap with the bridges, at least 256 addresses. */
  predicate Accepted(h: Host)
    requires IsNetwork(h)
  {
    !Overlap(Zoned(h), USERS_BRIDGE) && Pow2(32 - h.len) >= 256
  }

  predicate Usable(h: Host) { IsNetwork(h) && Accepted(h) }

  /** How many /30 networks the host network has, and the first address of each. */
  function Count(h: Host): nat
    requires Usable(h)
  {
    Pow2(32 - h.len) / SUB_SIZE
  }

  function Sub(h: Host, i: nat): nat { h.base + SUB_SIZE * i }

  /** The reserved tail: as many networks as there are admin namespaces, or all of them. */
  function FirstAdmin(h: Host): nat
    requires Usable(h)
  {
    if h.admins >= Count(h) then 0 else Count(h) - h.admins
  }

  // ----- allocation

  /** Some address of the network exists already. */
  predicate InUse(net: nat, taken: set<nat>) {
    exists a :: a in taken && net <= a < net + SUB_SIZE
  }

  predicate Free(h: Host, i: nat, taken: set<nat>)
    requires Usable(h)
  {
    i < FirstAdmin(h) && !InUse(Sub(h, i), taken)
  }

  /** The first free network from some point on, or the number of networks. */
  function NextFree(h: Host, i: nat, taken: set<nat>): (r: nat)
    requires Usable(h)
    ensures i <= Count(h) ==> i <= r <= Count(h) && forall j :: i <= j < r ==> !Free(h, j, taken)
    ensures i <= Count(h) ==> r == Count(h) || Free(h, r, taken)
    decreases Count(h) - i
  {
    if i >= Count(h) then Count(h) else if Free(h, i, taken) then i else NextFree(h, i + 1, taken)
  }

  /** A call, with the addresses that exist at that time. */
  datatype Call = User(taken: set<nat>) | Admin

  /** A network handed out, by its number. */
  datatype Grant = UserNet(i: nat) | AdminNet(i: nat)

  datatype State = State(generated: nat, adminIndex: nat, given: seq<Grant>)

  /** The call as the object makes it. */
  function Do(h: Host, s: State, call: Call): State
    requires Usable(h)
  {
    match call
    case User(taken) =>
      var i := NextFree(h, s.generated, taken);
      if i >= Count(h) then s.(generated := Count(h)) else s.(generated := i + 1, given := s.given + [UserNet(i)])
    case Admin =>
      var i := FirstAdmin(h) + s.adminIndex;
      if i >= Count(h) then s else s.(adminIndex := s.adminIndex + 1, given := s.given + [AdminNet(i)])
  }

  /** What one call leaves in the object, and the address of the network it returns. */
  function Outcome(h: Host, s: State): (nat, nat, Option<nat>) {
    (s.generated, s.adminIndex, if s.given == [] then None else Some(Sub(h, s.given[|s.given| - 1].i)))
  }

  method SomeAddressExists(net: nat, taken: set<nat>) returns (used: bool)
    ensures used == InUse(net, taken)
  {
    used := false;
    for k := 0 to SUB_SIZE
      invariant used <==> exists a :: a in taken && net <= a < net + k
    {
      if net + k in taken { used := true; }
    }
  }

  class Configuration {
    const host: Host
    const adminNets: seq<nat>
    var generated: nat
    var adminIndex: nat

    predicate Valid()
      reads this
    {
      && Usable(host)
      && |adminNets| == Count(host) - FirstAdmin(host)
      && (forall i :: 0 <= i < |adminNets| ==> adminNets[i] == Sub(host, FirstAdmin(host) + i))
      && generated <= Count(host) && adminIndex <= |adminNets|
    }

    /** All networks are listed, and the last ones kept for the admin namespaces. */
    constructor (h: Host)
      requires Usable(h)
      ensures Valid() && host == h && generated == 0 && adminIndex == 0
    {
      var all := seq(Count(h), i requires 0 <= i => Sub(h, i));
      var n := if h.admins <= |all| then h.admins else |all|;
      host := h;
      adminNets := if h.admins > 0 then all[|all| - n..] else [];
      generated := 0;
      adminIndex := 0;
    }

    /** The generator advances until a network is neither reserved nor holding an address that
        already exists; `None` once it is exhausted. */
    method GetUnusedLowNetwork(taken: set<nat>) returns (r: Option<nat>)
      requires Valid()
      modifies this
      ensures Valid() && (generated, adminIndex, r) ==
              Outcome(host, Do(host, State(old(generated), old(adminIndex), []), User(taken)))
    {
      while generated < Count(host)
        invariant Valid() && adminIndex == old(adminIndex)
        invariant NextFree(host, generated, taken) == NextFree(host, old(generated), taken)
        decreases Count(host) - generated
      {
        var i := generated;
        var net := Sub(host, i);
        generated := generated + 1;
        ReservedIsTail(this, i);
        var used := true;
        if net !in adminNets { used := SomeAddressExists(net, taken); }
        if !used {
          return Some(net);
        }
      }
      return None;
    }

    method GetUnusedLowAdminNetwork() returns (r: Option<nat>)
      requires Valid()
      modifies this
      ensures Valid() && (generated, adminIndex, r) ==
              Outcome(host, Do(host, State(old(generated), old(adminIndex), []), Admin))
    {
      if adminIndex == |adminNets| { return None; }
      r := Some(adminNets[adminIndex]);
      adminIndex := adminIndex + 1;
    }

    /** Any list of calls on a new object hands out the networks of the run, in its order. */
    method Perform(calls: seq<Call>) returns (nets: seq<nat>)
      requires Valid() && generated == 0 && adminIndex == 0
      modifies this
      ensures Valid() && generated == Run(host, calls).generated && adminIndex == Run(host, calls).adminIndex
      ensures nets == Addresses(host, Run(host, calls).given)
    {
      nets := [];
      for k := 0 to |calls|
        invariant Valid() && generated == Run(host, calls[..k]).generated
        invariant adminIndex == Run(host, calls[..k]).adminIndex && nets == Addresses(host, Run(host, calls[..k]).given)
      {
        ghost var s := Run(host, calls[..k]);
        OneMore(host, calls, k);
        DoAlone(host, s, calls[k]);
        var r: Option<nat>;
        match calls[k] {
          case User(taken) => r := GetUnusedLowNetwork(taken);
          case Admin => r := GetUnusedLowAdminNetwork();
        }
        if r.Some? { nets := nets + [r.value]; }
      }
      assert calls[..|calls|] == calls;
    }
  }

  /** The networks handed out, by their first address. */
  function Addresses(h: Host, given: seq<Grant>): seq<nat> {
    seq(|given|, k requires 0 <= k < |given| => Sub(h, given[k].i))
  }

  lemma OneMore(h: Host, calls: seq<Call>, k: nat)
    requires Usable(h) && k < |calls|
    ensures Run(h, calls[..k + 1]) == Do(h, Run(h, calls[..k]), calls[k])
  {
    assert calls[..k + 1][..k] == calls[..k];
  }

  /** What a call does to the object does not depend on what was handed out before. */
  lemma DoAlone(h: Host, s: State, call: Call)
    requires Usable(h)
    ensures var r := Outcome(h, Do(h, State(s.generated, s.adminIndex, []), call));
            && Do(h, s, call).generated == r.0 && Do(h, s, call).adminIndex == r.1
            && Addresses(h, Do(h, s, call).given) ==
               Addresses(h, s.given) + if r.2.Some? then [r.2.value] else []
  {
  }

  lemma ReservedIsTail(c: Configuration, i: nat)
    requires c.Valid() && i < Count(c.host)
    ensures Sub(c.host, i) in c.adminNets <==> i >= FirstAdmin(c.host)
  {
    if i >= FirstAdmin(c.host) {
      assert c.adminNets[i - FirstAdmin(c.host)] == Sub(c.host, i);
    }
  }

  // ----- runs

  function Run(h: Host, calls: seq<Call>): State
    requires Usable(h)
  {
    if calls == [] then State(0, 0, []) else Do(h, Run(h, calls[..|calls| - 1]), calls[|calls| - 1])
  }

  predicate GrantOk(h: Host, s: State, g: Grant)
    requires Usable(h)
  {
    match g
    case UserNet(i) => i < s.generated && i < FirstAdmin(h)
    case AdminNet(i) => FirstAdmin(h) <= i < FirstAdmin(h) + s.adminIndex && i < Count(h)
  }

  ghost predicate Inv(h: Host, s: State)
    requires Usable(h)
  {
    && s.generated <= Count(h)
    && (forall k :: 0 <= k < |s.given| ==> GrantOk(h, s, s.given[k]))
    && (forall j, k :: 0 <= j < k < |s.given| ==> s.given[j].i != s.given[k].i)
  }

  lemma DoKeeps(h: Host, s: State, call: Call)
    requires Usable(h) && Inv(h, s)
    ensures Inv(h, Do(h, s, call))
  {
    var t := Do(h, s, call);
    forall k | 0 <= k < |t.given| ensures GrantOk(h, t, t.given[k]) {
      if k < |s.given| { assert GrantOk(h, s, s.given[k]); }
    }
    forall k | 0 <= k < |s.given| && |t.given| > |s.given| ensures s.given[k].i != t.given[|s.given|].i {
      assert GrantOk(h, s, s.given[k]);
    }
  }

  lemma {:induction false} RunInv(h: Host, calls: seq<Call>)
    requires Usable(h)
    ensures Inv(h, Run(h, calls))
    decreases calls
  {
    if calls != [] {
      RunInv(h, calls[..|calls| - 1]);
      DoKeeps(h, Run(h, calls[..|calls| - 1]), calls[|calls| - 1]);
    }
  }

  // ----- addresses

  predicate InSub(h: Host, i: nat, a: nat) { Sub(h, i) <= a < Sub(h, i) + SUB_SIZE }

  /** Networks of different numbers share no address. */
  lemma SubsDisjoint(h: Host, i: nat, j: nat, a: nat)
    requires InSub(h, i, a) && InSub(h, j, a)
    ensures i == j
  {
  }

  lemma NetworkIsInterval(z: Zone, a: Ip)
    requires z.Net? && Inclusion.HostBitFree(z)
    ensures InNetwork(a, z) <==> Inclusion.First(z) <= a <= Inclusion.Last(z)
  {
    Inclusion.InNetIsInterval(a, z);
  }

  /** Networks that do not overlap, as the test of the address library has it, share no address. */
  lemma NoOverlapDisjoint(x: Zone, y: Zone, a: Ip)
    requires x.Net? && y.Net? && Inclusion.HostBitFree(x) && Inclusion.HostBitFree(y) && !Overlap(x, y)
    ensures !(InNetwork(a, x) && InNetwork(a, y))
  {
    NetworkIsInterval(x, a);
    NetworkIsInterval(y, a);
    Inclusion.LastIsAddress(x);
    Inclusion.LastIsAddress(y);
    NetworkIsInterval(y, Inclusion.First(x));
    NetworkIsInterval(x, Inclusion.First(y));
  }

  /** The part of the address space an accepted host network covers. */
  lemma SubInHost(h: Host, i: nat, a: nat)
    requires Usable(h) && i < Count(h) && InSub(h, i, a)
    ensures a < 0x1_0000_0000 && InNetwork(a, Zoned(h)) && !InNetwork(a, USERS_BRIDGE)
  {
    Inclusion.LastIsAddress(Zoned(h));
    NetworkIsInterval(Zoned(h), a);
    BridgeIsNetwork();
    NoOverlapDisjoint(Zoned(h), USERS_BRIDGE, a);
  }

  lemma BridgeIsNetwork()
    ensures Inclusion.HostBitFree(USERS_BRIDGE)
  {
    Inclusion.Pow16();
  }

  // ----- main results

  /** Over any run of user and admin allocations, no address lies in two of the networks handed
      out. */
  lemma GrantsAreDisjoint(h: Host, calls: seq<Call>, j: nat, k: nat, a: nat)
    requires Usable(h) && j < |Run(h, calls).given| && k < |Run(h, calls).given|
    requires InSub(h, Run(h, calls).given[j].i, a) && InSub(h, Run(h, calls).given[k].i, a)
    ensures j == k
  {
    RunInv(h, calls);
    SubsDisjoint(h, Run(h, calls).given[j].i, Run(h, calls).given[k].i, a);
  }

  /** Every network handed out lies in the host network, outside the bridge network, and before the
      reserved tail exactly when it was asked for a zone. */
  lemma GrantsAreInPlace(h: Host, calls: seq<Call>, k: nat, a: nat)
    requires Usable(h) && k < |Run(h, calls).given| && InSub(h, Run(h, calls).given[k].i, a)
    ensures a < 0x1_0000_0000 && InNetwork(a, Zoned(h)) && !InNetwork(a, USERS_BRIDGE)
    ensures Run(h, calls).given[k].UserNet? <==> a < Sub(h, FirstAdmin(h))
  {
    RunInv(h, calls);
    assert GrantOk(h, Run(h, calls), Run(h, calls).given[k]);
    SubInHost(h, Run(h, calls).given[k].i, a);
  }

  /** A zone is refused a network only when every network after those already tried is reserved or
      holds an existing address. */
  lemma RefusedOnlyWhenFull(h: Host, calls: seq<Call>, taken: set<nat>, i: nat)
    requires Usable(h) && Do(h, Run(h, calls), User(taken)).given == Run(h, calls).given &&
             Run(h, calls).generated <= i < Count(h)
    ensures i >= FirstAdmin(h) || InUse(Sub(h, i), taken)
  {
    RunInv(h, calls);
    RefusedByState(h, Run(h, calls), taken, i);
  }

  lemma RefusedByState(h: Host, s: State, taken: set<nat>, i: nat)
    requires Usable(h) && Inv(h, s) && Do(h, s, User(taken)).given == s.given && s.generated <= i < Count(h)
    ensures !Free(h, i, taken)
  {
    var r := NextFree(h, s.generated, taken);
    assert |s.given + [UserNet(r)]| == |s.given| + 1;
  }

  // ----- admin namespaces

  function Admins(calls: seq<Call>): nat {
    if calls == [] then 0 else Admins(calls[..|calls| - 1]) + if calls[|calls| - 1].Admin? then 1 else 0
  }

  lemma {:induction false} AdminIndexIs(h: Host, calls: seq<Call>)
    requires Usable(h)
    ensures var tail := Count(h) - FirstAdmin(h);
            Run(h, calls).adminIndex == if Admins(calls) <= tail then Admins(calls) else tail
    decreases calls
  {
    if calls != [] { AdminIndexIs(h, calls[..|calls| - 1]); }
  }

  /** Over any run, the call after k admin calls is given the k-th network of the tail, as long as there
      are that many admin namespaces and networks, and otherwise none. */
  lemma AdminGrantedInOrder(h: Host, calls: seq<Call>)
    requires Usable(h)
    ensures var k := Admins(calls);
            Run(h, calls + [Admin]).given == Run(h, calls).given +
            if k >= h.admins || k >= Count(h) then []
            else [AdminNet(k + if h.admins < Count(h) then Count(h) - h.admins else 0)]
  {
    AdminIndexIs(h, calls);
    assert (calls + [Admin])[..|calls|] == calls;
  }

  // ----- which host networks are accepted

  lemma {:induction false} SizeOrder(a: nat, b: nat)
    requires a <= b
    ensures Pow2(a) <= Pow2(b)
    decreases b
  {
    if a < b { SizeOrder(a, b - 1); }
  }

  lemma AtLeast256(n: nat)
    ensures Pow2(n) >= 256 <==> n >= 8
  {
    assert Pow2(4) == 16;
    Inclusion.PowSum(4, 4);
    if n >= 8 { SizeOrder(8, n); } else { SizeOrder(n, 7); assert Pow2(7) * 2 == Pow2(8); }
  }

  lemma BridgeIsRange(a: Ip)
    ensures InNetwork(a, USERS_BRIDGE) <==> 0xC0A8_0000 <= a <= 0xC0A8_FFFF
  {
    BridgeIsNetwork();
    Inclusion.Pow16();
    NetworkIsInterval(USERS_BRIDGE, a);
  }

  /** Networks that overlap share the end of one of them. */
  lemma SharedAddress(x: Zone, y: Zone) returns (a: Ip)
    requires x.Net? && y.Net? && Inclusion.HostBitFree(x) && Inclusion.HostBitFree(y) && Overlap(x, y)
    ensures InNetwork(a, x) && InNetwork(a, y)
  {
    Inclusion.LastIsAddress(x);
    Inclusion.LastIsAddress(y);
    a := if InNetwork(Inclusion.First(x), y) then Inclusion.First(x)
         else if InNetwork(Inclusion.Last(x), y) then Inclusion.Last(x)
         else if InNetwork(Inclusion.First(y), x) then Inclusion.First(y) else Inclusion.Last(y);
    NetworkIsInterval(x, a);
    NetworkIsInterval(y, a);
  }

  /** A host network is accepted if and only if its prefix is at most 24 bits and none of its addresses
      starts with 192.168. */
  lemma AcceptedIff(h: Host)
    requires IsNetwork(h)
    ensures Accepted(h) <==> h.len <= 24 && forall a: Ip :: InNetwork(a, Zoned(h)) ==> a / 0x1_0000 != 192 * 256 + 168
  {
    AtLeast256(32 - h.len);
    BridgeIsNetwork();
    if Overlap(Zoned(h), USERS_BRIDGE) {
      var a := SharedAddress(Zoned(h), USERS_BRIDGE);
      BridgeIsRange(a);
      assert InNetwork(a, Zoned(h)) && a / 0x1_0000 == 192 * 256 + 168;
    } else {
      forall a: Ip | InNetwork(a, Zoned(h)) ensures a / 0x1_0000 != 192 * 256 + 168 {
        NoOverlapDisjoint(Zoned(h), USERS_BRIDGE, a);
        BridgeIsRange(a);
      }
    }
  }

  // ----- the networks are of 30 bits

  lemma FourTimes(n: nat)
    ensures Pow2(n + 2) == Pow2(n) * 4
  {
    assert Pow2(n + 2) == 2 * Pow2(n + 1);
  }

  lemma AlignedByFour(base: nat, len: nat)
    requires len <= 24 && base % Pow2(32 - len) == 0
    ensures base % 4 == 0
  {
    var m := Pow2(30 - len);
    FourTimes(30 - len);
    Inclusion.MultipleOf(m, 4);
    Inclusion.DividesOn(base, m * 4, 4);
  }

  lemma BaseIsAligned(h: Host)
    requires Usable(h)
    ensures h.base % 4 == 0
  {
    AtLeast256(32 - h.len);
    AlignedByFour(h.base, h.len);
  }

  lemma SubIsAligned(h: Host, i: nat)
    requires Usable(h) && i < Count(h)
    ensures Sub(h, i) < 0x1_0000_0000 && Sub(h, i) % 4 == 0
  {
    assert Sub(h, i) < 0x1_0000_0000 by { SubInHost(h, i, Sub(h, i)); }
    assert h.base % 4 == 0 by { BaseIsAligned(h); }
    FourMore(h.base, i);
  }

  lemma FourMore(base: nat, i: nat)
    requires base % 4 == 0
    ensures (base + 4 * i) % 4 == 0
  {
  }

  /** The network of a number is the 30-bit network at its address. */
  lemma SubIsNetwork(h: Host, i: nat, a: Ip, base: Ip)
    requires Usable(h) && i < Count(h) && base == Sub(h, i)
    ensures InSub(h, i, a) <==> ZoneHas(Net(base, 30), a)
  {
    assert base % 4 == 0 by { SubIsAligned(h, i); }
    FourAddresses(base, a);
  }

  lemma FourAddresses(base: Ip, a: Ip)
    requires base % 4 == 0
    ensures base <= a < base + 4 <==> ZoneHas(Net(base, 30), a)
  {
    assert Pow2(2) == 4;
    Inclusion.InNetIsInterval(a, Net(base, 30));
  }
}
