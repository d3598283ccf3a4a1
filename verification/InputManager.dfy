/** Incoming rules on the interfaces of default routes (`padsi/system/network_input_manager.py`):
    an object that keeps rules and interfaces, and calls the firewall for each new pair. */
module InputManager {

  /** A rule is its text: action, endpoint and chain. Its description plays no part. */
  datatype Rule = Rule(id: string)

  datatype Pair = Pair(iface: string, rule: Rule)

  /** The fields, and the pairs installed in the firewall so far with their multiplicity. */
  datatype State = State(rules: map<string, Rule>, ifaces: set<string>, installed: multiset<Pair>)

  const INITIAL := State(map[], {}, multiset{})

  function RulesOf(rules: map<string, Rule>, ids: set<string>): set<Rule>
    requires ids <= rules.Keys
  {
    set id | id in ids :: rules[id]
  }

  function RuleSet(s: State): set<Rule> { RulesOf(s.rules, s.rules.Keys) }

  /** Every rule is filed under its own text. */
  predicate Keyed(rules: map<string, Rule>) { forall id :: id in rules ==> rules[id].id == id }

  function Product(ifaces: set<string>, rules: set<Rule>): set<Pair> {
    set i, r | i in ifaces && r in rules :: Pair(i, r)
  }

  // ----- the calls

  datatype Call = AddRule(rule: Rule) | Declare(iface: string) | Undeclare(iface: string) | Adapt(defaults: set<string>)

  function DoAdd(s: State, rule: Rule): State {
    if rule.id in s.rules then s
    else State(s.rules[rule.id := rule], s.ifaces, s.installed + multiset(Product(s.ifaces, {rule})))
  }

  function DoDeclare(s: State, fresh': set<string>): State {
    State(s.rules, s.ifaces + fresh', s.installed + multiset(Product(fresh' - s.ifaces, RuleSet(s))))
  }

  function Do(s: State, call: Call): State {
    match call
    case AddRule(r) => DoAdd(s, r)
    case Declare(i) => DoDeclare(s, {i})
    case Undeclare(i) => s.(ifaces := s.ifaces - {i})
    case Adapt(d) => DoDeclare(s, d).(ifaces := d)
  }

  function Run(calls: seq<Call>): State {
    if calls == [] then INITIAL else Do(Run(calls[..|calls| - 1]), calls[|calls| - 1])
  }

  // ----- the object

  class NetworkInputManager {
    var rules: map<string, Rule>
    var ifaces: set<string>
    var installed: seq<Pair>

    ghost function Value(): State
      reads this
    {
      State(rules, ifaces, multiset(installed))
    }

    constructor ()
      ensures Keyed(rules) && Value() == INITIAL
    {
      rules, ifaces, installed := map[], {}, [];
    }

    method FlowSetPolicy(p: Pair)
      modifies this`installed
      ensures installed == old(installed) + [p]
    {
      installed := installed + [p];
    }

    method Add(rule: Rule)
      modifies this
      ensures old(Keyed(rules)) ==> Keyed(rules)
      ensures Value() == DoAdd(old(Value()), rule)
    {
      if rule.id in rules { return; }
      rules := rules[rule.id := rule];
      var todo := ifaces;
      while todo != {}
        invariant rules == old(rules)[rule.id := rule] && ifaces == old(ifaces) && todo <= ifaces
        invariant multiset(installed) == old(multiset(installed)) + multiset(Product(ifaces - todo, {rule}))
      {
        var i :| i in todo;
        FlowSetPolicy(Pair(i, rule));
        OneMoreInterface(ifaces - todo, i, rule);
        assert ifaces - (todo - {i}) == (ifaces - todo) + {i};
        todo := todo - {i};
      }
      assert ifaces - {} == ifaces;
    }

    method DeclareInterface(iface: string)
      requires Keyed(rules)
      modifies this
      ensures Keyed(rules) && Value() == DoDeclare(old(Value()), {iface})
    {
      if iface in ifaces {
        assert {iface} - ifaces == {} && ifaces + {iface} == ifaces;
        NoPairs(RuleSet(Value()));
        return;
      }
      ifaces := ifaces + {iface};
      var todo := rules.Keys;
      while todo != {}
        invariant rules == old(rules) && ifaces == old(ifaces) + {iface} && todo <= rules.Keys
        invariant multiset(installed) == old(multiset(installed)) +
                  multiset(Product({iface}, RulesOf(rules, rules.Keys - todo)))
      {
        var id :| id in todo;
        FlowSetPolicy(Pair(iface, rules[id]));
        OneMoreRule(iface, RulesOf(rules, rules.Keys - todo), rules[id]);
        assert rules.Keys - (todo - {id}) == (rules.Keys - todo) + {id};
        assert RulesOf(rules, (rules.Keys - todo) + {id}) == RulesOf(rules, rules.Keys - todo) + {rules[id]};
        todo := todo - {id};
      }
      assert rules.Keys - {} == rules.Keys && {iface} - old(ifaces) == {iface};
    }

    method UndeclareInterface(iface: string)
      modifies this
      ensures Value() == Do(old(Value()), Undeclare(iface))
    {
      if iface !in ifaces { return; }
      ifaces := ifaces - {iface};
    }

    method DeclareAll(defaults: set<string>)
      requires Keyed(rules)
      modifies this
      ensures Keyed(rules) && Value() == DoDeclare(old(Value()), defaults)
    {
      NothingDeclared(Value());
      var todo := defaults;
      while todo != {}
        invariant todo <= defaults && Keyed(rules) && Value() == DoDeclare(old(Value()), defaults - todo)
      {
        var i :| i in todo;
        DeclareInterface(i);
        DeclareOneMore(old(Value()), defaults - todo, i);
        assert defaults - (todo - {i}) == (defaults - todo) + {i};
        todo := todo - {i};
      }
      assert defaults - {} == defaults;
    }

    method AdaptTo(defaults: set<string>)
      requires Keyed(rules)
      modifies this
      ensures Keyed(rules) && Value() == Do(old(Value()), Adapt(defaults))
    {
      DeclareAll(defaults);
      ghost var nowRules, nowInstalled := rules, multiset(installed);
      var clist := ifaces;
      while clist != {}
        invariant rules == nowRules && multiset(installed) == nowInstalled
      {
        var i :| i in clist;
        if i !in defaults { UndeclareInterface(i); }
        clist := clist - {i};
      }
      ifaces := defaults;
    }
  }

  // ----- products

  lemma NoPairs(rules: set<Rule>)
    ensures Product({}, rules) == {}
  {
  }

  lemma OneMoreInterface(ifaces: set<string>, i: string, rule: Rule)
    requires i !in ifaces
    ensures multiset(Product(ifaces + {i}, {rule})) == multiset(Product(ifaces, {rule})) + multiset{Pair(i, rule)}
  {
    assert Product(ifaces + {i}, {rule}) == Product(ifaces, {rule}) + {Pair(i, rule)};
  }

  lemma OneMoreRule(iface: string, rules: set<Rule>, r: Rule)
    requires r !in rules
    ensures multiset(Product({iface}, rules + {r})) == multiset(Product({iface}, rules)) + multiset{Pair(iface, r)}
  {
    assert Product({iface}, rules + {r}) == Product({iface}, rules) + {Pair(iface, r)};
  }

  lemma ProductSplits(a: set<string>, b: set<string>, rules: set<Rule>)
    requires a !! b
    ensures multiset(Product(a + b, rules)) == multiset(Product(a, rules)) + multiset(Product(b, rules))
  {
    assert Product(a + b, rules) == Product(a, rules) + Product(b, rules);
    assert Product(a, rules) !! Product(b, rules);
  }

  lemma DeclareOneMore(s: State, done: set<string>, i: string)
    requires i !in done
    ensures DoDeclare(DoDeclare(s, done), {i}) == DoDeclare(s, done + {i})
  {
    var before, new' := done - s.ifaces, {i} - (s.ifaces + done);
    assert (done + {i}) - s.ifaces == before + new';
    ProductSplits(before, new', RuleSet(s));
    assert s.ifaces + done + {i} == s.ifaces + (done + {i});
  }

  lemma NothingDeclared(s: State)
    ensures DoDeclare(s, {}) == s
  {
    NoPairs(RuleSet(s));
    assert s.ifaces + {} == s.ifaces && {} - s.ifaces == {};
  }

  // ----- every pair is installed

  ghost predicate Covered(s: State) {
    forall i, id :: i in s.ifaces && id in s.rules ==> Pair(i, s.rules[id]) in s.installed
  }

  lemma ProductHas(ifaces: set<string>, rules: set<Rule>, i: string, r: Rule)
    ensures Pair(i, r) in Product(ifaces, rules) <==> i in ifaces && r in rules
  {
  }

  lemma AddCovers(s: State, rule: Rule)
    requires Covered(s)
    ensures Covered(DoAdd(s, rule))
  {
    var t := DoAdd(s, rule);
    forall i, id | i in t.ifaces && id in t.rules ensures Pair(i, t.rules[id]) in t.installed {
      ProductHas(s.ifaces, {rule}, i, t.rules[id]);
    }
  }

  lemma DeclareCovers(s: State, more: set<string>)
    requires Covered(s)
    ensures Covered(DoDeclare(s, more))
  {
    var t := DoDeclare(s, more);
    forall i, id | i in t.ifaces && id in t.rules ensures Pair(i, t.rules[id]) in t.installed {
      ProductHas(more - s.ifaces, RuleSet(s), i, t.rules[id]);
    }
  }

  /** After any run, every current rule is installed on every declared interface. */
  lemma {:induction false} AllPairsInstalled(calls: seq<Call>)
    ensures Covered(Run(calls)) && Keyed(Run(calls).rules)
    decreases calls
  {
    if calls != [] {
      var s := Run(calls[..|calls| - 1]);
      AllPairsInstalled(calls[..|calls| - 1]);
      match calls[|calls| - 1]
      case AddRule(r) => AddCovers(s, r);
      case Declare(i) => DeclareCovers(s, {i});
      case Undeclare(i) =>
      case Adapt(d) => DeclareCovers(s, d);
    }
  }

  // ----- exactly once, whatever the order

  /** No call of the run takes an interface away. */
  ghost predicate UndeclaresNothing(calls: seq<Call>) {
    forall k :: 0 <= k < |calls| ==> Run(calls[..k]).ifaces <= Run(calls[..k + 1]).ifaces
  }

  lemma {:induction false} InstalledIsProduct(calls: seq<Call>)
    requires UndeclaresNothing(calls)
    ensures var s := Run(calls); s.installed == multiset(Product(s.ifaces, RuleSet(s)))
    decreases calls
  {
    if calls == [] {
      NoPairs(RuleSet(INITIAL));
    } else {
      var init := calls[..|calls| - 1];
      assert forall k :: 0 <= k <= |init| ==> init[..k] == calls[..k];
      InstalledIsProduct(init);
      AllPairsInstalled(init);
      assert calls[..|calls|] == calls && calls[..|init|] == init;
      assert Run(init).ifaces <= Run(calls).ifaces;
      StepKeepsProduct(Run(init), calls[|calls| - 1]);
    }
  }

  lemma StepKeepsProduct(s: State, call: Call)
    requires Keyed(s.rules) && s.installed == multiset(Product(s.ifaces, RuleSet(s))) && s.ifaces <= Do(s, call).ifaces
    ensures var t := Do(s, call); t.installed == multiset(Product(t.ifaces, RuleSet(t)))
  {
    match call
    case AddRule(r) => AddKeepsProduct(s, r);
    case Declare(i) => DeclareKeepsProduct(s, {i});
    case Undeclare(i) =>
    case Adapt(d) =>
      DeclareKeepsProduct(s, d);
      assert s.ifaces + d == d;
  }

  lemma DeclareKeepsProduct(s: State, more: set<string>)
    requires s.installed == multiset(Product(s.ifaces, RuleSet(s)))
    ensures var t := DoDeclare(s, more); t.installed == multiset(Product(t.ifaces, RuleSet(t)))
  {
    ProductSplits(s.ifaces, more - s.ifaces, RuleSet(s));
    assert s.ifaces + (more - s.ifaces) == s.ifaces + more;
  }

  lemma AddKeepsProduct(s: State, rule: Rule)
    requires Keyed(s.rules) && s.installed == multiset(Product(s.ifaces, RuleSet(s)))
    ensures var t := DoAdd(s, rule); t.installed == multiset(Product(t.ifaces, RuleSet(t)))
  {
    if rule.id !in s.rules {
      var t := DoAdd(s, rule);
      assert RuleSet(t) == RuleSet(s) + {rule} by { NewRule(s, rule); }
      assert rule !in RuleSet(s);
      assert Product(s.ifaces, RuleSet(s) + {rule}) == Product(s.ifaces, RuleSet(s)) + Product(s.ifaces, {rule});
      assert Product(s.ifaces, RuleSet(s)) !! Product(s.ifaces, {rule});
    }
  }

  lemma NewRule(s: State, rule: Rule)
    requires rule.id !in s.rules
    ensures RuleSet(DoAdd(s, rule)) == RuleSet(s) + {rule}
  {
    var t := DoAdd(s, rule);
    forall r ensures r in RuleSet(t) <==> r in RuleSet(s) + {rule} {
      if r in RuleSet(s) {
        var id :| id in s.rules && s.rules[id] == r;
        assert t.rules[id] == r;
      }
      assert t.rules[rule.id] == rule;
    }
  }

  /** In a run that undeclares nothing, each pair of a current rule and a declared interface is
      installed exactly once, and nothing else is. */
  lemma InstalledExactlyOnce(calls: seq<Call>, p: Pair)
    requires UndeclaresNothing(calls)
    ensures var s := Run(calls); s.installed[p] == if p.iface in s.ifaces && p.rule in RuleSet(s) then 1 else 0
  {
    InstalledIsProduct(calls);
    ProductHas(Run(calls).ifaces, RuleSet(Run(calls)), p.iface, p.rule);
  }

  // ----- the order of the calls

  /** A call names the interface for declaration. */
  predicate Names(call: Call, i: string) { call == Declare(i) || (call.Adapt? && i in call.defaults) }

  predicate SomeNames(calls: seq<Call>, i: string) { exists k :: 0 <= k < |calls| && Names(calls[k], i) }

  lemma UndeclaresNothingBefore(calls: seq<Call>)
    requires UndeclaresNothing(calls) && calls != []
    ensures UndeclaresNothing(calls[..|calls| - 1])
    ensures Run(calls[..|calls| - 1]).ifaces <= Run(calls).ifaces
  {
    var init := calls[..|calls| - 1];
    assert forall k :: 0 <= k <= |init| ==> init[..k] == calls[..k];
    assert calls[..|init| + 1] == calls;
  }

  /** A run that undeclares nothing ends with the rules and interfaces that its calls named. */
  lemma {:induction false} NamedAreThere(calls: seq<Call>, id: string, i: string)
    requires UndeclaresNothing(calls)
    ensures id in Run(calls).rules <==> AddRule(Rule(id)) in calls
    ensures i in Run(calls).ifaces <==> SomeNames(calls, i)
    decreases calls
  {
    if calls != [] {
      var init, last := calls[..|calls| - 1], calls[|calls| - 1];
      UndeclaresNothingBefore(calls);
      NamedAreThere(init, id, i);
      assert calls == init + [last];
      assert SomeNames(calls, i) <==> SomeNames(init, i) || Names(last, i) by { SomeNamesMore(init, last, i); }
    }
  }

  lemma SomeNamesMore(calls: seq<Call>, last: Call, i: string)
    ensures SomeNames(calls + [last], i) <==> SomeNames(calls, i) || Names(last, i)
  {
    var all := calls + [last];
    assert forall k :: 0 <= k < |calls| ==> all[k] == calls[k];
    if Names(last, i) { assert Names(all[|calls|], i); }
    if SomeNames(calls, i) {
      var k :| 0 <= k < |calls| && Names(calls[k], i);
      assert Names(all[k], i);
    }
  }

  lemma SameNames(calls: seq<Call>, others: seq<Call>, i: string)
    requires forall c :: c in calls ==> c in others
    ensures SomeNames(calls, i) ==> SomeNames(others, i)
  {
    if SomeNames(calls, i) {
      var k :| 0 <= k < |calls| && Names(calls[k], i);
      assert calls[k] in others;
      var j :| 0 <= j < |others| && others[j] == calls[k];
    }
  }

  /** The calls of runs that undeclare nothing can be made in any order, and repeated: the state is
      the same in the end, and so is all that was installed. */
  lemma OrderDoesNotMatter(calls: seq<Call>, others: seq<Call>)
    requires UndeclaresNothing(calls) && UndeclaresNothing(others) && forall c :: c in calls <==> c in others
    ensures Run(calls) == Run(others)
  {
    var s, t := Run(calls), Run(others);
    forall id ensures id in s.rules <==> id in t.rules {
      NamedAreThere(calls, id, "");
      NamedAreThere(others, id, "");
    }
    forall i ensures i in s.ifaces <==> i in t.ifaces {
      NamedAreThere(calls, "", i);
      NamedAreThere(others, "", i);
      SameNames(calls, others, i);
      SameNames(others, calls, i);
    }
    AllPairsInstalled(calls);
    AllPairsInstalled(others);
    SameRules(s.rules, t.rules);
    InstalledIsProduct(calls);
    InstalledIsProduct(others);
  }

  lemma SameRules(a: map<string, Rule>, b: map<string, Rule>)
    requires Keyed(a) && Keyed(b) && forall id :: id in a <==> id in b
    ensures a == b
  {
    forall id | id in a ensures a[id] == b[id] { assert a[id].id == b[id].id; }
  }

  // ----- exactly when nothing is installed twice

  /** The interfaces that a call adds to the declared ones. */
  function Entering(s: State, call: Call): set<string> {
    match call
    case Declare(i) => {i} - s.ifaces
    case Adapt(d) => d - s.ifaces
    case _ => {}
  }

  /** An interface that enters has a pair with a current rule already installed. */
  ghost predicate Reinstalls(s: State, call: Call) {
    exists i, r :: i in Entering(s, call) && r in RuleSet(s) && Pair(i, r) in s.installed
  }

  ghost predicate NothingTwice(s: State) { forall p :: s.installed[p] <= 1 }

  /** The rules of installed pairs are current ones. */
  ghost predicate OnlyCurrent(s: State) { forall p :: p in s.installed ==> p.rule in RuleSet(s) }

  function NewPairs(s: State, call: Call): set<Pair> {
    match call
    case AddRule(r) => if r.id in s.rules then {} else Product(s.ifaces, {r})
    case _ => Product(Entering(s, call), RuleSet(s))
  }

  lemma StepInstalls(s: State, call: Call)
    ensures Do(s, call).installed == s.installed + multiset(NewPairs(s, call))
  {
    NoPairs(RuleSet(s));
  }

  lemma StepOnlyCurrent(s: State, call: Call)
    requires OnlyCurrent(s)
    ensures OnlyCurrent(Do(s, call))
  {
    var t := Do(s, call);
    StepInstalls(s, call);
    if call.AddRule? && call.rule.id !in s.rules { NewRule(s, call.rule); }
  }

  lemma StepTwice(s: State, call: Call)
    requires OnlyCurrent(s) && Keyed(s.rules)
    ensures NothingTwice(Do(s, call)) <==> NothingTwice(s) && !Reinstalls(s, call)
  {
    var t, fresh' := Do(s, call), NewPairs(s, call);
    StepInstalls(s, call);
    forall p ensures t.installed[p] == s.installed[p] + if p in fresh' then 1 else 0 {}
    if Reinstalls(s, call) {
      var i, r :| i in Entering(s, call) && r in RuleSet(s) && Pair(i, r) in s.installed;
      assert Pair(i, r) in fresh';
      assert t.installed[Pair(i, r)] >= 2;
    } else if NothingTwice(s) {
      forall p ensures t.installed[p] <= 1 {
        if p in fresh' && p in s.installed { NewIsNot(s, call, p); }
      }
    } else {
      var p :| s.installed[p] > 1;
      assert t.installed[p] > 1;
    }
  }

  lemma NewIsNot(s: State, call: Call, p: Pair)
    requires OnlyCurrent(s) && Keyed(s.rules) && p in NewPairs(s, call) && p in s.installed
    ensures Reinstalls(s, call)
  {
    if !call.AddRule? {
      assert p == Pair(p.iface, p.rule) && p.iface in Entering(s, call) && p.rule in RuleSet(s);
    }
  }

  lemma {:induction false} RunOnlyCurrent(calls: seq<Call>)
    ensures OnlyCurrent(Run(calls))
    decreases calls
  {
    if calls != [] {
      RunOnlyCurrent(calls[..|calls| - 1]);
      StepOnlyCurrent(Run(calls[..|calls| - 1]), calls[|calls| - 1]);
    }
  }

  /** No call of the run, made after the ones before it, reinstalls anything. */
  ghost predicate NeverReinstalls(calls: seq<Call>) {
    calls != [] ==>
      var init, last := calls[..|calls| - 1], calls[|calls| - 1];
      NeverReinstalls(init) && !Reinstalls(Run(init), last)
  }

  /** Over any run, nothing is installed twice if and only if no call brings in an interface that
      already has a pair with a current rule. */
  lemma {:induction false} InstalledOnceIff(calls: seq<Call>)
    ensures NothingTwice(Run(calls)) <==> NeverReinstalls(calls)
    decreases calls
  {
    if calls != [] {
      var init, last := calls[..|calls| - 1], calls[|calls| - 1];
      InstalledOnceIff(init);
      RunOnlyCurrent(init);
      AllPairsInstalled(init);
      StepTwice(Run(init), last);
    }
  }

  /** Undeclaring an interface and declaring it again installs its rules a second time. */
  lemma RedeclaringInstallsTwice(s: State, i: string, rule: Rule)
    requires Covered(s) && i in s.ifaces && rule in RuleSet(s)
    ensures Do(Do(s, Undeclare(i)), Declare(i)).ifaces == s.ifaces
    ensures Do(Do(s, Undeclare(i)), Declare(i)).installed[Pair(i, rule)] == s.installed[Pair(i, rule)] + 1
  {
    assert {i} - (s.ifaces - {i}) == {i};
    ProductHas({i}, RuleSet(s), i, rule);
  }

  // ----- the fields

  predicate BringsIn(c: Call, i: string) { c == Declare(i) || (c.Adapt? && i in c.defaults) }

  predicate TakesOut(c: Call, i: string) { c == Undeclare(i) || (c.Adapt? && i !in c.defaults) }

  /** Some call brought the interface in, and none took it out since. */
  ghost predicate InSince(calls: seq<Call>, i: string) {
    exists k :: 0 <= k < |calls| && BringsIn(calls[k], i) && forall j :: k < j < |calls| ==> !TakesOut(calls[j], i)
  }

  lemma InSinceMore(calls: seq<Call>, last: Call, i: string)
    ensures InSince(calls + [last], i) <==> BringsIn(last, i) || (InSince(calls, i) && !TakesOut(last, i))
  {
    var all := calls + [last];
    assert forall k :: 0 <= k < |calls| ==> all[k] == calls[k];
    assert all[|calls|] == last;
    if BringsIn(last, i) {
      assert InSince(all, i) by { assert BringsIn(all[|calls|], i); }
    } else if InSince(calls, i) && !TakesOut(last, i) {
      var k :| 0 <= k < |calls| && BringsIn(calls[k], i) && forall j :: k < j < |calls| ==> !TakesOut(calls[j], i);
      assert BringsIn(all[k], i);
    }
    if InSince(all, i) && !BringsIn(last, i) {
      var k :| 0 <= k < |all| && BringsIn(all[k], i) && forall j :: k < j < |all| ==> !TakesOut(all[j], i);
      assert BringsIn(calls[k], i) && !TakesOut(all[|calls|], i);
      forall j | k < j < |calls| ensures !TakesOut(calls[j], i) { assert !TakesOut(all[j], i); }
    }
  }

  /** After any run an interface is a current one if and only if some call brought it in and none took it
      out since, and a rule is known if and only if it was added. */
  lemma {:induction false} FieldsAre(calls: seq<Call>, i: string, id: string)
    ensures i in Run(calls).ifaces <==> InSince(calls, i)
    ensures id in Run(calls).rules <==> WasAdded(calls, id)
    decreases calls
  {
    if calls != [] {
      var before, last := calls[..|calls| - 1], calls[|calls| - 1];
      FieldsAre(before, i, id);
      InSinceMore(before, last, i);
      WasAddedMore(before, last, id);
      assert calls == before + [last];
      FieldsStep(Run(before), last, i, id);
    }
  }

  ghost predicate WasAdded(calls: seq<Call>, id: string) { exists r :: AddRule(r) in calls && r.id == id }

  lemma WasAddedMore(calls: seq<Call>, last: Call, id: string)
    ensures WasAdded(calls + [last], id) <==> WasAdded(calls, id) || (last.AddRule? && last.rule.id == id)
  {
    assert forall r :: AddRule(r) in calls + [last] <==> AddRule(r) in calls || AddRule(r) == last;
  }

  lemma FieldsStep(s: State, call: Call, i: string, id: string)
    ensures i in Do(s, call).ifaces <==> BringsIn(call, i) || (i in s.ifaces && !TakesOut(call, i))
    ensures id in Do(s, call).rules <==> id in s.rules || (call.AddRule? && call.rule.id == id)
  {
  }
}
