/** The rule-binding cache of admission/rulebinding/cache/cache.go. */
module RuleBindingCache {
  import opened Wrappers
  import opened Rules

  /** One rule of a binding; absent parameters are the empty map. */
  datatype BindingRule = BindingRule(ruleID: string, ruleName: string, ruleTags: seq<string>, parameters: Parameters)

  /** A binding with its unique name, and a number that stands for its selectors. */
  datatype RuleBinding = RuleBinding(name: string, selectors: nat, rules: seq<BindingRule>)

  datatype CacheEvent =
    | AddEvent(binding: Option<RuleBinding>)
    | ModifyEvent(binding: Option<RuleBinding>)
    | DeleteEvent(name: string)

  /** The rules a binding's rule stands for: by ID, else by name, else by tags. */
  ghost function Wanted(ds: seq<RuleDescriptor>, r: BindingRule): seq<RuleDescriptor> {
    if r.ruleID != "" && FirstByID(ds, r.ruleID) != [] then FirstByID(ds, r.ruleID)
    else if r.ruleName != "" && FirstByName(ds, r.ruleName) != [] then FirstByName(ds, r.ruleName)
    else ByTags(ds, r.ruleTags)
  }

  ghost function Build(ds: seq<RuleDescriptor>, rules: seq<BindingRule>): seq<Evaluation> {
    if rules == [] then []
    else
      var last := rules[|rules| - 1];
      Build(ds, rules[..|rules| - 1]) + With(Wanted(ds, last), last.parameters)
  }

  lemma {:induction false} NoTags(ds: seq<RuleDescriptor>)
    ensures ByTags(ds, []) == []
  {
    if ds != [] {
      NoTags(ds[..|ds| - 1]);
    }
  }

  /** Which rules a binding's rule stands for: the first with its ID, if it names one that exists; else the first with
      its name, if it names one that exists; else those that share a tag with it. */
  lemma WantedExactly(ds: seq<RuleDescriptor>, r: BindingRule)
    ensures var byID, byName := r.ruleID != "" && (exists d :: d in ds && d.id == r.ruleID),
                                r.ruleName != "" && (exists d :: d in ds && d.name == r.ruleName);
            && (byID ==> forall k | 0 <= k < |ds| && ds[k].id == r.ruleID && (forall j | 0 <= j < k :: ds[j].id != r.ruleID) ::
                  Wanted(ds, r) == [ds[k]])
            && (!byID && byName ==> forall k | 0 <= k < |ds| && ds[k].name == r.ruleName
                                               && (forall j | 0 <= j < k :: ds[j].name != r.ruleName) ::
                  Wanted(ds, r) == [ds[k]])
            && (!byID && !byName ==> Wanted(ds, r) == ByTags(ds, r.ruleTags))
  {
    FirstByIDExactly(ds, r.ruleID);
    FirstByNameExactly(ds, r.ruleName);
  }

  /** The evaluations of a binding are those of its rules, one after the other. */
  lemma {:induction false} BuildConcatenates(ds: seq<RuleDescriptor>, a: seq<BindingRule>, b: seq<BindingRule>)
    ensures Build(ds, a + b) == Build(ds, a) + Build(ds, b)
  {
    if b == [] {
      assert a + b == a;
    } else {
      assert (a + b)[..|a + b| - 1] == a + b[..|b| - 1];
      BuildConcatenates(ds, a, b[..|b| - 1]);
    }
  }

  /** The evaluations of one rule are those of the rules it stands for, each with its parameters. */
  lemma BuildOne(ds: seq<RuleDescriptor>, rule: BindingRule)
    ensures |Build(ds, [rule])| == |Wanted(ds, rule)|
    ensures forall i | 0 <= i < |Build(ds, [rule])| ::
              Build(ds, [rule])[i].rule == Wanted(ds, rule)[i] && Build(ds, [rule])[i].parameters == rule.parameters
  {
    assert [rule][..0] == [];
    assert Build(ds, []) == [];
  }

  // ---------------------------------------------------------------- histories

  /** The binding an event leaves under a name; None if it removes it. */
  ghost function Effect(e: CacheEvent): Option<RuleBinding> {
    match e
    case AddEvent(b) => b
    case ModifyEvent(b) => b
    case DeleteEvent(_) => None
  }

  ghost predicate Concerns(e: CacheEvent, name: string) {
    match e
    case DeleteEvent(n) => n == name
    case _ => e.binding.Some? && e.binding.value.name == name
  }

  /** What the last event about a name says; events whose object did not convert are about none. */
  ghost function Last(events: seq<CacheEvent>, name: string): Option<RuleBinding> {
    if events == [] then None
    else if Concerns(events[|events| - 1], name) then Effect(events[|events| - 1])
    else Last(events[..|events| - 1], name)
  }

  /** What one more event changes: an addition or modification of a converted binding puts it under its name, a deletion
      removes its name, and everything else stays. */
  lemma LastAfter(events: seq<CacheEvent>, b: RuleBinding, name: string)
    ensures Last(events + [AddEvent(Some(b))], name) == if name == b.name then Some(b) else Last(events, name)
    ensures Last(events + [ModifyEvent(Some(b))], name) == if name == b.name then Some(b) else Last(events, name)
    ensures Last(events + [DeleteEvent(b.name)], name) == if name == b.name then None else Last(events, name)
    ensures Last(events + [AddEvent(None)], name) == Last(events, name) == Last(events + [ModifyEvent(None)], name)
    ensures Last([], name) == None
  {
    assert forall e: CacheEvent :: (events + [e])[..|events|] == events;
  }

  /** The bindings that the last event about their name leaves in place. */
  ghost predicate Reflects(rbs: map<string, RuleBinding>, events: seq<CacheEvent>) {
    forall name :: (name in rbs <==> Last(events, name).Some?) && (name in rbs ==> Last(events, name) == Some(rbs[name]))
  }

  // ---------------------------------------------------------------- the cache

  /** An object to be admitted: its namespace, empty for cluster objects, and its labels. */
  datatype Target = Target(namespace: string, labels: map<string, string>)

  const INCLUDE_CLUSTER_OBJECTS := "includeClusterObjects"

  /** `selects` is the outcome of the pod and namespace selectors of a binding for the object at hand. */
  predicate Applies(target: Target, b: RuleBinding, selects: RuleBinding -> bool) {
    if target.namespace == "" then
      !(INCLUDE_CLUSTER_OBJECTS in target.labels && target.labels[INCLUDE_CLUSTER_OBJECTS] == "false")
    else selects(b)
  }

  /** Cluster objects are subject to every binding unless their label says "false"; others as the selectors say. */
  lemma AppliesExactly(target: Target, b: RuleBinding, selects: RuleBinding -> bool)
    ensures target.namespace != "" ==> (Applies(target, b, selects) <==> selects(b))
    ensures target.namespace == "" ==>
              && ("includeClusterObjects" !in target.labels ==> Applies(target, b, selects))
              && ("includeClusterObjects" in target.labels ==>
                    (Applies(target, b, selects) <==> target.labels["includeClusterObjects"] != "false"))
  {
  }

  /** No two bindings have an evaluator in common. */
  ghost predicate NoneShared(rules: map<string, seq<RuleEvaluator>>) {
    forall n, m, r | n in rules && m in rules && r in rules[n] && r in rules[m] :: n == m
  }

  class RBCache {
    const ruleCreator: RuleCreator
    var rbNameToRB: map<string, RuleBinding>
    var rbNameToRules: map<string, seq<RuleEvaluator>>

    /** All evaluators in use. */
    ghost var evaluators: set<RuleEvaluator>

    /** The binding under `n` carries that name, and its list is what the binding asks for. */
    ghost predicate Stored(n: string)
      requires n in rbNameToRB && n in rbNameToRules
      reads this, evaluators
    {
      && rbNameToRB[n].name == n
      && Distinct(rbNameToRules[n]) && (forall r | r in rbNameToRules[n] :: r in evaluators)
      && Shows(rbNameToRules[n], Build(ruleCreator.ruleDescriptions, rbNameToRB[n].rules))
    }

    ghost predicate Valid()
      reads this, evaluators
    {
      && rbNameToRB.Keys == rbNameToRules.Keys
      && (forall n | n in rbNameToRB :: Stored(n))
      && NoneShared(rbNameToRules)
    }

    constructor (ruleCreator: RuleCreator)
      ensures Valid() && Reflects(rbNameToRB, []) && this.ruleCreator == ruleCreator
    {
      this.ruleCreator := ruleCreator;
      rbNameToRB, rbNameToRules, evaluators := map[], map[], {};
    }

    method SetAllParameters(rules: seq<RuleEvaluator>, ps: Parameters)
      requires Distinct(rules)
      requires forall r | r in rules :: r.parameters == map[]
      modifies rules
      ensures forall r | r in rules :: r.parameters == ps
    {
      for i := 0 to |rules|
        invariant forall j | 0 <= j < i :: rules[j].parameters == ps
        invariant forall j | i <= j < |rules| :: rules[j].parameters == map[]
      {
        rules[i].SetParameters(ps);
      }
    }

    method CreateRule(r: BindingRule) returns (rules: seq<RuleEvaluator>)
      ensures Shows(rules, With(Wanted(ruleCreator.ruleDescriptions, r), r.parameters))
      ensures Distinct(rules) && forall e | e in rules :: fresh(e)
    {
      if r.ruleID != "" {
        rules := ruleCreator.CreateRuleByID(r.ruleID);
        if rules != [] {
          SetAllParameters(rules, r.parameters);
          return;
        }
      }
      if r.ruleName != "" {
        rules := ruleCreator.CreateRuleByName(r.ruleName);
        if rules != [] {
          SetAllParameters(rules, r.parameters);
          return;
        }
      }
      if |r.ruleTags| > 0 {
        rules := ruleCreator.CreateRulesByTags(r.ruleTags);
        SetAllParameters(rules, r.parameters);
        return;
      }
      NoTags(ruleCreator.ruleDescriptions);
      return [];
    }

    method CreateRules(rulesForPod: seq<BindingRule>) returns (rules: seq<RuleEvaluator>)
      ensures Shows(rules, Build(ruleCreator.ruleDescriptions, rulesForPod))
      ensures Distinct(rules) && forall e | e in rules :: fresh(e)
    {
      rules := [];
      for i := 0 to |rulesForPod|
        invariant Shows(rules, Build(ruleCreator.ruleDescriptions, rulesForPod[..i]))
        invariant Distinct(rules) && forall e | e in rules :: fresh(e)
      {
        assert rulesForPod[..i + 1][..i] == rulesForPod[..i];
        label before:
        var more := CreateRule(rulesForPod[i]);
        assert forall e | e in rules :: !fresh@before(e) && e !in more;
        DistinctAppend(rules, more);
        rules := rules + more;
      }
      assert rulesForPod[..|rulesForPod|] == rulesForPod;
    }

    method AddRuleBinding(b: RuleBinding)
      requires Valid()
      modifies this
      ensures Valid() && rbNameToRB == old(rbNameToRB)[b.name := b]
      ensures fresh(evaluators - old(evaluators))
      ensures Distinct(rbNameToRules[b.name]) && forall r | r in rbNameToRules[b.name] :: fresh(r)
    {
      var rules := CreateRules(b.rules);
      rbNameToRB := rbNameToRB[b.name := b];
      rbNameToRules := rbNameToRules[b.name := rules];
      evaluators := evaluators + set e | e in rules;
      forall n | n in rbNameToRB
        ensures Stored(n)
      {
        assert n != b.name ==> old(Stored(n));
      }
    }

    method DeleteRuleBinding(name: string)
      requires Valid()
      modifies this
      ensures Valid() && rbNameToRB == old(rbNameToRB) - {name} && evaluators == old(evaluators)
    {
      rbNameToRB := rbNameToRB - {name};
      rbNameToRules := rbNameToRules - {name};
      forall n | n in rbNameToRB
        ensures Stored(n)
      {
        assert old(Stored(n));
      }
    }

    method ModifiedRuleBinding(b: RuleBinding)
      requires Valid()
      modifies this
      ensures Valid() && rbNameToRB == old(rbNameToRB)[b.name := b]
      ensures fresh(evaluators - old(evaluators))
    {
      ghost var before := rbNameToRB;
      DeleteRuleBinding(b.name);
      assert rbNameToRB[b.name := b] == before[b.name := b];
      AddRuleBinding(b);
    }

    method Handle(e: CacheEvent, ghost history: seq<CacheEvent>)
      requires Valid() && Reflects(rbNameToRB, history)
      modifies this
      ensures Valid() && Reflects(rbNameToRB, history + [e])
      ensures fresh(evaluators - old(evaluators))
    {
      assert (history + [e])[..|history|] == history;
      match e {
        case AddEvent(b) =>
          if b.Some? {
            AddRuleBinding(b.value);
          }
        case ModifyEvent(b) =>
          if b.Some? {
            ModifiedRuleBinding(b.value);
          }
        case DeleteEvent(name) =>
          DeleteRuleBinding(name);
      }
    }

    /** The evaluators of all bindings that apply, binding by binding, in the order `order` in which the map of
        bindings happened to be ranged over. */
    method ListRulesForObject(target: Target, selects: RuleBinding -> bool)
      returns (rulesSlice: seq<RuleEvaluator>, order: seq<string>)
      requires Valid()
      ensures forall n :: n in order <==> n in rbNameToRB && Applies(target, rbNameToRB[n], selects)
      ensures forall i, j | 0 <= i < j < |order| :: order[i] != order[j]
      ensures Shows(rulesSlice, Listed(ruleCreator.ruleDescriptions, rbNameToRB, order))
      ensures Distinct(rulesSlice) && forall r | r in rulesSlice :: r in evaluators
    {
      order := SelectBindings(target, selects);
      rulesSlice := Collect(order);
    }

    method SelectBindings(target: Target, selects: RuleBinding -> bool) returns (order: seq<string>)
      requires Valid()
      ensures forall n :: n in order <==> n in rbNameToRB && Applies(target, rbNameToRB[n], selects)
      ensures forall i, j | 0 <= i < j < |order| :: order[i] != order[j]
    {
      order := [];
      var remaining := rbNameToRB.Keys;
      while remaining != {}
        invariant remaining <= rbNameToRB.Keys
        invariant forall n :: n in order <==> n in rbNameToRB.Keys - remaining && Applies(target, rbNameToRB[n], selects)
        invariant forall i, j | 0 <= i < j < |order| :: order[i] != order[j]
        decreases |remaining|
      {
        var key :| key in remaining;
        remaining := remaining - {key};
        var rb := rbNameToRB[key];
        assert Stored(key);
        if Applies(target, rb, selects) {
          order := order + [rb.name];
        }
      }
    }

    ghost predicate ListedIn(order: seq<string>, r: RuleEvaluator)
      reads this
    {
      exists n :: n in order && n in rbNameToRules && r in rbNameToRules[n]
    }

    method Collect(order: seq<string>) returns (rulesSlice: seq<RuleEvaluator>)
      requires Valid() && forall n | n in order :: n in rbNameToRB
      requires forall i, j | 0 <= i < j < |order| :: order[i] != order[j]
      ensures Shows(rulesSlice, Listed(ruleCreator.ruleDescriptions, rbNameToRB, order))
      ensures Distinct(rulesSlice) && forall r | r in rulesSlice :: r in evaluators
    {
      rulesSlice := [];
      for i := 0 to |order|
        invariant Shows(rulesSlice, Listed(ruleCreator.ruleDescriptions, rbNameToRB, order[..i]))
        invariant forall r | r in rulesSlice :: r in evaluators
        invariant Distinct(rulesSlice) && forall r | r in rulesSlice :: ListedIn(order[..i], r)
      {
        assert order[..i + 1][..i] == order[..i];
        assert order[i] in order;
        if order[i] in rbNameToRules {
          assert Stored(order[i]);
          ShowsAppend(rulesSlice, Listed(ruleCreator.ruleDescriptions, rbNameToRB, order[..i]),
                      rbNameToRules[order[i]], Build(ruleCreator.ruleDescriptions, rbNameToRB[order[i]].rules));
          DistinctAppend(rulesSlice, rbNameToRules[order[i]]);
          assert forall r | r in rulesSlice :: ListedIn(order[..i + 1], r);
          rulesSlice := rulesSlice + rbNameToRules[order[i]];
        }
      }
      assert order[..|order|] == order;
    }
  }

  lemma DistinctAppend(rs: seq<RuleEvaluator>, rs': seq<RuleEvaluator>)
    requires Distinct(rs) && Distinct(rs') && forall r | r in rs :: r !in rs'
    ensures Distinct(rs + rs')
  {
    forall i, j | 0 <= i < j < |rs + rs'|
      ensures (rs + rs')[i] != (rs + rs')[j]
    {
      assert i < |rs| <= j ==> rs[i] in rs && rs'[j - |rs|] in rs';
    }
  }

  lemma ShowsAppend(rs: seq<RuleEvaluator>, es: seq<Evaluation>, rs': seq<RuleEvaluator>, es': seq<Evaluation>)
    requires Shows(rs, es) && Shows(rs', es')
    ensures Shows(rs + rs', es + es')
  {
  }

  /** What the bindings with these names ask for, one after the other. */
  ghost function Listed(ds: seq<RuleDescriptor>, rbs: map<string, RuleBinding>, order: seq<string>): seq<Evaluation> {
    if order == [] then []
    else
      var last := order[|order| - 1];
      Listed(ds, rbs, order[..|order| - 1]) + if last in rbs then Build(ds, rbs[last].rules) else []
  }

  /** From an empty cache, after any events: the cache holds exactly the bindings whose last event left them, each
      with the evaluators its rules ask for. */
  method RunCache(ruleCreator: RuleCreator, events: seq<CacheEvent>) returns (cache: RBCache)
    ensures fresh(cache) && cache.ruleCreator == ruleCreator && cache.Valid()
    ensures Reflects(cache.rbNameToRB, events)
  {
    cache := new RBCache(ruleCreator);
    for i := 0 to |events|
      invariant cache.Valid() && Reflects(cache.rbNameToRB, events[..i])
    {
      assert events[..i + 1] == events[..i] + [events[i]];
      cache.Handle(events[i], events[..i]);
    }
    assert events[..|events|] == events;
  }
}
