/** Admission rules: descriptors, evaluators and their factory (admission/rules/v1). */
module Rules {

  type Parameters = map<string, string>

  datatype RuleDescriptor = RuleDescriptor(id: string, name: string, tags: seq<string>) {
    predicate HasTags(wanted: seq<string>) {
      exists tag | tag in wanted :: tag in tags
    }
  }

  /** An evaluator as a value: which rule it evaluates, with which parameters. */
  datatype Evaluation = Evaluation(rule: RuleDescriptor, parameters: Parameters)

  class RuleEvaluator {
    const rule: RuleDescriptor
    var parameters: Parameters

    constructor (rule: RuleDescriptor)
      ensures this.rule == rule && parameters == map[]
    {
      this.rule := rule;
      parameters := map[];
    }

    method SetParameters(ps: Parameters)
      modifies this
      ensures parameters == old(parameters) + ps
    {
      var keys := ps.Keys;
      while keys != {}
        invariant keys <= ps.Keys
        invariant parameters == old(parameters) + map k | k in ps.Keys - keys :: ps[k]
        decreases |keys|
      {
        var k :| k in keys;
        parameters := parameters[k := ps[k]];
        keys := keys - {k};
      }
    }

    /** A copy: later changes to the rule's parameters do not show in it. */
    method GetParameters() returns (copy: Parameters)
      ensures copy == parameters
    {
      copy := map[];
      var keys := parameters.Keys;
      while keys != {}
        invariant keys <= parameters.Keys
        invariant copy == map k | k in parameters.Keys - keys :: parameters[k]
        decreases |keys|
      {
        var k :| k in keys;
        copy := copy[k := parameters[k]];
        keys := keys - {k};
      }
    }
  }

  /** The evaluators, as they are now, evaluate these rules with these parameters. */
  ghost predicate Shows(rs: seq<RuleEvaluator>, es: seq<Evaluation>)
    reads rs
  {
    |rs| == |es| && forall i | 0 <= i < |rs| :: rs[i].rule == es[i].rule && rs[i].parameters == es[i].parameters
  }

  ghost predicate Distinct(rs: seq<RuleEvaluator>) {
    forall i, j | 0 <= i < j < |rs| :: rs[i] != rs[j]
  }

  ghost function FirstByID(ds: seq<RuleDescriptor>, id: string): seq<RuleDescriptor> {
    if ds == [] then [] else if ds[0].id == id then [ds[0]] else FirstByID(ds[1..], id)
  }

  ghost function FirstByName(ds: seq<RuleDescriptor>, name: string): seq<RuleDescriptor> {
    if ds == [] then [] else if ds[0].name == name then [ds[0]] else FirstByName(ds[1..], name)
  }

  ghost function ByTags(ds: seq<RuleDescriptor>, tags: seq<string>): seq<RuleDescriptor> {
    if ds == [] then []
    else ByTags(ds[..|ds| - 1], tags) + if ds[|ds| - 1].HasTags(tags) then [ds[|ds| - 1]] else []
  }

  /** The first rule with the ID: no rule before it has it; none if no rule has. */
  lemma {:induction false} FirstByIDExactly(ds: seq<RuleDescriptor>, id: string)
    ensures FirstByID(ds, id) == [] <==> forall d | d in ds :: d.id != id
    ensures forall k | 0 <= k < |ds| && ds[k].id == id && (forall j | 0 <= j < k :: ds[j].id != id) ::
              FirstByID(ds, id) == [ds[k]]
  {
    if ds != [] && ds[0].id != id {
      FirstByIDExactly(ds[1..], id);
      assert forall k | 1 <= k < |ds| :: ds[k] == ds[1..][k - 1];
      forall k | 0 <= k < |ds| && ds[k].id == id && (forall j | 0 <= j < k :: ds[j].id != id)
        ensures FirstByID(ds, id) == [ds[k]]
      {
        assert ds[1..][k - 1] == ds[k] && forall j | 0 <= j < k - 1 :: ds[1..][j] == ds[j + 1];
      }
      assert forall d :: d in ds <==> d == ds[0] || d in ds[1..];
    }
  }

  lemma {:induction false} FirstByNameExactly(ds: seq<RuleDescriptor>, name: string)
    ensures FirstByName(ds, name) == [] <==> forall d | d in ds :: d.name != name
    ensures forall k | 0 <= k < |ds| && ds[k].name == name && (forall j | 0 <= j < k :: ds[j].name != name) ::
              FirstByName(ds, name) == [ds[k]]
  {
    if ds != [] && ds[0].name != name {
      FirstByNameExactly(ds[1..], name);
      assert forall k | 1 <= k < |ds| :: ds[k] == ds[1..][k - 1];
      forall k | 0 <= k < |ds| && ds[k].name == name && (forall j | 0 <= j < k :: ds[j].name != name)
        ensures FirstByName(ds, name) == [ds[k]]
      {
        assert ds[1..][k - 1] == ds[k] && forall j | 0 <= j < k - 1 :: ds[1..][j] == ds[j + 1];
      }
      assert forall d :: d in ds <==> d == ds[0] || d in ds[1..];
    }
  }

  /** The rules that share a tag with the wanted ones, in their order: `f` says which they are. */
  lemma {:induction false} ByTagsExactly(ds: seq<RuleDescriptor>, tags: seq<string>) returns (f: seq<nat>)
    ensures |f| == |ByTags(ds, tags)|
    ensures forall i | 0 <= i < |f| :: f[i] < |ds| && ByTags(ds, tags)[i] == ds[f[i]]
    ensures forall i, j | 0 <= i < j < |f| :: f[i] < f[j]
    ensures forall k | 0 <= k < |ds| ::
              k in f <==> exists i, j :: 0 <= i < |tags| && 0 <= j < |ds[k].tags| && tags[i] == ds[k].tags[j]
  {
    f := [];
    if ds != [] {
      var n := |ds| - 1;
      f := ByTagsExactly(ds[..n], tags);
      var g := f;
      if ds[n].HasTags(tags) {
        f := g + [n];
      }
      forall k | 0 <= k < |ds|
        ensures k in f <==> exists i, j :: 0 <= i < |tags| && 0 <= j < |ds[k].tags| && tags[i] == ds[k].tags[j]
      {
        assert k < n ==> ds[..n][k] == ds[k] && (k in f <==> k in g);
        HasTagsExactly(ds[k], tags);
      }
    }
  }

  lemma HasTagsExactly(d: RuleDescriptor, tags: seq<string>)
    ensures d.HasTags(tags) <==> exists i, j :: 0 <= i < |tags| && 0 <= j < |d.tags| && tags[i] == d.tags[j]
  {
    if d.HasTags(tags) {
      var tag :| tag in tags && tag in d.tags;
      var i :| 0 <= i < |tags| && tags[i] == tag;
      var j :| 0 <= j < |d.tags| && d.tags[j] == tag;
    }
    if i, j :| 0 <= i < |tags| && 0 <= j < |d.tags| && tags[i] == d.tags[j] {
      assert tags[i] in tags && tags[i] in d.tags;
    }
  }

  /** Evaluators for some rules, all with the same parameters. */
  ghost function With(ds: seq<RuleDescriptor>, ps: Parameters): seq<Evaluation> {
    seq(|ds|, i requires 0 <= i < |ds| => Evaluation(ds[i], ps))
  }

  class RuleCreator {
    const ruleDescriptions: seq<RuleDescriptor>

    constructor (ruleDescriptions: seq<RuleDescriptor>)
      ensures this.ruleDescriptions == ruleDescriptions
    {
      this.ruleDescriptions := ruleDescriptions;
    }

    method CreateRulesByTags(tags: seq<string>) returns (rules: seq<RuleEvaluator>)
      ensures Shows(rules, With(ByTags(ruleDescriptions, tags), map[]))
      ensures Distinct(rules) && forall r | r in rules :: fresh(r) && r.parameters == map[]
    {
      rules := [];
      for i := 0 to |ruleDescriptions|
        invariant Shows(rules, With(ByTags(ruleDescriptions[..i], tags), map[]))
        invariant Distinct(rules) && forall r | r in rules :: fresh(r) && r.parameters == map[]
      {
        assert ruleDescriptions[..i + 1][..i] == ruleDescriptions[..i];
        if ruleDescriptions[i].HasTags(tags) {
          var rule := new RuleEvaluator(ruleDescriptions[i]);
          rules := rules + [rule];
        }
      }
      assert ruleDescriptions[..|ruleDescriptions|] == ruleDescriptions;
    }

    /** The first rule with the ID, or none. */
    method CreateRuleByID(id: string) returns (rules: seq<RuleEvaluator>)
      ensures Shows(rules, With(FirstByID(ruleDescriptions, id), map[]))
      ensures Distinct(rules) && forall r | r in rules :: fresh(r) && r.parameters == map[]
    {
      for i := 0 to |ruleDescriptions|
        invariant FirstByID(ruleDescriptions[i..], id) == FirstByID(ruleDescriptions, id)
      {
        if ruleDescriptions[i].id == id {
          var rule := new RuleEvaluator(ruleDescriptions[i]);
          return [rule];
        }
      }
      return [];
    }

    /** The first rule with the name, or none. */
    method CreateRuleByName(name: string) returns (rules: seq<RuleEvaluator>)
      ensures Shows(rules, With(FirstByName(ruleDescriptions, name), map[]))
      ensures Distinct(rules) && forall r | r in rules :: fresh(r) && r.parameters == map[]
    {
      for i := 0 to |ruleDescriptions|
        invariant FirstByName(ruleDescriptions[i..], name) == FirstByName(ruleDescriptions, name)
      {
        if ruleDescriptions[i].name == name {
          var rule := new RuleEvaluator(ruleDescriptions[i]);
          return [rule];
        }
      }
      return [];
    }
  }
}
