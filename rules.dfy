/** Rule configuration: the built-in rules and how `getRules` merges the
    caller's overrides onto them; `getRule` looks one up. */
module Rules {
  import opened Wrappers

  /** A rule object. Only `severity` is read by the checkers; `extra` stands for
      any other fields an override object carries, which are kept as they are. */
  datatype Rule = Rule(severity: string, extra: map<string, string>)

  /** One entry of `options.rules`: `severity` is absent or a string. */
  datatype Override = Override(severity: Option<string>, extra: map<string, string>)

  /** The plugin's options; `rules` may be absent. */
  datatype Options = Options(rules: Option<map<string, Override>>)

  /** The built-in rule names, in the order `for…in` visits `defaultRules`. */
  const RuleNames: seq<string> := ["UnknownProperty", "UnknownIdentifier", "NotAFunction"]

  /** `defaultRules`. */
  const DefaultRules: map<string, Rule> := map[
    "UnknownProperty" := Rule("warning", map[]),
    "UnknownIdentifier" := Rule("warning", map[]),
    "NotAFunction" := Rule("error", map[])
  ]

  /** The test `options && options.rules && options.rules[name] && options.rules[name].severity`:
      an override takes effect only with a truthy (present, non-empty) severity. */
  predicate Overrides(options: Option<Options>, name: string) {
    options.Some? && options.value.rules.Some? && name in options.value.rules.value &&
    options.value.rules.value[name].severity.Some? &&
    options.value.rules.value[name].severity.value != ""
  }

  /** The merged entry for a built-in rule: the whole override object when it takes
      effect, the default otherwise. */
  function MergedRule(options: Option<Options>, name: string): (r: Rule)
    requires name in DefaultRules
    ensures Overrides(options, name) ==>
      r.severity == options.value.rules.value[name].severity.value &&
      r.extra == options.value.rules.value[name].extra
    ensures !Overrides(options, name) ==> r == DefaultRules[name]
  {
    if Overrides(options, name) then
      var o := options.value.rules.value[name];
      Rule(o.severity.value, o.extra)
    else DefaultRules[name]
  }

  /** `getRules`, as the source runs it: one entry per built-in rule and nothing else. */
  method GetRules(options: Option<Options>) returns (rules: map<string, Rule>)
    ensures rules.Keys == DefaultRules.Keys
    ensures forall name :: name in rules ==> rules[name] == MergedRule(options, name)
  {
    rules := map[];
    var i := 0;
    while i < |RuleNames|
      invariant 0 <= i <= |RuleNames|
      invariant rules.Keys == set j | 0 <= j < i :: RuleNames[j]
      invariant forall name :: name in rules ==> name in DefaultRules && rules[name] == MergedRule(options, name)
    {
      var name := RuleNames[i];
      if Overrides(options, name) {
        var o := options.value.rules.value[name];
        rules := rules[name := Rule(o.severity.value, o.extra)];
      } else {
        rules := rules[name := DefaultRules[name]];
      }
      i := i + 1;
    }
    assert RuleNames[0] in rules && RuleNames[1] in rules && RuleNames[2] in rules;
  }

  /** `getRule`: `rules[ruleName]`, which is `undefined` for a name without an entry. */
  function GetRule(rules: map<string, Rule>, name: string): (r: Option<Rule>)
    ensures r.Some? <==> name in rules
    ensures r.Some? ==> r.value == rules[name]
  {
    if name in rules then Some(rules[name]) else None
  }

  /** The result of `getRules` for `options`. */
  predicate IsMergeOf(rules: map<string, Rule>, options: Option<Options>) {
    rules.Keys == DefaultRules.Keys &&
    forall name :: name in rules ==> rules[name] == MergedRule(options, name)
  }

  /** No configuration switches a built-in rule off: every built-in rule is always
      found, whatever severity (even "none") the caller gives it. */
  lemma BuiltinRulesAlwaysActive(rules: map<string, Rule>, options: Option<Options>, name: string)
    requires IsMergeOf(rules, options) && name in RuleNames
    ensures GetRule(rules, name).Some?
    ensures Overrides(options, name) ==>
      GetRule(rules, name).value.severity == options.value.rules.value[name].severity.value
  {
  }

  /** Override entries for names that are not built-in rules (such as a rule for
      unused variables) change nothing in the merged configuration. */
  lemma UnknownRuleNamesIgnored(options: Options, other: string, o: Override,
                                rules: map<string, Rule>, rules': map<string, Rule>)
    requires other !in DefaultRules && options.rules.Some?
    requires IsMergeOf(rules, Some(options))
    requires IsMergeOf(rules', Some(Options(Some(options.rules.value[other := o]))))
    ensures rules' == rules
  {
    forall name | name in DefaultRules
      ensures rules'[name] == rules[name]
    {
      assert name != other;
      assert Overrides(Some(options), name) == Overrides(Some(Options(Some(options.rules.value[other := o]))), name);
    }
  }
}
