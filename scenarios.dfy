/** Concrete requests and the responses the model gives for them, matching the
    outcomes the repository's tests expect. Each request lists the visitor calls
    the walk makes, in its order (children before their parent), with the types
    the inference engine gives at each. */
module Scenarios {
  import opened Wrappers
  import opened Oracle
  import opened Syntax
  import opened Diagnostics
  import opened Rules
  import opened Registry
  import opened Checkers
  import opened Lint

  const Offsets := PositionFormat(false, (pos: nat) => LineCol(0, pos))
  const Unknown := AVal([])

  function EnvWith(rules: map<string, Rule>, attached: map<nat, Validator>, modules: set<string>): Env {
    Env(rules, Offsets, attached, modules, (name: string, n: Node) => Some([]))
  }

  function SeverityOption(rule: string, severity: string): Option<Options> {
    Some(Options(Some(map[rule := Override(Some(severity), map[])])))
  }

  /** The response of a two-visit walk in which nothing throws. */
  lemma ResponseOfTwo(env: Env, v1: Visit, v2: Visit)
    requires VisitMessages(env, v1).Some? && VisitMessages(env, v2).Some?
    ensures Response(env, [v1, v2]) == VisitMessages(env, v1).value + VisitMessages(env, v2).value
  {
    OutcomeOfOne(env, v1);
    OutcomeOfOne(env, v2);
    CollectConcat(Step(env), [v1], [v2]);
    assert [v1] + [v2] == [v1, v2];
  }

  /** The response of a three-visit walk in which nothing throws. */
  lemma ResponseOfThree(env: Env, v1: Visit, v2: Visit, v3: Visit)
    requires VisitMessages(env, v1).Some? && VisitMessages(env, v2).Some? && VisitMessages(env, v3).Some?
    ensures Response(env, [v1, v2, v3]) ==
      VisitMessages(env, v1).value + VisitMessages(env, v2).value + VisitMessages(env, v3).value
  {
    ResponseOfTwo(env, v1, v2);
    OutcomeOfOne(env, v3);
    CollectConcat(Step(env), [v1, v2], [v3]);
    assert [v1, v2] + [v3] == [v1, v2, v3];
  }

  // `var elt = document.getElementById('myId');` without the browser definitions
  const Document := Ident("document", Span(10, 18))
  const GetElementById := Member(Document, Ident("getElementById", Span(19, 33)), false, Span(10, 33))
  const DocumentCall := Call(GetElementById, [Literal(Str("myId"), Span(34, 40))], Span(10, 41))

  /** `document` has no origin and no type: one UnknownIdentifier at 10-18, and nothing
      for the rest of the chain (test/run.js:36-53). */
  lemma UnknownDocument(rules: map<string, Rule>, severity: string)
    requires IsMergeOf(rules, SeverityOption("UnknownIdentifier", severity)) && severity != ""
    ensures Response(EnvWith(rules, map[], {}),
                     [AtIdentifier(Document, Unknown, false),
                      AtMember(GetElementById, Unknown, Unknown),
                      AtCall(DocumentCall, Unknown, Some(Unknown))])
      == [Message("Unknown identifier 'document'", Offset(10), Offset(18), severity)]
  {
    var env := EnvWith(rules, map[], {});
    var v1, v2, v3 := AtIdentifier(Document, Unknown, false),
                      AtMember(GetElementById, Unknown, Unknown),
                      AtCall(DocumentCall, Unknown, Some(Unknown));
    assert Overrides(SeverityOption("UnknownIdentifier", severity), "UnknownIdentifier");
    assert "UnknownIdentifier" in rules;
    assert rules["UnknownIdentifier"].severity == severity;
    var m := Message("Unknown identifier 'document'", Offset(10), Offset(18), severity);
    assert UnknownIdentifierText(Document) == "Unknown identifier 'document'";
    assert VisitMessages(env, v1) == Some([m]);
    assert VisitMessages(env, v2) == Some([]);
    assert VisitMessages(env, v3) == Some([]);
    ResponseOfThree(env, v1, v2, v3);
  }

  // `var a = [];\nvar len = a.length();`
  const A := Ident("a", Span(22, 23))
  const ALength := Member(A, Ident("length", Span(24, 30)), false, Span(22, 30))
  const ALengthCall := Call(ALength, [], Span(22, 32))
  const Number := Prim(None)
  const ArrayProto := Obj({"length", "push", "concat"}, None)

  /** With the standard-library definitions, `length` is a number: one NotAFunction
      at 24-30, with the configured severity (test/run.js:59-76). */
  lemma LengthIsNotAFunction(rules: map<string, Rule>, options: Option<Options>)
    requires IsMergeOf(rules, options)
    ensures Response(EnvWith(rules, map[], {}),
                     [AtIdentifier(A, AVal([Obj({}, Some(ArrayProto))]), true),
                      AtMember(ALength, AVal([Number]), AVal([Obj({}, Some(ArrayProto))])),
                      AtCall(ALengthCall, AVal([Number]), Some(AVal([Obj({}, Some(ArrayProto))])))])
      == [Message("'length' is not a function", Offset(24), Offset(30), rules["NotAFunction"].severity)]
  {
    var arr := AVal([Obj({}, Some(ArrayProto))]);
    var env := EnvWith(rules, map[], {});
    var v1, v2, v3 := AtIdentifier(A, arr, true), AtMember(ALength, AVal([Number]), arr),
                      AtCall(ALengthCall, AVal([Number]), Some(arr));
    assert "NotAFunction" in rules && "UnknownProperty" in rules && "UnknownIdentifier" in rules;
    assert VisitMessages(env, v1) == Some([]);
    assert VisitMessages(env, v2) == Some([]);
    LengthCallReported(rules, arr);
    ResponseOfThree(env, v1, v2, v3);
  }

  /** The call of `a.length`, whose type is a number and whose base is known. */
  lemma LengthCallReported(rules: map<string, Rule>, arr: Type)
    requires "NotAFunction" in rules && !IsEmpty(arr)
    ensures VisitMessages(EnvWith(rules, map[], {}), AtCall(ALengthCall, AVal([Number]), Some(arr))) ==
      Some([Message("'length' is not a function", Offset(24), Offset(30), rules["NotAFunction"].severity)])
  {
    assert FunctionType(AVal([Number])) == None;
    LengthText();
  }

  lemma LengthText()
    ensures NotAFunctionText(ALengthCall) == "'length' is not a function"
  {
    assert GetName(ALengthCall) == "length";
    assert "'" + "length" + "' is not a function" == "'length' is not a function";
  }

  /** Without them, the array literal has no known properties: one UnknownProperty
      at the same span, and the call is not looked at (test/run.js:77-85). */
  lemma LengthIsUnknownProperty(rules: map<string, Rule>)
    requires IsMergeOf(rules, None)
    ensures Response(EnvWith(rules, map[], {}),
                     [AtIdentifier(A, AVal([Obj({}, None)]), true),
                      AtMember(ALength, Unknown, AVal([Obj({}, None)])),
                      AtCall(ALengthCall, Unknown, Some(AVal([Obj({}, None)])))])
      == [Message("Unknown property 'length'", Offset(24), Offset(30), "warning")]
  {
    var arr := AVal([Obj({}, None)]);
    var env := EnvWith(rules, map[], {});
    var v1, v2, v3 := AtIdentifier(A, arr, true), AtMember(ALength, Unknown, arr), AtCall(ALengthCall, Unknown, Some(arr));
    assert "NotAFunction" in rules && "UnknownProperty" in rules && "UnknownIdentifier" in rules;
    assert rules["UnknownProperty"] == Rule("warning", map[]);
    assert !Membership.Defined(arr, "length") by {
      assert !Membership.Defined(arr.types[0], "length");
    }
    assert Membership.FnMatch(arr, "length") == None;
    assert UnknownPropertyText(ALength, false) == "Unknown property 'length'";
    assert VisitMessages(env, v1) == Some([]);
    assert VisitMessages(env, v2) == Some([Message("Unknown property 'length'", Offset(24), Offset(30), "warning")]);
    assert VisitMessages(env, v3) == Some([]);
    ResponseOfThree(env, v1, v2, v3);
  }

  // `function a() { return {b: 1}; }; var obj = a.b;`
  const FnA := Fn(1, {"prototype"}, None, AVal([Obj({"b"}, None)]))
  const AB := Member(Ident("a", Span(43, 44)), Ident("b", Span(45, 46)), false, Span(43, 46))

  /** `a` is a function whose result has `b`: the report suggests calling it
      (test/run.js:211-217, test/suggest_function_properties.js:6-13). The walk
      visits the declared name of `a` first, then the use of `a`, then `a.b`. */
  lemma SuggestsCall(rules: map<string, Rule>)
    requires IsMergeOf(rules, None)
    ensures Response(EnvWith(rules, map[], {}),
                     [AtIdentifier(Ident("a", Span(9, 10)), AVal([FnA]), true),
                      AtIdentifier(Ident("a", Span(43, 44)), AVal([FnA]), true),
                      AtMember(AB, Unknown, AVal([FnA]))])
      == [Message("Unknown property 'b'. Did you mean 'a().b'?", Offset(45), Offset(46), "warning")]
  {
    var env := EnvWith(rules, map[], {});
    var v0, v1, v2 := AtIdentifier(Ident("a", Span(9, 10)), AVal([FnA]), true),
                      AtIdentifier(Ident("a", Span(43, 44)), AVal([FnA]), true),
                      AtMember(AB, Unknown, AVal([FnA]));
    assert "UnknownProperty" in rules && "UnknownIdentifier" in rules;
    assert rules["UnknownProperty"] == Rule("warning", map[]);
    SuggestionForA();
    assert VisitMessages(env, v0) == Some([]);
    assert VisitMessages(env, v1) == Some([]);
    assert VisitMessages(env, v2) ==
      Some([Message("Unknown property 'b'. Did you mean 'a().b'?", Offset(45), Offset(46), "warning")]);
    ResponseOfThree(env, v0, v1, v2);
  }

  lemma SuggestionForA()
    ensures MemberFinding(Some(Rule("warning", map[])), AB, Unknown, AVal([FnA])) ==
      Some(Finding(AB, "Unknown property 'b'. Did you mean 'a().b'?", "warning"))
  {
    OnlyTheResultOfAHasB();
    SuggestionText();
  }

  lemma SuggestionText()
    ensures UnknownPropertyText(AB, true) == "Unknown property 'b'. Did you mean 'a().b'?"
  {
    assert GetName(AB) == "b" && GetName(AB.obj) == "a";
    assert "Unknown property '" + "b" + "'" + ". Did you mean '" + "a" + "()." + "b" + "'?" ==
      "Unknown property 'b'. Did you mean 'a().b'?";
  }

  /** `a` itself has no `b`, but the object it returns has. */
  lemma OnlyTheResultOfAHasB()
    ensures !Membership.Defined(AVal([FnA]), "b")
    ensures Membership.FnMatch(AVal([FnA]), "b") == Some(FnA)
  {
    assert !Membership.Defined(AVal([FnA]).types[0], "b");
    assert Membership.Defined(FnA.retval.types[0], "b");
    assert Membership.FnMatch(FnA, "b") == Some(FnA);
    assert Membership.MatchIn(AVal([FnA]), "b", 1) == Some(FnA);
  }

  // `require('foo');` and `require();` with the node definitions loaded
  const Require := Ident("require", Span(0, 7))
  const RequireType := AVal([Fn(7, {}, None, Unknown)])

  /** The inference context once the node definitions are loaded: the `require`
      property of the `require` path has the function type with identity 7. */
  const NodeContext := DefContext(Some(map["require" := map["require" := Some(7)]]), map[])

  /** The registry as the plugin leaves it at load time, after `postLoadDef` for
      the node definitions: the `require` function type carries the built-in
      validator, and nothing else has one. This is the slot table the request
      below runs with. */
  method LoadNodeDefinitions() returns (registry: LintRegistry, ok: bool)
    ensures ok && registry.attached == map[7 := RequireLint]
  {
    registry := new LintRegistry();
    ok := registry.PostLoadDef("node", NodeContext);
    assert Resolve(NodeContext, LintEntry("require", "require", RequireLint)) == TypeAt(7);
    assert [LintEntry("require", "require", RequireLint)][1..] == [];
  }

  /** The validator attached to `require` reports an unknown module at the string
      literal, with severity "warning", and no NotAFunction check runs. */
  lemma UnknownModule(rules: map<string, Rule>)
    requires IsMergeOf(rules, None)
    ensures Response(EnvWith(rules, map[7 := RequireLint], {"fs"}),
                     [AtIdentifier(Require, RequireType, false),
                      AtCall(Call(Require, [Literal(Str("foo"), Span(8, 13))], Span(0, 14)), RequireType, None)])
      == [Message("Unknown module 'foo'", Offset(8), Offset(13), "warning")]
  {
    var env := EnvWith(rules, map[7 := RequireLint], {"fs"});
    var call := Call(Require, [Literal(Str("foo"), Span(8, 13))], Span(0, 14));
    var v1, v2 := AtIdentifier(Require, RequireType, false), AtCall(call, RequireType, None);
    assert "NotAFunction" in rules && "UnknownIdentifier" in rules;
    assert FunctionType(RequireType) == Some(Fn(7, {}, None, Unknown));
    assert CallDecision(GetRule(rules, "NotAFunction"), call, RequireType, None, map[7 := RequireLint]) == Delegate(RequireLint);
    FooIsUnknown();
    assert RunValidator(env, RequireLint, call) == RequireFindings(call, {"fs"});
    assert VisitMessages(env, v1) == Some([]);
    assert VisitMessages(env, v2) == Some([Message("Unknown module 'foo'", Offset(8), Offset(13), "warning")]);
    ResponseOfTwo(env, v1, v2);
  }

  /** The validator's findings for `require('foo')` and their record. */
  lemma FooIsUnknown()
    ensures RequireFindings(Call(Require, [Literal(Str("foo"), Span(8, 13))], Span(0, 14)), {"fs"}) ==
      Some([Finding(Literal(Str("foo"), Span(8, 13)), "Unknown module 'foo'", "warning")])
    ensures MakeErrors(Offsets, [Finding(Literal(Str("foo"), Span(8, 13)), "Unknown module 'foo'", "warning")]) ==
      [Message("Unknown module 'foo'", Offset(8), Offset(13), "warning")]
  {
    var call := Call(Require, [Literal(Str("foo"), Span(8, 13))], Span(0, 14));
    assert ModuleName(call.arguments[0]) == "foo";
    assert "foo" !in {"fs"};
    assert "Unknown module '" + "foo" + "'" == "Unknown module 'foo'";
  }

  /** A `require` call without argument throws inside the validator, and the whole
      response is empty, earlier findings included. */
  lemma RequireWithoutArgumentLosesAll(rules: map<string, Rule>)
    requires IsMergeOf(rules, None)
    ensures Response(EnvWith(rules, map[7 := RequireLint], {"fs"}),
                     [AtIdentifier(Ident("x", Span(0, 1)), Unknown, false),
                      AtCall(Call(Require, [], Span(3, 12)), RequireType, None)])
      == []
  {
    var env := EnvWith(rules, map[7 := RequireLint], {"fs"});
    var vs := [AtIdentifier(Ident("x", Span(0, 1)), Unknown, false),
               AtCall(Call(Require, [], Span(3, 12)), RequireType, None)];
    FaultYieldsNoMessages(env, vs, 1);
  }

  /** The override for a rule the plugin does not have leaves the built-in rules as
      they are (test/suggest_function_properties.js:3). */
  lemma UnusedVariableOverrideIgnored(rules: map<string, Rule>)
    requires IsMergeOf(rules, SeverityOption("UnusedVariable", "none"))
    ensures rules == DefaultRules
  {
  }
}
