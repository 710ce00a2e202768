/** The lint query: the visitors over the nodes the tree walk visits, the shared
    `messages` list they append to, and the request boundary that turns any fault
    into an empty response.

    The walk itself belongs to the parser library and is not modelled: a request
    is the sequence of visits it makes, each carrying the answers the inference
    engine gave at that node, or a fault where something threw. */
module Lint {
  import opened Wrappers
  import opened Oracle
  import opened Membership
  import opened Syntax
  import opened Diagnostics
  import opened Rules
  import opened Registry
  import opened Checkers

  /** What one request runs against: the rules from `getRules`, the position format
      of the query, the validator slots `postLoadDef` filled, the module names of the
      node definitions, and the behaviour of validators registered by definition
      authors (their findings, or `None` when they throw). */
  datatype Env = Env(
    rules: map<string, Rule>,
    format: PositionFormat,
    attached: map<nat, Validator>,
    nodeModules: set<string>,
    foreign: (string, Node) -> Option<seq<Finding>>)

  /** One visitor call of the walk, with the types the engine gave for it. */
  datatype Visit =
    | AtMember(member: MemberNode, propType: Type, parentType: Type)
    | AtIdentifier(ident: IdentNode, identType: Type, hasOrigin: bool)
    | AtCall(call: CallNode, calleeType: Type, baseType: Option<Type>)
    | Fault

  /** `fnType.lint(node, addMessage)`: what a validator reports, or `None` when it throws. */
  function RunValidator(env: Env, v: Validator, call: CallNode): Option<seq<Finding>> {
    match v
    case RequireLint => RequireFindings(call, env.nodeModules)
    case Foreign(name) => env.foreign(name, call)
  }

  /** The messages the `CallExpression` visitor appends, or `None` when the
      validator it hands the call to throws. */
  function CallMessages(env: Env, node: CallNode, calleeType: Type, baseType: Option<Type>): Option<seq<Message>> {
    match CallDecision(GetRule(env.rules, "NotAFunction"), node, calleeType, baseType, env.attached)
    case Quiet => Some([])
    case Report(f) => Some([MakeError(env.format, f)])
    case Delegate(validator) =>
      var found := RunValidator(env, validator, node);
      if found.None? then None else Some(MakeErrors(env.format, found.value))
  }

  /** The messages one visit appends, or `None` when it throws. */
  function VisitMessages(env: Env, v: Visit): Option<seq<Message>> {
    match v
    case AtMember(node, propType, parentType) =>
      var f := MemberFinding(GetRule(env.rules, "UnknownProperty"), node, propType, parentType);
      Some(if f.Some? then [MakeError(env.format, f.value)] else [])
    case AtIdentifier(node, identType, hasOrigin) =>
      var f := IdentifierFinding(GetRule(env.rules, "UnknownIdentifier"), node, identType, hasOrigin);
      Some(if f.Some? then [MakeError(env.format, f.value)] else [])
    case AtCall(node, calleeType, baseType) => CallMessages(env, node, calleeType, baseType)
    case Fault => None
  }

  /** What each visit appends, or `None` when it throws. */
  function Step(env: Env): Visit -> Option<seq<Message>> {
    v => VisitMessages(env, v)
  }

  /** The `messages` list after visits that each append `step(v)`, in visiting
      order, or `None` once one throws. */
  function Collect(step: Visit -> Option<seq<Message>>, visits: seq<Visit>): Option<seq<Message>> {
    if visits == [] then Some([])
    else
      match Collect(step, visits[..|visits| - 1])
      case None => None
      case Some(ms) =>
        match step(visits[|visits| - 1])
        case None => None
        case Some(more) => Some(ms + more)
  }

  /** The `messages` list after the visits of a request, or `None` once one throws. */
  function Outcome(env: Env, visits: seq<Visit>): Option<seq<Message>> {
    Collect(Step(env), visits)
  }

  /** The `messages` of the response: those collected, or none at all after a fault. */
  function Response(env: Env, visits: seq<Visit>): seq<Message> {
    match Outcome(env, visits)
    case None => []
    case Some(ms) => ms
  }

  /** The visitors of one request and the `messages` list they share. */
  class Visitors {
    const env: Env
    var messages: seq<Message>

    constructor (env: Env)
      ensures this.env == env && messages == []
    {
      this.env := env;
      messages := [];
    }

    /** `addMessage`: append the record of one finding. */
    method AddMessage(node: Node, msg: string, severity: string)
      modifies this
      ensures messages == old(messages) + [MakeError(env.format, Finding(node, msg, severity))]
    {
      var error := MakeError(env.format, Finding(node, msg, severity));
      messages := messages + [error];
    }

    /** The `MemberExpression` visitor. */
    method VisitMember(node: MemberNode, propType: Type, parentType: Type)
      modifies this
      ensures messages == old(messages) + VisitMessages(env, AtMember(node, propType, parentType)).value
    {
      var rule := GetRule(env.rules, "UnknownProperty");
      if rule.None? {
        return;
      }
      if node.computed {
        return;
      }
      if !IsEmpty(parentType) && IsEmpty(propType) {
        var propertyDefined := IsPropertyDefined(parentType, NameOf(node.property));
        if !propertyDefined {
          var fn := IsPropertyDefinedOnFunction(parentType, NameOf(node.property));
          var message := UnknownPropertyText(node, fn.Some?);
          AddMessage(node, message, rule.value.severity);
        }
      }
    }

    /** The `Identifier` visitor. */
    method VisitIdentifier(node: IdentNode, identType: Type, hasOrigin: bool)
      modifies this
      ensures messages == old(messages) + VisitMessages(env, AtIdentifier(node, identType, hasOrigin)).value
    {
      var rule := GetRule(env.rules, "UnknownIdentifier");
      if rule.None? {
        return;
      }
      if hasOrigin {
        // declared somewhere, whether or not its type is known
      } else if IsEmpty(identType) {
        AddMessage(node, UnknownIdentifierText(node), rule.value.severity);
      }
    }

    /** The `CallExpression` visitor; `ok` is false when the validator it hands the
        call to throws. */
    method VisitCall(node: CallNode, calleeType: Type, baseType: Option<Type>) returns (ok: bool)
      modifies this
      ensures ok == CallMessages(env, node, calleeType, baseType).Some?
      ensures ok ==> messages == old(messages) + CallMessages(env, node, calleeType, baseType).value
    {
      ok := true;
      var rule := GetRule(env.rules, "NotAFunction");
      if rule.None? {
        return;
      }
      if !IsEmpty(calleeType) {
        var fnType := FunctionType(calleeType);
        if fnType.None? {
          if baseType.None? || IsEmpty(baseType.value) {
            // the base type is unknown: the callee's type is a guess at best
          } else {
            AddMessage(node, NotAFunctionText(node), rule.value.severity);
          }
        } else if fnType.value.id in env.attached {
          var found := RunValidator(env, env.attached[fnType.value.id], node);
          if found.None? {
            return false;
          }
          AddAll(found.value);
        }
      }
    }

    /** The `addMessage` calls a validator makes, one per finding. */
    method AddAll(fs: seq<Finding>)
      modifies this
      ensures messages == old(messages) + MakeErrors(env.format, fs)
    {
      var i := 0;
      while i < |fs|
        invariant 0 <= i <= |fs|
        invariant messages == old(messages) + MakeErrors(env.format, fs[..i])
      {
        AddMessage(fs[i].at, fs[i].text, fs[i].severity);
        assert fs[..i + 1] == fs[..i] + [fs[i]];
        MakeErrorsSnoc(env.format, fs[..i], fs[i]);
        i := i + 1;
      }
      assert fs[..i] == fs;
    }
  }

  /** The query's `run`: walk the visits with fresh visitors; on a fault, answer with
      no messages at all. */
  method Run(env: Env, visits: seq<Visit>) returns (messages: seq<Message>)
    ensures messages == Response(env, visits)
  {
    var visitors := new Visitors(env);
    var i := 0;
    while i < |visits|
      invariant 0 <= i <= |visits|
      invariant Outcome(env, visits[..i]) == Some(visitors.messages)
      invariant visitors.env == env
    {
      assert visits[..i + 1][..i] == visits[..i];
      match visits[i] {
        case AtMember(node, propType, parentType) =>
          visitors.VisitMember(node, propType, parentType);
        case AtIdentifier(node, identType, hasOrigin) =>
          visitors.VisitIdentifier(node, identType, hasOrigin);
        case AtCall(node, calleeType, baseType) =>
          var ok := visitors.VisitCall(node, calleeType, baseType);
          if !ok {
            FaultIsFinal(Step(env), visits, i + 1);
            return [];
          }
        case Fault =>
          FaultIsFinal(Step(env), visits, i + 1);
          return [];
      }
      i := i + 1;
    }
    assert visits[..i] == visits;
    messages := visitors.messages;
  }

  /** Once a prefix of the visits has thrown, the whole request has. */
  lemma {:induction false} FaultIsFinal(step: Visit -> Option<seq<Message>>, visits: seq<Visit>, n: nat)
    requires n <= |visits| && Collect(step, visits[..n]).None?
    ensures Collect(step, visits).None?
    decreases |visits| - n
  {
    if n < |visits| {
      assert visits[..n + 1][..n] == visits[..n];
      FaultIsFinal(step, visits, n + 1);
    } else {
      assert visits[..n] == visits;
    }
  }

  /** A walk of one visit appends what that visit appends. */
  lemma OutcomeOfOne(env: Env, v: Visit)
    ensures Outcome(env, [v]) == VisitMessages(env, v)
  {
    assert [v][..0] == [] && [v][0] == v;
    assert Outcome(env, []) == Some([]);
    if VisitMessages(env, v).Some? {
      assert [] + VisitMessages(env, v).value == VisitMessages(env, v).value;
    }
  }

  /** Any fault anywhere in the walk yields an empty response. */
  lemma FaultYieldsNoMessages(env: Env, visits: seq<Visit>, i: nat)
    requires i < |visits| && VisitMessages(env, visits[i]).None?
    ensures Response(env, visits) == []
  {
    assert visits[..i + 1][..i] == visits[..i];
    FaultIsFinal(Step(env), visits, i + 1);
  }

  /** `addMessage` only appends: the messages of two stretches of the walk come out
      one after the other, in visiting order. */
  lemma {:induction false} CollectConcat(step: Visit -> Option<seq<Message>>, a: seq<Visit>, b: seq<Visit>)
    requires Collect(step, a).Some? && Collect(step, b).Some?
    ensures Collect(step, a + b) == Some(Collect(step, a).value + Collect(step, b).value)
    decreases |b|
  {
    if b == [] {
      assert a + b == a;
      assert Collect(step, a).value + [] == Collect(step, a).value;
    } else {
      var b', v := b[..|b| - 1], b[|b| - 1];
      assert (a + b)[..|a + b| - 1] == a + b';
      assert (a + b)[|a + b| - 1] == v;
      CollectConcat(step, a, b');
      var x, y, z := Collect(step, a).value, Collect(step, b').value, step(v).value;
      assert (x + y) + z == x + (y + z);
    }
  }

  /** Two lists of messages that agree in everything but severity. */
  predicate SameButSeverity(ms1: seq<Message>, ms2: seq<Message>) {
    |ms1| == |ms2| &&
    forall k :: 0 <= k < |ms1| ==>
      ms1[k].message == ms2[k].message && ms1[k].from == ms2[k].from && ms1[k].to == ms2[k].to
  }

  /** Agreement up to severities is preserved by concatenation. */
  lemma SameButSeverityConcat(a: seq<Message>, b: seq<Message>, a': seq<Message>, b': seq<Message>)
    requires SameButSeverity(a, a') && SameButSeverity(b, b')
    ensures SameButSeverity(a + b, a' + b')
  {
    forall k | 0 <= k < |a + b|
      ensures (a + b)[k].message == (a' + b')[k].message && (a + b)[k].from == (a' + b')[k].from &&
              (a + b)[k].to == (a' + b')[k].to
    {
      if k < |a| {
        assert (a + b)[k] == a[k] && (a' + b')[k] == a'[k];
      } else {
        assert (a + b)[k] == b[k - |a|] && (a' + b')[k] == b'[k - |a|];
      }
    }
  }

  /** Visitors that agree per visit up to severities agree on the whole walk. */
  lemma {:induction false} CollectSameButSeverity(f: Visit -> Option<seq<Message>>, g: Visit -> Option<seq<Message>>,
                                                  visits: seq<Visit>)
    requires forall v :: f(v).Some? == g(v).Some? && (f(v).Some? ==> SameButSeverity(f(v).value, g(v).value))
    ensures Collect(f, visits).Some? == Collect(g, visits).Some?
    ensures Collect(f, visits).Some? ==> SameButSeverity(Collect(f, visits).value, Collect(g, visits).value)
    decreases |visits|
  {
    if visits != [] {
      var init, last := visits[..|visits| - 1], visits[|visits| - 1];
      CollectSameButSeverity(f, g, init);
      if Collect(f, init).Some? && f(last).Some? {
        SameButSeverityConcat(Collect(f, init).value, f(last).value, Collect(g, init).value, g(last).value);
      }
    }
  }

  /** Two rule configurations with the same rules differ in the response only in
      the severities: the same messages with the same texts and spans, and the same
      faults. */
  lemma SeverityOnlyChangesSeverity(env: Env, rules': map<string, Rule>, visits: seq<Visit>)
    requires rules'.Keys == env.rules.Keys
    ensures Outcome(env, visits).Some? == Outcome(env.(rules := rules'), visits).Some?
    ensures Outcome(env, visits).Some? ==>
      SameButSeverity(Outcome(env, visits).value, Outcome(env.(rules := rules'), visits).value)
  {
    var env' := env.(rules := rules');
    forall v
      ensures Step(env)(v).Some? == Step(env')(v).Some? &&
              (Step(env)(v).Some? ==> SameButSeverity(Step(env)(v).value, Step(env')(v).value))
    {
      VisitSeverityOnly(env, rules', v);
    }
    CollectSameButSeverity(Step(env), Step(env'), visits);
  }

  lemma VisitSeverityOnly(env: Env, rules': map<string, Rule>, v: Visit)
    requires rules'.Keys == env.rules.Keys
    ensures VisitMessages(env, v).Some? == VisitMessages(env.(rules := rules'), v).Some?
    ensures VisitMessages(env, v).Some? ==>
      SameButSeverity(VisitMessages(env, v).value, VisitMessages(env.(rules := rules'), v).value)
  {
    match v
    case AtMember(node, propType, parentType) =>
      var r := GetRule(env.rules, "UnknownProperty");
      if r.Some? {
        MemberSeverityOnly(r.value, rules'["UnknownProperty"], node, propType, parentType);
      }
    case AtIdentifier(node, identType, hasOrigin) =>
      var r := GetRule(env.rules, "UnknownIdentifier");
      if r.Some? {
        IdentifierSeverityOnly(r.value, rules'["UnknownIdentifier"], node, identType, hasOrigin);
      }
    case AtCall(node, calleeType, baseType) =>
      var r := GetRule(env.rules, "NotAFunction");
      if r.Some? {
        CallSeverityOnly(r.value, rules'["NotAFunction"], node, calleeType, baseType, env.attached);
      }
    case Fault =>
  }
}
