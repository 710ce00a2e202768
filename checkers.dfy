/** The three expression checkers of the lint plugin (the `MemberExpression`,
    `Identifier` and `CallExpression` visitors), as decisions: from the rule, the
    node and the types the inference engine gives, to what the visitor reports.
    The visitors themselves, which run these decisions through the resolver
    methods and `addMessage`, are in module Lint. */
module Checkers {
  import opened Wrappers
  import opened Oracle
  import opened Membership
  import opened Syntax
  import opened Diagnostics
  import opened Rules
  import opened Registry

  /** `"Unknown property '<p>'"`, with `". Did you mean '<object>().<p>'?"` appended
      when the suggestion search found a function. */
  function UnknownPropertyText(node: MemberNode, suggest: bool): string {
    var message := "Unknown property '" + GetName(node) + "'";
    if suggest then message + ". Did you mean '" + GetName(node.obj) + "()." + GetName(node) + "'?"
    else message
  }

  /** The `MemberExpression` visitor's decision; `propType` is the type of the whole
      access, `parentType` that of its object. */
  function MemberFinding(rule: Option<Rule>, node: MemberNode, propType: Type, parentType: Type): Option<Finding> {
    if rule.None? || node.computed then None
    else if !IsEmpty(parentType) && IsEmpty(propType) && !Defined(parentType, NameOf(node.property)) then
      Some(Finding(node, UnknownPropertyText(node, FnMatch(parentType, NameOf(node.property)).Some?), rule.value.severity))
    else None
  }

  /** `"Unknown identifier '<name>'"`. */
  function UnknownIdentifierText(node: IdentNode): string {
    "Unknown identifier '" + GetName(node) + "'"
  }

  /** The `Identifier` visitor's decision; `hasOrigin` is `type.originNode != null` for the identifier's type `identType`. */
  function IdentifierFinding(rule: Option<Rule>, node: IdentNode, identType: Type, hasOrigin: bool): Option<Finding> {
    if rule.None? || hasOrigin then None
    else if IsEmpty(identType) then Some(Finding(node, UnknownIdentifierText(node), rule.value.severity))
    else None
  }

  /** What the `CallExpression` visitor does: nothing, report, or hand the call to
      the validator attached to the callee's function type. */
  datatype CallVerdict = Quiet | Report(finding: Finding) | Delegate(validator: Validator)

  /** `"'<name>' is not a function"`. */
  function NotAFunctionText(node: CallNode): string {
    "'" + GetName(node) + "' is not a function"
  }

  /** The `CallExpression` visitor's decision. `calleeType` is the callee's type;
      `baseType` is the type of `node.callee.object` (`None` when the engine gives
      `null`, as for a callee without an object); `attached` are the validator
      slots of the function types. */
  function CallDecision(rule: Option<Rule>, node: CallNode, calleeType: Type, baseType: Option<Type>,
                        attached: map<nat, Validator>): CallVerdict {
    if rule.None? || IsEmpty(calleeType) then Quiet
    else match FunctionType(calleeType)
      case None =>
        if baseType.None? || IsEmpty(baseType.value) then Quiet
        else Report(Finding(node, NotAFunctionText(node), rule.value.severity))
      case Some(fn) =>
        if fn.id in attached then Delegate(attached[fn.id]) else Quiet
  }

  // ---------------------------------------------------------------------------
  // UnknownProperty

  /** UnknownProperty fires in one case only: a dotted access, a known object type,
      an unknown property type, and no concrete candidate of the object's type that
      has the property. Its message is exact and carries the suggestion precisely
      when some function-typed candidate returns a type with the property. */
  lemma UnknownPropertyExactly(rule: Rule, node: MemberNode, propType: Type, parentType: Type)
    ensures var p := NameOf(node.property);
      MemberFinding(Some(rule), node, propType, parentType).Some? <==>
        !node.computed && !IsEmpty(parentType) && IsEmpty(propType) &&
        !(exists u :: LeafOf(u, parentType) && DirectlyDefines(u, p))
    ensures var p := NameOf(node.property);
      MemberFinding(Some(rule), node, propType, parentType).Some? ==>
        MemberFinding(Some(rule), node, propType, parentType).value ==
          Finding(node,
                  "Unknown property '" + p + "'" +
                    (if exists u :: LeafOf(u, parentType) && u.Fn? && Defined(u.retval, p)
                     then ". Did you mean '" + GetName(node.obj) + "()." + p + "'?" else ""),
                  rule.severity)
  {
    var p := NameOf(node.property);
    DefinedIffSomeLeaf(parentType, p);
    SuggestionIff(parentType, p);
  }

  /** A property an object candidate has, as its own or inherited, is never reported. */
  lemma KnownPropertyNeverReported(rule: Option<Rule>, node: MemberNode, propType: Type, parentType: Type, o: Type)
    requires o.Obj? && LeafOf(o, parentType) && HasProp(o, NameOf(node.property))
    ensures MemberFinding(rule, node, propType, parentType).None?
  {
    ObjectWithPropertyDefines(o, parentType, NameOf(node.property));
  }

  /** Bracket access is never checked. */
  lemma ComputedNeverReported(rule: Option<Rule>, node: MemberNode, propType: Type, parentType: Type)
    requires node.computed
    ensures MemberFinding(rule, node, propType, parentType).None?
  {
  }

  // ---------------------------------------------------------------------------
  // UnknownIdentifier

  /** UnknownIdentifier fires exactly for an identifier without an origin whose type
      is empty: a declared but untyped binding, and an ambient typed global, never
      fire. */
  lemma UnknownIdentifierExactly(rule: Rule, node: IdentNode, identType: Type, hasOrigin: bool)
    ensures IdentifierFinding(Some(rule), node, identType, hasOrigin).Some? <==>
      !hasOrigin && identType.AVal? && identType.types == []
    ensures IdentifierFinding(Some(rule), node, identType, hasOrigin).Some? ==>
      IdentifierFinding(Some(rule), node, identType, hasOrigin).value ==
        Finding(node, "Unknown identifier '" + node.name + "'", rule.severity)
  {
  }

  // ---------------------------------------------------------------------------
  // NotAFunction

  /** A callee type that is a function, or has one among its candidates, is never
      reported, whatever its other candidates are. */
  lemma SomeFunctionNeverReported(rule: Option<Rule>, node: CallNode, calleeType: Type, baseType: Option<Type>,
                                  attached: map<nat, Validator>)
    requires HasFunctionCandidate(calleeType)
    ensures !CallDecision(rule, node, calleeType, baseType, attached).Report?
  {
    FunctionTypeIffCandidate(calleeType);
  }

  /** NotAFunction fires exactly when the callee's type is known, is not a function
      and has no function among its candidates, and the base object's type is
      known; its message is exact. */
  lemma NotAFunctionExactly(rule: Rule, node: CallNode, calleeType: Type, baseType: Option<Type>,
                            attached: map<nat, Validator>)
    ensures CallDecision(Some(rule), node, calleeType, baseType, attached).Report? <==>
      !IsEmpty(calleeType) && !HasFunctionCandidate(calleeType) && baseType.Some? && !IsEmpty(baseType.value)
    ensures CallDecision(Some(rule), node, calleeType, baseType, attached).Report? ==>
      CallDecision(Some(rule), node, calleeType, baseType, attached).finding ==
        Finding(node, "'" + GetName(node.callee) + "' is not a function", rule.severity)
  {
    FunctionTypeIffCandidate(calleeType);
  }

  /** A function carrying a validator hands the call to it and adds no default
      message; a function without one is simply callable. */
  lemma ValidatorReplacesDefault(rule: Rule, node: CallNode, calleeType: Type, baseType: Option<Type>,
                                 attached: map<nat, Validator>)
    requires !IsEmpty(calleeType) && FunctionType(calleeType).Some?
    ensures var fn := FunctionType(calleeType).value;
      CallDecision(Some(rule), node, calleeType, baseType, attached) ==
        (if fn.id in attached then Delegate(attached[fn.id]) else Quiet)
  {
  }

  // ---------------------------------------------------------------------------
  // Rule configuration

  /** Changing the UnknownProperty rule's severity changes only the severity of
      what `MemberExpression` reports, never whether it reports or the message. */
  lemma MemberSeverityOnly(r1: Rule, r2: Rule, node: MemberNode, propType: Type, parentType: Type)
    ensures MemberFinding(Some(r2), node, propType, parentType) ==
      (match MemberFinding(Some(r1), node, propType, parentType)
       case None => None
       case Some(f) => Some(f.(severity := r2.severity)))
  {
  }

  /** The same for the UnknownIdentifier rule and `Identifier`. */
  lemma IdentifierSeverityOnly(r1: Rule, r2: Rule, node: IdentNode, identType: Type, hasOrigin: bool)
    ensures IdentifierFinding(Some(r2), node, identType, hasOrigin) ==
      (match IdentifierFinding(Some(r1), node, identType, hasOrigin)
       case None => None
       case Some(f) => Some(f.(severity := r2.severity)))
  {
  }

  /** The same for the NotAFunction rule and `CallExpression`; the hand-over to a
      validator does not depend on the rule's severity at all. */
  lemma CallSeverityOnly(r1: Rule, r2: Rule, node: CallNode, calleeType: Type, baseType: Option<Type>,
                         attached: map<nat, Validator>)
    ensures CallDecision(Some(r2), node, calleeType, baseType, attached) ==
      (match CallDecision(Some(r1), node, calleeType, baseType, attached)
       case Report(f) => Report(f.(severity := r2.severity))
       case v => v)
  {
  }

  /** A missing rule makes its visitor do nothing at all. */
  lemma MissingRuleSilences(m: MemberNode, mt: Type, mp: Type, id: IdentNode, it: Type, io: bool,
                            c: CallNode, ct: Type, cb: Option<Type>, attached: map<nat, Validator>)
    ensures MemberFinding(None, m, mt, mp).None?
    ensures IdentifierFinding(None, id, it, io).None?
    ensures CallDecision(None, c, ct, cb, attached).Quiet?
  {
  }
}
