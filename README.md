# tern lint plugin — a verified model of its diagnostic layer

The tern lint plugin (`plugin/lint.js`) reads the types tern's inference engine
computes and reports three kinds of likely defect in JavaScript code: an
unknown property (`UnknownProperty`), an unknown identifier (`UnknownIdentifier`)
and a call of something that is not a function (`NotAFunction`). This project
models the part that makes the decisions:

- the type-membership resolver `isPropertyDefined` and the "did you mean"
  suggestion search `isPropertyDefinedOnFunction` (module `Membership`). Both
  are loops in the source, so both are recursive methods with loops, proved
  against the functions `Defined` and `FnMatch`;
- the three visitors `MemberExpression`, `Identifier` and `CallExpression`.
  Their decisions are the functions `MemberFinding`, `IdentifierFinding` and
  `CallDecision` (module `Checkers`). The visitors themselves are methods of
  the class `Lint.Visitors`, which owns the shared `messages` list;
- `getName`, `getPosition`, `outputPos`, `makeError` and `addMessage` (modules
  `Syntax` and `Diagnostics`, and `Visitors.AddMessage`);
- the rule configuration `getRules` and `getRule` (module `Rules`);
- the extension registry `registerLint` and `postLoadDef`, and the built-in
  `require` validator (module `Registry`);
- the request boundary of the `lint` query, where any fault yields
  `{messages: []}` (`Lint.Run` and `Lint.Response`).

The inference engine is an input. Its types are the tagged variant
`Oracle.Type`: `Obj(props, proto)`, `Prim(proto)`, `Fn(id, props, proto,
retval)` and `AVal(types)`. The source tells these kinds apart by which fields
are present. `HasProp` is an object's `hasProp(name, true)`, which walks the
prototype chain. `IsEmpty` and `FunctionType` follow tern's abstract values:
an empty candidate list, and the last candidate that is a function. The type
is a finite inductive datatype, so every recursion over it terminates, even
though the source has no cycle guard.

The tree walk is the parser library's code. A request is therefore the
sequence of visitor calls the walk makes (`Lint.Visit`). Each call carries
the types the engine gave at that node. A `Fault` stands for a throw anywhere
in the walk or in the engine.

Where the code differs from the plugin's documented behaviour, or settles a
point the documentation leaves open, the model follows the code:

- Over a union, the suggestion search returns the LAST matching function
  candidate, because the loop overwrites `result` (`LastMatchWins`).
- `postLoadDef` attaches a validator to the single type that `getType()`
  returns for the resolved property. It does not attach it to every function
  type of that type-set.
- No rule can be switched off. `getRules` always returns all three built-in
  rules, and a severity such as `"none"` is copied into the messages as it is
  (`BuiltinRulesAlwaysActive`).
- The guard of the `require` validator at `plugin/lint.js:303` reads
  `a && b && c || d`, which groups as `(a && b && c) || d`. The model keeps
  that grouping. A `require()` call without arguments then reads a field of
  `undefined` and throws, so the whole response is empty
  (`RequireWithoutArgumentLosesAll`). A literal that is not a string is looked
  up like a module name.
- For a bare identifier callee, `node.callee.object` is `undefined`. The type
  the engine gives for it is the input `baseType`. `None` means the engine
  answered with `null`, and then nothing is reported. If the engine throws
  there instead, that call is a `Fault` visit.

## Model

| member | source | states |
|---|---|---|
| `Oracle.FunctionType` | plugin/lint.js:185-188 | `getFunctionType` yields a function type: the type itself when it is a function, otherwise a candidate of the abstract value, namely the last function candidate |
| `Oracle.FunctionTypeIffCandidate` | plugin/lint.js:185-188 | `getFunctionType` answers iff the type is a function or has a function among its candidates |
| `Membership.IsPropertyDefined` | plugin/lint.js:65-88 | the flag loop returns exactly `Defined`: own or inherited `hasProp`, the prototype's `hasProp`, or some candidate of the union defining the property |
| `Membership.DefinedIffSomeLeaf` | plugin/lint.js:74-87 | membership is disjunctive: a type-set defines a property iff some concrete candidate, at any depth of nesting, defines it directly |
| `Membership.UnionMonotone` | plugin/lint.js:80-85 | adding candidates to a union never turns "defined" into "not defined" |
| `Membership.ObjectWithPropertyDefines` | plugin/lint.js:66-67 | an object candidate with the property (own or inherited) makes the type-set define it |
| `Membership.IsPropertyDefinedOnFunction` | plugin/lint.js:90-111 | the overwriting loop returns exactly `FnMatch` |
| `Membership.FnMatchSound` | plugin/lint.js:90-111 | a non-null suggestion is a function candidate of the type-set whose return value defines the property |
| `Membership.MatchInSound` | plugin/lint.js:100-107 | after any prefix of the union scan, a stored result is a function candidate whose return value defines the property |
| `Membership.FnMatchComplete` | plugin/lint.js:90-111 | a null result means no function candidate has a return value defining the property |
| `Membership.MatchInComplete` | plugin/lint.js:100-107 | a null result after a prefix of the scan means no function candidate among the scanned ones qualifies |
| `Membership.FnMatchPrefersOwnRetval` | plugin/lint.js:91-96 | a function type whose own return value defines the property is returned before any union scan |
| `Membership.LastMatchWins` | plugin/lint.js:100-107 | the scan finds a match iff some candidate matches, and then it returns the match of a candidate after which no candidate matches |
| `Membership.SuggestionIff` | plugin/lint.js:90-111 | a suggestion exists iff some function candidate's return value defines the property |
| `Syntax.NameIsOfPositionedToken` | plugin/lint.js:36-62 | `getName` returns the name of exactly the token `getPosition` selects |
| `Syntax.PositionFollowsCallees` | plugin/lint.js:50-62 | `getPosition` follows callees to the first node that is not a call and returns its property, when it is a member expression, or the node itself |
| `Diagnostics.MakeErrors` | plugin/lint.js:198 | the records of a validator's findings, one per finding, in order |
| `Diagnostics.MakeErrorsSnoc` | plugin/lint.js:21-24 | one more finding adds its record at the end of the list |
| `Diagnostics.CallDiagnosticSpansCalleeName` | plugin/lint.js:26-62 | a diagnostic on a call spans the callee's name token, and the name reported is that token's |
| `Rules.GetRules` | plugin/lint.js:263-273 | the loop builds exactly the three built-in rule names, each mapped to its merged entry |
| `Rules.BuiltinRulesAlwaysActive` | plugin/lint.js:248-278 | after `getRules`, every built-in rule is found, and an override's severity is the severity used |
| `Rules.UnknownRuleNamesIgnored` | plugin/lint.js:265-267 | an override under a name that is not a built-in rule leaves the merged rules unchanged |
| `Registry.RegisterAppendsOnlyUnderDefName` | plugin/lint.js:241-246 | registration appends one entry under its definition name, and every other name's list is unchanged |
| `Registry.LintRegistry.constructor` | plugin/lint.js:241-246 | at load time the table holds only the `require` validator, under "node", and no type has a validator |
| `Registry.LintRegistry.RegisterLint` | plugin/lint.js:242-246 | the new table is the old one with the entry appended under `defName` |
| `Registry.LintRegistry.PostLoadDef` | plugin/lint.js:280-297 | the validator slots become the fold of the entries for `defName`; nothing changes without paths or without entries; a throwing lookup stops the loop |
| `Registry.LastAttachmentWins` | plugin/lint.js:283-294 | when the loop completes, a type gets the validator of the last entry that resolves to it |
| `Registry.LaterEntriesKeep` | plugin/lint.js:283-294 | a type no remaining entry resolves to keeps its validator |
| `Registry.AttachOnlyResolved` | plugin/lint.js:283-294 | only types some entry resolves to gain or change a validator, and the validator is that of such an entry |
| `Registry.RequireReportsUnknownModule` | plugin/lint.js:300-309 | the `require` validator throws iff there is no argument; otherwise it reports one "Unknown module" warning at the first argument exactly when that argument is a literal naming no known module |
| `Checkers.UnknownPropertyExactly` | plugin/lint.js:115-155 | UnknownProperty fires iff the access is dotted, the object's type is non-empty, the property's type is empty, and no concrete candidate of the object's type defines the property; the message is exact, and it has the suggestion iff some function candidate's return value defines the property |
| `Checkers.KnownPropertyNeverReported` | plugin/lint.js:139-141 | a property that an object candidate has, own or inherited, is never reported |
| `Checkers.ComputedNeverReported` | plugin/lint.js:121-125 | bracket access is never reported |
| `Checkers.UnknownIdentifierExactly` | plugin/lint.js:158-174 | UnknownIdentifier fires iff the identifier has no origin and its type is empty; the message is exact |
| `Checkers.SomeFunctionNeverReported` | plugin/lint.js:185-188 | a callee type that is a function, or has one among its candidates, is never reported as not a function |
| `Checkers.NotAFunctionExactly` | plugin/lint.js:178-201 | NotAFunction fires iff the callee's type is non-empty, is not a function and has no function candidate, and the base type is present and non-empty; the message names the callee |
| `Checkers.ValidatorReplacesDefault` | plugin/lint.js:187-199 | once a function candidate is found, the call goes to its attached validator if it has one, and otherwise nothing is reported |
| `Checkers.MemberSeverityOnly` | plugin/lint.js:116-152 | the UnknownProperty rule's severity changes only the severity of the member finding |
| `Checkers.IdentifierSeverityOnly` | plugin/lint.js:159-169 | the UnknownIdentifier rule's severity changes only the severity of the identifier finding |
| `Checkers.CallSeverityOnly` | plugin/lint.js:179-199 | the NotAFunction rule's severity changes only the severity of the report, and never the hand-over to a validator |
| `Checkers.MissingRuleSilences` | plugin/lint.js:115-201 | a visitor without its rule reports nothing |
| `Lint.Visitors.AddMessage` | plugin/lint.js:21-24 | `addMessage` appends exactly one record to `messages` |
| `Lint.Visitors.VisitMember` | plugin/lint.js:115-155 | the visitor, using the resolver methods, appends exactly the `MemberFinding` record, or nothing |
| `Lint.Visitors.VisitIdentifier` | plugin/lint.js:158-174 | the visitor appends exactly the `IdentifierFinding` record, or nothing |
| `Lint.Visitors.VisitCall` | plugin/lint.js:178-201 | the visitor appends the NotAFunction record or the validator's records; it fails exactly when the validator throws |
| `Lint.Visitors.AddAll` | plugin/lint.js:198 | a validator's findings are appended in order through `addMessage` |
| `Lint.Run` | plugin/lint.js:228-238 | the query's `run` answers exactly `Response`: the messages of all visits in visiting order, or none after a fault |
| `Lint.OutcomeOfOne` | plugin/lint.js:21-24 | a walk of one visit yields that visit's messages |
| `Lint.FaultIsFinal` | plugin/lint.js:229-237 | once a prefix of the walk has thrown, the whole walk has thrown |
| `Lint.FaultYieldsNoMessages` | plugin/lint.js:229-237 | a fault at any visit makes the response `{messages: []}` |
| `Lint.CollectConcat` | plugin/lint.js:21-24 | messages only accumulate: two stretches of the walk contribute their messages one after the other |
| `Lint.SeverityOnlyChangesSeverity` | plugin/lint.js:263-278 | two rule configurations with the same rule names give responses that differ only in severities |
| `Lint.CollectSameButSeverity` | plugin/lint.js:229-233 | visitors that agree per visit up to severities agree on the whole walk, faults included |
| `Lint.VisitSeverityOnly` | plugin/lint.js:115-201 | per visit, the rule configuration affects only the severities |
| `Scenarios.UnknownDocument` | test/run.js:32-54 | `document` without the browser definitions: one UnknownIdentifier at 10-18 with the configured severity |
| `Scenarios.LengthIsNotAFunction` | test/run.js:56-76 | `a.length()` with the standard library: one NotAFunction at 24-30, with the NotAFunction rule's severity |
| `Scenarios.LengthIsUnknownProperty` | test/run.js:77-85 | without it: one UnknownProperty for `length` at 24-30 |
| `Scenarios.SuggestsCall` | test/run.js:211-217 | `function a() { return {b: 1}; }; var obj = a.b;`, walked as the declared `a`, the used `a`, then `a.b`: only "Unknown property 'b'. Did you mean 'a().b'?" at 45-46 |
| `Scenarios.SuggestionForA` | test/suggest_function_properties.js:6-13 | the suggestion decision for that access |
| `Scenarios.LoadNodeDefinitions` | plugin/lint.js:280-300 | the registry at load time, after `postLoadDef` for the node definitions, gives the `require` function type the built-in validator and no other type one |
| `Scenarios.UnknownModule` | plugin/lint.js:300-309 | `require('foo')` with node definitions lacking `foo`: one "Unknown module 'foo'" warning at the literal |
| `Scenarios.RequireWithoutArgumentLosesAll` | plugin/lint.js:303 | `require()` throws in the validator, and the earlier UnknownIdentifier is lost too |
| `Scenarios.UnusedVariableOverrideIgnored` | test/suggest_function_properties.js:3 | an override for `UnusedVariable` leaves the default rules |

## Left out

- The module wrapper (`plugin/lint.js:1-7`) and the host registration (`tern.defineQueryType` and `tern.registerPlugin`) are environment plumbing.
- The scope-threading tree walk (`scopeVisitor`, `walk.simple`, `plugin/lint.js:210-232`) is parser-library code. A request is given as the sequence of visitor calls it makes, with the engine's answers at each.
- Type inference itself (`infer.expressionType`, `hasProp`, `getFunctionType`, `isEmpty`, `infer.cx()`) is not modelled. Its answers are inputs, and `HasProp`, `IsEmpty` and `FunctionType` follow the engine's definitions. Prototype chains are assumed to consist of objects.
- `console.error` logging in the catch block is I/O and is not modelled.
- `Diagnostics.OutputPos`: the line/character conversion `file.asLineChar` is an abstract function given with the query.
- Validators registered by definition authors are code outside this model. They are named `Foreign` validators, and their findings (or a throw) are an input of the request.
- `cx.paths`, `cx.props` and `getProp(...).getType()` in `postLoadDef` are abstract maps (`Registry.DefContext`). The name of the loaded definition is a plain string.
- `cx.definitions.node` is an abstract set of module names. JavaScript property lookup on it (inherited names such as `constructor`) is not modelled.
- Severities are strings, and "truthy" is modelled as present and non-empty. Other JavaScript values as severities are not modelled.
- Node kinds other than identifiers, member expressions, calls, `new` expressions and literals are `Other`. `getName` renders any node without a name as "undefined", as string concatenation does.
- A throw inside `postLoadDef` is reported as `ok == false` with the slots set so far. What tern does with it afterwards is outside the plugin.
