/** The extension registry: `registerLint`, which files custom validators under a
    definition name, `postLoadDef`, which attaches them to the types a loaded
    definition resolves, and the built-in validator for `require`.

    The source stores a validator in the `lint` field of a shared type object;
    here that field is a side-table from the type's identity to the validator. */
module Registry {
  import opened Wrappers
  import opened Syntax
  import opened Diagnostics

  /** A custom validator: the built-in one for `require`, or one registered by a
      definition author, which is code outside this model and known by name. */
  datatype Validator = RequireLint | Foreign(name: string)

  /** One `{path, prop, lint}` record of the `lints` table. */
  datatype LintEntry = LintEntry(path: string, prop: string, lint: Validator)

  /** The entries filed under `defName` (`lints[defName]`, empty when absent). */
  function EntriesFor(lints: map<string, seq<LintEntry>>, defName: string): seq<LintEntry> {
    if defName in lints then lints[defName] else []
  }

  /** The table after `registerLint(defName, …)`. */
  function WithLint(lints: map<string, seq<LintEntry>>, defName: string, e: LintEntry): map<string, seq<LintEntry>> {
    lints[defName := EntriesFor(lints, defName) + [e]]
  }

  /** Registration only appends, and only under its own definition name. */
  lemma RegisterAppendsOnlyUnderDefName(lints: map<string, seq<LintEntry>>, defName: string, e: LintEntry, other: string)
    ensures EntriesFor(WithLint(lints, defName, e), defName) == EntriesFor(lints, defName) + [e]
    ensures other != defName ==> EntriesFor(WithLint(lints, defName, e), other) == EntriesFor(lints, other)
    ensures WithLint(lints, defName, e).Keys == lints.Keys + {defName}
  {
  }

  // ---------------------------------------------------------------------------
  // Path resolution in the loaded definitions

  /** What `getType()` gave for one resolved property: nothing, or a type identity. */
  datatype Resolution = NoType | TypeAt(id: nat) | Throws

  /** The parts of the inference context `postLoadDef` reads, as abstract maps.
      - `paths[path][prop]`: `cx.paths[path].getProp(prop).getType()`; a missing
        `prop` yields an empty abstract value, whose type is `null`.
      - `props[path]`: the candidate objects `cx.props[path]`; the first one's
        `props[prop].getType()` is read, and a missing object or property throws. */
  datatype DefContext = DefContext(
    paths: Option<map<string, map<string, Option<nat>>>>,
    props: map<string, seq<map<string, Option<nat>>>>)

  /** The type one entry resolves to. */
  function Resolve(cx: DefContext, e: LintEntry): (r: Resolution)
    requires cx.paths.Some?
  {
    if e.path in cx.paths.value then
      var proto: map<string, Option<nat>> := cx.paths.value[e.path];
      if e.prop in proto && proto[e.prop].Some? then TypeAt(proto[e.prop].value) else NoType
    else if e.path in cx.props then
      var o: seq<map<string, Option<nat>>> := cx.props[e.path];
      if |o| == 0 || e.prop !in o[0] then Throws
      else
        var found: Option<nat> := o[0][e.prop];
        if found.Some? then TypeAt(found.value) else NoType
    else NoType
  }

  /** The side-table after the loop of `postLoadDef` has run over `entries`, and
      whether it ran to the end without throwing. */
  function AttachFrom(attached: map<nat, Validator>, entries: seq<LintEntry>, cx: DefContext): (map<nat, Validator>, bool)
    requires cx.paths.Some?
    decreases |entries|
  {
    if entries == [] then (attached, true)
    else match Resolve(cx, entries[0])
      case Throws => (attached, false)
      case NoType => AttachFrom(attached, entries[1..], cx)
      case TypeAt(id) => AttachFrom(attached[id := entries[0].lint], entries[1..], cx)
  }

  /** The LAST entry that resolves to a type decides that type's validator, when
      the loop completes. */
  lemma {:induction false} LastAttachmentWins(attached: map<nat, Validator>, entries: seq<LintEntry>, cx: DefContext, k: nat)
    requires cx.paths.Some? && k < |entries| && Resolve(cx, entries[k]).TypeAt?
    requires forall j :: k < j < |entries| ==> Resolve(cx, entries[j]) != TypeAt(Resolve(cx, entries[k]).id)
    requires AttachFrom(attached, entries, cx).1
    ensures var (r, _) := AttachFrom(attached, entries, cx);
      Resolve(cx, entries[k]).id in r && r[Resolve(cx, entries[k]).id] == entries[k].lint
    decreases |entries|
  {
    if k == 0 {
      LaterEntriesKeep(attached[Resolve(cx, entries[0]).id := entries[0].lint], entries[1..], cx, Resolve(cx, entries[0]).id);
    } else {
      var next := match Resolve(cx, entries[0])
        case TypeAt(id) => attached[id := entries[0].lint]
        case _ => attached;
      assert AttachFrom(attached, entries, cx) == AttachFrom(next, entries[1..], cx);
      LastAttachmentWins(next, entries[1..], cx, k - 1);
    }
  }

  /** An identity no entry resolves to keeps its slot. */
  lemma {:induction false} LaterEntriesKeep(attached: map<nat, Validator>, entries: seq<LintEntry>, cx: DefContext, id: nat)
    requires cx.paths.Some? && id in attached
    requires forall j :: 0 <= j < |entries| ==> Resolve(cx, entries[j]) != TypeAt(id)
    ensures var (r, _) := AttachFrom(attached, entries, cx); id in r && r[id] == attached[id]
    decreases |entries|
  {
    if entries != [] && !Resolve(cx, entries[0]).Throws? {
      var next := match Resolve(cx, entries[0])
        case TypeAt(i) => attached[i := entries[0].lint]
        case _ => attached;
      LaterEntriesKeep(next, entries[1..], cx, id);
    }
  }

  /** Only identities some entry resolves to get a new validator, and the
      validator they get is that of such an entry. */
  lemma {:induction false} AttachOnlyResolved(attached: map<nat, Validator>, entries: seq<LintEntry>, cx: DefContext, id: nat)
    requires cx.paths.Some?
    ensures var (r, ok) := AttachFrom(attached, entries, cx);
      ok ==> (id in r <==> id in attached || exists j :: 0 <= j < |entries| && Resolve(cx, entries[j]) == TypeAt(id))
    ensures var (r, _) := AttachFrom(attached, entries, cx);
      id in r && (id !in attached || r[id] != attached[id]) ==>
        exists j :: 0 <= j < |entries| && Resolve(cx, entries[j]) == TypeAt(id) && entries[j].lint == r[id]
    decreases |entries|
  {
    if entries != [] && !Resolve(cx, entries[0]).Throws? {
      var next := match Resolve(cx, entries[0])
        case TypeAt(i) => attached[i := entries[0].lint]
        case _ => attached;
      AttachOnlyResolved(next, entries[1..], cx, id);
      var (r, _) := AttachFrom(attached, entries, cx);
      if id in r && (id !in attached || r[id] != attached[id]) {
        if id in next && r[id] == next[id] {
          assert Resolve(cx, entries[0]) == TypeAt(id);
        } else {
          var j :| 0 <= j < |entries[1..]| && Resolve(cx, entries[1..][j]) == TypeAt(id) && entries[1..][j].lint == r[id];
          assert entries[1..][j] == entries[j + 1];
        }
      }
      forall j | 0 <= j < |entries[1..]| ensures entries[1..][j] == entries[j + 1] { }
    }
  }

  /** The process-wide `lints` table and the validator slots of the loaded types. */
  class LintRegistry {
    var lints: map<string, seq<LintEntry>>
    var attached: map<nat, Validator>

    /** The table as the plugin leaves it at load time: the `require` validator
        filed under the "node" definition. */
    constructor ()
      ensures lints == map["node" := [LintEntry("require", "require", RequireLint)]]
      ensures attached == map[]
    {
      lints := map[];
      attached := map[];
      new;
      RegisterLint("node", "require", "require", RequireLint);
      assert EntriesFor(map[], "node") + [LintEntry("require", "require", RequireLint)] == [LintEntry("require", "require", RequireLint)];
    }

    /** `registerLint`. */
    method RegisterLint(defName: string, path: string, prop: string, lint: Validator)
      modifies this`lints
      ensures lints == WithLint(old(lints), defName, LintEntry(path, prop, lint))
    {
      var lintsForDef := EntriesFor(lints, defName);
      lints := lints[defName := lintsForDef + [LintEntry(path, prop, lint)]];
    }

    /** `postLoadDef` for a definition named `defName`; `ok` is false when the
        loop throws, which leaves the slots set so far. */
    method PostLoadDef(defName: string, cx: DefContext) returns (ok: bool)
      modifies this`attached
      ensures cx.paths.Some? && defName in lints ==>
        (attached, ok) == AttachFrom(old(attached), lints[defName], cx)
      ensures !(cx.paths.Some? && defName in lints) ==> attached == old(attached) && ok
    {
      ok := true;
      if cx.paths.Some? && defName in lints {
        var lintsForDef := lints[defName];
        var i := 0;
        while i < |lintsForDef|
          invariant 0 <= i <= |lintsForDef|
          invariant AttachFrom(attached, lintsForDef[i..], cx) == AttachFrom(old(attached), lintsForDef, cx)
        {
          var r := Resolve(cx, lintsForDef[i]);
          assert lintsForDef[i..][1..] == lintsForDef[i + 1..];
          if r.Throws? {
            ok := false;
            return;
          }
          if r.TypeAt? {
            attached := attached[r.id := lintsForDef[i].lint];
          }
          i := i + 1;
        }
      }
    }
  }

  // ---------------------------------------------------------------------------
  // The built-in validator for `require`

  /** The text `argNodes[0].value` turns into in `"Unknown module '" + name + "'"`,
      and the key it is looked up under. */
  function ModuleName(n: Node): string
    requires n.Literal?
  {
    match n.value
    case Str(s) => s
    case NonStr(text) => text
  }

  /** The `require` validator. Its guard is written
      `argNodes && argNodes.length && argNodes[0].type == "Literal" || typeof argNodes[0].value == "string"`,
      which groups as `(… && … && …) || …`: with no argument the right operand reads
      a field of `undefined` and throws (`None`); a literal of any kind is looked up
      in `modules`, the names the node definitions know. */
  function RequireFindings(call: CallNode, modules: set<string>): Option<seq<Finding>> {
    var args := call.arguments;
    if |args| > 0 && args[0].Literal? then
      var name := ModuleName(args[0]);
      if name in modules then Some([])
      else Some([Finding(args[0], "Unknown module '" + name + "'", "warning")])
    else if |args| == 0 then None
    else Some([])   // no other node kind has a string `value`
  }

  /** The validator reports exactly one unknown module per call, with severity
      "warning" whatever the rule configuration, at the first argument. */
  lemma RequireReportsUnknownModule(call: CallNode, modules: set<string>)
    ensures |call.arguments| == 0 <==> RequireFindings(call, modules).None?
    ensures RequireFindings(call, modules).Some? && RequireFindings(call, modules).value != [] <==>
      call.arguments != [] && call.arguments[0].Literal? && ModuleName(call.arguments[0]) !in modules
    ensures RequireFindings(call, modules).Some? ==> |RequireFindings(call, modules).value| <= 1
    ensures RequireFindings(call, modules).Some? && RequireFindings(call, modules).value != [] ==>
      RequireFindings(call, modules).value[0] ==
        Finding(call.arguments[0], "Unknown module '" + ModuleName(call.arguments[0]) + "'", "warning")
  {
  }
}
