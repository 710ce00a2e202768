/** The answers of the external type-inference engine, as data.

    The plugin never computes a type itself: it reads the inference engine's
    objects through `hasProp`, `proto`, `types`, `retval`, `isEmpty` and
    `getFunctionType`, telling the kinds apart by which fields are present.
    Here the kinds are an explicit tagged variant, and the queries the plugin
    makes are functions over it. */
module Oracle {
  import opened Wrappers

  /** Every type the inference engine can hand to the plugin.
      - `Obj`: an object type; `props` are its own property names, `proto` its
        prototype (`None` for `null`).
      - `Prim`: a primitive (number, string, boolean); it has a prototype object
        but no `hasProp` of its own.
      - `Fn`: a function type; it is also an object (own props and prototype),
        has a return value `retval`, and an identity `id` under which a custom
        validator can be attached to it.
      - `AVal`: an abstract value, the possibly-unioned type-set of an
        expression; `types` are its candidates, in the engine's order. */
  datatype Type =
    | Obj(props: set<string>, proto: Option<Type>)
    | Prim(proto: Option<Type>)
    | Fn(id: nat, props: set<string>, proto: Option<Type>, retval: Type)
    | AVal(types: seq<Type>)

  /** The type-set of an expression, as the inference engine hands it out. */
  type AValType = t: Type | t.AVal? witness AVal([])

  /** `typeof t.hasProp == 'function'`: only objects (functions included) have it. */
  predicate HasPropMethod(t: Type) {
    t.Obj? || t.Fn?
  }

  /** The object's `hasProp(name, true)`: the property is an own property, or one
      of an object further up the prototype chain. */
  predicate HasProp(t: Type, name: string)
    requires HasPropMethod(t)
  {
    name in t.props ||
    (t.proto.Some? && HasPropMethod(t.proto.value) && HasProp(t.proto.value, name))
  }

  /** The `proto` field of a type, where the kind has one. */
  function ProtoOf(t: Type): (r: Option<Type>)
    ensures r.Some? ==> !t.AVal? && r == t.proto
    ensures t.AVal? ==> r.None?
  {
    if t.AVal? then None else t.proto
  }

  /** `isEmpty()`: an abstract value without candidates; a concrete type is never empty. */
  predicate IsEmpty(t: Type) {
    t.AVal? && |t.types| == 0
  }

  /** `getFunctionType()`: a function type is its own function type; an abstract value
      answers with its LAST candidate that is a function; other types have none. */
  function FunctionType(t: Type): (r: Option<Type>)
    ensures r.Some? ==> r.value.Fn?
    ensures t.Fn? ==> r == Some(t)
    ensures t.AVal? && r.Some? ==> r.value in t.types
  {
    match t
    case Fn(_, _, _, _) => Some(t)
    case AVal(ts) => LastFn(ts)
    case _ => None
  }

  /** The last element of `ts` that is a function type. */
  function LastFn(ts: seq<Type>): (r: Option<Type>)
    ensures r.Some? ==> r.value.Fn? && r.value in ts
    ensures r.None? ==> forall i :: 0 <= i < |ts| ==> !ts[i].Fn?
    ensures r.Some? ==> exists k :: 0 <= k < |ts| && ts[k] == r.value && forall j :: k < j < |ts| ==> !ts[j].Fn?
  {
    if ts == [] then None
    else if ts[|ts| - 1].Fn? then Some(ts[|ts| - 1])
    else LastFn(ts[..|ts| - 1])
  }

  /** The type offers a function to call: it is one, or one of its candidates is. */
  predicate HasFunctionCandidate(t: Type) {
    t.Fn? || (t.AVal? && exists i :: 0 <= i < |t.types| && t.types[i].Fn?)
  }

  /** `getFunctionType()` answers exactly when the type offers a function. */
  lemma FunctionTypeIffCandidate(t: Type)
    ensures FunctionType(t).Some? <==> HasFunctionCandidate(t)
  {
    if t.AVal? && FunctionType(t).None? {
      assert forall i :: 0 <= i < |t.types| ==> !t.types[i].Fn?;
    }
  }
}
