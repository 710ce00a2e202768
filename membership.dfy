/** The membership resolver (`isPropertyDefined`) and the suggestion search
    (`isPropertyDefinedOnFunction`) of the lint plugin.

    Both are loops in the source: a flag set inside `forEach`, and a result
    overwritten inside `forEach`. They are methods here, each proved against a
    function that states what it computes; the lemmas relate those functions to
    the flattened view of a type-set (`LeafOf`). */
module Membership {
  import opened Wrappers
  import opened Oracle

  /** The two direct tests of `isPropertyDefined`: the type's own `hasProp(name, true)`,
      or that of its prototype (the case of a primitive). */
  predicate DirectlyDefines(t: Type, name: string) {
    (HasPropMethod(t) && HasProp(t, name)) ||
    (ProtoOf(t).Some? && HasPropMethod(ProtoOf(t).value) && HasProp(ProtoOf(t).value, name))
  }

  /** What `isPropertyDefined(t, name)` answers: a direct test succeeds, or some
      candidate of an abstract value is (recursively) defining. */
  predicate Defined(t: Type, name: string)
    decreases t
  {
    DirectlyDefines(t, name) ||
    (t.AVal? && exists i :: 0 <= i < |t.types| && Defined(t.types[i], name))
  }

  /** `u` is one of the concrete candidates of `t`: `t` itself when it is not an
      abstract value, otherwise a candidate of one of its members. */
  predicate LeafOf(u: Type, t: Type)
    decreases t
  {
    if t.AVal? then exists i :: 0 <= i < |t.types| && LeafOf(u, t.types[i])
    else u == t
  }

  /** `isPropertyDefined`, as the source runs it. */
  method IsPropertyDefined(t: Type, name: string) returns (defined: bool)
    decreases t
    ensures defined == Defined(t, name)
  {
    if HasPropMethod(t) && HasProp(t, name) {
      return true;
    }
    var proto := ProtoOf(t);
    if proto.Some? && HasPropMethod(proto.value) && HasProp(proto.value, name) {
      return true;
    }
    defined := false;
    if t.AVal? {
      var i := 0;
      while i < |t.types|
        invariant 0 <= i <= |t.types|
        invariant defined == exists j :: 0 <= j < i && Defined(t.types[j], name)
      {
        var d := IsPropertyDefined(t.types[i], name);
        if d {
          defined := true;
        }
        i := i + 1;
      }
    }
  }

  /** What `isPropertyDefinedOnFunction(t, name)` answers: a function type whose
      return value defines the property is its own answer; for an abstract value the
      candidates are scanned in order and each match overwrites the previous one. */
  function FnMatch(t: Type, name: string): Option<Type>
    decreases t, if t.AVal? then |t.types| + 1 else 0
  {
    if t.Fn? && Defined(t.retval, name) then Some(t)
    else if t.AVal? then MatchIn(t, name, |t.types|)
    else None
  }

  /** The value of `result` after the scan has visited the first `n` candidates of `t`. */
  function MatchIn(t: Type, name: string, n: nat): Option<Type>
    requires t.AVal? && n <= |t.types|
    decreases t, n
  {
    if n == 0 then None
    else
      var fn := FnMatch(t.types[n - 1], name);
      if fn.Some? then fn else MatchIn(t, name, n - 1)
  }

  /** `isPropertyDefinedOnFunction`, as the source runs it. */
  method IsPropertyDefinedOnFunction(t: Type, name: string) returns (result: Option<Type>)
    decreases t
    ensures result == FnMatch(t, name)
  {
    if t.Fn? {
      var d := IsPropertyDefined(t.retval, name);
      if d {
        return Some(t);
      }
    }
    if t.AVal? {
      result := None;
      var i := 0;
      while i < |t.types|
        invariant 0 <= i <= |t.types|
        invariant result == MatchIn(t, name, i)
      {
        var fn := IsPropertyDefinedOnFunction(t.types[i], name);
        if fn.Some? {
          result := fn;
        }
        i := i + 1;
      }
      return;
    }
    return None;
  }

  // ---------------------------------------------------------------------------
  // The membership resolver

  /** Membership is disjunctive: a type-set defines a property exactly when one of
      its concrete candidates defines it directly, however deeply unions nest. */
  lemma {:induction false} DefinedIffSomeLeaf(t: Type, name: string)
    decreases t
    ensures Defined(t, name) <==> exists u :: LeafOf(u, t) && DirectlyDefines(u, name)
  {
    if t.AVal? {
      assert !DirectlyDefines(t, name);
      forall i | 0 <= i < |t.types| {
        DefinedIffSomeLeaf(t.types[i], name);
      }
      if Defined(t, name) {
        var i :| 0 <= i < |t.types| && Defined(t.types[i], name);
        var u :| LeafOf(u, t.types[i]) && DirectlyDefines(u, name);
        assert LeafOf(u, t);
      }
      if exists u :: LeafOf(u, t) && DirectlyDefines(u, name) {
        var u :| LeafOf(u, t) && DirectlyDefines(u, name);
        var i :| 0 <= i < |t.types| && LeafOf(u, t.types[i]);
        assert Defined(t.types[i], name);
      }
    } else {
      assert LeafOf(t, t);
      assert forall u :: LeafOf(u, t) ==> u == t;
    }
  }

  /** Adding candidates to a union never turns "defined" into "not defined". */
  lemma UnionMonotone(ts: seq<Type>, more: seq<Type>, name: string)
    requires forall i :: 0 <= i < |ts| ==> ts[i] in more
    ensures Defined(AVal(ts), name) ==> Defined(AVal(more), name)
  {
    if Defined(AVal(ts), name) {
      var i :| 0 <= i < |ts| && Defined(ts[i], name);
      var j :| 0 <= j < |more| && more[j] == ts[i];
      assert Defined(AVal(more).types[j], name);
    }
  }

  /** An object that has the property, as its own or through its prototype chain,
      makes every type-set that contains it (at any depth) define the property. */
  lemma ObjectWithPropertyDefines(o: Type, t: Type, name: string)
    requires o.Obj? && HasProp(o, name) && LeafOf(o, t)
    ensures Defined(t, name)
  {
    DefinedIffSomeLeaf(t, name);
  }

  // ---------------------------------------------------------------------------
  // The suggestion search

  /** A match is always a function-typed candidate of the type-set whose return
      value defines the property. */
  lemma {:induction false} FnMatchSound(t: Type, name: string)
    decreases t, if t.AVal? then |t.types| + 1 else 0
    ensures FnMatch(t, name).Some? ==>
      var f := FnMatch(t, name).value; f.Fn? && Defined(f.retval, name) && LeafOf(f, t)
  {
    if t.AVal? {
      MatchInSound(t, name, |t.types|);
    }
  }

  lemma {:induction false} MatchInSound(t: Type, name: string, n: nat)
    requires t.AVal? && n <= |t.types|
    decreases t, n
    ensures MatchIn(t, name, n).Some? ==>
      var f := MatchIn(t, name, n).value; f.Fn? && Defined(f.retval, name) && LeafOf(f, t)
  {
    if n > 0 {
      FnMatchSound(t.types[n - 1], name);
      MatchInSound(t, name, n - 1);
    }
  }

  /** The search finds nothing only when no function-typed candidate has a return
      value defining the property. */
  lemma {:induction false} FnMatchComplete(t: Type, name: string)
    decreases t, if t.AVal? then |t.types| + 1 else 0
    ensures FnMatch(t, name).None? ==>
      forall u :: LeafOf(u, t) && u.Fn? ==> !Defined(u.retval, name)
  {
    if t.AVal? {
      MatchInComplete(t, name, |t.types|);
    }
  }

  lemma {:induction false} MatchInComplete(t: Type, name: string, n: nat)
    requires t.AVal? && n <= |t.types|
    decreases t, n
    ensures MatchIn(t, name, n).None? ==>
      forall u, i :: 0 <= i < n && LeafOf(u, t.types[i]) && u.Fn? ==> !Defined(u.retval, name)
  {
    if n > 0 {
      FnMatchComplete(t.types[n - 1], name);
      MatchInComplete(t, name, n - 1);
    }
  }

  /** A function type whose own return value defines the property is the answer,
      before any union is looked at. */
  lemma FnMatchPrefersOwnRetval(t: Type, name: string)
    requires t.Fn? && Defined(t.retval, name)
    ensures FnMatch(t, name) == Some(t)
  {
  }

  /** Over a union the LAST matching candidate wins: the answer is the match of the
      candidate at some position `k`, and no candidate after `k` matches. */
  lemma {:induction false} LastMatchWins(t: Type, name: string, n: nat)
    requires t.AVal? && n <= |t.types|
    decreases n
    ensures MatchIn(t, name, n).Some? <==> exists k :: 0 <= k < n && FnMatch(t.types[k], name).Some?
    ensures MatchIn(t, name, n).Some? ==>
      exists k :: 0 <= k < n && MatchIn(t, name, n) == FnMatch(t.types[k], name) &&
        forall j :: k < j < n ==> FnMatch(t.types[j], name).None?
  {
    if n > 0 {
      LastMatchWins(t, name, n - 1);
      if FnMatch(t.types[n - 1], name).None? && MatchIn(t, name, n).Some? {
        var k :| 0 <= k < n - 1 && MatchIn(t, name, n - 1) == FnMatch(t.types[k], name) &&
          forall j :: k < j < n - 1 ==> FnMatch(t.types[j], name).None?;
        assert forall j :: k < j < n ==> FnMatch(t.types[j], name).None?;
      }
    }
  }

  /** A suggestion exists exactly when some function-typed candidate of the
      type-set has a return value defining the property. */
  lemma SuggestionIff(t: Type, name: string)
    ensures FnMatch(t, name).Some? <==> exists u :: LeafOf(u, t) && u.Fn? && Defined(u.retval, name)
  {
    FnMatchSound(t, name);
    FnMatchComplete(t, name);
  }
}
