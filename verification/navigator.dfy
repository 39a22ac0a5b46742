/**
  Walking a type's base chain for collection element types and generic
  arguments (`GetElementTypeEx`, `GetGenericArgumentsEx`, `HasGenericArgument`),
  and the `IsStruct` classification.
 */
module TypeGraph {
  import opened Wrappers
  import opened TypeCatalog

  /** A type answers the element-type question by itself when it is an array
      (it has an element type) or it has generic arguments. */
  predicate HasElementInfo(c: Catalog, u: TypeId)
    requires u in c.types
  {
    c.types[u].elementType.Some? || |c.types[u].genericArgs| > 0
  }

  /** The answer such a type gives: its array element type, else its first
      generic argument. */
  function OwnElement(c: Catalog, u: TypeId): (e: TypeId)
    requires u in c.types && HasElementInfo(c, u)
  {
    if c.types[u].elementType.Some? then c.types[u].elementType.value
    else c.types[u].genericArgs[0]
  }

  /** `GetElementTypeEx`: `None` stands for a null type. A type that answers
      by itself gives its own answer; otherwise the question passes to the base
      type. `ElementTypeOnChain` states the result over the whole chain. */
  function GetElementTypeEx(c: Catalog, t: Option<TypeId>): (r: Option<TypeId>)
    requires Valid(c) && (t.Some? ==> t.value in c.types)
    ensures t.None? ==> r.None?
    ensures t.Some? && HasElementInfo(c, t.value) ==> r == Some(OwnElement(c, t.value))
    decreases if t.Some? then c.types[t.value].rank + 1 else 0
  {
    match t
    case None => None
    case Some(u) =>
      var d := c.types[u];
      if d.elementType.Some? then d.elementType
      else if |d.genericArgs| > 0 then Some(d.genericArgs[0])
      else GetElementTypeEx(c, d.baseType)
  }

  /** The answer of the first type in `ts` that has one: an independent
      reference for the chain walk, stated over any list of known types. */
  function FirstElementInfo(c: Catalog, ts: seq<TypeId>): (r: Option<TypeId>)
    requires InCatalog(c, ts)
    ensures r.None? <==> forall k :: 0 <= k < |ts| ==> !HasElementInfo(c, ts[k])
    ensures r.Some? ==>
      exists k :: 0 <= k < |ts| && HasElementInfo(c, ts[k]) && r.value == OwnElement(c, ts[k])
        && forall j :: 0 <= j < k ==> !HasElementInfo(c, ts[j])
  {
    if |ts| == 0 then None
    else if HasElementInfo(c, ts[0]) then Some(OwnElement(c, ts[0]))
    else
      var r := FirstElementInfo(c, ts[1..]);
      assert forall j :: 0 < j < |ts| ==> ts[j] == ts[1..][j - 1];
      r
  }

  /** `GetElementTypeEx` gives the answer of the nearest type on the chain
      that has one, and null exactly when no type on the chain has one. */
  lemma {:induction false} ElementTypeOnChain(c: Catalog, t: TypeId)
    requires Valid(c) && t in c.types
    ensures GetElementTypeEx(c, Some(t)) == FirstElementInfo(c, Chain(c, t))
    decreases c.types[t].rank
  {
    ChainUnfold(c, t);
    if c.types[t].baseType.Some? {
      var b := c.types[t].baseType.value;
      assert ([t] + Chain(c, b))[1..] == Chain(c, b);
      if !HasElementInfo(c, t) {
        ElementTypeOnChain(c, b);
      }
    }
  }

  /** `GetGenericArgumentsEx`: the argument list of the type itself when it is
      non-empty, else the base type's answer; never an empty list.
      `GenericArgumentsOnChain` states the result over the whole chain. */
  function GetGenericArgumentsEx(c: Catalog, t: TypeId): (r: Option<seq<TypeId>>)
    requires Valid(c) && t in c.types
    ensures r.Some? ==> |r.value| > 0
    ensures |c.types[t].genericArgs| > 0 ==> r == Some(c.types[t].genericArgs)
    decreases c.types[t].rank
  {
    var args := c.types[t].genericArgs;
    if |args| > 0 then Some(args)
    else match c.types[t].baseType
      case None => None
      case Some(b) => GetGenericArgumentsEx(c, b)
  }

  /** The first non-empty argument list among `ts`: the reference for the
      chain walk of `GetGenericArgumentsEx`. */
  function FirstGenericArgs(c: Catalog, ts: seq<TypeId>): (r: Option<seq<TypeId>>)
    requires InCatalog(c, ts)
    ensures r.None? <==> forall k :: 0 <= k < |ts| ==> |c.types[ts[k]].genericArgs| == 0
    ensures r.Some? ==>
      exists k :: 0 <= k < |ts| && c.types[ts[k]].genericArgs == r.value
        && forall j :: 0 <= j < k ==> |c.types[ts[j]].genericArgs| == 0
  {
    if |ts| == 0 then None
    else if |c.types[ts[0]].genericArgs| > 0 then Some(c.types[ts[0]].genericArgs)
    else
      var r := FirstGenericArgs(c, ts[1..]);
      assert forall j :: 0 < j < |ts| ==> ts[j] == ts[1..][j - 1];
      r
  }

  /** `GetGenericArgumentsEx` gives the arguments of the nearest type on the
      chain that has any, and null exactly when no type on the chain has any. */
  lemma {:induction false} GenericArgumentsOnChain(c: Catalog, t: TypeId)
    requires Valid(c) && t in c.types
    ensures GetGenericArgumentsEx(c, t) == FirstGenericArgs(c, Chain(c, t))
    decreases c.types[t].rank
  {
    ChainUnfold(c, t);
    if c.types[t].baseType.Some? {
      var b := c.types[t].baseType.value;
      assert ([t] + Chain(c, b))[1..] == Chain(c, b);
      if |c.types[t].genericArgs| == 0 {
        GenericArgumentsOnChain(c, b);
      }
    }
  }

  /** `HasGenericArgument`: `argType` (null when `None`) occurs among the
      generic arguments of some type anywhere on the chain, not only the
      nearest generic one. */
  predicate HasGenericArgument(c: Catalog, t: TypeId, argType: Option<TypeId>)
    requires Valid(c) && t in c.types
    ensures HasGenericArgument(c, t, argType) <==>
      argType.Some? && exists k :: 0 <= k < |Chain(c, t)| && argType.value in c.types[Chain(c, t)[k]].genericArgs
    decreases c.types[t].rank
  {
    ChainUnfold(c, t);
    var args := c.types[t].genericArgs;
    || (exists a :: a in args && Some(a) == argType)
    || (c.types[t].baseType.Some? && HasGenericArgument(c, c.types[t].baseType.value, argType))
  }

  /** `IsStruct`: a value type that is neither primitive nor an enum. */
  predicate IsStruct(c: Catalog, t: TypeId)
    requires t in c.types
  {
    c.types[t].isValueType && !c.types[t].isPrimitive && !c.types[t].isEnum
  }

  // ---------------------------------------------------------------------------
  // Relations between the three walks

  /** Every argument `GetGenericArgumentsEx` reports is found by
      `HasGenericArgument`. */
  lemma GenericArgumentsAreFound(c: Catalog, t: TypeId, a: TypeId)
    requires Valid(c) && t in c.types
    requires GetGenericArgumentsEx(c, t).Some? && a in GetGenericArgumentsEx(c, t).value
    ensures HasGenericArgument(c, t, Some(a))
  {
    GenericArgumentsOnChain(c, t);
  }

  /** `HasGenericArgument` looks past the nearest generic type: an argument of
      the base type is found even when the type's own, non-empty argument
      list, which is all `GetGenericArgumentsEx` reports, lacks it. */
  lemma FoundBeyondNearestGeneric(c: Catalog, t: TypeId, a: TypeId)
    requires Valid(c) && t in c.types
    requires |c.types[t].genericArgs| > 0 && a !in c.types[t].genericArgs
    requires c.types[t].baseType.Some? && a in c.types[c.types[t].baseType.value].genericArgs
    ensures HasGenericArgument(c, t, Some(a))
    ensures GetGenericArgumentsEx(c, t).Some? && a !in GetGenericArgumentsEx(c, t).value
  {
  }

  /** When no type on the chain is an array, `GetElementTypeEx` is the first
      argument of `GetGenericArgumentsEx`. */
  lemma {:induction false} ElementTypeIsFirstGenericArgument(c: Catalog, t: TypeId)
    requires Valid(c) && t in c.types
    requires forall k :: 0 <= k < |Chain(c, t)| ==> c.types[Chain(c, t)[k]].elementType.None?
    ensures GetElementTypeEx(c, Some(t)) ==
      match GetGenericArgumentsEx(c, t)
      case None => None
      case Some(args) => Some(args[0])
    decreases c.types[t].rank
  {
    var d := c.types[t];
    ChainUnfold(c, t);
    if |d.genericArgs| == 0 && d.baseType.Some? {
      ElementTypeIsFirstGenericArgument(c, d.baseType.value);
    }
  }
}
