/**
  The read-only type catalog that stands in for .NET reflection metadata: every
  known type with its base type, array element type, generic arguments, directly
  listed interfaces and classification flags, together with the abstract
  assignability relation (`Type.IsAssignableFrom` / `Type.IsSubclassOf`).
 */
module TypeCatalog {
  import opened Wrappers

  type TypeId = nat
  type AssemblyId = nat

  /** What reflection reports about one type. `rank` is an acyclicity witness:
      it strictly decreases from a type to its base type and to each of its
      interfaces, so walking the hierarchy always reaches a root. */
  datatype TypeDesc = TypeDesc(
    assembly: AssemblyId,
    baseType: Option<TypeId>,
    elementType: Option<TypeId>,
    genericArgs: seq<TypeId>,
    interfaces: set<TypeId>,
    isAbstract: bool,
    isInterface: bool,
    isValueType: bool,
    isPrimitive: bool,
    isEnum: bool,
    rank: nat)

  /** All loaded types, keyed by id, and the order in which enumerating the
      loaded assemblies yields them. */
  datatype Catalog = Catalog(types: map<TypeId, TypeDesc>, order: seq<TypeId>)

  /** The hierarchy invariants at one type: the base type and every listed
      interface are known and of smaller rank; listed interfaces are interface
      types; an interface is abstract and has no base type. */
  ghost predicate WellFormedAt(c: Catalog, t: TypeId)
    requires t in c.types
  {
    var d := c.types[t];
    && (d.baseType.Some? ==>
          d.baseType.value in c.types && c.types[d.baseType.value].rank < d.rank)
    && (forall i :: i in d.interfaces ==>
          i in c.types && c.types[i].isInterface && c.types[i].rank < d.rank)
    && (d.isInterface ==> d.isAbstract && d.baseType.None?)
  }

  /** Every type listed in `ts` is known to the catalog. */
  predicate InCatalog(c: Catalog, ts: seq<TypeId>) {
    forall k :: 0 <= k < |ts| ==> ts[k] in c.types
  }

  /** No element occurs twice in `s`. */
  predicate Distinct<T(==)>(s: seq<T>) {
    forall i, j :: 0 <= i < j < |s| ==> s[i] != s[j]
  }

  /** Every type is well formed, and the enumeration lists known types, each
      once (an assembly never yields a type twice). */
  ghost predicate Valid(c: Catalog) {
    && (forall t :: t in c.types ==> WellFormedAt(c, t))
    && InCatalog(c, c.order)
    && Distinct(c.order)
  }

  /** The base chain of `t`: `t` itself, its base type, that type's base, and so
      on up to the root. */
  function Chain(c: Catalog, t: TypeId): (ch: seq<TypeId>)
    requires Valid(c) && t in c.types
    ensures |ch| > 0 && ch[0] == t
    ensures forall k :: 0 <= k < |ch| ==> ch[k] in c.types
    ensures forall k :: 0 <= k < |ch| - 1 ==> c.types[ch[k]].baseType == Some(ch[k + 1])
    ensures c.types[ch[|ch| - 1]].baseType.None?
    decreases c.types[t].rank
  {
    match c.types[t].baseType
    case None => [t]
    case Some(b) => [t] + Chain(c, b)
  }

  /** `Type.IsSubclassOf`, abstracted to its base-chain walk: `b` lies on the
      strict base chain of `d`. The runtime's special case that makes every
      interface a subclass of `Object` is not part of this relation. */
  predicate IsSubclassOf(c: Catalog, d: TypeId, b: TypeId)
    requires Valid(c) && d in c.types
  {
    b in Chain(c, d)[1..]
  }

  /** `t` implements interface `i`: `i` is listed by `t`, or inherited from a
      listed interface, or implemented by the base type. */
  predicate Implements(c: Catalog, t: TypeId, i: TypeId)
    requires Valid(c) && t in c.types
    decreases c.types[t].rank
  {
    var d := c.types[t];
    || i in d.interfaces
    || (exists j :: j in d.interfaces && Implements(c, j, i))
    || (d.baseType.Some? && Implements(c, d.baseType.value, i))
  }

  /** `target.IsAssignableFrom(cand)`, abstracted to the three ways a value of
      type `cand` can be used where `target` is expected. An interface is not
      assignable to `Object` here, since `Object` is not on its chain. */
  predicate IsAssignableFrom(c: Catalog, target: TypeId, cand: TypeId)
    requires Valid(c) && cand in c.types
  {
    target == cand || IsSubclassOf(c, cand, target) || Implements(c, cand, target)
  }

  // ---------------------------------------------------------------------------
  // Facts about the hierarchy

  /** Every type on the chain above `t` has strictly smaller rank. */
  lemma {:induction false} ChainRank(c: Catalog, t: TypeId, u: TypeId)
    requires Valid(c) && t in c.types && u in Chain(c, t)
    ensures c.types[u].rank <= c.types[t].rank
    ensures u != t ==> c.types[u].rank < c.types[t].rank
    decreases c.types[t].rank
  {
    if u != t {
      var b := c.types[t].baseType.value;
      ChainRank(c, b, u);
    }
  }

  /** One step of the chain: a root's chain is the root alone; a type with a
      base type is followed by the base type's own chain. */
  lemma ChainUnfold(c: Catalog, t: TypeId)
    requires Valid(c) && t in c.types
    ensures Chain(c, t)[0] == t
    ensures c.types[t].baseType.None? ==> Chain(c, t) == [t]
    ensures c.types[t].baseType.Some? ==>
      var b := c.types[t].baseType.value;
      && b in c.types
      && Chain(c, t) == [t] + Chain(c, b)
      && |Chain(c, t)| == |Chain(c, b)| + 1
      && forall k :: 0 <= k < |Chain(c, b)| ==> Chain(c, t)[k + 1] == Chain(c, b)[k]
  {
  }

  /** A strict ancestor lies on the chain of the base type. */
  lemma SubclassOfBase(c: Catalog, d: TypeId, b: TypeId)
    requires Valid(c) && d in c.types && IsSubclassOf(c, d, b)
    ensures c.types[d].baseType.Some? && b in Chain(c, c.types[d].baseType.value)
  {
    ChainUnfold(c, d);
    if c.types[d].baseType.Some? {
      var p := c.types[d].baseType.value;
      assert ([d] + Chain(c, p))[1..] == Chain(c, p);
    }
  }

  /** A strict ancestor has strictly smaller rank. */
  lemma SubclassRank(c: Catalog, d: TypeId, b: TypeId)
    requires Valid(c) && d in c.types && IsSubclassOf(c, d, b)
    ensures b in c.types && c.types[b].rank < c.types[d].rank
  {
    SubclassOfBase(c, d, b);
    ChainRank(c, c.types[d].baseType.value, b);
  }

  /** Ancestry along the base chain is transitive. */
  lemma {:induction false} ChainTransitive(c: Catalog, t: TypeId, u: TypeId, v: TypeId)
    requires Valid(c) && t in c.types && u in Chain(c, t)
    requires u in c.types && v in Chain(c, u)
    ensures v in Chain(c, t)
    decreases c.types[t].rank
  {
    if u != t {
      var b := c.types[t].baseType.value;
      assert Chain(c, t) == [t] + Chain(c, b);
      ChainTransitive(c, b, u, v);
    }
  }

  /** An implemented interface is a known interface type of smaller rank. */
  lemma {:induction false} ImplementsRank(c: Catalog, t: TypeId, i: TypeId)
    requires Valid(c) && t in c.types && Implements(c, t, i)
    ensures i in c.types && c.types[i].isInterface
    ensures c.types[i].rank < c.types[t].rank
    decreases c.types[t].rank
  {
    var d := c.types[t];
    if i in d.interfaces {
    } else if j :| j in d.interfaces && Implements(c, j, i) {
      ImplementsRank(c, j, i);
    } else {
      ImplementsRank(c, d.baseType.value, i);
    }
  }

  /** An interface has no base type, so its chain is the interface alone. */
  lemma InterfaceChain(c: Catalog, i: TypeId)
    requires Valid(c) && i in c.types && c.types[i].isInterface
    ensures Chain(c, i) == [i]
  {
  }

  /** Assignability restated on the inclusive chain: the target is on the
      candidate's chain (itself or an ancestor), or an interface it implements. */
  lemma AssignableViaChain(c: Catalog, target: TypeId, cand: TypeId)
    requires Valid(c) && cand in c.types
    ensures IsAssignableFrom(c, target, cand)
        <==> target in Chain(c, cand) || Implements(c, cand, target)
  {
    var ch := Chain(c, cand);
    assert ch == [cand] + ch[1..];
  }

  /** Interfaces implemented by an ancestor are implemented by the descendant. */
  lemma {:induction false} ImplementsInherited(c: Catalog, t: TypeId, u: TypeId, i: TypeId)
    requires Valid(c) && t in c.types && u in Chain(c, t)
    requires u in c.types && Implements(c, u, i)
    ensures Implements(c, t, i)
    decreases c.types[t].rank
  {
    if u != t {
      ImplementsInherited(c, c.types[t].baseType.value, u, i);
    }
  }

  /** A type none of whose chain lists an interface implements nothing. */
  lemma {:induction false} NoInterfacesImplementsNothing(c: Catalog, t: TypeId, i: TypeId)
    requires Valid(c) && t in c.types
    requires forall k :: 0 <= k < |Chain(c, t)| ==> c.types[Chain(c, t)[k]].interfaces == {}
    ensures !Implements(c, t, i)
    decreases c.types[t].rank
  {
    ChainUnfold(c, t);
    if c.types[t].baseType.Some? {
      NoInterfacesImplementsNothing(c, c.types[t].baseType.value, i);
    }
  }

  /** Interface implementation is transitive. */
  lemma {:induction false} ImplementsTransitive(c: Catalog, t: TypeId, j: TypeId, i: TypeId)
    requires Valid(c) && t in c.types && Implements(c, t, j)
    requires j in c.types && Implements(c, j, i)
    ensures Implements(c, t, i)
    decreases c.types[t].rank
  {
    var d := c.types[t];
    if j in d.interfaces {
    } else if k :| k in d.interfaces && Implements(c, k, j) {
      ImplementsTransitive(c, k, j, i);
    } else {
      ImplementsTransitive(c, d.baseType.value, j, i);
    }
  }

  /** Assignability never points down the hierarchy: the target's rank is at
      most the candidate's, and strictly smaller unless they are the same type. */
  lemma AssignableRank(c: Catalog, target: TypeId, cand: TypeId)
    requires Valid(c) && cand in c.types && IsAssignableFrom(c, target, cand)
    ensures target in c.types
    ensures c.types[target].rank <= c.types[cand].rank
    ensures target != cand ==> c.types[target].rank < c.types[cand].rank
  {
    AssignableViaChain(c, target, cand);
    if target in Chain(c, cand) {
      ChainRank(c, cand, target);
    } else {
      ImplementsRank(c, cand, target);
    }
  }

  /** Assignability is transitive. */
  lemma AssignableTransitive(c: Catalog, a: TypeId, b: TypeId, x: TypeId)
    requires Valid(c) && b in c.types && x in c.types
    requires IsAssignableFrom(c, a, b) && IsAssignableFrom(c, b, x)
    ensures IsAssignableFrom(c, a, x)
  {
    AssignableViaChain(c, a, b);
    AssignableViaChain(c, b, x);
    AssignableViaChain(c, a, x);
    if b in Chain(c, x) {
      if a in Chain(c, b) {
        ChainTransitive(c, x, b, a);
      } else {
        ImplementsInherited(c, x, b, a);
      }
    } else {
      ImplementsRank(c, x, b);
      if a in Chain(c, b) {
        InterfaceChain(c, b);
      } else {
        ImplementsTransitive(c, x, b, a);
      }
    }
  }

  /** Assignability is antisymmetric: two distinct types are never assignable
      to each other. */
  lemma AssignableAntisymmetric(c: Catalog, a: TypeId, b: TypeId)
    requires Valid(c) && a in c.types && b in c.types
    requires IsAssignableFrom(c, a, b) && IsAssignableFrom(c, b, a)
    ensures a == b
  {
    AssignableRank(c, a, b);
    AssignableRank(c, b, a);
  }

  /** For a target that is not an interface, assignability is exactly being on
      the candidate's base chain (under the abstraction above, which leaves out
      the runtime's `Object` special case for interfaces). */
  lemma AssignableToClass(c: Catalog, target: TypeId, cand: TypeId)
    requires Valid(c) && cand in c.types && target in c.types
    requires !c.types[target].isInterface
    ensures IsAssignableFrom(c, target, cand) <==> target in Chain(c, cand)
  {
    AssignableViaChain(c, target, cand);
    if Implements(c, cand, target) {
      ImplementsRank(c, cand, target);
    }
  }
}
