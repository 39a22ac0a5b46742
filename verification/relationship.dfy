/**
  `IsTypeOrDerived` on two types, and its two overloads on object instances,
  which compare the instances' runtime types.
 */
module Relationship {
  import opened TypeCatalog

  /** A live object; reflection only ever asks it for its runtime type
      (`GetType()`). */
  datatype Instance = Instance(runtimeType: TypeId)

  /** `derivedType.IsTypeOrDerived(baseType)`: the two types are equal, or
      `baseType` is a strict ancestor of `derivedType`, or `baseType` is
      assignable from `derivedType`. The first two tests add nothing to the
      third: the answer is exactly assignability. */
  predicate IsTypeOrDerived(c: Catalog, derivedType: TypeId, baseType: TypeId)
    requires Valid(c) && derivedType in c.types
    ensures IsTypeOrDerived(c, derivedType, baseType) <==> IsAssignableFrom(c, baseType, derivedType)
  {
    || baseType == derivedType
    || IsSubclassOf(c, derivedType, baseType)
    || IsAssignableFrom(c, baseType, derivedType)
  }

  /** `IsTypeOrDerived(baseObj, derivedObj)`: note the argument order; the
      derived object comes second and its type is tested against the first
      object's type. */
  predicate IsTypeOrDerivedObjects(c: Catalog, baseObj: Instance, derivedObj: Instance)
    requires Valid(c) && derivedObj.runtimeType in c.types
    ensures IsTypeOrDerivedObjects(c, baseObj, derivedObj) <==>
      IsAssignableFrom(c, baseObj.runtimeType, derivedObj.runtimeType)
  {
    IsTypeOrDerived(c, derivedObj.runtimeType, baseObj.runtimeType)
  }

  /** `IsTypeOrDerived(baseType, derivedObj)`: the object's runtime type is
      tested against an explicit base type. */
  predicate IsTypeOrDerivedObject(c: Catalog, baseType: TypeId, derivedObj: Instance)
    requires Valid(c) && derivedObj.runtimeType in c.types
    ensures IsTypeOrDerivedObject(c, baseType, derivedObj) <==>
      IsAssignableFrom(c, baseType, derivedObj.runtimeType)
  {
    IsTypeOrDerived(c, derivedObj.runtimeType, baseType)
  }

  // ---------------------------------------------------------------------------
  // The relation as a partial order on the catalog

  /** Every type is its own type-or-derived, and so is every instance of it. */
  lemma TypeOrDerivedReflexive(c: Catalog, t: TypeId, obj: Instance)
    requires Valid(c) && t in c.types && obj.runtimeType in c.types
    ensures IsTypeOrDerived(c, t, t)
    ensures IsTypeOrDerivedObjects(c, obj, obj)
    ensures IsTypeOrDerivedObject(c, obj.runtimeType, obj)
  {
  }

  /** A type is derived from every type on its strict base chain. */
  lemma AncestorIsBase(c: Catalog, d: TypeId, b: TypeId)
    requires Valid(c) && d in c.types && b in Chain(c, d)[1..]
    ensures IsTypeOrDerived(c, d, b)
  {
  }

  /** A strict ancestor is never derived from its descendant. */
  lemma AncestorIsNotDerived(c: Catalog, d: TypeId, b: TypeId)
    requires Valid(c) && d in c.types && b in c.types && IsSubclassOf(c, d, b)
    ensures !IsTypeOrDerived(c, b, d)
  {
    SubclassRank(c, d, b);
    if IsAssignableFrom(c, d, b) {
      AssignableRank(c, d, b);
    }
  }

  /** Two distinct classes with the same base type are unrelated in both
      directions. */
  lemma SiblingsUnrelated(c: Catalog, a: TypeId, b: TypeId)
    requires Valid(c) && a in c.types && b in c.types && a != b
    requires c.types[a].baseType.Some? && c.types[a].baseType == c.types[b].baseType
    ensures !IsTypeOrDerived(c, a, b) && !IsTypeOrDerived(c, b, a)
  {
    SiblingStep(c, a, b);
    SiblingStep(c, b, a);
  }

  lemma SiblingStep(c: Catalog, a: TypeId, b: TypeId)
    requires Valid(c) && a in c.types && b in c.types && a != b
    requires c.types[a].baseType.Some? && c.types[a].baseType == c.types[b].baseType
    ensures !IsAssignableFrom(c, b, a)
  {
    var p := c.types[a].baseType.value;
    ChainUnfold(c, a);
    AssignableToClass(c, b, a);
    if b in Chain(c, p) {
      ChainRank(c, p, b);
    }
  }

  /** The relation is transitive. */
  lemma TypeOrDerivedTransitive(c: Catalog, x: TypeId, y: TypeId, z: TypeId)
    requires Valid(c) && x in c.types && y in c.types
    requires IsTypeOrDerived(c, x, y) && IsTypeOrDerived(c, y, z)
    ensures IsTypeOrDerived(c, x, z)
  {
    AssignableTransitive(c, z, y, x);
  }

  /** The relation is antisymmetric: it holds in both directions only for
      equal types. */
  lemma TypeOrDerivedAntisymmetric(c: Catalog, x: TypeId, y: TypeId)
    requires Valid(c) && x in c.types && y in c.types
    requires IsTypeOrDerived(c, x, y) && IsTypeOrDerived(c, y, x)
    ensures x == y
  {
    AssignableAntisymmetric(c, x, y);
  }

  /** When the base type is a class (not an interface), being derived means
      exactly lying on the derived type's base chain (an interface counts as
      derived from `Object` in .NET, which this abstraction leaves out). */
  lemma DerivedFromClassMeansOnChain(c: Catalog, d: TypeId, b: TypeId)
    requires Valid(c) && d in c.types && b in c.types && !c.types[b].isInterface
    ensures IsTypeOrDerived(c, d, b) <==> b in Chain(c, d)
  {
    AssignableToClass(c, b, d);
  }
}
