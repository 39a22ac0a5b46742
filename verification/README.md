# CpReflection type graph in Dafny

This project models the type-graph part of `ReflectionCommon`, the reflection helper class of CpReflection. It covers these operations:

- `GetElementTypeEx`: the collection element type, found by walking the base chain.
- `GetGenericArgumentsEx`: the generic arguments of the nearest generic type on the chain.
- `HasGenericArgument`: whether an argument occurs anywhere on the chain.
- `IsStruct`.
- `FindAllDerivedTypes`: the assembly types assignable to a given type, filtered by `includeSelf` and `includeAbstract`.
- The three `IsTypeOrDerived` overloads: one on types, and two on object instances.

.NET reflection is replaced by an immutable catalog (`TypeCatalog.Catalog`). It maps each type id to a descriptor that holds:

- the base type;
- the array element type;
- the ordered generic arguments;
- the directly listed interfaces;
- the flags `IsAbstract`, `IsInterface`, `IsValueType`, `IsPrimitive` and `IsEnum`;
- the defining assembly;
- a `rank`.

The rank strictly decreases from a type to its base type and to each listed interface. So every base chain is finite, and every walk over it terminates. `Type.IsAssignableFrom` is modelled abstractly. A target is assignable from a candidate when one of these holds:

- the two are equal;
- the target lies on the candidate's strict base chain (`Type.IsSubclassOf`);
- the candidate implements the target, directly, through a listed interface, or through its base type.

The catalog also holds the order in which the loaded types are enumerated. `Assembly.GetTypes()` is that order restricted to one assembly.

Modules:

- `Wrappers`: `Option`, which stands for a nullable reference.
- `TypeCatalog`:
  - the catalog and its invariants (`Valid`);
  - the base chain (`Chain`);
  - assignability, and its facts as a partial order.
- `TypeGraph`: `GetElementTypeEx`, `GetGenericArgumentsEx`, `HasGenericArgument` and `IsStruct`. Each chain walk has a reference definition over an explicit list of types (`FirstElementInfo`, `FirstGenericArgs`), and a lemma shows that the two agree.
- `DerivedTypes`: the `Where` filter of `FindAllDerivedTypes` over a scope, `Assembly.GetTypes()`, and the operation itself.
- `Relationship`: `IsTypeOrDerived` on types and on instances, modelled as values that carry their runtime type.
- `Fixtures`: the unit-test scenarios, stated over any valid catalog that declares the test classes of `Tests/TestClasses.cs`:
  - `TestClass`, with subclasses `A`, `B`, `C : A` and the abstract `D`;
  - `TestStruct`, `TestContainer : List<int>` and `TestEnum`;
  - the two test interfaces;
  - the framework types these classes rest on.

## Model

| member | source | states |
|---|---|---|
| TypeCatalog.Chain | CpReflection/ReflectionCommon.cs:85-90 | the base chain starts at the type itself, links each type to its base type, stays inside the catalog, and ends at a root with no base type |
| TypeCatalog.AssignableViaChain | CpReflection/ReflectionCommon.cs:85-90 | assignability is equivalent to "on the inclusive base chain, or an implemented interface" |
| TypeCatalog.AssignableToClass | CpReflection/ReflectionCommon.cs:85-90 | for a target that is not an interface, assignability is exactly membership of the candidate's base chain |
| TypeCatalog.AssignableTransitive | CpReflection/ReflectionCommon.cs:63 | assignability is transitive: through the base chain, through inherited interfaces, and through interface inheritance |
| TypeCatalog.AssignableAntisymmetric | CpReflection/ReflectionCommon.cs:63 | two distinct types are never assignable to each other |
| TypeCatalog.AssignableRank | CpReflection/ReflectionCommon.cs:63 | assignability never points down the hierarchy: the target's rank is at most the candidate's, and strictly below it for distinct types |
| TypeCatalog.SubclassRank | CpReflection/ReflectionCommon.cs:88 | a strict ancestor (`IsSubclassOf`) is a known type of strictly smaller rank |
| TypeCatalog.ImplementsRank | CpReflection/ReflectionCommon.cs:89 | an implemented interface is a known interface type of smaller rank |
| TypeCatalog.ImplementsInherited | CpReflection/ReflectionCommon.cs:89 | interfaces implemented by an ancestor are implemented by every descendant |
| TypeCatalog.NoInterfacesImplementsNothing | CpReflection/ReflectionCommon.cs:89 | a type whose chain lists no interface implements none |
| TypeCatalog.ChainTransitive | CpReflection/ReflectionCommon.cs:88 | an ancestor of an ancestor is on the base chain |
| TypeGraph.GetElementTypeEx | CpReflection/ReflectionCommon.cs:17-32 | null gives null; a type with an array element type or generic arguments answers with the element type, else with the first argument; the walk terminates by the rank |
| TypeGraph.FirstElementInfo | CpReflection/ReflectionCommon.cs:17-32 | reference: null exactly when no listed type has an element type or generic arguments; otherwise the answer of the first listed type that has one, with no earlier type having one |
| TypeGraph.ElementTypeOnChain | CpReflection/ReflectionCommon.cs:17-32 | the recursive walk gives the answer of the nearest type on the base chain that has one, and null when no type on the chain has one |
| TypeGraph.GetGenericArgumentsEx | CpReflection/ReflectionCommon.cs:347-351 | a non-null result is never empty; a type with its own arguments reports them |
| TypeGraph.FirstGenericArgs | CpReflection/ReflectionCommon.cs:347-351 | reference: null exactly when every listed argument list is empty; otherwise the first non-empty list, with every earlier list empty |
| TypeGraph.GenericArgumentsOnChain | CpReflection/ReflectionCommon.cs:347-351 | the walk returns exactly the argument list of the nearest type on the chain that has a non-empty one, and null when there is none |
| TypeGraph.HasGenericArgument | CpReflection/ReflectionCommon.cs:321-326 | true if and only if the argument is non-null and occurs in the generic arguments of some type anywhere on the chain |
| TypeGraph.GenericArgumentsAreFound | CpReflection/ReflectionCommon.cs:347-351 | every argument `GetGenericArgumentsEx` reports is found by `HasGenericArgument` |
| TypeGraph.FoundBeyondNearestGeneric | CpReflection/ReflectionCommon.cs:321-326 | `HasGenericArgument` also finds an argument of the base type that the nearest generic type's list, which is all `GetGenericArgumentsEx` reports, lacks |
| TypeGraph.IsStruct | CpReflection/ReflectionCommon.cs:39-42 | a value type that is neither primitive nor an enum |
| TypeGraph.ElementTypeIsFirstGenericArgument | CpReflection/ReflectionCommon.cs:24-31 | when no type on the chain is an array, `GetElementTypeEx` is the first argument of `GetGenericArgumentsEx`, and both are null together |
| DerivedTypes.FilterDerivedSound | CpReflection/ReflectionCommon.cs:58-63 | every reported type is in the scope and satisfies all three conjuncts of the `Where` condition |
| DerivedTypes.FilterDerivedComplete | CpReflection/ReflectionCommon.cs:58-63 | every scope type that satisfies the condition is reported, as many times as it occurs in the scope |
| DerivedTypes.FilterDerivedOrdered | CpReflection/ReflectionCommon.cs:58-63 | the result keeps scope order: it is a subsequence of the scope |
| DerivedTypes.FilterDerivedAppend | CpReflection/ReflectionCommon.cs:58-63 | filtering a concatenation of scopes is the concatenation of the filtered scopes |
| DerivedTypes.FilterDerivedKeepsAll | CpReflection/ReflectionCommon.cs:58-63 | a scope whose types all qualify is returned whole |
| DerivedTypes.FilterDerivedDropsAll | CpReflection/ReflectionCommon.cs:58-63 | a scope none of whose types qualifies gives nothing |
| DerivedTypes.AssemblyTypes | CpReflection/ReflectionCommon.cs:58 | `GetTypes()` yields exactly the enumerated types that belong to the assembly |
| DerivedTypes.AssemblyTypesFromOrdered | CpReflection/ReflectionCommon.cs:58-59 | `GetTypes()` keeps the enumeration order of the assembly's types |
| DerivedTypes.SubsequenceDistinct | CpReflection/ReflectionCommon.cs:58-63 | keeping some types of a duplicate-free enumeration, in order, never lists a type twice |
| DerivedTypes.FindAllDerivedTypes | CpReflection/ReflectionCommon.cs:52-64 | a type is reported if and only if it belongs to the given assembly, or to the base type's assembly when none is given, and it qualifies |
| DerivedTypes.FindAllDerivedTypesDistinct | CpReflection/ReflectionCommon.cs:52-64 | the result follows the assembly's `GetTypes()` order and lists no type twice |
| DerivedTypes.FlagsExclude | CpReflection/ReflectionCommon.cs:61-62 | with `includeSelf` off the searched type is never reported; with `includeAbstract` off no abstract type is reported |
| DerivedTypes.FlagsMonotone | CpReflection/ReflectionCommon.cs:61-62 | turning either flag on only adds types: the result with fewer flags is a subsequence of the result with more |
| DerivedTypes.IncludeSelfAddsOnlySelf | CpReflection/ReflectionCommon.cs:61 | `includeSelf` adds exactly the searched type, when it is in scope and passes the abstractness test |
| DerivedTypes.IncludeAbstractAddsOnlyAbstract | CpReflection/ReflectionCommon.cs:62 | `includeAbstract` adds exactly the qualifying abstract types of the scope |
| DerivedTypes.InterfaceSearchNeedsAbstract | CpReflection/ReflectionCommon.cs:61-63 | an interface search without `includeAbstract` never reports the interface itself or any interface, whatever `includeSelf` says |
| Relationship.IsTypeOrDerived | CpReflection/ReflectionCommon.cs:85-90 | the three-way disjunction is equivalent to assignability alone: the equality and `IsSubclassOf` tests add nothing |
| Relationship.IsTypeOrDerivedObjects | CpReflection/ReflectionCommon.cs:98-101 | with the arguments swapped, the first object's runtime type must be assignable from the second object's |
| Relationship.IsTypeOrDerivedObject | CpReflection/ReflectionCommon.cs:109-112 | the explicit base type must be assignable from the object's runtime type |
| Relationship.TypeOrDerivedReflexive | CpReflection/ReflectionCommon.cs:85-90 | every type is its own type-or-derived, in all three overloads |
| Relationship.AncestorIsBase | CpReflection/ReflectionCommon.cs:85-90 | a type is derived from every strict ancestor |
| Relationship.AncestorIsNotDerived | CpReflection/ReflectionCommon.cs:85-90 | a strict ancestor is never derived from its descendant |
| Relationship.SiblingsUnrelated | CpReflection/ReflectionCommon.cs:85-90 | two distinct classes with the same base type are unrelated in both directions |
| Relationship.TypeOrDerivedTransitive | CpReflection/ReflectionCommon.cs:85-90 | the relation is transitive |
| Relationship.TypeOrDerivedAntisymmetric | CpReflection/ReflectionCommon.cs:85-90 | the relation holds both ways only for equal types |
| Relationship.DerivedFromClassMeansOnChain | CpReflection/ReflectionCommon.cs:85-90 | against a class (not an interface), being derived means lying on the base chain |
| Fixtures.ElementTypeExamples | Tests/Tests.cs:12-26 | `TestContainer`, `List<int>`, `int[]` and `Dictionary<int, string>` give `int`; `Dictionary<string, int>` gives `string`; `TestClass` gives null |
| Fixtures.IsStructExamples | Tests/Tests.cs:29-41 | `TestStruct` is a struct; `TestClass`, `int`, `string` and `TestEnum` are not |
| Fixtures.FamilyChains | Tests/TestClasses.cs:5-13 | the base chains of `TestClass` and its four subclasses |
| Fixtures.OtherChains | Tests/TestClasses.cs:15-19 | the base chains of the struct, the container and the enum, and the interfaces' chains |
| Fixtures.GenericArgumentExamples | Tests/Tests.cs:182-195 | through a non-generic subclass of a generic class over `int`, `string` and `bool`, those three are found and `long` is not; the three are reported as its arguments, and `int` as its element type |
| Fixtures.TypeOrDerivedHolds | Tests/Tests.cs:90-95 | `TestClass`, `A` and `C` are type-or-derived of `TestClass` |
| Fixtures.TypeOrDerivedFails | Tests/Tests.cs:96-99 | the siblings `A` and `B` are unrelated, and `TestClass` is not derived from `A` |
| Fixtures.InstanceChecksHold | Tests/Tests.cs:101-113 | the instance overloads that the test expects to succeed |
| Fixtures.InstanceChecksFail | Tests/Tests.cs:105-117 | the instance overloads that the test expects to fail, with the base object first |
| Fixtures.FilterTestAssemblyForTestClass | Tests/Tests.cs:46-65 | filtering the test assembly for `TestClass` gives `A`, `B`, `C` in declaration order; `TestClass` first with `includeSelf`; `D` last with `includeAbstract` |
| Fixtures.FindDerivedOfTestClass | Tests/Tests.cs:46-71 | the same, through `FindAllDerivedTypes` with the default assembly |
| Fixtures.FilterTestAssemblyForTestInterface | Tests/Tests.cs:73-80 | filtering the test assembly for `ITestInterface` finds nothing without `includeAbstract`, and otherwise both interfaces, `ITestInterface` only with `includeSelf` |
| Fixtures.FindDerivedOfTestInterface | Tests/Tests.cs:73-80 | the same, through `FindAllDerivedTypes` with the default assembly |

## Left out

- The `Invoke*` methods (CpReflection/ReflectionCommon.cs:122-278). They hand the call to the runtime's method lookup, generic instantiation and invocation, which are outside the source.
- `GetAttribute`, `GetAttributes` and `HasAttribute` (CpReflection/ReflectionCommon.cs:287-313). They delegate to the runtime's attribute lookup and its inheritance rules.
- Null receivers. In .NET, `IsStruct`, `FindAllDerivedTypes`, `HasGenericArgument`, `GetGenericArgumentsEx` and the instance `IsTypeOrDerived` overloads throw on a null type or object, so the model requires a known type there.
  - Only `GetElementTypeEx` tests for null itself, and its argument is an `Option`.
  - The `argType` of `HasGenericArgument` is an `Option` as well. A null never equals an argument, so null gives false.
  - Also not modelled: on two null types, `IsTypeOrDerived(null, null)` answers true through its first equality test.
  - With one null argument, the type-level `IsTypeOrDerived` throws. A null `derivedType` throws `NullReferenceException` at CpReflection/ReflectionCommon.cs:88. A null `baseType` with a non-null `derivedType` makes `IsSubclassOf` throw `ArgumentNullException`. The model takes both as known types.
- The finer points of .NET assignability: variance, open generic types, nullable types, array covariance and boxing. Assignability is the abstract equal / base-chain / interface relation described above.
- The runtime's `Object` special case for interfaces. In .NET, `I.IsSubclassOf(typeof(object))` and `typeof(object).IsAssignableFrom(I)` are true for every interface `I`, although `Object` is not on an interface's base chain. The model has no such case, so:
  - `IsTypeOrDerived(I, Object)` (CpReflection/ReflectionCommon.cs:85-90) is false in the model and true in .NET;
  - `FindAllDerivedTypes(Object, ..., includeAbstract: true)` (CpReflection/ReflectionCommon.cs:52-64) reports interfaces in .NET but not in the model;
  - `TypeCatalog.AssignableToClass` and `Relationship.DerivedFromClassMeansOnChain` hold for the abstraction only, not for the target `Object` in .NET.
- `FindAllDerivedTypes<T>` (CpReflection/ReflectionCommon.cs:74-77) and `HasGenericArgument<T>` (CpReflection/ReflectionCommon.cs:334-337) only pass `typeof(T)` on. A type parameter is a type id here, so each is the same member as the non-generic overload.
- `Assembly.GetAssembly` and the enumeration of loaded assemblies. They are replaced by the assembly field of a descriptor and by the catalog's enumeration order.
- `FindAllDerivedTypes` promises an "enumeration of all derived types" (CpReflection/ReflectionCommon.cs:51). The code returns the lazily evaluated `Where` filter of `GetTypes()`. The model makes that result a sequence in `GetTypes()` order. `GetTypes()` lists each type once, so the result does too. Laziness is not modelled; the sequence is what enumerating the result once yields.
- The fixtures declare no interfaces for framework types such as `Object`, `ValueType`, `Enum` and `List<int>`. The test scenarios only search for `TestClass` and `ITestInterface`, which no framework type implements.
- The class used by the generic-arguments test (Tests/Tests.cs:182-195) is not declared in Tests/TestClasses.cs. `Fixtures.DeclaresGenericFixture` gives it the shape the test's assertions imply: a non-generic class whose base is a generic class over `int`, `string` and `bool`.
- `ITestInterface` and `ITestInterfaceDerived` are not declared in Tests/TestClasses.cs either. The fixtures give them the shape the test at Tests/Tests.cs:73-80 implies:
  - both are interfaces, and the derived one lists `ITestInterface`;
  - no class of the test assembly implements either of them.
- The test assembly also holds other types that `Fixtures.TestAssemblyTypes` leaves out, because none of them derives from `TestClass` or implements a test interface:
  - the test class itself;
  - the attribute classes of the attribute tests;
  - the class of the generic-arguments test (Tests/Tests.cs:184) and its generic base class. `Fixtures.DeclaresGenericFixture` declares these without placing them in the enumeration.
- Concurrency: there is none. The catalog is read-only.
