/**
  The unit-test scenarios, stated over any valid catalog that declares the
  test fixtures: the `TestClass` hierarchy, `TestStruct`, `TestContainer :
  List<int>`, `TestEnum`, the two test interfaces, and the framework types
  they rest on.
 */
module Fixtures {
  import opened Wrappers
  import opened TypeCatalog
  import opened TypeGraph
  import opened DerivedTypes
  import opened Relationship

  const ObjectT: TypeId := 0
  const ValueTypeT: TypeId := 1
  const EnumT: TypeId := 2
  const Int32T: TypeId := 3
  const StringT: TypeId := 4
  const ListOfInt: TypeId := 6
  const DictIntString: TypeId := 7
  const DictStringInt: TypeId := 8
  const IntArray: TypeId := 9
  const TestClass: TypeId := 10
  const DerivedA: TypeId := 11
  const DerivedB: TypeId := 12
  const DerivedC: TypeId := 13
  const DerivedD: TypeId := 14
  const TestStruct: TypeId := 15
  const TestContainer: TypeId := 16
  const TestEnum: TypeId := 17
  const ITestInterface: TypeId := 18
  const ITestInterfaceDerived: TypeId := 19
  const BoolT: TypeId := 20
  const LongT: TypeId := 21
  const GenericBase: TypeId := 22
  const GenericDerived: TypeId := 23

  /** `t` is a plain class (no array element type, no generic arguments, no
      interfaces) with the given base type and abstractness. */
  ghost predicate PlainClass(c: Catalog, t: TypeId, base: TypeId, isAbstract: bool) {
    && t in c.types
    && c.types[t].baseType == Some(base)
    && c.types[t].elementType.None?
    && c.types[t].genericArgs == []
    && c.types[t].interfaces == {}
    && c.types[t].isAbstract == isAbstract
    && !c.types[t].isInterface
    && !c.types[t].isValueType
  }

  /** `t` is a value type with no interfaces deriving from `base`. */
  ghost predicate PlainValueType(c: Catalog, t: TypeId, base: TypeId) {
    && t in c.types
    && c.types[t].baseType == Some(base)
    && c.types[t].interfaces == {}
    && !c.types[t].isInterface
    && c.types[t].isValueType
  }

  /** `t` is a non-array class deriving from `Object` with the given generic
      arguments (a constructed generic collection type). */
  ghost predicate GenericClass(c: Catalog, t: TypeId, args: seq<TypeId>) {
    && t in c.types
    && c.types[t].baseType == Some(ObjectT)
    && c.types[t].elementType.None?
    && c.types[t].genericArgs == args
    && c.types[t].interfaces == {}
  }

  /** The declarations of the test fixtures and of the framework types they use. */
  ghost predicate DeclaresFixtures(c: Catalog) {
    && Valid(c)
    && ObjectT in c.types
    && c.types[ObjectT].baseType.None?
    && c.types[ObjectT].elementType.None?
    && c.types[ObjectT].genericArgs == []
    && c.types[ObjectT].interfaces == {}
    && !c.types[ObjectT].isInterface
    && PlainClass(c, TestClass, ObjectT, false)
    && PlainClass(c, DerivedA, TestClass, false)
    && PlainClass(c, DerivedB, TestClass, false)
    && PlainClass(c, DerivedC, DerivedA, false)
    && PlainClass(c, DerivedD, TestClass, true)
    && GenericClass(c, ListOfInt, [Int32T])
    && GenericClass(c, DictIntString, [Int32T, StringT])
    && GenericClass(c, DictStringInt, [StringT, Int32T])
    && IntArray in c.types && c.types[IntArray].elementType == Some(Int32T)
    && PlainClass(c, TestContainer, ListOfInt, false)
    && ValueTypeT in c.types && c.types[ValueTypeT].baseType == Some(ObjectT)
    && c.types[ValueTypeT].interfaces == {} && c.types[ValueTypeT].isAbstract
    && EnumT in c.types && c.types[EnumT].baseType == Some(ValueTypeT)
    && c.types[EnumT].interfaces == {} && c.types[EnumT].isAbstract
    && PlainValueType(c, TestStruct, ValueTypeT)
    && !c.types[TestStruct].isAbstract && !c.types[TestStruct].isPrimitive && !c.types[TestStruct].isEnum
    && Int32T in c.types && c.types[Int32T].isValueType && c.types[Int32T].isPrimitive
    && StringT in c.types && !c.types[StringT].isValueType
    && PlainValueType(c, TestEnum, EnumT)
    && !c.types[TestEnum].isAbstract && c.types[TestEnum].isEnum
    && ITestInterface in c.types && c.types[ITestInterface].isInterface
    && c.types[ITestInterface].interfaces == {}
    && ITestInterfaceDerived in c.types && c.types[ITestInterfaceDerived].isInterface
    && c.types[ITestInterfaceDerived].interfaces == {ITestInterface}
  }

  /** The test assembly enumerates exactly its fixture types; both the class
      and the interface searches default to it. */
  ghost predicate EnumeratesTestAssembly(c: Catalog)
    requires DeclaresFixtures(c)
  {
    && AssemblyTypes(c, c.types[TestClass].assembly) == TestAssemblyTypes
    && c.types[ITestInterface].assembly == c.types[TestClass].assembly
  }

  // The enumeration constants below are written as nested `[x] + rest`
  // literals, so that each step of `FilterDerivedCons`, `FilterDerivedKeep` and
  // `FilterDerivedSkip` matches them syntactically.

  /** The two test interfaces, in enumeration order. */
  const TestInterfaces: seq<TypeId> := [ITestInterface] + ([ITestInterfaceDerived] + [])

  /** The test assembly's types outside the `TestClass` family, in enumeration
      order. */
  const NonFamilyTypes: seq<TypeId> := [TestStruct] + ([TestContainer] + ([TestEnum] + TestInterfaces))

  /** The types of the test assembly in the order it enumerates them: the
      `TestClass` family, then the rest. */
  const TestAssemblyTypes: seq<TypeId> :=
    [TestClass] + ([DerivedA] + ([DerivedB] + ([DerivedC] + ([DerivedD] + NonFamilyTypes))))

  /** The element types the unit test expects. */
  lemma ElementTypeExamples(c: Catalog)
    requires DeclaresFixtures(c)
    ensures GetElementTypeEx(c, Some(TestContainer)) == Some(Int32T)
    ensures GetElementTypeEx(c, Some(TestClass)) == None
    ensures GetElementTypeEx(c, Some(ListOfInt)) == Some(Int32T)
    ensures GetElementTypeEx(c, Some(IntArray)) == Some(Int32T)
    ensures GetElementTypeEx(c, Some(DictIntString)) == Some(Int32T)
    ensures GetElementTypeEx(c, Some(DictStringInt)) == Some(StringT)
  {
  }

  /** The struct classifications the unit test expects. */
  lemma IsStructExamples(c: Catalog)
    requires DeclaresFixtures(c)
    ensures IsStruct(c, TestStruct)
    ensures !IsStruct(c, TestClass) && !IsStruct(c, Int32T) && !IsStruct(c, StringT) && !IsStruct(c, TestEnum)
  {
  }

  /** The base chains of the `TestClass` family. */
  lemma FamilyChains(c: Catalog)
    requires DeclaresFixtures(c)
    ensures Chain(c, TestClass) == [TestClass, ObjectT]
    ensures Chain(c, DerivedA) == [DerivedA, TestClass, ObjectT]
    ensures Chain(c, DerivedB) == [DerivedB, TestClass, ObjectT]
    ensures Chain(c, DerivedC) == [DerivedC, DerivedA, TestClass, ObjectT]
    ensures Chain(c, DerivedD) == [DerivedD, TestClass, ObjectT]
  {
    assert Chain(c, ObjectT) == [ObjectT];
    assert Chain(c, TestClass) == [TestClass] + Chain(c, ObjectT);
    assert Chain(c, DerivedA) == [DerivedA] + Chain(c, TestClass);
    assert Chain(c, DerivedB) == [DerivedB] + Chain(c, TestClass);
    assert Chain(c, DerivedC) == [DerivedC] + Chain(c, DerivedA);
    assert Chain(c, DerivedD) == [DerivedD] + Chain(c, TestClass);
  }

  /** The base chains of the other types of the test assembly. */
  lemma OtherChains(c: Catalog)
    requires DeclaresFixtures(c)
    ensures Chain(c, TestStruct) == [TestStruct, ValueTypeT, ObjectT]
    ensures Chain(c, TestContainer) == [TestContainer, ListOfInt, ObjectT]
    ensures Chain(c, TestEnum) == [TestEnum, EnumT, ValueTypeT, ObjectT]
    ensures Chain(c, ITestInterface) == [ITestInterface]
    ensures Chain(c, ITestInterfaceDerived) == [ITestInterfaceDerived]
  {
    assert Chain(c, ObjectT) == [ObjectT];
    assert Chain(c, ValueTypeT) == [ValueTypeT] + Chain(c, ObjectT);
    assert Chain(c, TestStruct) == [TestStruct] + Chain(c, ValueTypeT);
    assert Chain(c, ListOfInt) == [ListOfInt] + Chain(c, ObjectT);
    assert Chain(c, TestContainer) == [TestContainer] + Chain(c, ListOfInt);
    assert Chain(c, EnumT) == [EnumT] + Chain(c, ValueTypeT);
    assert Chain(c, TestEnum) == [TestEnum] + Chain(c, EnumT);
  }

  /** No other type of the test assembly is assignable to `TestClass`. */
  lemma OthersNotAssignableToTestClass(c: Catalog)
    requires DeclaresFixtures(c)
    ensures !IsAssignableFrom(c, TestClass, TestStruct) && !IsAssignableFrom(c, TestClass, TestContainer)
    ensures !IsAssignableFrom(c, TestClass, TestEnum)
    ensures !IsAssignableFrom(c, TestClass, ITestInterface) && !IsAssignableFrom(c, TestClass, ITestInterfaceDerived)
  {
    OtherChains(c);
    AssignableToClass(c, TestClass, TestStruct);
    AssignableToClass(c, TestClass, TestContainer);
    AssignableToClass(c, TestClass, TestEnum);
    AssignableToClass(c, TestClass, ITestInterface);
    AssignableToClass(c, TestClass, ITestInterfaceDerived);
  }

  /** Both test interfaces are assignable to `ITestInterface`; the derived one
      through the interface it lists. */
  lemma InterfacesAssignableToTestInterface(c: Catalog)
    requires DeclaresFixtures(c)
    ensures IsAssignableFrom(c, ITestInterface, ITestInterface)
    ensures IsAssignableFrom(c, ITestInterface, ITestInterfaceDerived)
  {
  }

  /** The `TestClass` family lists no interface anywhere on its chains, so it
      is not assignable to `ITestInterface`. */
  lemma FamilyNotAssignableToTestInterface(c: Catalog)
    requires DeclaresFixtures(c)
    ensures !IsAssignableFrom(c, ITestInterface, TestClass) && !IsAssignableFrom(c, ITestInterface, DerivedA)
    ensures !IsAssignableFrom(c, ITestInterface, DerivedB) && !IsAssignableFrom(c, ITestInterface, DerivedC)
    ensures !IsAssignableFrom(c, ITestInterface, DerivedD)
  {
    UpperFamilyNotAssignableToTestInterface(c);
    LowerFamilyNotAssignableToTestInterface(c);
  }

  lemma UpperFamilyNotAssignableToTestInterface(c: Catalog)
    requires DeclaresFixtures(c)
    ensures !IsAssignableFrom(c, ITestInterface, TestClass) && !IsAssignableFrom(c, ITestInterface, DerivedA)
    ensures !IsAssignableFrom(c, ITestInterface, DerivedB)
  {
    FamilyChains(c);
    NotAssignableToTestInterface(c, TestClass);
    NotAssignableToTestInterface(c, DerivedA);
    NotAssignableToTestInterface(c, DerivedB);
  }

  lemma LowerFamilyNotAssignableToTestInterface(c: Catalog)
    requires DeclaresFixtures(c)
    ensures !IsAssignableFrom(c, ITestInterface, DerivedC) && !IsAssignableFrom(c, ITestInterface, DerivedD)
  {
    FamilyChains(c);
    NotAssignableToTestInterface(c, DerivedC);
    NotAssignableToTestInterface(c, DerivedD);
  }

  /** Nor are the struct, the container and the enum. */
  lemma OthersNotAssignableToTestInterface(c: Catalog)
    requires DeclaresFixtures(c)
    ensures !IsAssignableFrom(c, ITestInterface, TestStruct)
    ensures !IsAssignableFrom(c, ITestInterface, TestContainer)
    ensures !IsAssignableFrom(c, ITestInterface, TestEnum)
  {
    OtherChains(c);
    NotAssignableToTestInterface(c, TestStruct);
    NotAssignableToTestInterface(c, TestContainer);
    NotAssignableToTestInterface(c, TestEnum);
  }

  /** A class whose chain lists no interface is not assignable to
      `ITestInterface`. */
  lemma NotAssignableToTestInterface(c: Catalog, x: TypeId)
    requires DeclaresFixtures(c) && x in c.types && x != ITestInterface
    requires forall k :: 0 <= k < |Chain(c, x)| ==> Chain(c, x)[k] != ITestInterface
    requires forall k :: 0 <= k < |Chain(c, x)| ==> c.types[Chain(c, x)[k]].interfaces == {}
    ensures !IsAssignableFrom(c, ITestInterface, x)
  {
    AssignableViaChain(c, ITestInterface, x);
    NoInterfacesImplementsNothing(c, x, ITestInterface);
  }

  /** Regrouping a concatenation of three single elements between two
      sequences. */
  lemma Regroup<T>(p: seq<T>, a: T, b: T, d: T, q: seq<T>)
    ensures p + ([a] + ([b] + ([d] + (q + [])))) == p + [a, b, d] + q
  {
    assert q + [] == q;
    assert [a] + ([b] + ([d] + q)) == [a, b, d] + q;
  }

  // ---------------------------------------------------------------------------
  // Generic arguments inherited from a base type

  /** A non-generic class `GenericDerived` whose base `GenericBase` is a
      constructed generic class over `int`, `string` and `bool`, and whose own
      argument list is empty. */
  ghost predicate DeclaresGenericFixture(c: Catalog) {
    && Valid(c)
    && ObjectT in c.types && c.types[ObjectT].baseType.None? && c.types[ObjectT].genericArgs == []
    && GenericClass(c, GenericBase, [Int32T, StringT, BoolT])
    && GenericDerived in c.types && c.types[GenericDerived].baseType == Some(GenericBase)
    && c.types[GenericDerived].genericArgs == []
    && c.types[GenericDerived].elementType.None?
    && LongT != Int32T && LongT != StringT && LongT != BoolT
  }

  /** The generic-argument answers the unit test expects: the three arguments
      of the base are found through the derived class, `long` is not, and the
      derived class reports its base's three arguments. */
  lemma GenericArgumentExamples(c: Catalog)
    requires DeclaresGenericFixture(c)
    ensures HasGenericArgument(c, GenericDerived, Some(Int32T))
    ensures HasGenericArgument(c, GenericDerived, Some(StringT))
    ensures HasGenericArgument(c, GenericDerived, Some(BoolT))
    ensures !HasGenericArgument(c, GenericDerived, Some(LongT))
    ensures GetGenericArgumentsEx(c, GenericDerived) == Some([Int32T, StringT, BoolT])
    ensures GetElementTypeEx(c, Some(GenericDerived)) == Some(Int32T)
  {
    assert Chain(c, ObjectT) == [ObjectT];
    assert Chain(c, GenericBase) == [GenericBase] + Chain(c, ObjectT);
    assert Chain(c, GenericDerived) == [GenericDerived] + Chain(c, GenericBase);
  }

  // ---------------------------------------------------------------------------
  // IsTypeOrDerived on the test classes

  /** The type-to-type checks the unit test expects to succeed. */
  lemma TypeOrDerivedHolds(c: Catalog)
    requires DeclaresFixtures(c)
    ensures IsTypeOrDerived(c, TestClass, TestClass)
    ensures IsTypeOrDerived(c, DerivedA, TestClass) && IsTypeOrDerived(c, DerivedC, TestClass)
  {
    FamilyChains(c);
  }

  /** The type-to-type checks the unit test expects to fail: a sibling, and a
      base type asked about its own subclass. */
  lemma TypeOrDerivedFails(c: Catalog)
    requires DeclaresFixtures(c)
    ensures !IsTypeOrDerived(c, DerivedB, DerivedA) && !IsTypeOrDerived(c, DerivedA, DerivedB)
    ensures !IsTypeOrDerived(c, TestClass, DerivedA)
  {
    SiblingsUnrelated(c, DerivedA, DerivedB);
    FamilyChains(c);
    AncestorIsNotDerived(c, DerivedA, TestClass);
  }

  /** The instance checks the unit test expects to succeed; `t` and `a` are
      instances of `TestClass` and `DerivedA`. */
  lemma InstanceChecksHold(c: Catalog, t: Instance, a: Instance)
    requires DeclaresFixtures(c)
    requires t.runtimeType == TestClass && a.runtimeType == DerivedA
    ensures IsTypeOrDerivedObjects(c, t, t) && IsTypeOrDerivedObjects(c, t, a)
    ensures IsTypeOrDerivedObject(c, TestClass, t) && IsTypeOrDerivedObject(c, TestClass, a)
  {
    TypeOrDerivedHolds(c);
  }

  /** The instance checks the unit test expects to fail; `b` is an instance of
      `DerivedB`. Note the argument order: the first object is the base. */
  lemma InstanceChecksFail(c: Catalog, t: Instance, a: Instance, b: Instance)
    requires DeclaresFixtures(c)
    requires t.runtimeType == TestClass && a.runtimeType == DerivedA && b.runtimeType == DerivedB
    ensures !IsTypeOrDerivedObjects(c, a, t) && !IsTypeOrDerivedObjects(c, b, a)
    ensures !IsTypeOrDerivedObject(c, DerivedA, t) && !IsTypeOrDerivedObject(c, DerivedB, a)
  {
    TypeOrDerivedFails(c);
  }

  // ---------------------------------------------------------------------------
  // FindAllDerivedTypes over the test assembly

  /** None of the types outside the family is found when searching for
      `TestClass`. */
  lemma FilterNonFamilyForTestClass(c: Catalog, includeSelf: bool, includeAbstract: bool)
    requires DeclaresFixtures(c)
    ensures InCatalog(c, NonFamilyTypes)
    ensures FilterDerived(c, TestClass, NonFamilyTypes, includeSelf, includeAbstract) == []
  {
    OthersNotAssignableToTestClass(c);
    FilterDerivedSkip(c, TestClass, ITestInterfaceDerived, [], includeSelf, includeAbstract);
    FilterDerivedSkip(c, TestClass, ITestInterface, [ITestInterfaceDerived] + [], includeSelf, includeAbstract);
    FilterDerivedSkip(c, TestClass, TestEnum, TestInterfaces, includeSelf, includeAbstract);
    FilterDerivedSkip(c, TestClass, TestContainer, [TestEnum] + TestInterfaces, includeSelf, includeAbstract);
    FilterDerivedSkip(c, TestClass, TestStruct, [TestContainer] + ([TestEnum] + TestInterfaces), includeSelf, includeAbstract);
  }

  /** Which members of the family a search for `TestClass` keeps. */
  lemma FamilyQualifiesForTestClass(c: Catalog, includeSelf: bool, includeAbstract: bool)
    requires DeclaresFixtures(c)
    ensures Qualifies(c, TestClass, includeSelf, includeAbstract, TestClass) == includeSelf
    ensures Qualifies(c, TestClass, includeSelf, includeAbstract, DerivedA)
    ensures Qualifies(c, TestClass, includeSelf, includeAbstract, DerivedB)
    ensures Qualifies(c, TestClass, includeSelf, includeAbstract, DerivedC)
    ensures Qualifies(c, TestClass, includeSelf, includeAbstract, DerivedD) == includeAbstract
  {
    FamilyChains(c);
  }

  /** Filtering the whole test assembly for `TestClass`. */
  lemma FilterTestAssemblyForTestClass(c: Catalog, includeSelf: bool, includeAbstract: bool)
    requires DeclaresFixtures(c)
    ensures InCatalog(c, TestAssemblyTypes)
    ensures FilterDerived(c, TestClass, TestAssemblyTypes, includeSelf, includeAbstract) ==
      (if includeSelf then [TestClass] else []) + [DerivedA, DerivedB, DerivedC]
      + (if includeAbstract then [DerivedD] else [])
  {
    FamilyQualifiesForTestClass(c, includeSelf, includeAbstract);
    FilterNonFamilyForTestClass(c, includeSelf, includeAbstract);
    var s4 := [DerivedD] + NonFamilyTypes;
    FilterDerivedCons(c, TestClass, DerivedD, NonFamilyTypes, includeSelf, includeAbstract);
    FilterDerivedKeep(c, TestClass, DerivedC, s4, includeSelf, includeAbstract);
    FilterDerivedKeep(c, TestClass, DerivedB, [DerivedC] + s4, includeSelf, includeAbstract);
    FilterDerivedKeep(c, TestClass, DerivedA, [DerivedB] + ([DerivedC] + s4), includeSelf, includeAbstract);
    FilterDerivedCons(c, TestClass, TestClass, [DerivedA] + ([DerivedB] + ([DerivedC] + s4)), includeSelf, includeAbstract);
    Regroup(if includeSelf then [TestClass] else [], DerivedA, DerivedB, DerivedC,
            if includeAbstract then [DerivedD] else []);
  }

  /** The unit test's search for `TestClass`: the three concrete subclasses,
      with `TestClass` itself when `includeSelf` is set and the abstract
      subclass when `includeAbstract` is set, in declaration order. */
  lemma FindDerivedOfTestClass(c: Catalog, includeSelf: bool, includeAbstract: bool)
    requires DeclaresFixtures(c) && EnumeratesTestAssembly(c)
    ensures FindAllDerivedTypes(c, TestClass, None, includeSelf, includeAbstract) ==
      (if includeSelf then [TestClass] else []) + [DerivedA, DerivedB, DerivedC]
      + (if includeAbstract then [DerivedD] else [])
  {
    FilterTestAssemblyForTestClass(c, includeSelf, includeAbstract);
  }

  /** Filtering the types outside the family for `ITestInterface`. */
  lemma FilterNonFamilyForTestInterface(c: Catalog, includeSelf: bool, includeAbstract: bool)
    requires DeclaresFixtures(c)
    ensures InCatalog(c, NonFamilyTypes)
    ensures FilterDerived(c, ITestInterface, NonFamilyTypes, includeSelf, includeAbstract) ==
      (if includeSelf && includeAbstract then [ITestInterface] else [])
      + (if includeAbstract then [ITestInterfaceDerived] else [])
  {
    InterfacesAssignableToTestInterface(c);
    OthersNotAssignableToTestInterface(c);
    FilterDerivedCons(c, ITestInterface, ITestInterfaceDerived, [], includeSelf, includeAbstract);
    FilterDerivedCons(c, ITestInterface, ITestInterface, [ITestInterfaceDerived] + [], includeSelf, includeAbstract);
    FilterDerivedSkip(c, ITestInterface, TestEnum, TestInterfaces, includeSelf, includeAbstract);
    FilterDerivedSkip(c, ITestInterface, TestContainer, [TestEnum] + TestInterfaces, includeSelf, includeAbstract);
    FilterDerivedSkip(c, ITestInterface, TestStruct, [TestContainer] + ([TestEnum] + TestInterfaces), includeSelf, includeAbstract);
  }

  /** Filtering the whole test assembly for `ITestInterface`. */
  lemma FilterTestAssemblyForTestInterface(c: Catalog, includeSelf: bool, includeAbstract: bool)
    requires DeclaresFixtures(c)
    ensures InCatalog(c, TestAssemblyTypes)
    ensures FilterDerived(c, ITestInterface, TestAssemblyTypes, includeSelf, includeAbstract) ==
      (if includeSelf && includeAbstract then [ITestInterface] else [])
      + (if includeAbstract then [ITestInterfaceDerived] else [])
  {
    FamilyNotAssignableToTestInterface(c);
    FilterNonFamilyForTestInterface(c, includeSelf, includeAbstract);
    var s4 := [DerivedD] + NonFamilyTypes;
    FilterDerivedSkip(c, ITestInterface, DerivedD, NonFamilyTypes, includeSelf, includeAbstract);
    FilterDerivedSkip(c, ITestInterface, DerivedC, s4, includeSelf, includeAbstract);
    FilterDerivedSkip(c, ITestInterface, DerivedB, [DerivedC] + s4, includeSelf, includeAbstract);
    FilterDerivedSkip(c, ITestInterface, DerivedA, [DerivedB] + ([DerivedC] + s4), includeSelf, includeAbstract);
    FilterDerivedSkip(c, ITestInterface, TestClass, [DerivedA] + ([DerivedB] + ([DerivedC] + s4)), includeSelf, includeAbstract);
  }

  /** The unit test's search for `ITestInterface`: both interfaces are
      abstract, so nothing is found unless `includeAbstract` is set; then the
      derived interface, preceded by `ITestInterface` itself when
      `includeSelf` is set. */
  lemma FindDerivedOfTestInterface(c: Catalog, includeSelf: bool, includeAbstract: bool)
    requires DeclaresFixtures(c) && EnumeratesTestAssembly(c)
    ensures FindAllDerivedTypes(c, ITestInterface, None, includeSelf, includeAbstract) ==
      if !includeAbstract then []
      else (if includeSelf then [ITestInterface] else []) + [ITestInterfaceDerived]
  {
    FilterTestAssemblyForTestInterface(c, includeSelf, includeAbstract);
  }
}
