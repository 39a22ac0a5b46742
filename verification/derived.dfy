/**
  `FindAllDerivedTypes`: the types of an assembly that can be assigned to a
  given type, filtered by the `includeSelf` and `includeAbstract` flags, in the
  order the assembly enumerates them.
 */
module DerivedTypes {
  import opened Wrappers
  import opened TypeCatalog

  /** `a` is `b` with some elements dropped and the rest kept in order. */
  predicate IsSubsequence<T(==)>(a: seq<T>, b: seq<T>)
    decreases |b|
  {
    if |a| == 0 then true
    else if |b| == 0 then false
    else if a[0] == b[0] then IsSubsequence(a[1..], b[1..])
    else IsSubsequence(a, b[1..])
  }

  /** The `Where` condition of `FindAllDerivedTypes` for one candidate `t`. */
  predicate Qualifies(c: Catalog, baseType: TypeId, includeSelf: bool, includeAbstract: bool, t: TypeId)
    requires Valid(c) && t in c.types
  {
    && (includeSelf || t != baseType)
    && (includeAbstract || !c.types[t].isAbstract)
    && IsAssignableFrom(c, baseType, t)
  }

  /** The candidates of `scope` that qualify, in scope order
      (`scope.Where(...)`). What it keeps is stated by `FilterDerivedSound`,
      `FilterDerivedComplete` and `FilterDerivedOrdered`. */
  function FilterDerived(c: Catalog, baseType: TypeId, scope: seq<TypeId>,
                         includeSelf: bool, includeAbstract: bool): (r: seq<TypeId>)
    requires Valid(c) && InCatalog(c, scope)
  {
    if |scope| == 0 then []
    else
      var x := scope[0];
      var rest := FilterDerived(c, baseType, scope[1..], includeSelf, includeAbstract);
      if Qualifies(c, baseType, includeSelf, includeAbstract, x) then [x] + rest else rest
  }

  /** Everything the filter reports comes from the scope and qualifies. */
  lemma {:induction false} FilterDerivedSound(c: Catalog, baseType: TypeId, scope: seq<TypeId>,
                                              includeSelf: bool, includeAbstract: bool)
    requires Valid(c) && InCatalog(c, scope)
    ensures forall x :: x in FilterDerived(c, baseType, scope, includeSelf, includeAbstract) ==>
      x in scope && x in c.types && Qualifies(c, baseType, includeSelf, includeAbstract, x)
    decreases |scope|
  {
    if |scope| > 0 {
      FilterDerivedSound(c, baseType, scope[1..], includeSelf, includeAbstract);
      assert scope == [scope[0]] + scope[1..];
    }
  }

  /** Every qualifying candidate of the scope is reported, as many times as it
      occurs in the scope. */
  lemma {:induction false} FilterDerivedComplete(c: Catalog, baseType: TypeId, scope: seq<TypeId>,
                                                 includeSelf: bool, includeAbstract: bool)
    requires Valid(c) && InCatalog(c, scope)
    ensures forall k :: 0 <= k < |scope| && Qualifies(c, baseType, includeSelf, includeAbstract, scope[k]) ==>
      var r := FilterDerived(c, baseType, scope, includeSelf, includeAbstract);
      scope[k] in r && multiset(r)[scope[k]] == multiset(scope)[scope[k]]
    decreases |scope|
  {
    if |scope| > 0 {
      FilterDerivedComplete(c, baseType, scope[1..], includeSelf, includeAbstract);
      FilterDerivedSound(c, baseType, scope[1..], includeSelf, includeAbstract);
      assert scope == [scope[0]] + scope[1..];
      forall k | 0 <= k < |scope| && Qualifies(c, baseType, includeSelf, includeAbstract, scope[k])
        ensures var r := FilterDerived(c, baseType, scope, includeSelf, includeAbstract);
          scope[k] in r && multiset(r)[scope[k]] == multiset(scope)[scope[k]]
      {
        if k > 0 {
          assert scope[k] == scope[1..][k - 1];
        }
      }
    }
  }

  /** The filter keeps scope order: the result is a subsequence of the scope. */
  lemma {:induction false} FilterDerivedOrdered(c: Catalog, baseType: TypeId, scope: seq<TypeId>,
                                                includeSelf: bool, includeAbstract: bool)
    requires Valid(c) && InCatalog(c, scope)
    ensures IsSubsequence(FilterDerived(c, baseType, scope, includeSelf, includeAbstract), scope)
    decreases |scope|
  {
    if |scope| > 0 {
      var rest := FilterDerived(c, baseType, scope[1..], includeSelf, includeAbstract);
      FilterDerivedOrdered(c, baseType, scope[1..], includeSelf, includeAbstract);
      if Qualifies(c, baseType, includeSelf, includeAbstract, scope[0]) {
        assert ([scope[0]] + rest)[1..] == rest;
      } else {
        SubsequenceSkip(rest, scope);
      }
    }
  }

  /** A subsequence of the tail is a subsequence of the whole. */
  lemma {:induction false} SubsequenceSkip<T>(a: seq<T>, b: seq<T>)
    requires |b| > 0 && IsSubsequence(a, b[1..])
    ensures IsSubsequence(a, b)
    decreases |b|, |a|
  {
    if |a| > 0 && a[0] == b[0] {
      SubsequenceTail(a, b[1..]);
    }
  }

  /** Dropping the first element keeps a subsequence a subsequence. */
  lemma {:induction false} SubsequenceTail<T>(a: seq<T>, b: seq<T>)
    requires |a| > 0 && IsSubsequence(a, b)
    ensures IsSubsequence(a[1..], b)
    decreases |b|, |a|
  {
    if a[0] == b[0] {
      SubsequenceSkip(a[1..], b);
    } else {
      SubsequenceTail(a, b[1..]);
      SubsequenceSkip(a[1..], b);
    }
  }

  /** Every element of a subsequence occurs in the whole. */
  lemma {:induction false} SubsequenceMembers<T>(a: seq<T>, b: seq<T>)
    requires IsSubsequence(a, b)
    ensures forall x :: x in a ==> x in b
    decreases |b|
  {
    if |a| > 0 {
      if a[0] == b[0] {
        SubsequenceMembers(a[1..], b[1..]);
        assert a == [a[0]] + a[1..];
      } else {
        SubsequenceMembers(a, b[1..]);
      }
      assert b == [b[0]] + b[1..];
    }
  }

  /** A subsequence of a duplicate-free sequence is duplicate-free. */
  lemma {:induction false} SubsequenceDistinct<T>(a: seq<T>, b: seq<T>)
    requires IsSubsequence(a, b) && Distinct(b)
    ensures Distinct(a)
    decreases |b|
  {
    if |a| > 0 {
      assert Distinct(b[1..]) by {
        forall i, j | 0 <= i < j < |b[1..]| ensures b[1..][i] != b[1..][j] {
          assert b[1..][i] == b[i + 1] && b[1..][j] == b[j + 1];
        }
      }
      if a[0] == b[0] {
        SubsequenceDistinct(a[1..], b[1..]);
        SubsequenceMembers(a[1..], b[1..]);
        assert b[0] !in b[1..];
        forall i, j | 0 <= i < j < |a| ensures a[i] != a[j] {
          assert a[j] == a[1..][j - 1];
          if i > 0 {
            assert a[i] == a[1..][i - 1];
          }
        }
      } else {
        SubsequenceDistinct(a, b[1..]);
      }
    }
  }

  /** Filtering a non-empty scope: the head is kept exactly when it
      qualifies, ahead of the filtered rest. */
  lemma FilterDerivedCons(c: Catalog, baseType: TypeId, x: TypeId, rest: seq<TypeId>,
                          includeSelf: bool, includeAbstract: bool)
    requires Valid(c) && x in c.types && InCatalog(c, rest)
    ensures InCatalog(c, [x] + rest)
    ensures FilterDerived(c, baseType, [x] + rest, includeSelf, includeAbstract) ==
      (if Qualifies(c, baseType, includeSelf, includeAbstract, x) then [x] else [])
      + FilterDerived(c, baseType, rest, includeSelf, includeAbstract)
  {
    assert ([x] + rest)[1..] == rest;
  }

  /** A head candidate that qualifies is kept in front of the filtered rest. */
  lemma FilterDerivedKeep(c: Catalog, baseType: TypeId, x: TypeId, rest: seq<TypeId>,
                          includeSelf: bool, includeAbstract: bool)
    requires Valid(c) && x in c.types && InCatalog(c, rest)
    requires Qualifies(c, baseType, includeSelf, includeAbstract, x)
    ensures InCatalog(c, [x] + rest)
    ensures FilterDerived(c, baseType, [x] + rest, includeSelf, includeAbstract) ==
      [x] + FilterDerived(c, baseType, rest, includeSelf, includeAbstract)
  {
    FilterDerivedCons(c, baseType, x, rest, includeSelf, includeAbstract);
  }

  /** A head candidate that does not qualify is dropped. */
  lemma FilterDerivedSkip(c: Catalog, baseType: TypeId, x: TypeId, rest: seq<TypeId>,
                          includeSelf: bool, includeAbstract: bool)
    requires Valid(c) && x in c.types && InCatalog(c, rest)
    requires !Qualifies(c, baseType, includeSelf, includeAbstract, x)
    ensures InCatalog(c, [x] + rest)
    ensures FilterDerived(c, baseType, [x] + rest, includeSelf, includeAbstract) ==
      FilterDerived(c, baseType, rest, includeSelf, includeAbstract)
  {
    FilterDerivedCons(c, baseType, x, rest, includeSelf, includeAbstract);
  }

  /** Filtering distributes over concatenation of scopes. */
  lemma {:induction false} FilterDerivedAppend(c: Catalog, baseType: TypeId, a: seq<TypeId>, b: seq<TypeId>,
                                               includeSelf: bool, includeAbstract: bool)
    requires Valid(c) && InCatalog(c, a) && InCatalog(c, b)
    ensures InCatalog(c, a + b)
    ensures FilterDerived(c, baseType, a + b, includeSelf, includeAbstract) ==
      FilterDerived(c, baseType, a, includeSelf, includeAbstract)
      + FilterDerived(c, baseType, b, includeSelf, includeAbstract)
    decreases |a|
  {
    if |a| == 0 {
      assert a + b == b;
    } else {
      assert (a + b)[1..] == a[1..] + b;
      FilterDerivedAppend(c, baseType, a[1..], b, includeSelf, includeAbstract);
    }
  }

  /** A scope whose candidates all qualify is kept whole. */
  lemma {:induction false} FilterDerivedKeepsAll(c: Catalog, baseType: TypeId, scope: seq<TypeId>,
                                                 includeSelf: bool, includeAbstract: bool)
    requires Valid(c) && InCatalog(c, scope)
    requires forall x :: x in scope ==> x in c.types && Qualifies(c, baseType, includeSelf, includeAbstract, x)
    ensures FilterDerived(c, baseType, scope, includeSelf, includeAbstract) == scope
    decreases |scope|
  {
    if |scope| > 0 {
      FilterDerivedKeepsAll(c, baseType, scope[1..], includeSelf, includeAbstract);
    }
  }

  /** A scope none of whose candidates qualifies filters to nothing. */
  lemma {:induction false} FilterDerivedDropsAll(c: Catalog, baseType: TypeId, scope: seq<TypeId>,
                                                 includeSelf: bool, includeAbstract: bool)
    requires Valid(c) && InCatalog(c, scope)
    requires forall x :: x in scope ==> x in c.types && !Qualifies(c, baseType, includeSelf, includeAbstract, x)
    ensures FilterDerived(c, baseType, scope, includeSelf, includeAbstract) == []
    decreases |scope|
  {
    if |scope| > 0 {
      FilterDerivedDropsAll(c, baseType, scope[1..], includeSelf, includeAbstract);
    }
  }

  /** `Assembly.GetTypes()`: the catalog's types that belong to assembly `a`,
      in catalog order. */
  function AssemblyTypes(c: Catalog, a: AssemblyId): (r: seq<TypeId>)
    requires Valid(c)
    ensures InCatalog(c, r)
    ensures forall x :: x in r <==> x in c.order && c.types[x].assembly == a
  {
    AssemblyTypesFrom(c, a, c.order)
  }

  function AssemblyTypesFrom(c: Catalog, a: AssemblyId, ts: seq<TypeId>): (r: seq<TypeId>)
    requires InCatalog(c, ts)
    ensures InCatalog(c, r)
    ensures forall x :: x in r <==> x in ts && c.types[x].assembly == a
  {
    if |ts| == 0 then []
    else
      var rest := AssemblyTypesFrom(c, a, ts[1..]);
      assert ts == [ts[0]] + ts[1..];
      if c.types[ts[0]].assembly == a then [ts[0]] + rest else rest
  }

  /** `GetTypes()` lists the assembly's types in enumeration order, each once. */
  lemma {:induction false} AssemblyTypesFromOrdered(c: Catalog, a: AssemblyId, ts: seq<TypeId>)
    requires InCatalog(c, ts)
    ensures IsSubsequence(AssemblyTypesFrom(c, a, ts), ts)
    decreases |ts|
  {
    if |ts| > 0 {
      var rest := AssemblyTypesFrom(c, a, ts[1..]);
      AssemblyTypesFromOrdered(c, a, ts[1..]);
      if c.types[ts[0]].assembly == a {
        assert ([ts[0]] + rest)[1..] == rest;
      } else {
        SubsequenceSkip(rest, ts);
      }
    }
  }

  /** `FindAllDerivedTypes(type, assembly, includeSelf, includeAbstract)`; a
      null `assembly` means the assembly that defines `baseType`. */
  function FindAllDerivedTypes(c: Catalog, baseType: TypeId, assembly: Option<AssemblyId>,
                               includeSelf: bool, includeAbstract: bool): (r: seq<TypeId>)
    requires Valid(c) && baseType in c.types
    ensures forall x :: x in r <==>
      && x in c.order
      && c.types[x].assembly == assembly.GetOr(c.types[baseType].assembly)
      && Qualifies(c, baseType, includeSelf, includeAbstract, x)
  {
    var scope := AssemblyTypes(c, assembly.GetOr(c.types[baseType].assembly));
    FilterDerivedSound(c, baseType, scope, includeSelf, includeAbstract);
    FilterDerivedComplete(c, baseType, scope, includeSelf, includeAbstract);
    FilterDerived(c, baseType, scope, includeSelf, includeAbstract)
  }

  /** The result lists no type twice, and keeps the order in which the
      assembly enumerates its types. */
  lemma FindAllDerivedTypesDistinct(c: Catalog, baseType: TypeId, assembly: Option<AssemblyId>,
                                    includeSelf: bool, includeAbstract: bool)
    requires Valid(c) && baseType in c.types
    ensures var a := assembly.GetOr(c.types[baseType].assembly);
      IsSubsequence(FindAllDerivedTypes(c, baseType, assembly, includeSelf, includeAbstract),
                    AssemblyTypes(c, a))
    ensures Distinct(FindAllDerivedTypes(c, baseType, assembly, includeSelf, includeAbstract))
  {
    var scope := AssemblyTypes(c, assembly.GetOr(c.types[baseType].assembly));
    AssemblyTypesFromOrdered(c, assembly.GetOr(c.types[baseType].assembly), c.order);
    SubsequenceDistinct(scope, c.order);
    FilterDerivedOrdered(c, baseType, scope, includeSelf, includeAbstract);
    SubsequenceDistinct(FilterDerived(c, baseType, scope, includeSelf, includeAbstract), scope);
  }

  // ---------------------------------------------------------------------------
  // The two flags

  /** With `includeSelf` off the searched type is never reported; with
      `includeAbstract` off no abstract type is reported. */
  lemma FlagsExclude(c: Catalog, baseType: TypeId, scope: seq<TypeId>,
                     includeSelf: bool, includeAbstract: bool)
    requires Valid(c) && InCatalog(c, scope)
    ensures !includeSelf ==> baseType !in FilterDerived(c, baseType, scope, includeSelf, includeAbstract)
    ensures !includeAbstract ==>
      forall x :: x in FilterDerived(c, baseType, scope, includeSelf, includeAbstract) ==>
        x in c.types && !c.types[x].isAbstract
  {
    FilterDerivedSound(c, baseType, scope, includeSelf, includeAbstract);
  }

  /** Turning either flag on only adds candidates: the result with the flags
      off is a subsequence of the result with them on. */
  lemma {:induction false} FlagsMonotone(c: Catalog, baseType: TypeId, scope: seq<TypeId>,
                                         self1: bool, abs1: bool, self2: bool, abs2: bool)
    requires Valid(c) && InCatalog(c, scope)
    requires (self1 ==> self2) && (abs1 ==> abs2)
    ensures IsSubsequence(FilterDerived(c, baseType, scope, self1, abs1),
                          FilterDerived(c, baseType, scope, self2, abs2))
  {
    if |scope| > 0 {
      var x := scope[0];
      var r1 := FilterDerived(c, baseType, scope[1..], self1, abs1);
      var r2 := FilterDerived(c, baseType, scope[1..], self2, abs2);
      FlagsMonotone(c, baseType, scope[1..], self1, abs1, self2, abs2);
      FilterDerivedSound(c, baseType, scope[1..], self1, abs1);
      if Qualifies(c, baseType, self1, abs1, x) {
        assert ([x] + r1)[1..] == r1;
        assert ([x] + r2)[1..] == r2;
      } else if Qualifies(c, baseType, self2, abs2, x) {
        assert x !in r1;
        assert ([x] + r2)[1..] == r2;
      }
    }
  }

  /** `includeSelf` adds exactly the searched type, when it is in scope and
      passes the abstractness filter. */
  lemma IncludeSelfAddsOnlySelf(c: Catalog, baseType: TypeId, scope: seq<TypeId>, includeAbstract: bool)
    requires Valid(c) && InCatalog(c, scope) && baseType in c.types
    ensures forall x :: x in FilterDerived(c, baseType, scope, true, includeAbstract) <==>
      || x in FilterDerived(c, baseType, scope, false, includeAbstract)
      || (x == baseType && baseType in scope && (includeAbstract || !c.types[baseType].isAbstract))
  {
    FilterDerivedSound(c, baseType, scope, true, includeAbstract);
    FilterDerivedSound(c, baseType, scope, false, includeAbstract);
    FilterDerivedComplete(c, baseType, scope, true, includeAbstract);
    FilterDerivedComplete(c, baseType, scope, false, includeAbstract);
  }

  /** `includeAbstract` adds exactly the qualifying abstract types of the scope. */
  lemma IncludeAbstractAddsOnlyAbstract(c: Catalog, baseType: TypeId, scope: seq<TypeId>, includeSelf: bool)
    requires Valid(c) && InCatalog(c, scope)
    ensures forall x :: x in FilterDerived(c, baseType, scope, includeSelf, true) <==>
      || x in FilterDerived(c, baseType, scope, includeSelf, false)
      || (&& x in scope && x in c.types && c.types[x].isAbstract
          && (includeSelf || x != baseType) && IsAssignableFrom(c, baseType, x))
  {
    FilterDerivedSound(c, baseType, scope, includeSelf, true);
    FilterDerivedSound(c, baseType, scope, includeSelf, false);
    FilterDerivedComplete(c, baseType, scope, includeSelf, true);
    FilterDerivedComplete(c, baseType, scope, includeSelf, false);
  }

  /** Interfaces are abstract, so a search for an interface that leaves
      `includeAbstract` off never reports the interface itself, nor any
      interface deriving from it, whatever `includeSelf` says. */
  lemma InterfaceSearchNeedsAbstract(c: Catalog, baseType: TypeId, assembly: Option<AssemblyId>,
                                     includeSelf: bool)
    requires Valid(c) && baseType in c.types && c.types[baseType].isInterface
    ensures forall x :: x in FindAllDerivedTypes(c, baseType, assembly, includeSelf, false) ==>
      x != baseType && !c.types[x].isInterface
  {
  }
}
