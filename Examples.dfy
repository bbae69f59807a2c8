/** Concrete hierarchies, in the shape of the handlers that call `find` from their constructors,
    and what find0, the matchers and the caches give for them. */
module Examples {
  import opened ClassTable
  import opened Matchers
  import opened Resolver
  import opened MatcherCaches

  const StringClass: Class := Named(1)
  const IntegerClass: Class := Named(2)
  /** `class Base<T>` */
  const Base: Class := Named(3)
  /** `class Mid<U> extends Base<U>` */
  const Mid: Class := Named(4)
  /** `class Leaf extends Mid<String>` */
  const Leaf: Class := Named(5)
  /** `class IntegersLeaf extends Base<Integer[]>` */
  const IntegersLeaf: Class := Named(6)
  /** `class RawBase extends Base` */
  const RawBase: Class := Named(7)
  /** `class RawLeaf extends RawBase` */
  const RawLeaf: Class := Named(8)
  /** `class MidsLeaf extends Base<Mid<String>[]>` */
  const MidsLeaf: Class := Named(9)
  /** `new Base<E>() { }` inside a generic method `<E> void m()` */
  const Anonymous: Class := Named(10)

  const Hierarchy: Table := Table([
    ClassInfo(None, [], Plain),
    ClassInfo(Some(0), [], Plain),
    ClassInfo(Some(0), [], Plain),
    ClassInfo(Some(0), ["T"], Plain),
    ClassInfo(Some(3), ["U"], Parameterized([VariableArg(ByClass(Named(4)), "U")])),
    ClassInfo(Some(4), [], Parameterized([ClassArg(Named(1))])),
    ClassInfo(Some(3), [], Parameterized([ClassArg(ArrayOf(Named(2)))])),
    ClassInfo(Some(3), [], Plain),
    ClassInfo(Some(7), [], Plain),
    ClassInfo(Some(3), [], Parameterized([GenericArrayArg(ParameterizedArg(Named(4)))])),
    ClassInfo(Some(3), [], Parameterized([VariableArg(ByExecutable, "E")]))
  ])

  /** The hierarchy is one the Java runtime can load, and no class passes on a type variable of
      one of its proper superclasses. */
  lemma HierarchyLoads()
    ensures WellFormed(Hierarchy) && NoAncestorVariables(Hierarchy)
  {
    forall id: nat | id < |Hierarchy.classes|
      ensures Hierarchy.ClassWellFormed(id)
    {
      if id == 4 {
        assert VariableArg(ByClass(Named(4)), "U") in Hierarchy.classes[4].genericSuperclass.arguments;
      }
    }
    forall id: nat | id < |Hierarchy.classes|
      ensures NoAncestorVariableIn(Hierarchy, id)
    {
      if id == 4 {
        if Extends(Hierarchy, Base, Mid) {
          ExtendsRank(Hierarchy, Base, Mid);
        }
      }
    }
  }

  /** `Leaf`'s T of Base is Mid's U, which Leaf binds to String: find0 restarts once. */
  lemma LeafBindsString()
    ensures WellFormed(Hierarchy) && NoAncestorVariables(Hierarchy)
    ensures Resolve(Hierarchy, Leaf, Base, "T") == Ok(StringClass)
    ensures Resolve(Hierarchy, Leaf, Mid, "U") == Ok(StringClass)
  {
    HierarchyLoads();
    VariableArgument(Hierarchy, Leaf, Base, "T", Mid, 0);
    ConcreteArgument(Hierarchy, Leaf, Mid, "U", Leaf, 0);
  }

  /** An array class argument is returned as it is; a generic array of a parameterized type gives
      the array class of its raw type. */
  lemma ArrayArguments()
    ensures WellFormed(Hierarchy) && NoAncestorVariables(Hierarchy)
    ensures Resolve(Hierarchy, IntegersLeaf, Base, "T") == Ok(ArrayOf(IntegerClass))
    ensures Resolve(Hierarchy, MidsLeaf, Base, "T") == Ok(ArrayOf(Mid))
  {
    HierarchyLoads();
    ConcreteArgument(Hierarchy, IntegersLeaf, Base, "T", IntegersLeaf, 0);
    ConcreteArgument(Hierarchy, MidsLeaf, Base, "T", MidsLeaf, 0);
  }

  /** A raw superclass, or a type variable of a generic method, leaves the parameter as Object. */
  lemma ObjectFallbacks()
    ensures WellFormed(Hierarchy) && NoAncestorVariables(Hierarchy)
    ensures Resolve(Hierarchy, RawLeaf, Base, "T") == Ok(Object)
    ensures Resolve(Hierarchy, Anonymous, Base, "T") == Ok(Object)
  {
    HierarchyLoads();
    UnparameterizedSuperclass(Hierarchy, RawLeaf, Base, "T", RawBase);
    VariableArgument(Hierarchy, Anonymous, Base, "T", Anonymous, 0);
  }

  /** A name Base does not declare, and an ancestor off the object's chain, make find0 throw. */
  lemma Exceptions()
    ensures WellFormed(Hierarchy) && NoAncestorVariables(Hierarchy)
    ensures Resolve(Hierarchy, Leaf, Base, "X") == Err(UnknownTypeParameter("X", Base))
    ensures Resolve(Hierarchy, IntegersLeaf, Mid, "U") == Err(CannotDetermine("U", IntegersLeaf))
  {
    HierarchyLoads();
    UnknownParameter(Hierarchy, Leaf, Base, "X");
    if Extends(Hierarchy, Base, Mid) {
      ExtendsRank(Hierarchy, Base, Mid);
    }
    ChainExhausted(Hierarchy, IntegersLeaf, Mid, "U");
  }

  /** The matchers for the resolved classes: String's accepts strings only, Integer[]'s accepts
      Integer arrays only, and Object[]'s accepts them too, arrays being covariant. */
  lemma ResolvedMatchers()
    ensures WellFormed(Hierarchy)
    ensures Match(Hierarchy, MatcherFor(StringClass), Instance(StringClass))
    ensures !Match(Hierarchy, MatcherFor(StringClass), Instance(IntegerClass))
    ensures !Match(Hierarchy, MatcherFor(StringClass), Null)
    ensures Match(Hierarchy, MatcherFor(ArrayOf(IntegerClass)), Instance(ArrayOf(IntegerClass)))
    ensures !Match(Hierarchy, MatcherFor(ArrayOf(IntegerClass)), Instance(IntegerClass))
    ensures Match(Hierarchy, MatcherFor(ArrayOf(Object)), Instance(ArrayOf(IntegerClass)))
    ensures Match(Hierarchy, MatcherFor(Object), Null)
  {
    HierarchyLoads();
    MatcherForMatches(Hierarchy, ArrayOf(Object), Instance(ArrayOf(IntegerClass)));
    AssignableToObject(Hierarchy, IntegerClass);
  }

  /** A Leaf handler built in a fresh context gets String's matcher; a second `find` for the same
      class and name is answered from the cache even when it names another superclass, for which
      find0 itself would throw. */
  method LeafHandler() returns (first: Result<Matcher>, second: Result<Matcher>)
    ensures first == second == Ok(Reflective(StringClass))
    ensures Resolve(Hierarchy, Leaf, Mid, "T") == Err(UnknownTypeParameter("T", Mid))
  {
    HierarchyLoads();
    LeafBindsString();
    var context := new MatcherCache(Hierarchy);
    first := context.Find(Leaf, Base, "T");
    second := context.Find(Leaf, Mid, "T");
    UnknownParameter(Hierarchy, Leaf, Mid, "T");
  }

  /** `class Outer<T> { class Inner extends Outer<T> { } }`: Inner passes on a variable of its own
      superclass, so a pass from Inner for Outer's T restarts with Outer's T again, and find0's
      loop never ends. */
  const Nested: Table := Table([
    ClassInfo(None, [], Plain),
    ClassInfo(Some(0), ["T"], Plain),
    ClassInfo(Some(1), [], Parameterized([VariableArg(ByClass(Named(1)), "T")]))
  ])

  lemma NestedRestartsForever()
    ensures WellFormed(Nested) && !NoAncestorVariables(Nested)
    ensures Pass(Nested, Named(2), Named(1), "T") == Restart(Named(1), "T")
  {
    forall id: nat | id < |Nested.classes|
      ensures Nested.ClassWellFormed(id)
    {
      if id == 2 {
        assert VariableArg(ByClass(Named(1)), "T") in Nested.classes[2].genericSuperclass.arguments;
      }
    }
    assert !NoAncestorVariableIn(Nested, 2) by {
      assert VariableArg(ByClass(Named(1)), "T") in Nested.classes[2].genericSuperclass.arguments;
    }
  }

  /** A program holding such a nested class still has execution contexts, since `get` does not
      look at the hierarchy: Outer's matcher is created once and stays the context's only entry. */
  method NestedContextGets() returns (context: MatcherCache, matcher: Matcher, again: Matcher)
    ensures matcher == again == Reflective(Named(1))
    ensures context.getCache == map[Named(1) := matcher] && context.findCache == map[]
  {
    NestedRestartsForever();
    context := new MatcherCache(Nested);
    matcher := context.Get(Named(1));
    again := context.Get(Named(1));
  }

  /** `class A<T> { class B<U> extends A<String> { class C extends B<T> { } } }`: C passes on a
      variable of its proper superclass A, yet find0 for B's U from C restarts once, with A's T,
      and then returns String. The condition on hierarchies is sufficient for find0 to end, not
      necessary. */
  const Enclosing: Table := Table([
    ClassInfo(None, [], Plain),
    ClassInfo(Some(0), [], Plain),
    ClassInfo(Some(0), ["T"], Plain),
    ClassInfo(Some(2), ["U"], Parameterized([ClassArg(Named(1))])),
    ClassInfo(Some(3), [], Parameterized([VariableArg(ByClass(Named(2)), "T")]))
  ])

  lemma EnclosingRestartEnds()
    ensures WellFormed(Enclosing) && !NoAncestorVariables(Enclosing)
    ensures Pass(Enclosing, Named(4), Named(3), "U") == Restart(Named(2), "T")
    ensures Pass(Enclosing, Named(4), Named(2), "T") == Stop(Ok(StringClass))
  {
    forall id: nat | id < |Enclosing.classes|
      ensures Enclosing.ClassWellFormed(id)
    {
      if id == 4 {
        assert VariableArg(ByClass(Named(2)), "T") in Enclosing.classes[4].genericSuperclass.arguments;
      }
      if id == 3 {
        assert ClassArg(Named(1)) in Enclosing.classes[3].genericSuperclass.arguments;
      }
    }
    assert !NoAncestorVariableIn(Enclosing, 4) by {
      assert VariableArg(ByClass(Named(2)), "T") in Enclosing.classes[4].genericSuperclass.arguments;
    }
  }
}
