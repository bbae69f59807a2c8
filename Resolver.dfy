/** `find0`: the class bound to a named type parameter of an ancestor of an object's class.

    The walk climbs the object's superclass chain to the class whose superclass is the ancestor,
    looks the name up among the ancestor's type parameters and reads the actual type argument
    at that position. A type variable sends the walk back to the object's class with a new
    ancestor and name. */
module Resolver {
  import opened ClassTable

  /** The two IllegalStateExceptions of find0, with what their messages name. */
  datatype Failure =
    | UnknownTypeParameter(name: string, superclass: Class) // the ancestor declares no such parameter
    | CannotDetermine(name: string, thisClass: Class)       // `fail`

  datatype Result<+T> = Ok(value: T) | Err(failure: Failure)

  /** Where one pass of the loop ends: with a result or exception, or by going round again with
      a new ancestor and parameter name. */
  datatype Step = Stop(result: Result<Class>) | Restart(target: Class, name: string)

  /** Position of the first type parameter called `name`, if there is one. */
  function FirstIndex(names: seq<string>, name: string): (r: Option<nat>)
    ensures r.None? <==> name !in names
    ensures r.Some? ==> r.value < |names| && names[r.value] == name && name !in names[..r.value]
  {
    if names == [] then None
    else if names[0] == name then Some(0)
    else match FirstIndex(names[1..], name) {
      case None => None
      case Some(i) =>
        assert names[1..][..i] == names[1..i + 1];
        Some(i + 1)
    }
  }

  /** A position holding `name` with no earlier occurrence is the one FirstIndex finds. */
  lemma FirstIndexUnique(names: seq<string>, name: string, i: nat)
    requires i < |names| && names[i] == name && name !in names[..i]
    ensures FirstIndex(names, name) == Some(i)
  {
  }

  /** The class on `c`'s superclass chain whose superclass is `target`, the class the walk stops
      at; none when the chain runs out first. */
  function Link(t: Table, c: Class, target: Class): (r: Option<Class>)
    requires WellFormed(t) && t.Has(c)
    ensures r.Some? ==> t.Has(r.value) && Extends(t, c, r.value) && SuperOf(t, r.value) == Some(target)
    decreases Rank(c)
  {
    var s := SuperOf(t, c);
    if s == Some(target) then Some(c)
    else if s.None? then None
    else Link(t, s.value, target)
  }

  /** A ParameterizedType stands for its raw class; every other type for itself. */
  function RawType(a: TypeArg): TypeArg {
    if a.ParameterizedArg? then ClassArg(a.raw) else a
  }

  /** What the actual type argument `arg` gives for the object's class `thisClass`: a loaded
      class, `fail` naming the object's class, or a restart for a parameter that a superclass of
      the object's class declares. */
  function ArgumentStep(t: Table, thisClass: Class, arg: TypeArg, name: string): (r: Step)
    requires WellFormed(t) && t.Has(thisClass)
    ensures r.Stop? && r.result.Err? ==> r.result.failure == CannotDetermine(name, thisClass)
    ensures r.Stop? && r.result.Ok? && t.HasArg(arg) ==> t.Has(r.result.value)
    ensures r.Restart? ==> IsAssignable(t, thisClass, r.target)
    ensures r.Restart? && t.HasArg(arg) ==> t.Has(r.target) && r.name in TypeParametersOf(t, r.target)
  {
    match RawType(arg)
    case ClassArg(c) => Stop(Ok(c))
    case GenericArrayArg(e) =>
      if RawType(e).ClassArg? then
        assert t.HasArg(arg) ==> t.HasArg(e);
        Stop(Ok(ArrayOf(RawType(e).cls)))
      else Stop(Err(CannotDetermine(name, thisClass)))
    case VariableArg(ByExecutable, _) => Stop(Ok(Object))
    case VariableArg(ByClass(d), n) =>
      if IsAssignable(t, thisClass, d) then Restart(d, n) else Stop(Ok(Object))
    case _ => Stop(Err(CannotDetermine(name, thisClass)))
  }

  /** One pass of the loop from the object's class, looking for parameter `name` of `target`.
      It returns a loaded class; or throws "unknown type parameter" for a loaded `target` that
      does not declare `name`; or fails naming the object's class; or restarts for a parameter
      declared by a superclass of the object's class. */
  function Pass(t: Table, thisClass: Class, target: Class, name: string): (r: Step)
    requires WellFormed(t) && t.Has(thisClass)
    ensures r.Stop? && r.result.Ok? ==> t.Has(r.result.value)
    ensures r.Stop? && r.result.Err? && r.result.failure.UnknownTypeParameter? ==>
              && r.result.failure == UnknownTypeParameter(name, target)
              && t.Has(target) && name !in TypeParametersOf(t, target)
    ensures r.Stop? && r.result.Err? && r.result.failure.CannotDetermine? ==>
              r.result.failure == CannotDetermine(name, thisClass)
    ensures r.Restart? ==>
              IsAssignable(t, thisClass, r.target) && t.Has(r.target) && r.name in TypeParametersOf(t, r.target)
  {
    match Link(t, thisClass, target)
    case None => Stop(Err(CannotDetermine(name, thisClass)))
    case Some(link) =>
      match FirstIndex(TypeParametersOf(t, target), name)
      case None => Stop(Err(UnknownTypeParameter(name, target)))
      case Some(i) =>
        match GenericSuperclassOf(t, link)
        case Plain => Stop(Ok(Object))
        case Parameterized(args) =>
          assert t.ClassWellFormed(link.id) && args[i] in args;
          ArgumentStep(t, thisClass, args[i], name)
  }

  /** No class passes to its superclass a type variable declared by one of its own proper
      superclasses (as an inner class that extends its generic enclosing class can). Without
      this the loop may come back to the same ancestor and name forever. */
  predicate NoAncestorVariables(t: Table)
    requires WellFormed(t)
  {
    forall id: nat | id < |t.classes| :: NoAncestorVariableIn(t, id)
  }

  predicate NoAncestorVariableIn(t: Table, id: nat)
    requires WellFormed(t) && id < |t.classes|
  {
    match t.classes[id].genericSuperclass
    case Plain => true
    case Parameterized(args) =>
      forall a | a in args && a.VariableArg? && a.declaration.ByClass? ::
        !ProperAncestor(t, Named(id), a.declaration.cls)
  }

  /** How far above the object's class the ancestor still is. */
  function Height(thisClass: Class, target: Class): nat {
    if Rank(target) <= Rank(thisClass) then Rank(thisClass) - Rank(target) else 0
  }

  /** A restart names an ancestor strictly below the previous one and not above the object's
      class. */
  lemma RestartDescends(t: Table, thisClass: Class, target: Class, name: string)
    requires WellFormed(t) && NoAncestorVariables(t) && t.Has(thisClass)
    ensures Pass(t, thisClass, target, name).Restart? ==>
              Rank(target) < Rank(Pass(t, thisClass, target, name).target) <= Rank(thisClass)
  {
    if Pass(t, thisClass, target, name).Restart? {
      var link := Link(t, thisClass, target).value;
      var i := FirstIndex(TypeParametersOf(t, target), name).value;
      var args := GenericSuperclassOf(t, link).arguments;
      assert t.ClassWellFormed(link.id);
      var arg := args[i];
      var d := arg.declaration.cls;
      assert arg in args;
      assert NoAncestorVariableIn(t, link.id);
      assert !ProperAncestor(t, link, d);
      AssignableRank(t, thisClass, d);
      ChainIsLinear(t, thisClass, link, d);
      if Extends(t, d, link) {
        ExtendsRank(t, d, link);
      }
    }
  }

  /** What find0 returns or throws: the loop of passes, as a recursive function. A class it
      returns is a loaded one. */
  function Resolve(t: Table, thisClass: Class, target: Class, name: string): (r: Result<Class>)
    requires WellFormed(t) && NoAncestorVariables(t) && t.Has(thisClass)
    ensures r.Ok? ==> t.Has(r.value)
    decreases Height(thisClass, target)
  {
    RestartDescends(t, thisClass, target, name);
    match Pass(t, thisClass, target, name)
    case Stop(r) => r
    case Restart(d, n) => Resolve(t, thisClass, d, n)
  }

  /** The walk meets a class whose superclass is `target` exactly when `target` is a proper
      superclass of the object's class. */
  lemma {:induction false} LinkExactlyWhenAncestor(t: Table, c: Class, target: Class)
    requires WellFormed(t) && t.Has(c)
    ensures Link(t, c, target).Some? <==> ProperAncestor(t, c, target)
    decreases Rank(c)
  {
    var s := SuperOf(t, c);
    if s.Some? && s != Some(target) {
      LinkExactlyWhenAncestor(t, s.value, target);
    }
  }

  /** The class the walk stops at is the one class of the chain whose superclass is `target`. */
  lemma {:induction false} LinkIsUnique(t: Table, c: Class, target: Class, link: Class)
    requires WellFormed(t) && t.Has(c)
    requires Extends(t, c, link) && t.Has(link) && SuperOf(t, link) == Some(target)
    ensures Link(t, c, target) == Some(link)
    decreases Rank(c)
  {
    var s := SuperOf(t, c);
    if c != link {
      if s == Some(target) {
        ExtendsRank(t, target, link);
        assert false;
      }
      LinkIsUnique(t, s.value, target, link);
    }
  }

  /** The object's class does not reach `target` through its superclasses: the chain runs out
      and `fail` throws. */
  lemma ChainExhausted(t: Table, thisClass: Class, target: Class, name: string)
    requires WellFormed(t) && NoAncestorVariables(t) && t.Has(thisClass)
    requires !ProperAncestor(t, thisClass, target)
    ensures Resolve(t, thisClass, target, name) == Err(CannotDetermine(name, thisClass))
  {
    LinkExactlyWhenAncestor(t, thisClass, target);
  }

  /** `target` is reached but declares no parameter called `name`. */
  lemma UnknownParameter(t: Table, thisClass: Class, target: Class, name: string)
    requires WellFormed(t) && NoAncestorVariables(t) && t.Has(thisClass) && t.Has(target)
    requires ProperAncestor(t, thisClass, target) && name !in TypeParametersOf(t, target)
    ensures Resolve(t, thisClass, target, name) == Err(UnknownTypeParameter(name, target))
  {
    LinkExactlyWhenAncestor(t, thisClass, target);
  }

  /** The class below `target` extends it without type arguments: the result is Object. */
  lemma UnparameterizedSuperclass(t: Table, thisClass: Class, target: Class, name: string, link: Class)
    requires WellFormed(t) && NoAncestorVariables(t) && t.Has(thisClass) && t.Has(link)
    requires Extends(t, thisClass, link) && SuperOf(t, link) == Some(target)
    requires name in TypeParametersOf(t, target) && GenericSuperclassOf(t, link).Plain?
    ensures Resolve(t, thisClass, target, name) == Ok(Object)
  {
    LinkIsUnique(t, thisClass, target, link);
  }

  /** The argument bound at the first parameter called `name` decides the result: a class is
      returned, a parameterized type gives its raw class, a generic array of a class or
      parameterized type gives the array class, and any other shape makes `fail` throw. */
  lemma ConcreteArgument(t: Table, thisClass: Class, target: Class, name: string, link: Class, i: nat)
    requires WellFormed(t) && NoAncestorVariables(t) && t.Has(thisClass) && t.Has(link)
    requires Extends(t, thisClass, link) && SuperOf(t, link) == Some(target)
    requires i < |TypeParametersOf(t, target)| && TypeParametersOf(t, target)[i] == name
    requires name !in TypeParametersOf(t, target)[..i]
    requires GenericSuperclassOf(t, link).Parameterized?
    requires i < |GenericSuperclassOf(t, link).arguments|
    requires !GenericSuperclassOf(t, link).arguments[i].VariableArg?
    ensures var arg := GenericSuperclassOf(t, link).arguments[i];
            Resolve(t, thisClass, target, name) ==
              match arg
              case ClassArg(c) => Ok(c)
              case ParameterizedArg(raw) => Ok(raw)
              case GenericArrayArg(ClassArg(c)) => Ok(ArrayOf(c))
              case GenericArrayArg(ParameterizedArg(raw)) => Ok(ArrayOf(raw))
              case _ => Err(CannotDetermine(name, thisClass))
  {
    LinkIsUnique(t, thisClass, target, link);
    FirstIndexUnique(TypeParametersOf(t, target), name, i);
  }

  /** The argument is a type variable: one declared by a method or constructor, or by a class the
      object is not an instance of, gives Object; one declared by a class the object is an
      instance of is resolved in its turn, from the object's class. */
  lemma VariableArgument(t: Table, thisClass: Class, target: Class, name: string, link: Class, i: nat)
    requires WellFormed(t) && NoAncestorVariables(t) && t.Has(thisClass) && t.Has(link)
    requires Extends(t, thisClass, link) && SuperOf(t, link) == Some(target)
    requires i < |TypeParametersOf(t, target)| && TypeParametersOf(t, target)[i] == name
    requires name !in TypeParametersOf(t, target)[..i]
    requires GenericSuperclassOf(t, link).Parameterized?
    requires i < |GenericSuperclassOf(t, link).arguments|
    requires GenericSuperclassOf(t, link).arguments[i].VariableArg?
    ensures var v := GenericSuperclassOf(t, link).arguments[i];
            Resolve(t, thisClass, target, name) ==
              match v.declaration
              case ByExecutable => Ok(Object)
              case ByClass(d) =>
                if IsAssignable(t, thisClass, d) then Resolve(t, thisClass, d, v.name) else Ok(Object)
  {
    LinkIsUnique(t, thisClass, target, link);
    FirstIndexUnique(TypeParametersOf(t, target), name, i);
  }

  /** A restart names a parameter its declaring class does declare, so it never throws
      UnknownTypeParameter. */
  lemma {:induction false} RestartNeverUnknown(t: Table, thisClass: Class, d: Class, n: string)
    requires WellFormed(t) && NoAncestorVariables(t) && t.Has(thisClass) && t.Has(d)
    requires n in TypeParametersOf(t, d)
    ensures !Resolve(t, thisClass, d, n).Err? || !Resolve(t, thisClass, d, n).failure.UnknownTypeParameter?
    decreases Height(thisClass, d)
  {
    RestartDescends(t, thisClass, d, n);
    var step := Pass(t, thisClass, d, n);
    if step.Restart? {
      var link := Link(t, thisClass, d).value;
      var i := FirstIndex(TypeParametersOf(t, d), n).value;
      assert t.ClassWellFormed(link.id);
      var arg := GenericSuperclassOf(t, link).arguments[i];
      assert arg in GenericSuperclassOf(t, link).arguments;
      RestartNeverUnknown(t, thisClass, step.target, step.name);
    }
  }

  /** find0 throws UnknownTypeParameter only for the ancestor and name it was asked about, and
      only when that ancestor is reached and does not declare the name; every `fail` names the
      object's class. */
  lemma {:induction false} ErrorCases(t: Table, thisClass: Class, target: Class, name: string)
    requires WellFormed(t) && NoAncestorVariables(t) && t.Has(thisClass)
    ensures Resolve(t, thisClass, target, name).Err? ==>
              match Resolve(t, thisClass, target, name).failure
              case UnknownTypeParameter(n, a) =>
                n == name && a == target && ProperAncestor(t, thisClass, target) && t.Has(target)
                && name !in TypeParametersOf(t, target)
              case CannotDetermine(_, c) => c == thisClass
    decreases Height(thisClass, target)
  {
    LinkExactlyWhenAncestor(t, thisClass, target);
    var step := Pass(t, thisClass, target, name);
    RestartDescends(t, thisClass, target, name);
    if step.Restart? {
      var link := Link(t, thisClass, target).value;
      var i := FirstIndex(TypeParametersOf(t, target), name).value;
      assert t.ClassWellFormed(link.id);
      var arg := GenericSuperclassOf(t, link).arguments[i];
      assert arg in GenericSuperclassOf(t, link).arguments;
      RestartNeverUnknown(t, thisClass, step.target, step.name);
      ErrorCases(t, thisClass, step.target, step.name);
    }
  }

  /** `find0(object, parametrizedSuperclass, typeParamName)` for an object of class `thisClass`. */
  method Find0(t: Table, thisClass: Class, parametrizedSuperclass: Class, typeParamName: string)
    returns (r: Result<Class>)
    requires WellFormed(t) && NoAncestorVariables(t) && t.Has(thisClass)
    ensures r == Resolve(t, thisClass, parametrizedSuperclass, typeParamName)
  {
    var target, name := parametrizedSuperclass, typeParamName;
    var current := thisClass;
    while true
      invariant t.Has(current) && Extends(t, thisClass, current)
      invariant Link(t, current, target) == Link(t, thisClass, target)
      invariant Resolve(t, thisClass, target, name) == Resolve(t, thisClass, parametrizedSuperclass, typeParamName)
      decreases Height(thisClass, target), Rank(current)
    {
      var superclass := SuperOf(t, current);
      if superclass == Some(target) {
        assert Link(t, thisClass, target) == Some(current);
        var typeParams := TypeParametersOf(t, target);
        var index := -1;
        var i := 0;
        while i < |typeParams|
          invariant 0 <= i <= |typeParams|
          invariant index == -1 && name !in typeParams[..i]
        {
          if typeParams[i] == name {
            index := i;
            break;
          }
          i := i + 1;
        }
        if index < 0 {
          assert typeParams[..i] == typeParams;
          return Err(UnknownTypeParameter(name, target));
        }
        FirstIndexUnique(typeParams, name, index);
        var genericSuperType := GenericSuperclassOf(t, current);
        if genericSuperType.Plain? {
          return Ok(Object);
        }
        assert t.ClassWellFormed(current.id);
        var actualTypeParam := RawType(genericSuperType.arguments[index]);
        if actualTypeParam.ClassArg? {
          return Ok(actualTypeParam.cls);
        }
        if actualTypeParam.GenericArrayArg? {
          var componentType := RawType(actualTypeParam.component);
          if componentType.ClassArg? {
            return Ok(ArrayOf(componentType.cls));
          }
        }
        if actualTypeParam.VariableArg? {
          var v := actualTypeParam;
          RestartDescends(t, thisClass, target, name);
          current := thisClass;
          if !v.declaration.ByClass? {
            return Ok(Object);
          }
          target := v.declaration.cls;
          name := v.name;
          if IsAssignable(t, thisClass, target) {
            continue;
          } else {
            return Ok(Object);
          }
        }
        return Err(CannotDetermine(name, thisClass));
      }
      if superclass.None? {
        return Err(CannotDetermine(name, thisClass));
      }
      ExtendsTransitive(t, thisClass, current, superclass.value);
      current := superclass.value;
    }
  }
}
