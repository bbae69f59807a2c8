/** The part of the Java runtime that the type-parameter matcher consults through reflection,
    as an explicit finite table: each loaded class has a superclass, an ordered list of declared
    type-parameter names and a generic superclass whose actual type arguments are given by shape.
    `Class.getSuperclass`, `Class.isAssignableFrom` and `Class.isInstance` become walks over
    this table. */
module ClassTable {

  datatype Option<+T> = None | Some(value: T)

  /** A runtime class: a declared class, named by its index in the table, or an array class. */
  datatype Class = Named(id: nat) | ArrayOf(component: Class)

  /** java.lang.Object sits at index 0 of every table. */
  const Object: Class := Named(0)

  /** What declares a type variable: a class, or a method or constructor. */
  datatype Declaration = ByClass(cls: Class) | ByExecutable

  /** An actual type argument of a generic superclass, by the reflective shape it has. */
  datatype TypeArg =
    | ClassArg(cls: Class)                                // a Class, array classes such as Integer[] included
    | ParameterizedArg(raw: Class)                        // a ParameterizedType, with its raw class
    | GenericArrayArg(component: TypeArg)                 // a GenericArrayType, with its component type
    | VariableArg(declaration: Declaration, name: string) // a TypeVariable
    | WildcardArg                                         // any other Type

  /** How a class refers to its superclass: without type arguments, or with them. */
  datatype GenericSuperclass = Plain | Parameterized(arguments: seq<TypeArg>)

  datatype ClassInfo = ClassInfo(
    superclass: Option<nat>,
    typeParameters: seq<string>,
    genericSuperclass: GenericSuperclass)

  /** The loaded classes; class `Named(i)` is described by `classes[i]`. */
  datatype Table = Table(classes: seq<ClassInfo>) {

    /** The class is loaded (an array class is loaded with its component). */
    predicate Has(c: Class) {
      match c
      case Named(id) => id < |classes|
      case ArrayOf(e) => Has(e)
    }

    /** A type argument mentions only loaded classes, and a class-declared type variable is one
        of its declaring class's parameters. */
    predicate HasArg(a: TypeArg) {
      match a
      case ClassArg(c) => Has(c)
      case ParameterizedArg(raw) => raw.Named? && Has(raw)
      case GenericArrayArg(e) => HasArg(e)
      case VariableArg(ByClass(d), n) => d.Named? && Has(d) && n in classes[d.id].typeParameters
      case VariableArg(ByExecutable, _) => true
      case WildcardArg => true
    }

    /** The facts the Java runtime guarantees about the loaded classes of one declaration. */
    predicate ClassWellFormed(id: nat)
      requires id < |classes|
    {
      var info := classes[id];
      if id == 0 then
        info.superclass.None? && info.typeParameters == [] && info.genericSuperclass.Plain?
      else
        && info.superclass.Some?
        && info.superclass.value < id
        && match info.genericSuperclass
           case Plain => true
           case Parameterized(args) =>
             && |args| == |classes[info.superclass.value].typeParameters|
             && forall a | a in args :: HasArg(a)
    }
  }

  /** Object is loaded and has no superclass; every other class extends a class loaded before it,
      so the superclass relation is acyclic; a generic superclass supplies one argument per
      type parameter of the superclass. */
  predicate WellFormed(t: Table) {
    && |t.classes| > 0
    && forall id: nat | id < |t.classes| :: t.ClassWellFormed(id)
  }

  /** A measure that every superclass step decreases. */
  function Rank(c: Class): nat {
    match c
    case Named(id) => id
    case ArrayOf(e) => Rank(e) + 1
  }

  /** `Class.getSuperclass`: an array class extends Object; Object has none. */
  function SuperOf(t: Table, c: Class): (r: Option<Class>)
    requires WellFormed(t) && t.Has(c)
    ensures r.None? <==> c == Object
    ensures r.Some? ==> t.Has(r.value) && Rank(r.value) < Rank(c) && r.value.Named?
  {
    match c
    case Named(id) =>
      assert t.ClassWellFormed(id);
      if t.classes[id].superclass.Some? then Some(Named(t.classes[id].superclass.value)) else None
    case ArrayOf(_) => Some(Object)
  }

  /** `Class.getTypeParameters`, by name: array classes declare none. */
  function TypeParametersOf(t: Table, c: Class): seq<string>
    requires t.Has(c)
  {
    match c
    case Named(id) => t.classes[id].typeParameters
    case ArrayOf(_) => []
  }

  /** `Class.getGenericSuperclass`: the generic superclass of an array class is plain Object. */
  function GenericSuperclassOf(t: Table, c: Class): GenericSuperclass
    requires t.Has(c)
  {
    match c
    case Named(id) => t.classes[id].genericSuperclass
    case ArrayOf(_) => Plain
  }

  /** `a` is `c` itself or is reached from `c` by following superclasses. */
  predicate Extends(t: Table, c: Class, a: Class)
    requires WellFormed(t) && t.Has(c)
    decreases Rank(c)
  {
    c == a || match SuperOf(t, c) {
      case None => false
      case Some(s) => Extends(t, s, a)
    }
  }

  /** `a` is a proper superclass of `c`. */
  predicate ProperAncestor(t: Table, c: Class, a: Class)
    requires WellFormed(t) && t.Has(c)
  {
    match SuperOf(t, c)
    case None => false
    case Some(s) => Extends(t, s, a)
  }

  /** `sup.isAssignableFrom(sub)` between classes: along the superclass chain, and covariantly
      between array classes. */
  predicate IsAssignable(t: Table, sub: Class, sup: Class)
    requires WellFormed(t) && t.Has(sub)
    ensures sub == sup ==> IsAssignable(t, sub, sup)
    ensures sup.Named? ==> (IsAssignable(t, sub, sup) <==> Extends(t, sub, sup))
  {
    || Extends(t, sub, sup)
    || (sub.ArrayOf? && sup.ArrayOf? && IsAssignable(t, sub.component, sup.component))
  }

  /** Every step up the chain lowers the rank, so a superclass never outranks its subclass. */
  lemma {:induction false} ExtendsRank(t: Table, c: Class, a: Class)
    requires WellFormed(t) && t.Has(c) && Extends(t, c, a)
    ensures t.Has(a) && Rank(a) <= Rank(c)
    ensures Rank(a) == Rank(c) ==> a == c
    decreases Rank(c)
  {
    if c != a {
      ExtendsRank(t, SuperOf(t, c).value, a);
    }
  }

  /** Every class reaches Object. */
  lemma {:induction false} ExtendsObject(t: Table, c: Class)
    requires WellFormed(t) && t.Has(c)
    ensures Extends(t, c, Object)
    decreases Rank(c)
  {
    if c != Object {
      ExtendsObject(t, SuperOf(t, c).value);
    }
  }

  lemma {:induction false} ExtendsTransitive(t: Table, a: Class, b: Class, c: Class)
    requires WellFormed(t) && t.Has(a) && t.Has(b) && Extends(t, a, b) && Extends(t, b, c)
    ensures Extends(t, a, c)
    decreases Rank(a)
  {
    ExtendsRank(t, a, b);
    if a != b {
      ExtendsTransitive(t, SuperOf(t, a).value, b, c);
    }
  }

  /** The superclasses of one class form a line: any two of them are ordered. */
  lemma {:induction false} ChainIsLinear(t: Table, c: Class, a: Class, b: Class)
    requires WellFormed(t) && t.Has(c) && Extends(t, c, a) && Extends(t, c, b)
    ensures t.Has(a) && t.Has(b)
    ensures Extends(t, a, b) || Extends(t, b, a)
    decreases Rank(c)
  {
    ExtendsRank(t, c, a);
    ExtendsRank(t, c, b);
    if c != a && c != b {
      ChainIsLinear(t, SuperOf(t, c).value, a, b);
    }
  }

  /** A class is never assignable to a class of higher rank. */
  lemma {:induction false} AssignableRank(t: Table, sub: Class, sup: Class)
    requires WellFormed(t) && t.Has(sub) && IsAssignable(t, sub, sup)
    ensures t.Has(sup) && Rank(sup) <= Rank(sub)
  {
    if Extends(t, sub, sup) {
      ExtendsRank(t, sub, sup);
    } else {
      AssignableRank(t, sub.component, sup.component);
    }
  }

  /** Every class is assignable to Object, and to itself. */
  lemma AssignableToObject(t: Table, c: Class)
    requires WellFormed(t) && t.Has(c)
    ensures IsAssignable(t, c, Object) && IsAssignable(t, c, c)
  {
    ExtendsObject(t, c);
  }
}
