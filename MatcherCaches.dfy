/** The matcher factory of one execution context: `get` memoizes class -> matcher, `find`
    memoizes (object's class, parameter name) -> matcher on top of find0 and `get`. */
module MatcherCaches {
  import opened ClassTable
  import opened Matchers
  import opened Resolver

  /** A find-cache entry for parameter `name` of objects of class `thisClass` is the matcher that
      the get-cache holds for the class find0 resolved, for some superclass argument. */
  ghost predicate FoundEntry(t: Table, getCache: map<Class, Matcher>, thisClass: Class, name: string, m: Matcher)
    requires WellFormed(t) && NoAncestorVariables(t) && t.Has(thisClass)
  {
    exists target: Class ::
      && Resolve(t, thisClass, target, name).Ok?
      && Resolve(t, thisClass, target, name).value in getCache
      && getCache[Resolve(t, thisClass, target, name).value] == m
  }

  /** Growing the get-cache without changing its entries keeps every find-cache entry valid. */
  lemma FoundEntryKept(t: Table, g: map<Class, Matcher>, g': map<Class, Matcher>, thisClass: Class, name: string, m: Matcher)
    requires WellFormed(t) && NoAncestorVariables(t) && t.Has(thisClass)
    requires FoundEntry(t, g, thisClass, name, m)
    requires forall c | c in g :: c in g' && g'[c] == g[c]
    ensures FoundEntry(t, g', thisClass, name, m)
  {
    var target: Class :| Resolve(t, thisClass, target, name).Ok?
      && Resolve(t, thisClass, target, name).value in g
      && g[Resolve(t, thisClass, target, name).value] == m;
    assert Resolve(t, thisClass, target, name).value in g';
  }

  /** What `find` gives on a miss: `get` of what find0 resolved, a matcher that accepts the
      objects of that class, or find0's exception. */
  function FindOnMiss(t: Table, thisClass: Class, target: Class, name: string): (r: Result<Matcher>)
    requires WellFormed(t) && NoAncestorVariables(t) && t.Has(thisClass)
    ensures r.Ok? <==> Resolve(t, thisClass, target, name).Ok?
    ensures r.Ok? ==> r.value == MatcherFor(Resolve(t, thisClass, target, name).value)
    ensures r.Ok? ==> Match(t, r.value, Instance(Resolve(t, thisClass, target, name).value))
    ensures r.Err? ==> r.failure == Resolve(t, thisClass, target, name).failure
  {
    match Resolve(t, thisClass, target, name)
    case Ok(c) => Ok(MatcherFor(c))
    case Err(e) => Err(e)
  }

  /** The inner map `find` works on for objects of class `thisClass`: the stored one, or a new
      empty one. */
  function InnerMap(findCache: map<Class, map<string, Matcher>>, thisClass: Class): map<string, Matcher> {
    if thisClass in findCache then findCache[thisClass] else map[]
  }

  /** Putting the inner map a class already has, or replacing the one just put, leaves one entry. */
  lemma PutInnerMap(f: map<Class, map<string, Matcher>>, thisClass: Class, inner: map<string, Matcher>)
    ensures f[thisClass := InnerMap(f, thisClass)][thisClass := inner] == f[thisClass := inner]
    ensures thisClass in f ==> f[thisClass := InnerMap(f, thisClass)] == f
  {
  }

  /** Each class has at most one matcher, the one `get` builds for it; the find-cache is keyed
      by loaded classes; and, on a hierarchy where find0 is known to end, each find entry is the
      shared matcher of a class that find0 resolved. */
  ghost predicate Consistent(t: Table, getCache: map<Class, Matcher>, findCache: map<Class, map<string, Matcher>>) {
    && WellFormed(t)
    && (forall c | c in getCache :: getCache[c] == MatcherFor(c))
    && (forall x | x in findCache :: t.Has(x))
    && (NoAncestorVariables(t) ==>
          forall x, n | x in findCache && n in findCache[x] ::
            FoundEntry(t, getCache, x, n, findCache[x][n]))
  }

  /** Creating the inner map for a class of loaded objects keeps the caches consistent. */
  lemma OpenKeepsConsistent(t: Table, getCache: map<Class, Matcher>, findCache: map<Class, map<string, Matcher>>,
                            thisClass: Class)
    requires Consistent(t, getCache, findCache) && t.Has(thisClass)
    ensures Consistent(t, getCache, findCache[thisClass := InnerMap(findCache, thisClass)])
  {
    var f := findCache[thisClass := InnerMap(findCache, thisClass)];
    if NoAncestorVariables(t) {
      forall x, n | x in f && n in f[x]
        ensures FoundEntry(t, getCache, x, n, f[x][n])
      {
        assert x in findCache && n in findCache[x] && f[x][n] == findCache[x][n];
      }
    }
  }

  /** Storing in the find-cache the shared matcher of a class find0 resolved keeps the caches
      consistent. */
  lemma StoreKeepsConsistent(t: Table, getCache: map<Class, Matcher>, findCache: map<Class, map<string, Matcher>>,
                             thisClass: Class, target: Class, name: string, c: Class,
                             inner: map<string, Matcher>, m: Matcher)
    requires Consistent(t, getCache, findCache) && NoAncestorVariables(t) && t.Has(thisClass)
    requires Resolve(t, thisClass, target, name) == Ok(c) && c in getCache && getCache[c] == m
    requires inner == InnerMap(findCache, thisClass)
    ensures Consistent(t, getCache, findCache[thisClass := inner[name := m]])
  {
    var f := findCache[thisClass := inner[name := m]];
    forall x, n | x in f && n in f[x]
      ensures FoundEntry(t, getCache, x, n, f[x][n])
    {
      if x == thisClass && n == name {
        assert f[x][n] == getCache[c];
      } else {
        assert x in findCache && n in findCache[x] && f[x][n] == findCache[x][n];
      }
    }
  }

  class MatcherCache {
    /** The loaded classes, fixed for the life of the process. */
    const table: Table
    var getCache: map<Class, Matcher>
    var findCache: map<Class, map<string, Matcher>>

    ghost predicate Valid()
      reads this
    {
      Consistent(table, getCache, findCache)
    }

    /** Both maps start empty for a new execution context. */
    constructor (t: Table)
      requires WellFormed(t)
      ensures Valid() && table == t && getCache == map[] && findCache == map[]
    {
      table := t;
      getCache := map[];
      findCache := map[];
    }

    /** `get(parameterType)`: NOOP for Object, a ReflectiveMatcher otherwise, created once and
        then served from the get-cache. */
    method Get(parameterType: Class) returns (matcher: Matcher)
      requires Valid()
      modifies this`getCache
      ensures Valid()
      ensures matcher == MatcherFor(parameterType)
      ensures getCache == old(getCache)[parameterType := matcher]
      ensures parameterType in old(getCache) ==> matcher == old(getCache)[parameterType] && getCache == old(getCache)
    {
      if parameterType in getCache {
        matcher := getCache[parameterType];
      } else {
        if parameterType == Object {
          matcher := Noop;
        } else {
          matcher := Reflective(parameterType);
        }
        getCache := getCache[parameterType := matcher];
        if NoAncestorVariables(table) {
          forall x, n | x in findCache && n in findCache[x]
            ensures FoundEntry(table, getCache, x, n, findCache[x][n])
          {
            FoundEntryKept(table, old(getCache), getCache, x, n, findCache[x][n]);
          }
        }
      }
    }

    /** `find(object, parametrizedSuperclass, typeParamName)` for an object of class `thisClass`.
        The inner map for `thisClass` is created first, so it stays even when find0 throws. The
        find-cache is keyed by the object's class and the name only: a hit returns the stored
        matcher whatever superclass is passed. */
    method Find(thisClass: Class, parametrizedSuperclass: Class, typeParamName: string)
      returns (r: Result<Matcher>)
      requires Valid() && NoAncestorVariables(table) && table.Has(thisClass)
      modifies this
      ensures Valid()
      ensures thisClass in findCache
      ensures r.Ok? ==> typeParamName in findCache[thisClass] && findCache[thisClass][typeParamName] == r.value
      ensures typeParamName in InnerMap(old(findCache), thisClass) ==>
                && r == Ok(InnerMap(old(findCache), thisClass)[typeParamName])
                && findCache == old(findCache) && getCache == old(getCache)
      ensures typeParamName !in InnerMap(old(findCache), thisClass) ==>
                r == FindOnMiss(table, thisClass, parametrizedSuperclass, typeParamName)
      ensures typeParamName !in InnerMap(old(findCache), thisClass) ==>
                getCache == if r.Ok? then old(getCache)[Resolve(table, thisClass, parametrizedSuperclass, typeParamName).value := r.value]
                            else old(getCache)
      ensures typeParamName !in InnerMap(old(findCache), thisClass) ==>
                findCache == old(findCache)[thisClass :=
                               if r.Ok? then InnerMap(old(findCache), thisClass)[typeParamName := r.value]
                               else InnerMap(old(findCache), thisClass)]
    {
      var inner: map<string, Matcher>;
      if thisClass in findCache {
        inner := findCache[thisClass];
      } else {
        inner := map[];
        OpenKeepsConsistent(table, getCache, findCache, thisClass);
        findCache := findCache[thisClass := inner];
      }
      if typeParamName in inner {
        return Ok(inner[typeParamName]);
      }
      var resolved := Find0(table, thisClass, parametrizedSuperclass, typeParamName);
      if resolved.Err? {
        PutInnerMap(old(findCache), thisClass, inner);
        return Err(resolved.failure);
      }
      var matcher := Get(resolved.value);
      PutInnerMap(old(findCache), thisClass, inner[typeParamName := matcher]);
      StoreKeepsConsistent(table, getCache, findCache, thisClass, parametrizedSuperclass, typeParamName,
                           resolved.value, inner, matcher);
      findCache := findCache[thisClass := inner[typeParamName := matcher]];
      return Ok(matcher);
    }
  }

  /** Asking one context twice gives the same answer, the second time from the cache. */
  method FindTwice(t: Table, thisClass: Class, target: Class, name: string)
    returns (first: Result<Matcher>, second: Result<Matcher>)
    requires WellFormed(t) && NoAncestorVariables(t) && t.Has(thisClass)
    ensures first == second == FindOnMiss(t, thisClass, target, name)
  {
    var context := new MatcherCache(t);
    first := context.Find(thisClass, target, name);
    second := context.Find(thisClass, target, name);
  }

  /** Two execution contexts own separate caches: filling one leaves the other empty, so each
      computes the same matcher on its own, and both end with the same entries. */
  method SeparateContexts(t: Table, thisClass: Class, target: Class, name: string)
    returns (a: MatcherCache, b: MatcherCache, mine: Result<Matcher>, theirs: Result<Matcher>)
    requires WellFormed(t) && NoAncestorVariables(t) && t.Has(thisClass)
    ensures a != b
    ensures mine == theirs == FindOnMiss(t, thisClass, target, name)
    ensures a.getCache == b.getCache && a.findCache == b.findCache
    ensures thisClass in a.findCache && (name in a.findCache[thisClass] <==> mine.Ok?)
  {
    a := new MatcherCache(t);
    b := new MatcherCache(t);
    mine := a.Find(thisClass, target, name);
    assert b.getCache == map[] && b.findCache == map[];
    theirs := b.Find(thisClass, target, name);
  }
}
