# TypeParameterMatcher in Dafny

A model of netty's `TypeParameterMatcher`. A handler such as `SimpleChannelInboundHandler<I>`
uses it to learn, from an instance of one of its subclasses, which class its type parameter `I`
is bound to. It then uses a matcher that accepts exactly the messages of that class. The model
covers:

- `find0`, which resolves a type parameter. It walks up the object's superclass chain to the
  class whose superclass is the named ancestor. It looks the name up among the ancestor's type
  parameters and reads the actual type argument at that position. A type variable argument
  restarts the walk from the object's class.
- The two matchers: the shared NOOP that accepts everything, and `ReflectiveMatcher`, which
  answers `isInstance`.
- `get` and `find` with their two memo maps. The get-cache maps a class to a matcher. The
  find-cache maps the object's class, then the parameter name, to a matcher.

Modules:

- `ClassTable` replaces Java reflection with a finite table of loaded classes. Each class has a
  superclass, its type-parameter names and its generic superclass. Each actual type argument is
  described by its reflective shape: a class, a parameterized type, a generic array, a type
  variable with its declaration, or anything else. `Class.getSuperclass`,
  `Class.isAssignableFrom` and `Class.isInstance` become walks over the superclass relation.
  Array classes extend Object and are covariant.
- `Matchers` holds the two matchers and `match`.
- `Resolver` holds find0 in two forms:
  - `Resolve`, a recursive specification of one pass of the loop after another;
  - `Find0`, the imperative `for(;;)` loop with its inner index search, proved equal to `Resolve`.
  
  Lemmas characterise every exit of the loop: each way find0 returns a class or Object, and each
  way it throws.
- `MatcherCaches` holds `MatcherCache`, the two maps of one execution context, with `Get` and
  `Find`. Its invariant says two things. Each class's get-cache entry is the matcher `get`
  builds for it. On a hierarchy where find0 is known to end, each find-cache entry is the shared
  matcher of a class that find0 resolved.
- `Examples` applies the lemmas to concrete hierarchies: a restart through `Mid<U> extends
  Base<U>`, array arguments, a raw superclass, a generic method's variable, both exceptions,
  the cache, a nested class on which find0 never ends, and one on which it ends although the
  condition below does not hold.

Behaviour worth knowing:

- find0 throws in three places. Besides an unknown parameter name (lines 118-121) and a chain
  that runs out (lines 170-173), `fail` is also reached at line 168 for an argument of any other
  shape. Such shapes include a generic array of a type variable and a nested generic array. The
  model follows the code: such arguments give `CannotDetermine`.
- The find-cache is keyed by the object's class and the parameter name only. A hit returns the
  stored matcher even when a different superclass is passed. `Examples.LeafHandler` shows one
  such hit for which find0 itself would throw.
- `find` puts the inner map for the object's class into the find-cache before calling find0.
  That map stays there when find0 throws.
- find0's loop (lines 106-174) never ends on some hierarchies. A class nested in a generic class
  that extends that class with its own variable, `Outer<T> { class Inner extends Outer<T> }`, is
  one. For an Inner object and Outer's T, each pass restarts with Outer's T again
  (`Examples.NestedRestartsForever`). The model proves termination only under a condition on the
  hierarchy, described under "## Left out". The code gives no sign of what it should do there, so
  no corrected version is modelled.

## Model

| member | source | states |
|---|---|---|
| `ClassTable.SuperOf` | common/src/main/java/io/netty/util/internal/TypeParameterMatcher.java:170-173 | `getSuperclass` is null exactly for Object; otherwise it is a loaded declared class of strictly lower rank, so the walk cannot cycle |
| `ClassTable.ExtendsRank` | common/src/main/java/io/netty/util/internal/TypeParameterMatcher.java:170-173 | every class met on the walk is loaded and never outranks the class the walk started from; it ties only with that class |
| `ClassTable.ExtendsObject` | common/src/main/java/io/netty/util/internal/TypeParameterMatcher.java:170-173 | every superclass chain reaches Object |
| `ClassTable.ExtendsTransitive` | common/src/main/java/io/netty/util/internal/TypeParameterMatcher.java:105-107 | a superclass of a superclass is a superclass |
| `ClassTable.ChainIsLinear` | common/src/main/java/io/netty/util/internal/TypeParameterMatcher.java:159-161 | any two superclasses of one class are ordered along its chain |
| `ClassTable.IsAssignable` | common/src/main/java/io/netty/util/internal/TypeParameterMatcher.java:161 | `isAssignableFrom`, and `isInstance` for objects: every class is assignable to itself, and to a declared class exactly when that class is on its superclass chain |
| `ClassTable.AssignableRank` | common/src/main/java/io/netty/util/internal/TypeParameterMatcher.java:161 | a class a restart may name is loaded and does not outrank the object's class |
| `ClassTable.AssignableToObject` | common/src/main/java/io/netty/util/internal/TypeParameterMatcher.java:196 | every class, array classes included, is assignable to Object and to itself |
| `Matchers.Match` | common/src/main/java/io/netty/util/internal/TypeParameterMatcher.java:182-197 | `match`: null is accepted by NOOP and by no ReflectiveMatcher; an object is always accepted by the matcher of its own class |
| `Matchers.MatcherFor` | common/src/main/java/io/netty/util/internal/TypeParameterMatcher.java:44-49 | the matcher `get` creates is the shared NOOP exactly for Object, and otherwise a ReflectiveMatcher of the very class asked for |
| `Matchers.MatcherForMatches` | common/src/main/java/io/netty/util/internal/TypeParameterMatcher.java:29-198 | the matcher `get` creates is NOOP exactly for Object; it matches a message iff the message is null and the class is Object, or the message is an instance of the class or of a subclass (arrays covariantly); null never matches a ReflectiveMatcher |
| `Resolver.FirstIndex` | common/src/main/java/io/netty/util/internal/TypeParameterMatcher.java:109-116 | no index exactly when the name is not declared; otherwise the position of its first occurrence |
| `Resolver.FirstIndexUnique` | common/src/main/java/io/netty/util/internal/TypeParameterMatcher.java:109-116 | the position where the index loop breaks is the one `FirstIndex` gives |
| `Resolver.Link` | common/src/main/java/io/netty/util/internal/TypeParameterMatcher.java:105-107 | the class the walk stops at is on the object's chain and has the ancestor as its superclass |
| `Resolver.ArgumentStep` | common/src/main/java/io/netty/util/internal/TypeParameterMatcher.java:133-168 | the actual type argument gives a loaded class, or `fail` naming the object's class, or a restart for a parameter that a superclass of the object's class declares |
| `Resolver.Pass` | common/src/main/java/io/netty/util/internal/TypeParameterMatcher.java:107-168 | one pass from the object's class returns a loaded class, or throws "unknown type parameter" naming the name and a loaded ancestor that does not declare it, or fails naming the object's class, or restarts for a declared parameter of a superclass of the object's class |
| `Resolver.Resolve` | common/src/main/java/io/netty/util/internal/TypeParameterMatcher.java:106-174 | the loop of passes: every class find0 returns is a loaded one |
| `Resolver.LinkExactlyWhenAncestor` | common/src/main/java/io/netty/util/internal/TypeParameterMatcher.java:170-173 | the walk meets the ancestor iff the ancestor is a proper superclass of the object's class; otherwise it runs into null |
| `Resolver.LinkIsUnique` | common/src/main/java/io/netty/util/internal/TypeParameterMatcher.java:105-107 | any chain class whose superclass is the ancestor is the one the walk stops at |
| `Resolver.RestartDescends` | common/src/main/java/io/netty/util/internal/TypeParameterMatcher.java:150-162 | on a loaded hierarchy without ancestor variables, each restart names an ancestor strictly below the previous one and not above the object's class, so the loop ends |
| `Resolver.ChainExhausted` | common/src/main/java/io/netty/util/internal/TypeParameterMatcher.java:170-173 | an ancestor that is not a proper superclass of the object's class makes `fail` throw, naming the object's class |
| `Resolver.UnknownParameter` | common/src/main/java/io/netty/util/internal/TypeParameterMatcher.java:118-121 | a reached ancestor that declares no parameter of that name throws "unknown type parameter", naming the name and the ancestor |
| `Resolver.UnparameterizedSuperclass` | common/src/main/java/io/netty/util/internal/TypeParameterMatcher.java:125-128 | a link whose generic superclass is not parameterized gives Object |
| `Resolver.ConcreteArgument` | common/src/main/java/io/netty/util/internal/TypeParameterMatcher.java:133-168 | at the first position of the name: a class is returned; a parameterized type gives its raw class; a generic array of a class or parameterized type gives the array class; any other non-variable shape throws |
| `Resolver.VariableArgument` | common/src/main/java/io/netty/util/internal/TypeParameterMatcher.java:150-166 | a type variable of a method or constructor gives Object; one of a class the object is not an instance of gives Object; one of a class it is an instance of is resolved anew, from the object's class |
| `Resolver.RestartNeverUnknown` | common/src/main/java/io/netty/util/internal/TypeParameterMatcher.java:159-162 | resolution of a parameter that its class declares never throws "unknown type parameter" |
| `Resolver.ErrorCases` | common/src/main/java/io/netty/util/internal/TypeParameterMatcher.java:118-180 | "unknown type parameter" is thrown only for the ancestor and name passed in, only when that ancestor is a proper superclass that does not declare the name; every `fail` names the object's class |
| `Resolver.Find0` | common/src/main/java/io/netty/util/internal/TypeParameterMatcher.java:101-175 | the loop, with its index search and restarts, returns or throws exactly what the pass-by-pass resolution gives |
| `MatcherCaches.FindOnMiss` | common/src/main/java/io/netty/util/internal/TypeParameterMatcher.java:84 | `get(find0(...))`: find throws exactly when find0 does, with the same exception; otherwise it returns the matcher `get` creates for the resolved class, which accepts the objects of that class |
| `MatcherCaches.FoundEntryKept` | common/src/main/java/io/netty/util/internal/TypeParameterMatcher.java:51 | adding a get-cache entry leaves every find-cache entry backed by the get-cache |
| `MatcherCaches.OpenKeepsConsistent` | common/src/main/java/io/netty/util/internal/TypeParameterMatcher.java:76-80 | creating the inner map of a loaded class keeps the cache invariant |
| `MatcherCaches.StoreKeepsConsistent` | common/src/main/java/io/netty/util/internal/TypeParameterMatcher.java:84-85 | storing, under a name, the shared matcher of the class find0 resolved for it keeps the cache invariant |
| `MatcherCaches.MatcherCache.constructor` | common/src/main/java/io/netty/util/internal/TypeParameterMatcher.java:71-72 | a new execution context, on any loaded hierarchy, starts with both maps empty |
| `MatcherCaches.MatcherCache.Get` | common/src/main/java/io/netty/util/internal/TypeParameterMatcher.java:37-55 | returns NOOP for Object and a ReflectiveMatcher of the class otherwise; afterwards the get-cache maps the class to it; on a hit the stored matcher is returned and the map is unchanged; the invariant is kept; nothing is demanded of the hierarchy |
| `MatcherCaches.MatcherCache.Find` | common/src/main/java/io/netty/util/internal/TypeParameterMatcher.java:66-89 | afterwards the object's class has an inner map, holding the returned matcher under the name; on a hit the stored matcher is returned and neither map changes; on a miss the result is `get(find0(...))` or find0's exception, the get-cache gains exactly the resolved class, and the find-cache changes only in the inner map of the object's class, which gains only the name, and only on success |
| `MatcherCaches.FindTwice` | common/src/main/java/io/netty/util/internal/TypeParameterMatcher.java:82-88 | a second `find` for the same class and name gives the same answer as the first, from the cache, or the same exception again |
| `MatcherCaches.SeparateContexts` | common/src/main/java/io/netty/util/internal/TypeParameterMatcher.java:71-72 | two distinct fresh contexts each answer `find` with `get(find0(...))` on their own and end with equal maps; the object's class has an inner map in each, holding the name exactly when `find` succeeded. That one context's `find` leaves the other's maps untouched follows from `Find` modifying only its own context |
| `Examples.LeafBindsString` | common/src/main/java/io/netty/util/internal/TypeParameterMatcher.java:150-166 | `Leaf extends Mid<String>`, `Mid<U> extends Base<U>`: Base's T is String, after one restart for Mid's U |
| `Examples.ArrayArguments` | common/src/main/java/io/netty/util/internal/TypeParameterMatcher.java:137-147 | `Base<Integer[]>` gives `Integer[]`; `Base<Mid<String>[]>` gives `Mid[]` |
| `Examples.ObjectFallbacks` | common/src/main/java/io/netty/util/internal/TypeParameterMatcher.java:125-157 | a raw superclass, and an anonymous class binding a generic method's variable, give Object |
| `Examples.Exceptions` | common/src/main/java/io/netty/util/internal/TypeParameterMatcher.java:118-173 | a name Base does not declare throws "unknown type parameter"; an ancestor off the chain makes `fail` throw |
| `Examples.ResolvedMatchers` | common/src/main/java/io/netty/util/internal/TypeParameterMatcher.java:192-197 | String's matcher rejects Integer and null; `Integer[]`'s rejects Integer; `Object[]`'s accepts `Integer[]`; NOOP accepts null |
| `Examples.LeafHandler` | common/src/main/java/io/netty/util/internal/TypeParameterMatcher.java:76-88 | a Leaf handler gets String's matcher; a later `find` with another superclass is a hit, though find0 would throw for it |
| `Examples.NestedRestartsForever` | common/src/main/java/io/netty/util/internal/TypeParameterMatcher.java:150-162 | for `Outer<T> { class Inner extends Outer<T> }`, a pass from Inner for Outer's T restarts with Outer's T, the same state, and the hierarchy has an ancestor variable |
| `Examples.NestedContextGets` | common/src/main/java/io/netty/util/internal/TypeParameterMatcher.java:37-55 | a program holding such a nested class still has a context: two `get` calls for Outer both return Outer's ReflectiveMatcher, and afterwards the get-cache holds that one entry and the find-cache is empty |
| `Examples.EnclosingRestartEnds` | common/src/main/java/io/netty/util/internal/TypeParameterMatcher.java:150-162 | for `A<T> { B<U> extends A<String> { C extends B<T> } }`, which has an ancestor variable, find0 for B's U from C restarts once with A's T and then returns String |

## Left out

- The thread-local storage that supplies the two maps (`InternalThreadLocalMap`, lines 39-40 and 71-72) is not part of this model. Each execution context is an explicit `MatcherCache` object instead.
- Java reflection is not modelled. The class table stands in for `getSuperclass`, `getTypeParameters`, `getGenericSuperclass`, `getActualTypeArguments`, `isAssignableFrom` and `isInstance`.
- Interfaces and primitive classes are left out. Every class other than Object has a superclass, and assignability follows the superclass chain and array covariance only. find0's walk follows superclasses only. A type variable declared by an interface is not modelled. On such a variable, line 161 tests `isAssignableFrom` against the interface, and the restart that follows can throw at line 172.
- `Array.newInstance(c, 0).getClass()` (line 146) is the value `ArrayOf(c)`. No allocation is modelled.
- Exception message text (lines 119-120, 178-179) is left out. The two failures carry only the name and the class that their messages mention.
- Object identity is left out. Matchers are values, so "the same matcher instance" is modelled as "the same stored value".
- `find` takes the object's class rather than the object. A null object, which would make `getClass` throw, is not modelled.
- A null `parametrizedSuperclass` is not modelled. The walk would reach Object, whose superclass is null too (line 107), and line 110 would throw NullPointerException rather than IllegalStateException.
- A null `typeParamName` is not modelled. Once the ancestor is reached, it would throw NullPointerException at line 112 when the ancestor declares at least one type parameter. Otherwise the loop at lines 111-116 does not run, and line 119 throws IllegalStateException for the name 'null'.
- Resolver.Find0: requires that no class of the whole table pass to its superclass a type variable declared by one of its own proper superclasses (`NoAncestorVariables`). The Java loop does not demand this. The condition is sufficient for the loop to end, not necessary. It excludes every hierarchy on which the loop spins, such as `Examples.NestedRestartsForever`, where find0 never returns. It also excludes some hierarchies on which the loop ends, such as `Examples.EnclosingRestartEnds`. Because it is about the whole table, one such class anywhere leaves every query on that table unmodelled, including queries that never reach it. Non-termination is not modelled.
- MatcherCaches.MatcherCache.Find: requires the same condition as `Find0`, for the same reason. The constructor and `Get` do not need it.
- Concurrency is left out. Each context's maps are used sequentially.

