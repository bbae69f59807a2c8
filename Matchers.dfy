/** The two kinds of matcher: the shared NOOP matcher that accepts every message, and the
    ReflectiveMatcher that accepts the instances of one class. */
module Matchers {
  import opened ClassTable

  /** A message handed to `match`: null, or an object of some runtime class. */
  datatype Value = Null | Instance(runtimeClass: Class)

  datatype Matcher = Noop | Reflective(matchedType: Class)

  /** The message's class, if any, is loaded. */
  predicate Loaded(t: Table, msg: Value) {
    msg.Instance? ==> t.Has(msg.runtimeClass)
  }

  /** `match(msg)`: NOOP answers true; a ReflectiveMatcher answers `type.isInstance(msg)`,
      which is false for null. So null is accepted by NOOP alone, and an object always by the
      matcher of its own class. */
  predicate Match(t: Table, m: Matcher, msg: Value)
    requires WellFormed(t) && Loaded(t, msg)
    ensures msg.Null? ==> (Match(t, m, msg) <==> m.Noop?)
    ensures msg.Instance? && m == Reflective(msg.runtimeClass) ==> Match(t, m, msg)
  {
    match m
    case Noop => true
    case Reflective(c) => msg.Instance? && IsAssignable(t, msg.runtimeClass, c)
  }

  /** The matcher that `get` creates for a class it has not seen: the shared NOOP for Object
      only, and otherwise a ReflectiveMatcher of that very class. */
  function MatcherFor(c: Class): (m: Matcher)
    ensures m.Noop? <==> c == Object
    ensures m.Reflective? ==> m.matchedType == c
  {
    if c == Object then Noop else Reflective(c)
  }

  /** The matcher for `c` accepts exactly the instances of `c` and of its subclasses; null is
      accepted only by Object's matcher, which is NOOP. */
  lemma MatcherForMatches(t: Table, c: Class, msg: Value)
    requires WellFormed(t) && Loaded(t, msg)
    ensures MatcherFor(c).Noop? <==> c == Object
    ensures Match(t, MatcherFor(c), msg) <==>
              (msg.Null? && c == Object) || (msg.Instance? && IsAssignable(t, msg.runtimeClass, c))
  {
    if msg.Instance? {
      AssignableToObject(t, msg.runtimeClass);
    }
  }
}
