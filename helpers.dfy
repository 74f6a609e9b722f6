/** The optional-chaining helpers `opt`, `opt2` and `coalesce`. */
module Helpers {

  import opened Wrappers

  /** `obj?.[property]`: `None` exactly when the object is absent. */
  function Opt<T, U>(obj: Option<T>, property: T -> U): (r: Option<U>)
    ensures r.Some? <==> obj.Some?
    ensures r.Some? ==> r.value == property(obj.value)
  {
    if obj.None? then None else Some(property(obj.value))
  }

  /**
   * `obj?.[property1]?.[property2]`: `None` when the object or its first
   * property is absent.
   */
  function Opt2<T, U, V>(obj: Option<T>, property1: T -> Option<U>, property2: U -> V): (r: Option<V>)
    ensures r.Some? <==> obj.Some? && property1(obj.value).Some?
    ensures r.Some? ==> r.value == property2(property1(obj.value).value)
  {
    if obj.None? || property1(obj.value).None? then None
    else Some(property2(property1(obj.value).value))
  }

  /** `left ?? right`. */
  function Coalesce<T>(left: Option<T>, right: T): (r: T)
    ensures left.Some? ==> r == left.value
    ensures left.None? ==> r == right
  {
    if left.Some? then left.value else right
  }

  function Join<T>(o: Option<Option<T>>): Option<T> {
    if o.Some? then o.value else None
  }

  /** `opt2` is two `opt` steps with the nested absence collapsed. */
  lemma Opt2IsChainedOpt<T, U, V>(obj: Option<T>, property1: T -> Option<U>, property2: U -> V)
    ensures Opt2(obj, property1, property2) == Opt(Join(Opt(obj, property1)), property2)
  {
  }
}
