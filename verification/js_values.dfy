/** The one piece of JavaScript dynamic typing the tables care about: a prop
    that should be an array but may be anything. */
module JsValues {

  /** A JavaScript value seen only as "an array of `T`" or "something else"
      (`undefined`, `null`, an object, a string, ...). */
  datatype JsVal<T> = Arr(elems: seq<T>) | NonArray

  /** `arrayDebug`: an array is returned as it is, anything else becomes []. */
  function ArrayDebug<T>(v: JsVal<T>): (r: seq<T>)
    ensures v.Arr? ==> r == v.elems
    ensures v.NonArray? ==> r == []
  {
    match v
    case Arr(xs) => xs
    case NonArray => []
  }

  /** Normalising twice is normalising once. */
  lemma ArrayDebugIdempotent<T>(v: JsVal<T>)
    ensures ArrayDebug(Arr(ArrayDebug(v))) == ArrayDebug(v)
  {
  }

  /** The normalised value is empty exactly for non-arrays and empty arrays. */
  lemma ArrayDebugEmpty<T>(v: JsVal<T>)
    ensures ArrayDebug(v) == [] <==> (v.NonArray? || v.elems == [])
  {
  }
}
