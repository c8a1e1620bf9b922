/** Small facts about lists that several modules need. */
module Lists {

  lemma Regroup<T>(a: seq<T>, b: seq<T>, c: seq<T>)
    ensures a + (b + c) == (a + b) + c
  {
  }

  /** One element, or none. */
  function If<T>(here: bool, x: T): seq<T> { if here then [x] else [] }
}
