/** What several components need and none of them owns. */
module Wrappers {

  datatype Option<T> = None | Some(value: T)

  function Min(x: nat, y: nat): nat { if x < y then x else y }

  lemma {:induction false} Associative<T>(a: seq<T>, b: seq<T>, c: seq<T>)
    ensures a + b + c == a + (b + c)
  {
  }
}
