/** Facts about sequences shared by the other modules. */
module Sequences {

  /** A sequence with one element taken out. */
  function Without<T>(s: seq<T>, at: nat): seq<T>
    requires at < |s|
  {
    s[..at] + s[at + 1..]
  }

  lemma Associative<T>(a: seq<T>, b: seq<T>, c: seq<T>)
    ensures a + (b + c) == a + b + c
  {
  }

  /** Moving the first element over to what is done keeps the whole. */
  lemma MoveFirst<T>(done: seq<T>, more: seq<T>)
    requires more != []
    ensures done + [more[0]] + more[1..] == done + more
  {
  }

  lemma NothingLeft<T>(done: seq<T>)
    ensures done + [] == done && [] + done == done
  {
  }
}
