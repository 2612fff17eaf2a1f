module Sequences {

  function SetOf<T(==)>(s: seq<T>): set<T> {
    set x | x in s
  }

  lemma Reassociate<T>(a: seq<T>, b: seq<T>, c: seq<T>)
    ensures a + (b + c) == a + b + c && a + [] == a
  {
  }
}
