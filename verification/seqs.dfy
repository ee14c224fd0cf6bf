/** Sequences read from the right: all but the last element, and the last element. */
module Seqs {

  function ButLast<T>(s: seq<T>): seq<T>
    requires s != []
  {
    s[..|s| - 1]
  }

  function Last<T>(s: seq<T>): T
    requires s != []
  {
    s[|s| - 1]
  }

  lemma ConcatParts<T>(a: seq<T>, b: seq<T>)
    requires b != []
    ensures ButLast(a + b) == a + ButLast(b) && Last(a + b) == Last(b)
  {
  }

  lemma Regroup<T>(a: seq<T>, b: seq<T>, c: seq<T>)
    ensures a + (b + c) == (a + b) + c
  {
  }

  lemma AppendParts<T>(s: seq<T>, x: T)
    ensures ButLast(s + [x]) == s && Last(s + [x]) == x
  {
  }

  lemma Rejoined<T>(s: seq<T>)
    requires s != []
    ensures ButLast(s) + [Last(s)] == s && Last(s) in s
    ensures forall i :: 0 <= i < |ButLast(s)| ==> ButLast(s)[i] == s[i]
  {
  }
}
