/**
 * Generic facts about sequence concatenation, stated once so that proofs
 * about the model can cite them instead of re-deriving them by
 * extensionality in a context full of other definitions.
 */
module Seqs {
  lemma ConcatEmpty<T>(x: seq<T>)
    ensures x + [] == x
  {
  }

  lemma InitSnocLast<T>(x: seq<T>)
    requires x != []
    ensures x[..|x| - 1] + [x[|x| - 1]] == x
  {
  }

  lemma ConcatAssoc<T>(x: seq<T>, y: seq<T>, z: seq<T>)
    ensures (x + y) + z == x + (y + z)
  {
  }

  lemma ConcatAssoc4<T>(w: seq<T>, x: seq<T>, y: seq<T>, z: seq<T>)
    ensures w + x + y + z == w + (x + (y + z))
  {
  }

  lemma ConcatAssoc5<T>(v: seq<T>, w: seq<T>, x: seq<T>, y: seq<T>, z: seq<T>)
    ensures v + w + x + y + z == v + (w + (x + (y + z)))
  {
  }

  lemma PairOf<T>(s: seq<T>)
    requires |s| == 2
    ensures s == [s[0], s[1]]
  {
  }

  lemma SingletonsConcat<T>(x: T, y: T)
    ensures [x] + [y] == [x, y]
  {
  }
}
