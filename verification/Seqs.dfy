/** Sequence facts stated once for any element type. */
module Seqs {
  lemma ConsAssoc<T>(x: T, a: seq<T>, b: seq<T>)
    ensures ([x] + a) + b == [x] + (a + b)
  {
  }

  lemma ConcatAssoc<T>(a: seq<T>, b: seq<T>, c: seq<T>)
    ensures (a + b) + c == a + (b + c)
  {
  }

  lemma SplitAt<T>(s: seq<T>, m: nat)
    requires m <= |s|
    ensures s[..m] + s[m..] == s
  {
  }

  /** A nonempty first operand gives up its first element. */
  lemma TailConcat<T>(a: seq<T>, b: seq<T>)
    requires a != []
    ensures (a + b)[0] == a[0] && (a + b)[1..] == a[1..] + b
  {
  }

  /** The last element moves over. */
  lemma MoveOver<T>(h: seq<T>, text: seq<T>, n: nat)
    requires n <= |text|
    ensures (h + text[..n]) + text[n..] == h + text
  {
  }

  lemma Suffixes<T>(g: seq<T>, h: seq<T>, e: seq<T>, d: seq<T>)
    requires g <= h <= e
    ensures h[|g|..] + (e[|h|..] + d) == e[|g|..] + d
  {
  }

  /** The first of the remaining elements. */
  lemma TakeFirst<T>(h: seq<T>, n: nat, rest: seq<T>)
    requires n < |h|
    ensures h[n..] + rest == [h[n]] + (h[n + 1..] + rest)
  {
  }
}
