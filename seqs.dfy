/** Facts about the shape of sequences: splitting at an index, updating,
    dropping and taking prefixes. Each is proved on its own so the proofs
    that use them need not rediscover sequence equality. */
module Seqs {

  lemma SplitAt<T>(xs: seq<T>, p: int)
    requires 0 <= p < |xs|
    ensures xs == xs[..p] + [xs[p]] + xs[p + 1..]
  {
  }

  lemma UpdateSplit<T>(xs: seq<T>, p: int, y: T)
    requires 0 <= p < |xs|
    ensures xs[p := y] == xs[..p] + [y] + xs[p + 1..]
  {
  }

  lemma DropAppend<T>(a: seq<T>, b: seq<T>)
    requires a != []
    ensures (a + b)[1..] == a[1..] + b
  {
  }

  lemma InitOfSnoc<T>(a: seq<T>, x: T)
    ensures (a + [x])[..|a|] == a
  {
  }

  lemma PrefixSnoc<T>(xs: seq<T>, i: int)
    requires 0 <= i < |xs|
    ensures xs[..i + 1] == xs[..i] + [xs[i]]
  {
  }

  lemma UpdateAfter<T>(head: seq<T>, xs: seq<T>, i: int, y: T)
    requires 0 <= i < |xs|
    ensures (head + xs)[|head| + i := y] == head + xs[i := y]
  {
  }
}
