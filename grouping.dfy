/** Grouping the input signals by category, as the dashboard's `reduce`
    does: a dictionary of buckets, each filled in scan order, whose keys are
    enumerated in insertion order. */
module Grouping {
  import opened Signals
  import opened Seqs

  predicate NoDuplicates(keys: seq<string>) {
    forall i, j :: 0 <= i < j < |keys| ==> keys[i] != keys[j]
  }

  predicate HasCategory(signals: seq<Signal>, c: string) {
    exists i :: 0 <= i < |signals| && signals[i].category == c
  }

  /** The distinct categories of `signals`, in order of first occurrence:
      the key order of the dictionary the reduce builds. */
  function Categories(signals: seq<Signal>): (keys: seq<string>)
    ensures forall c :: c in keys <==> HasCategory(signals, c)
    ensures NoDuplicates(keys)
  {
    if signals == [] then []
    else
      var prefix := signals[..|signals| - 1];
      var prev := Categories(prefix);
      var c := signals[|signals| - 1].category;
      assert forall d :: HasCategory(prefix, d) ==> HasCategory(signals, d) by {
        forall d | HasCategory(prefix, d) ensures HasCategory(signals, d) {
          var i :| 0 <= i < |prefix| && prefix[i].category == d;
          assert signals[i] == prefix[i];
        }
      }
      assert forall d :: HasCategory(signals, d) ==> HasCategory(prefix, d) || d == c by {
        forall d | HasCategory(signals, d) ensures HasCategory(prefix, d) || d == c {
          var i :| 0 <= i < |signals| && signals[i].category == d;
          if i < |prefix| { assert prefix[i] == signals[i]; }
        }
      }
      assert HasCategory(signals, c) by { assert signals[|signals| - 1].category == c; }
      if c in prev then prev else prev + [c]
  }

  /** The bucket of category `c`: the signals of that category, in scan order. */
  function Bucket(signals: seq<Signal>, c: string): (r: seq<Signal>)
    ensures forall s :: s in r <==> s in signals && s.category == c
  {
    if signals == [] then []
    else
      var last := signals[|signals| - 1];
      assert signals == signals[..|signals| - 1] + [last];
      Bucket(signals[..|signals| - 1], c) + (if last.category == c then [last] else [])
  }

  /** The reduce: scan the signals once, creating an empty bucket the first
      time a category is seen and appending each signal to its bucket.
      `keys` records the dictionary's insertion order. */
  method GroupByCategory(signals: seq<Signal>) returns (keys: seq<string>, groups: map<string, seq<Signal>>)
    ensures keys == Categories(signals)
    ensures forall c :: c in groups <==> c in keys
    ensures forall c :: c in groups ==> groups[c] == Bucket(signals, c)
  {
    keys, groups := [], map[];
    var i := 0;
    while i < |signals|
      invariant 0 <= i <= |signals|
      invariant Grouped(signals[..i], keys, groups)
    {
      var s := signals[i];
      ghost var keys0, groups0 := keys, groups;
      if s.category !in groups {
        groups := groups[s.category := []];
        keys := keys + [s.category];
      }
      groups := groups[s.category := groups[s.category] + [s]];
      GroupStep(signals[..i], s, keys0, groups0);
      PrefixSnoc(signals, i);
      i := i + 1;
    }
    assert signals[..i] == signals;
  }

  /** `keys` and `groups` are the dictionary the reduce has built from
      `scanned`. */
  ghost predicate Grouped(scanned: seq<Signal>, keys: seq<string>, groups: map<string, seq<Signal>>) {
    && keys == Categories(scanned)
    && (forall c :: c in groups <==> c in keys)
    && (forall c :: c in groups ==> groups[c] == Bucket(scanned, c))
  }

  /** One step of the reduce: create the bucket if it is missing, then
      push the signal into it. */
  lemma GroupStep(scanned: seq<Signal>, s: Signal, keys: seq<string>, groups: map<string, seq<Signal>>)
    requires Grouped(scanned, keys, groups)
    ensures var c := s.category;
            var bucket := if c in groups then groups[c] else [];
            Grouped(scanned + [s], if c in groups then keys else keys + [c], groups[c := bucket + [s]])
  {
    var c := s.category;
    var seen := scanned + [s];
    InitOfSnoc(scanned, s);
    var groups' := groups[c := (if c in groups then groups[c] else []) + [s]];
    forall d | d in groups' ensures groups'[d] == Bucket(seen, d) {
      assert Bucket(seen, d) == Bucket(scanned, d) + (if c == d then [s] else []);
      if d == c && c !in groups {
        BucketOnlyOfPresentCategory(scanned, c);
      }
    }
  }

  // ---------------------------------------------------------------------
  // Properties of the grouping
  // ---------------------------------------------------------------------

  /** Buckets keep scan order: grouping a concatenation concatenates the
      buckets. */
  lemma {:induction false} BucketAppend(a: seq<Signal>, b: seq<Signal>, c: string)
    ensures Bucket(a + b, c) == Bucket(a, c) + Bucket(b, c)
    decreases |b|
  {
    if b == [] {
      assert a + b == a;
    } else {
      var b' := b[..|b| - 1];
      assert (a + b)[..|a + b| - 1] == a + b';
      BucketAppend(a, b', c);
    }
  }

  /** Every input signal lies in the bucket of its own category and in no
      other, and its category is one of the keys. */
  lemma InExactlyOneBucket(signals: seq<Signal>, i: int)
    requires 0 <= i < |signals|
    ensures signals[i].category in Categories(signals)
    ensures forall c :: signals[i] in Bucket(signals, c) <==> c == signals[i].category
  {
    assert HasCategory(signals, signals[i].category);
  }

  /** A category that no signal carries has an empty bucket. */
  lemma BucketOnlyOfPresentCategory(signals: seq<Signal>, c: string)
    ensures Bucket(signals, c) != [] ==> HasCategory(signals, c)
  {
    if Bucket(signals, c) != [] {
      var x := Bucket(signals, c)[0];
      assert x in signals;
      var j :| 0 <= j < |signals| && signals[j] == x;
    }
  }

  /** The sum of the sizes of the buckets named by `keys`. */
  function TotalSize(signals: seq<Signal>, keys: seq<string>): nat {
    if keys == [] then 0 else |Bucket(signals, keys[0])| + TotalSize(signals, keys[1..])
  }

  lemma {:induction false} TotalSizeAppendKey(signals: seq<Signal>, keys: seq<string>, c: string)
    ensures TotalSize(signals, keys + [c]) == TotalSize(signals, keys) + |Bucket(signals, c)|
  {
    if keys != [] {
      assert (keys + [c])[1..] == keys[1..] + [c];
      TotalSizeAppendKey(signals, keys[1..], c);
    }
  }

  /** Appending one signal grows exactly the bucket of its category. */
  lemma {:induction false} TotalSizeAppendSignal(signals: seq<Signal>, s: Signal, keys: seq<string>)
    requires NoDuplicates(keys)
    ensures TotalSize(signals + [s], keys) == TotalSize(signals, keys) + (if s.category in keys then 1 else 0)
  {
    if keys != [] {
      assert (signals + [s])[..|signals + [s]| - 1] == signals;
      assert NoDuplicates(keys[1..]) by {
        forall i, j | 0 <= i < j < |keys[1..]| ensures keys[1..][i] != keys[1..][j] {
          assert keys[1..][i] == keys[i + 1] && keys[1..][j] == keys[j + 1];
        }
      }
      TotalSizeAppendSignal(signals, s, keys[1..]);
      assert s.category in keys <==> s.category == keys[0] || s.category in keys[1..];
      if s.category == keys[0] {
        assert keys[0] !in keys[1..] by {
          forall j | 0 <= j < |keys[1..]| ensures keys[1..][j] != keys[0] {
            assert keys[1..][j] == keys[j + 1];
          }
        }
      }
    }
  }

  /** The bucket sizes add up to the number of input signals: no signal is
      lost or counted twice. */
  lemma {:induction false} BucketSizesSum(signals: seq<Signal>)
    ensures TotalSize(signals, Categories(signals)) == |signals|
    decreases |signals|
  {
    if signals != [] {
      var prefix, s := signals[..|signals| - 1], signals[|signals| - 1];
      assert signals == prefix + [s];
      var keys := Categories(prefix);
      BucketSizesSum(prefix);
      TotalSizeAppendSignal(prefix, s, keys);
      if s.category !in keys {
        TotalSizeAppendKey(signals, keys, s.category);
        BucketOnlyOfPresentCategory(prefix, s.category);
      }
    }
  }

  /** Keys come in first-occurrence order: before any signal of the later
      key there is a signal of the earlier one. */
  lemma {:induction false} CategoriesInFirstOccurrenceOrder(signals: seq<Signal>, a: int, b: int, i: int)
    requires 0 <= a < b < |Categories(signals)|
    requires 0 <= i < |signals| && signals[i].category == Categories(signals)[b]
    ensures exists j :: 0 <= j < i && signals[j].category == Categories(signals)[a]
    decreases |signals|
  {
    var keys := Categories(signals);
    var prefix, s := signals[..|signals| - 1], signals[|signals| - 1];
    var prev := Categories(prefix);
    if i < |signals| - 1 {
      assert prefix[i] == signals[i];
      // keys[b] occurs inside the prefix, so it was already a key there
      assert HasCategory(prefix, keys[b]);
      assert b < |prev|;
      assert prev[a] == keys[a] && prev[b] == keys[b];
      CategoriesInFirstOccurrenceOrder(prefix, a, b, i);
      var j :| 0 <= j < i && prefix[j].category == prev[a];
      assert signals[j] == prefix[j];
    } else {
      if b < |prev| {
        assert HasCategory(prefix, keys[b]);
        var j0 :| 0 <= j0 < |prefix| && prefix[j0].category == keys[b];
        assert prev[a] == keys[a] && prev[b] == keys[b];
        CategoriesInFirstOccurrenceOrder(prefix, a, b, j0);
        var j :| 0 <= j < j0 && prefix[j].category == prev[a];
        assert signals[j] == prefix[j];
      } else {
        assert prev[a] == keys[a];
        assert HasCategory(prefix, keys[a]);
        var j :| 0 <= j < |prefix| && prefix[j].category == keys[a];
        assert signals[j] == prefix[j];
      }
    }
  }
}
