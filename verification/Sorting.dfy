/** Sorting by a total order on keys, and why sorting a set of keys has one answer. */
module Sorting {
  import opened CodeUnits

  predicate SortedBy<T>(xs: seq<T>, key: T -> Text) {
    |xs| <= 1 || (AtMost(key(xs[0]), key(xs[1])) && SortedBy(xs[1..], key))
  }

  function Insert<T>(x: T, xs: seq<T>, key: T -> Text): seq<T> {
    if xs == [] || AtMost(key(x), key(xs[0])) then [x] + xs
    else [xs[0]] + Insert(x, xs[1..], key)
  }

  function Sort<T>(xs: seq<T>, key: T -> Text): seq<T> {
    if xs == [] then [] else Insert(xs[0], Sort(xs[1..], key), key)
  }

  /** Neighbours in order means every pair is in order. */
  lemma {:induction false} SortedPairs<T>(xs: seq<T>, key: T -> Text, i: nat, j: nat)
    requires SortedBy(xs, key) && i <= j < |xs|
    ensures AtMost(key(xs[i]), key(xs[j]))
  {
    if i == j {
      LessTrichotomy(key(xs[i]), key(xs[i]));
    } else if i > 0 {
      SortedPairs(xs[1..], key, i - 1, j - 1);
    } else {
      SortedPairs(xs[1..], key, 0, j - 1);
      AtMostTransitive(key(xs[0]), key(xs[1]), key(xs[j]));
    }
  }

  lemma {:induction false} InsertSorted<T>(x: T, xs: seq<T>, key: T -> Text)
    requires SortedBy(xs, key)
    ensures SortedBy(Insert(x, xs, key), key)
    ensures Insert(x, xs, key)[0] == x || (xs != [] && Insert(x, xs, key)[0] == xs[0])
  {
    if xs != [] && !AtMost(key(x), key(xs[0])) {
      LessTrichotomy(key(x), key(xs[0]));
      InsertSorted(x, xs[1..], key);
    }
  }

  lemma {:induction false} InsertContents<T>(x: T, xs: seq<T>, key: T -> Text)
    ensures multiset(Insert(x, xs, key)) == multiset(xs) + multiset{x}
  {
    if xs != [] {
      assert xs == [xs[0]] + xs[1..];
      if !AtMost(key(x), key(xs[0])) {
        InsertContents(x, xs[1..], key);
      }
    }
  }

  lemma {:induction false} SortFacts<T>(xs: seq<T>, key: T -> Text)
    ensures SortedBy(Sort(xs, key), key)
    ensures multiset(Sort(xs, key)) == multiset(xs)
  {
    if xs != [] {
      SortFacts(xs[1..], key);
      InsertSorted(xs[0], Sort(xs[1..], key), key);
      InsertContents(xs[0], Sort(xs[1..], key), key);
      assert xs == [xs[0]] + xs[1..];
    }
  }

  lemma {:induction false} SortMembers<T>(xs: seq<T>, key: T -> Text)
    ensures |Sort(xs, key)| == |xs|
    ensures forall x :: x in Sort(xs, key) <==> x in xs
  {
    SortFacts(xs, key);
    assert |multiset(Sort(xs, key))| == |multiset(xs)|;
    forall x ensures x in Sort(xs, key) <==> x in xs {
      assert x in multiset(Sort(xs, key)) <==> x in multiset(xs);
    }
  }

  /** Two strictly sorted lists with the same members are the same list. */
  lemma {:induction false} StrictlySortedUnique(xs: seq<Text>, ys: seq<Text>)
    requires StrictlySorted(xs) && StrictlySorted(ys)
    requires forall x :: x in xs <==> x in ys
    ensures xs == ys
  {
    assert xs != [] ==> xs[0] in ys;
    assert ys != [] ==> ys[0] in xs;
    if xs != [] && ys != [] {
      StrictHead(xs);
      StrictHead(ys);
      LessTrichotomy(xs[0], ys[0]);
      assert xs == [xs[0]] + xs[1..] && ys == [ys[0]] + ys[1..];
      forall x ensures x in xs[1..] <==> x in ys[1..] {
        assert x in xs <==> x in ys;
      }
      StrictlySortedUnique(xs[1..], ys[1..]);
    }
  }

  predicate StrictlySorted(xs: seq<Text>) {
    |xs| <= 1 || (Less(xs[0], xs[1]) && StrictlySorted(xs[1..]))
  }

  lemma {:induction false} StrictHead(xs: seq<Text>)
    requires StrictlySorted(xs) && xs != []
    ensures forall x | x in xs[1..] :: Less(xs[0], x)
    ensures xs[0] !in xs[1..]
  {
    LessTrichotomy(xs[0], xs[0]);
    if |xs| > 1 {
      StrictHead(xs[1..]);
      forall x | x in xs[1..] ensures Less(xs[0], x) {
        if x != xs[1] {
          assert xs[1..] == [xs[1]] + xs[2..];
          LessTransitive(xs[0], xs[1], x);
        }
      }
    }
  }

  lemma {:induction false} LessTransitive(a: Text, b: Text, c: Text)
    requires Less(a, b) && Less(b, c)
    ensures Less(a, c)
  {
    if a != [] && b[0] == a[0] && c[0] == a[0] {
      LessTransitive(a[1..], b[1..], c[1..]);
    }
  }

  // ---------------------------------------------------------------------------
  // Sorting distinct texts
  // ---------------------------------------------------------------------------

  function Itself(t: Text): Text { t }

  predicate NoRepeats(xs: seq<Text>) {
    forall i, j | 0 <= i < j < |xs| :: xs[i] != xs[j]
  }

  lemma {:induction false} InsertStrict(x: Text, xs: seq<Text>)
    requires StrictlySorted(xs) && x !in xs
    ensures StrictlySorted(Insert(x, xs, Itself))
    ensures forall y :: y in Insert(x, xs, Itself) <==> y == x || y in xs
    ensures Insert(x, xs, Itself)[0] == x || (xs != [] && Insert(x, xs, Itself)[0] == xs[0])
  {
    if xs != [] {
      LessTrichotomy(x, xs[0]);
      assert xs == [xs[0]] + xs[1..];
      if !AtMost(x, xs[0]) {
        InsertStrict(x, xs[1..]);
      }
    }
  }

  lemma {:induction false} SortStrict(xs: seq<Text>)
    requires NoRepeats(xs)
    ensures StrictlySorted(Sort(xs, Itself))
    ensures forall y :: y in Sort(xs, Itself) <==> y in xs
  {
    if xs != [] {
      SortStrict(xs[1..]);
      InsertStrict(xs[0], Sort(xs[1..], Itself));
      assert xs == [xs[0]] + xs[1..];
    }
  }
}
