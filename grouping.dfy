/** Grouping a sequence by a key function: the elements that carry one key,
    the set of keys that occur, and how many elements fall under a set of keys.
    Both components group rows by their parsed year, and the analytics
    component groups one year's rows again by job title. */
module Grouping {

  /** The first `i + 1` elements are the first `i` and then element `i`. */
  lemma TakeOneMore<T>(xs: seq<T>, i: nat)
    requires i < |xs|
    ensures xs[..i + 1] == xs[..i] + [xs[i]]
  {
  }

  /** The elements of `xs` whose key is `k`, in their original order. */
  function Group<T, K(==)>(xs: seq<T>, key: T -> K, k: K): (g: seq<T>)
    ensures |g| <= |xs|
  {
    if xs == [] then []
    else
      var last := xs[|xs| - 1];
      Group(xs[..|xs| - 1], key, k) + (if key(last) == k then [last] else [])
  }

  /** The keys that occur in `xs`. */
  function KeySet<T, K(==)>(xs: seq<T>, key: T -> K): set<K>
  {
    if xs == [] then {}
    else KeySet(xs[..|xs| - 1], key) + {key(xs[|xs| - 1])}
  }

  /** How many elements of `xs` have a key in `ks`. */
  function CountIn<T, K(==)>(xs: seq<T>, key: T -> K, ks: set<K>): (n: nat)
    ensures n <= |xs|
  {
    if xs == [] then 0
    else CountIn(xs[..|xs| - 1], key, ks) + (if key(xs[|xs| - 1]) in ks then 1 else 0)
  }

  /** The elements of `s`, each once, in an unspecified order. */
  ghost function Enumerate<K(!new)>(s: set<K>): (xs: seq<K>)
    ensures forall k :: k in s <==> k in xs
    ensures forall i, j :: 0 <= i < j < |xs| ==> xs[i] != xs[j]
  {
    if s == {} then []
    else
      var k :| k in s;
      [k] + Enumerate(s - {k})
  }

  function Sum(s: seq<nat>): nat
  {
    if s == [] then 0 else Sum(s[..|s| - 1]) + s[|s| - 1]
  }

  /** The group of `k` holds exactly the elements whose key is `k`. */
  lemma {:induction false} GroupMembers<T, K>(xs: seq<T>, key: T -> K, k: K)
    ensures forall i :: 0 <= i < |Group(xs, key, k)| ==>
              Group(xs, key, k)[i] in xs && key(Group(xs, key, k)[i]) == k
    ensures forall i :: 0 <= i < |xs| && key(xs[i]) == k ==> xs[i] in Group(xs, key, k)
  {
    if xs != [] {
      var n := |xs| - 1;
      GroupMembers(xs[..n], key, k);
      assert xs == xs[..n] + [xs[n]];
    }
  }

  /** The keys that occur are exactly the keys of the elements. */
  lemma {:induction false} KeySetMembers<T, K>(xs: seq<T>, key: T -> K)
    ensures forall i :: 0 <= i < |xs| ==> key(xs[i]) in KeySet(xs, key)
    ensures forall k :: k in KeySet(xs, key) ==> exists i :: 0 <= i < |xs| && key(xs[i]) == k
  {
    if xs != [] {
      var n := |xs| - 1;
      KeySetMembers(xs[..n], key);
      forall k | k in KeySet(xs, key)
        ensures exists i :: 0 <= i < |xs| && key(xs[i]) == k
      {
        if k != key(xs[n]) {
          var i :| 0 <= i < n && key(xs[..n][i]) == k;
          assert key(xs[i]) == k;
        }
      }
    }
  }

  /** Appending one element changes only the group of its own key. */
  lemma AppendOne<T, K>(xs: seq<T>, x: T, key: T -> K)
    ensures forall k :: Group(xs + [x], key, k) == Group(xs, key, k) + (if key(x) == k then [x] else [])
  {
    assert (xs + [x])[..|xs|] == xs;
  }

  /** Appending one element adds its key to the keys that occur. */
  lemma KeySetAppend<T, K>(xs: seq<T>, x: T, key: T -> K)
    ensures KeySet(xs + [x], key) == KeySet(xs, key) + {key(x)}
  {
    assert (xs + [x])[..|xs|] == xs;
  }

  /** When every element has key `k`, the group of `k` is everything and `k`
      is the only key. */
  lemma {:induction false} GroupOfAll<T, K>(xs: seq<T>, key: T -> K, k: K)
    requires xs != []
    requires forall x :: x in xs ==> key(x) == k
    ensures Group(xs, key, k) == xs
    ensures KeySet(xs, key) == {k}
  {
    var n := |xs| - 1;
    var init := xs[..n];
    assert xs == init + [xs[n]];
    if n == 0 {
      assert init == [];
    } else {
      assert forall x :: x in init ==> x in xs;
      GroupOfAll(init, key, k);
    }
  }

  /** A key has a non-empty group exactly when it occurs. */
  lemma {:induction false} GroupNonEmpty<T, K>(xs: seq<T>, key: T -> K, k: K)
    ensures |Group(xs, key, k)| > 0 <==> k in KeySet(xs, key)
  {
    if xs != [] {
      GroupNonEmpty(xs[..|xs| - 1], key, k);
    }
  }

  /** Counting under one more key adds the size of that key's group. */
  lemma {:induction false} CountInSplit<T, K>(xs: seq<T>, key: T -> K, ks: set<K>, k: K)
    requires k !in ks
    ensures CountIn(xs, key, ks + {k}) == CountIn(xs, key, ks) + |Group(xs, key, k)|
  {
    if xs != [] {
      CountInSplit(xs[..|xs| - 1], key, ks, k);
    }
  }

  /** Every element is counted exactly when every key that occurs is in `ks`. */
  lemma {:induction false} CountInAll<T, K>(xs: seq<T>, key: T -> K, ks: set<K>)
    ensures CountIn(xs, key, ks) == |xs| <==> KeySet(xs, key) <= ks
  {
    if xs != [] {
      CountInAll(xs[..|xs| - 1], key, ks);
    }
  }

  /** The sizes of the groups of distinct keys add up to the number of
      elements whose key is among them. */
  lemma {:induction false} GroupSizesAddUp<T, K>(xs: seq<T>, key: T -> K, ks: seq<K>, sizes: seq<nat>, keys: set<K>)
    requires |sizes| == |ks|
    requires forall i, j :: 0 <= i < j < |ks| ==> ks[i] != ks[j]
    requires forall i :: 0 <= i < |ks| ==> sizes[i] == |Group(xs, key, ks[i])|
    requires forall k :: k in keys <==> k in ks
    ensures Sum(sizes) == CountIn(xs, key, keys)
  {
    if ks == [] {
      assert keys == {};
      CountInNone(xs, key);
    } else {
      var n := |ks| - 1;
      var earlier := keys - {ks[n]};
      forall k | k in earlier
        ensures k in ks[..n]
      {
        var i :| 0 <= i < |ks| && ks[i] == k;
      }
      GroupSizesAddUp(xs, key, ks[..n], sizes[..n], earlier);
      assert keys == earlier + {ks[n]};
      CountInSplit(xs, key, earlier, ks[n]);
    }
  }

  lemma {:induction false} CountInNone<T, K>(xs: seq<T>, key: T -> K)
    ensures CountIn(xs, key, {}) == 0
  {
    if xs != [] {
      CountInNone(xs[..|xs| - 1], key);
    }
  }

  /** Keeping only some elements keeps them distinct under `f`. */
  lemma {:induction false} GroupDistinct<T, K, U>(xs: seq<T>, key: T -> K, k: K, f: T -> U)
    requires forall i, j :: 0 <= i < j < |xs| ==> f(xs[i]) != f(xs[j])
    ensures forall i, j :: 0 <= i < j < |Group(xs, key, k)| ==> f(Group(xs, key, k)[i]) != f(Group(xs, key, k)[j])
  {
    if xs != [] {
      var n := |xs| - 1;
      var g := Group(xs[..n], key, k);
      GroupDistinct(xs[..n], key, k, f);
      GroupMembers(xs[..n], key, k);
      forall i | 0 <= i < |g|
        ensures f(g[i]) != f(xs[n])
      {
        var j :| 0 <= j < n && xs[..n][j] == g[i];
      }
    }
  }
}
