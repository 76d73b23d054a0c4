/** Index sequences as numpy uses them for fancy indexing: permutations,
    gathering (`a[indx]`), inverses, the free indices left after a partial
    assignment, and a stable argsort. */
module Permutations {

  predicate Below(p: seq<nat>, n: nat) {
    forall i :: 0 <= i < |p| ==> p[i] < n
  }

  predicate Distinct(p: seq<nat>) {
    forall i, j :: 0 <= i < j < |p| ==> p[i] != p[j]
  }

  /** p lists each of 0 .. n-1 exactly once. */
  predicate IsPermutation(p: seq<nat>, n: nat) {
    |p| == n && Below(p, n) && Distinct(p)
  }

  function Identity(n: nat): (p: seq<nat>)
    ensures |p| == n && forall i :: 0 <= i < n ==> p[i] == i
  {
    seq(n, i => i)
  }

  /** numpy's `s[p]`: entry i of the result is entry p[i] of s. */
  function Gather<T>(s: seq<T>, p: seq<nat>): (r: seq<T>)
    requires Below(p, |s|)
    ensures |r| == |p|
    ensures forall i :: 0 <= i < |p| ==> r[i] == s[p[i]]
  {
    seq(|p|, i requires 0 <= i < |p| => s[p[i]])
  }

  function Reverse(p: seq<nat>): (r: seq<nat>)
    ensures |r| == |p|
    ensures forall i :: 0 <= i < |p| ==> r[i] == p[|p| - 1 - i]
  {
    seq(|p|, i requires 0 <= i < |p| => p[|p| - 1 - i])
  }

  lemma IdentityIsPermutation(n: nat)
    ensures IsPermutation(Identity(n), n)
  {
  }

  lemma ReversePermutation(p: seq<nat>, n: nat)
    requires IsPermutation(p, n)
    ensures IsPermutation(Reverse(p), n)
  {
  }

  // ---------------------------------------------------------------------
  // Free indices: what remains of 0 .. n-1 once `used` has been taken.

  /** The number of indices below n that do not occur in `used`. */
  function CountFree(n: nat, used: seq<nat>): nat
    decreases n
  {
    if n == 0 then 0 else CountFree(n - 1, used) + (if n - 1 in used then 0 else 1)
  }

  /** The indices below n that do not occur in `used`, in increasing order. */
  function FreeIndices(n: nat, used: seq<nat>): (r: seq<nat>)
    ensures |r| == CountFree(n, used)
    ensures Below(r, n)
    ensures forall i :: 0 <= i < |r| ==> r[i] !in used
    ensures forall j: nat :: j < n && j !in used ==> j in r
    ensures forall a, b :: 0 <= a < b < |r| ==> r[a] < r[b]
    decreases n
  {
    if n == 0 then []
    else
      var rest := FreeIndices(n - 1, used);
      if n - 1 in used then rest else rest + [n - 1]
  }

  lemma {:induction false} CountFreeOfNothing(n: nat)
    ensures CountFree(n, []) == n
    decreases n
  {
    if n > 0 {
      CountFreeOfNothing(n - 1);
    }
  }

  /** Taking an index at or above n does not change what is free below n. */
  lemma {:induction false} CountFreeIgnoresHigh(n: nat, used: seq<nat>, u: nat)
    requires n <= u
    ensures CountFree(n, used + [u]) == CountFree(n, used)
    decreases n
  {
    if n > 0 {
      CountFreeIgnoresHigh(n - 1, used, u);
      assert (n - 1 in used + [u]) <==> (n - 1 in used);
    }
  }

  /** Taking a free index below n leaves one fewer free index. */
  lemma {:induction false} CountFreeTake(n: nat, used: seq<nat>, u: nat)
    requires u < n && u !in used
    ensures CountFree(n, used + [u]) + 1 == CountFree(n, used)
    decreases n
  {
    if u == n - 1 {
      CountFreeIgnoresHigh(n - 1, used, u);
    } else {
      CountFreeTake(n - 1, used, u);
      assert (n - 1 in used + [u]) <==> (n - 1 in used);
    }
  }

  /** n distinct indices below n leave exactly n - |used| free. */
  lemma {:induction false} CountFreeExact(n: nat, used: seq<nat>)
    requires Below(used, n) && Distinct(used)
    ensures CountFree(n, used) + |used| == n
    decreases |used|
  {
    if |used| == 0 {
      CountFreeOfNothing(n);
    } else {
      var front := used[..|used| - 1];
      var u := used[|used| - 1];
      assert used == front + [u];
      CountFreeExact(n, front);
      CountFreeTake(n, front, u);
    }
  }

  /** A permutation of 0 .. n-1 takes every index below n. */
  lemma PermutationCovers(p: seq<nat>, n: nat)
    requires IsPermutation(p, n)
    ensures forall j: nat :: j < n ==> j in p
  {
    CountFreeExact(n, p);
    var free := FreeIndices(n, p);
    assert |free| == 0;
  }

  // ---------------------------------------------------------------------
  // Inverse permutation

  function IndexOf(p: seq<nat>, j: nat): (i: nat)
    requires j in p
    ensures i < |p| && p[i] == j
    ensures forall i' :: 0 <= i' < i ==> p[i'] != j
    decreases |p|
  {
    if p[0] == j then 0 else 1 + IndexOf(p[1..], j)
  }

  function Inverse(p: seq<nat>): (q: seq<nat>)
    requires IsPermutation(p, |p|)
    ensures IsPermutation(q, |p|)
    ensures forall i :: 0 <= i < |p| ==> q[p[i]] == i
    ensures forall j :: 0 <= j < |p| ==> p[q[j]] == j
  {
    PermutationCovers(p, |p|);
    var q := seq(|p|, j requires 0 <= j < |p| => IndexOf(p, j));
    assert forall i :: 0 <= i < |p| ==> q[p[i]] == i by {
      forall i | 0 <= i < |p|
        ensures q[p[i]] == i
      {
        var k := IndexOf(p, p[i]);
        assert p[k] == p[i];
      }
    }
    q
  }

  // ---------------------------------------------------------------------
  // Argsort

  /** p lists indices of keys whose keys never decrease along p. */
  predicate Ascending(keys: seq<real>, p: seq<nat>) {
    Below(p, |keys|) && forall a, b :: 0 <= a < b < |p| ==> keys[p[a]] <= keys[p[b]]
  }

  /** p lists indices of keys whose keys never increase along p. */
  predicate Descending(keys: seq<real>, p: seq<nat>) {
    Below(p, |keys|) && forall a, b :: 0 <= a < b < |p| ==> keys[p[b]] <= keys[p[a]]
  }

  /** Among equal keys, p keeps the original index order. */
  predicate TiesInOrder(keys: seq<real>, p: seq<nat>) {
    Below(p, |keys|) && forall a, b :: 0 <= a < b < |p| && keys[p[a]] == keys[p[b]] ==> p[a] < p[b]
  }

  /** Where index j goes in the ascending list p: after every key not above its own. */
  function InsertPos(keys: seq<real>, p: seq<nat>, j: nat): (k: nat)
    requires Below(p, |keys|) && j < |keys|
    ensures k <= |p|
    ensures forall i :: 0 <= i < k ==> keys[p[i]] <= keys[j]
    ensures Ascending(keys, p) ==> forall i :: k <= i < |p| ==> keys[j] < keys[p[i]]
    decreases |p|
  {
    if |p| == 0 || keys[j] < keys[p[0]] then 0
    else 1 + InsertPos(keys, p[1..], j)
  }

  lemma InsertKeepsOrder(keys: seq<real>, q: seq<nat>, j: nat, k: nat, r: seq<nat>)
    requires j < |keys| && IsPermutation(q, j) && Ascending(keys, q) && TiesInOrder(keys, q)
    requires k <= |q|
    requires forall i :: 0 <= i < k ==> keys[q[i]] <= keys[j]
    requires forall i :: k <= i < |q| ==> keys[j] < keys[q[i]]
    requires r == q[..k] + [j] + q[k..]
    ensures IsPermutation(r, j + 1) && Ascending(keys, r) && TiesInOrder(keys, r)
  {
    assert |r| == j + 1;
    assert forall i :: 0 <= i < |r| ==> r[i] == (if i < k then q[i] else if i == k then j else q[i - 1]);
    assert Below(r, j + 1);
    forall a, b | 0 <= a < b < |r|
      ensures r[a] != r[b]
      ensures keys[r[a]] <= keys[r[b]]
      ensures keys[r[a]] == keys[r[b]] ==> r[a] < r[b]
    {
      if b < k || a > k {
      } else if a < k && b > k {
        assert r[a] == q[a] && r[b] == q[b - 1];
      } else if a == k {
        assert r[b] == q[b - 1];
      } else {
        assert b == k && r[a] == q[a];
      }
    }
  }

  /** A stable ascending argsort of keys[..m]. */
  function ArgsortPrefix(keys: seq<real>, m: nat): (p: seq<nat>)
    requires m <= |keys|
    ensures IsPermutation(p, m) && Ascending(keys, p) && TiesInOrder(keys, p)
    decreases m
  {
    if m == 0 then []
    else
      var q := ArgsortPrefix(keys, m - 1);
      var k := InsertPos(keys, q, m - 1);
      InsertKeepsOrder(keys, q, m - 1, k, q[..k] + [m - 1] + q[k..]);
      q[..k] + [m - 1] + q[k..]
  }

  /** numpy's `np.argsort(keys)[::-1]`: indices by non-increasing key. The
      ascending sort is stable, so after the reversal tied keys appear in
      DECREASING index order. */
  function ArgsortDescending(keys: seq<real>): (p: seq<nat>)
    ensures IsPermutation(p, |keys|)
    ensures Descending(keys, p)
    ensures forall a, b :: 0 <= a < b < |p| && keys[p[a]] == keys[p[b]] ==> p[b] < p[a]
  {
    var asc := ArgsortPrefix(keys, |keys|);
    ReversePermutation(asc, |keys|);
    Reverse(asc)
  }

  /** A strictly increasing permutation is the identity. */
  lemma {:induction false} IncreasingPermutationIsIdentity(p: seq<nat>, n: nat)
    requires IsPermutation(p, n)
    requires forall a, b :: 0 <= a < b < n ==> p[a] < p[b]
    ensures p == Identity(n)
  {
    forall i | 0 <= i < n
      ensures p[i] == i
    {
      AtLeastPosition(p, i);
      AtMostPosition(p, n, i);
    }
  }

  lemma {:induction false} AtLeastPosition(p: seq<nat>, i: nat)
    requires i < |p|
    requires forall a, b :: 0 <= a < b < |p| ==> p[a] < p[b]
    ensures i <= p[i]
    decreases i
  {
    if i > 0 {
      AtLeastPosition(p, i - 1);
    }
  }

  lemma {:induction false} AtMostPosition(p: seq<nat>, n: nat, i: nat)
    requires i < |p| == n && Below(p, n)
    requires forall a, b :: 0 <= a < b < |p| ==> p[a] < p[b]
    ensures p[i] <= i
    decreases n - i
  {
    if i + 1 < n {
      AtMostPosition(p, n, i + 1);
    }
  }
}
