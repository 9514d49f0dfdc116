/** The contract of sort.Slice: some ordered permutation, nothing more. The sort is not
    stable, so every result of this project holds for all permutations a key allows. */
module Sorting {

  /** Sort keys are pairs, compared lexicographically. */
  type Key = (int, int)

  predicate Leq(a: Key, b: Key) {
    a.0 < b.0 || (a.0 == b.0 && a.1 <= b.1)
  }

  ghost predicate Ordered<T>(s: seq<T>, key: T -> Key) {
    forall i, j :: 0 <= i < j < |s| ==> Leq(key(s[i]), key(s[j]))
  }

  ghost predicate SortedPermutation<T>(p: seq<T>, s: seq<T>, key: T -> Key) {
    multiset(p) == multiset(s) && Ordered(p, key)
  }

  function Insert<T>(x: T, s: seq<T>, key: T -> Key): (r: seq<T>)
    ensures multiset(r) == multiset{x} + multiset(s)
  {
    if s == [] || Leq(key(x), key(s[0])) then [x] + s
    else
      assert s == [s[0]] + s[1..];
      [s[0]] + Insert(x, s[1..], key)
  }

  lemma {:induction false} InsertOrdered<T>(x: T, s: seq<T>, key: T -> Key)
    requires Ordered(s, key)
    ensures Ordered(Insert(x, s, key), key)
  {
    if s != [] && !Leq(key(x), key(s[0])) {
      var r := Insert(x, s[1..], key);
      InsertOrdered(x, s[1..], key);
      forall k | 0 <= k < |r| ensures Leq(key(s[0]), key(r[k])) {
        assert r[k] in multiset(r);
        if r[k] != x {
          assert r[k] in s[1..];
        }
      }
    }
  }

  lemma MembersAgree<T>(p: seq<T>, s: seq<T>)
    requires multiset(p) == multiset(s)
    ensures |p| == |s|
    ensures forall x :: x in p <==> x in s
  {
    assert |multiset(p)| == |p| && |multiset(s)| == |s|;
    forall x ensures x in p <==> x in s {
      assert x in p <==> x in multiset(p);
      assert x in s <==> x in multiset(s);
    }
  }

  function Arrange<T>(s: seq<T>, key: T -> Key): (r: seq<T>)
    ensures SortedPermutation(r, s, key)
  {
    if s == [] then []
    else
      assert s == [s[0]] + s[1..];
      InsertOrdered(s[0], Arrange(s[1..], key), key);
      Insert(s[0], Arrange(s[1..], key), key)
  }

  /** Sorts in place. Callers may use the contract only: which permutation it is stays open. */
  method Sort<T>(a: array<T>, key: T -> Key)
    modifies a
    ensures SortedPermutation(a[..], old(a[..]), key)
  {
    var r := Arrange(a[..], key);
    MembersAgree(r, a[..]);
    forall i | 0 <= i < a.Length {
      a[i] := r[i];
    }
    assert a[..] == r;
  }

  // ---------------------------------------------------------------- taking elements out

  function Without<T>(s: seq<T>, k: int): (r: seq<T>)
    requires 0 <= k < |s|
    ensures |r| == |s| - 1
    ensures forall i {:trigger r[i]} :: 0 <= i < |r| ==> r[i] == if i < k then s[i] else s[i + 1]
    ensures multiset(s) == multiset(r) + multiset{s[k]}
  {
    assert s == s[..k] + [s[k]] + s[k + 1..];
    s[..k] + s[k + 1..]
  }

  lemma TailIsWithout<T>(s: seq<T>)
    requires s != []
    ensures s[1..] == Without(s, 0)
  {}

  /** Removing equal elements from two permutations leaves permutations. */
  lemma RemoveBoth<T>(p: seq<T>, i: int, q: seq<T>, j: int)
    requires multiset(p) == multiset(q)
    requires 0 <= i < |p| && 0 <= j < |q| && p[i] == q[j]
    ensures multiset(Without(p, i)) == multiset(Without(q, j))
  {
    var a, b := multiset(Without(p, i)), multiset(Without(q, j));
    assert a == multiset(p) - multiset{p[i]};
    assert b == multiset(q) - multiset{q[j]};
  }

  /** Removing an element keeps the order. */
  lemma RemoveKeepsOrder<T>(s: seq<T>, i: int, key: T -> Key)
    requires Ordered(s, key) && 0 <= i < |s|
    ensures Ordered(Without(s, i), key)
  {
    var r := Without(s, i);
    forall j, k | 0 <= j < k < |r| ensures Leq(key(r[j]), key(r[k])) {
      var j', k' := if j < i then j else j + 1, if k < i then k else k + 1;
      assert r[j] == s[j'] && r[k] == s[k'];
    }
  }

  lemma TailOrdered<T>(s: seq<T>, key: T -> Key)
    requires Ordered(s, key) && s != []
    ensures Ordered(s[1..], key)
    ensures |s| > 1 ==> Leq(key(s[0]), key(s[1]))
  {
    RemoveKeepsOrder(s, 0, key);
    TailIsWithout(s);
    assert |s| > 1 ==> Leq(key(s[0]), key(s[1]));
  }

  lemma IndexIn<T>(x: T, b: seq<T>) returns (j: nat)
    requires x in multiset(b)
    ensures j < |b| && b[j] == x
  {
    assert x in b;
    j :| 0 <= j < |b| && b[j] == x;
  }

  /** Two ordered permutations start with equal keys, and so do all elements of one that
      precede the first element of the other. */
  lemma EqualKeysBefore<T>(a: seq<T>, b: seq<T>, j: int, key: T -> Key)
    requires multiset(a) == multiset(b) && Ordered(a, key) && Ordered(b, key)
    requires a != [] && 0 <= j < |b| && b[j] == a[0]
    ensures forall k :: 0 <= k <= j ==> key(b[k]) == key(a[0])
  {
    MembersAgree(a, b);
    forall k | 0 <= k <= j ensures key(b[k]) == key(a[0]) {
      assert b[k] in a;
      var m :| 0 <= m < |a| && a[m] == b[k];
      assert m == 0 || Leq(key(a[0]), key(a[m]));
      assert k == j || Leq(key(b[k]), key(b[j]));
    }
  }

  lemma TailPermutation<T>(q: seq<T>, a: seq<T>, key: T -> Key)
    requires SortedPermutation(q, a, key)
    requires q != [] && a != [] && q[0] == a[0]
    ensures SortedPermutation(q[1..], a[1..], key)
  {
    RemoveBoth(q, 0, a, 0);
    TailOrdered(q, key);
    TailIsWithout(q);
    TailIsWithout(a);
  }

  /** An element common to two sequences can be taken out of both. */
  lemma TakeLastOut<T>(a: seq<T>, b: seq<T>) returns (j: nat)
    requires a != [] && multiset(a) <= multiset(b)
    ensures j < |b| && b[j] == a[|a| - 1]
    ensures multiset(a[..|a| - 1]) <= multiset(Without(b, j))
  {
    var n := |a| - 1;
    assert a == a[..n] + [a[n]];
    assert multiset(a) == multiset(a[..n]) + multiset{a[n]};
    assert a[n] in multiset(b);
    j := IndexIn(a[n], b);
    forall x ensures multiset(a[..n])[x] <= multiset(Without(b, j))[x] {
      assert multiset(a)[x] <= multiset(b)[x];
    }
  }

  lemma WithoutSnoc<T>(s: seq<T>, k: int)
    requires 0 <= k < |s|
    ensures var n := |s| - 1;
            Without(s, k) == if k == n then s[..n] else Without(s[..n], k) + [s[n]]
  {}

  lemma CancelOne<T>(a: multiset<T>, b: multiset<T>, x: T)
    requires a + multiset{x} == b + multiset{x}
    ensures a == b
  {
    assert a == (a + multiset{x}) - multiset{x};
    assert b == (b + multiset{x}) - multiset{x};
  }

  // ---------------------------------------------------------------- bags of images

  /** The images of the elements, with multiplicity. */
  ghost function Bag<T, U>(s: seq<T>, f: T -> U): multiset<U>
  {
    if s == [] then multiset{} else Bag(s[..|s| - 1], f) + multiset{f(s[|s| - 1])}
  }

  lemma {:induction false} BagCount<T, U>(s: seq<T>, f: T -> U)
    ensures |Bag(s, f)| == |s|
    decreases |s|
  {
    if s != [] {
      BagCount(s[..|s| - 1], f);
    }
  }

  lemma BagSnoc<T, U>(s: seq<T>, x: T, f: T -> U)
    ensures Bag(s + [x], f) == Bag(s, f) + multiset{f(x)}
  {
    assert (s + [x])[..|s|] == s;
  }

  lemma {:induction false} BagWithout<T, U>(s: seq<T>, k: int, f: T -> U)
    requires 0 <= k < |s|
    ensures Bag(s, f) == Bag(Without(s, k), f) + multiset{f(s[k])}
    decreases |s|
  {
    var n := |s| - 1;
    WithoutSnoc(s, k);
    if k != n {
      BagWithout(s[..n], k, f);
      BagSnoc(Without(s[..n], k), s[n], f);
    }
  }

  lemma BagHead<T, U>(s: seq<T>, f: T -> U)
    requires s != []
    ensures Bag(s, f) == Bag(s[1..], f) + multiset{f(s[0])}
  {
    BagWithout(s, 0, f);
    TailIsWithout(s);
  }

  lemma {:induction false} BagSubset<T, U>(a: seq<T>, b: seq<T>, f: T -> U)
    requires multiset(a) <= multiset(b)
    ensures Bag(a, f) <= Bag(b, f)
    decreases |a|
  {
    if a != [] {
      var j := TakeLastOut(a, b);
      BagWithout(b, j, f);
      BagSubset(a[..|a| - 1], Without(b, j), f);
    }
  }

  lemma BagPermute<T, U>(a: seq<T>, b: seq<T>, f: T -> U)
    requires multiset(a) == multiset(b)
    ensures Bag(a, f) == Bag(b, f)
  {
    BagSubset(a, b, f);
    BagSubset(b, a, f);
  }
}
