/** The vector operations the scene graph relies on: `position`, removal at an
    index, removal of the first match, and the stable `sort_by` on an order key. */
module Collections {

  datatype Option<+T> = None | Some(value: T)

  /** No element occurs twice. */
  predicate NoDup<T(==)>(s: seq<T>)
  {
    forall i, j :: 0 <= i < j < |s| ==> s[i] != s[j]
  }

  /** `iter().position(|e| e == x)`: the index of the first occurrence of `x`. */
  function IndexOf<T(==)>(s: seq<T>, x: T): (r: Option<nat>)
    ensures r.None? <==> x !in s
    ensures r.Some? ==> r.value < |s| && s[r.value] == x && x !in s[..r.value]
  {
    if |s| == 0 then None
    else if s[0] == x then Some(0)
    else
      match IndexOf(s[1..], x)
      case None => None
      case Some(i) =>
        assert s[..i + 1] == [s[0]] + s[1..][..i];
        Some(i + 1)
  }

  /** `iter().position(|e| key(e) == k)`: the index of the first element whose key is `k`. */
  function IndexOfKey<T(==), K(==)>(s: seq<T>, key: map<T, K>, k: K): (r: Option<nat>)
    requires forall j :: 0 <= j < |s| ==> s[j] in key
    ensures r.None? ==> forall j :: 0 <= j < |s| ==> key[s[j]] != k
    ensures r.Some? ==> r.value < |s| && key[s[r.value]] == k
    ensures r.Some? ==> forall j :: 0 <= j < r.value ==> key[s[j]] != k
  {
    if |s| == 0 then None
    else if key[s[0]] == k then Some(0)
    else
      match IndexOfKey(s[1..], key, k)
      case None => None
      case Some(i) => Some(i + 1)
  }

  /** `Vector::remove(&i)`: drop the element at index `i`, keeping the order of the rest. */
  function RemoveAt<T>(s: seq<T>, i: nat): (r: seq<T>)
    requires i < |s|
    ensures |r| == |s| - 1
    ensures forall j :: 0 <= j < i ==> r[j] == s[j]
    ensures forall j :: i <= j < |r| ==> r[j] == s[j + 1]
  {
    s[..i] + s[i + 1..]
  }

  /** Find the first occurrence of `x` and remove it, if there is one. */
  function RemoveFirst<T(==)>(s: seq<T>, x: T): (r: seq<T>)
  {
    match IndexOf(s, x)
    case None => s
    case Some(i) => RemoveAt(s, i)
  }

  lemma RemoveAtMultiset<T>(s: seq<T>, i: nat)
    requires i < |s|
    ensures multiset(RemoveAt(s, i)) + multiset{s[i]} == multiset(s)
  {
    assert s == s[..i] + [s[i]] + s[i + 1..];
  }

  /** The elements of a sequence, as a set. */
  function Elems<T(!new)>(s: seq<T>): (m: set<T>)
    ensures forall x :: x in m <==> x in s
  {
    set x | x in s
  }

  /** Taking two bags out one after the other takes out their sum. */
  lemma MinusMinus<T>(m: multiset<T>, x: multiset<T>, y: multiset<T>)
    ensures m - x - y == m - (x + y)
  {
    forall e ensures (m - x - y)[e] == (m - (x + y))[e] { }
  }

  /** Adding `f` and taking away `g` commute when no element is in both. */
  lemma PlusMinus<T>(m: multiset<T>, f: multiset<T>, g: multiset<T>)
    requires f * g == multiset{}
    ensures m + f - g == m - g + f
  {
    forall e ensures (m + f - g)[e] == (m - g + f)[e] {
      assert (f * g)[e] == 0;
    }
  }

  /** Disjoint sets make bags with nothing in common. */
  lemma DisjointBags<T>(x: set<T>, y: set<T>)
    requires x !! y
    ensures multiset(x) * multiset(y) == multiset{}
  {
    forall e ensures (multiset(x) * multiset(y))[e] == 0 {
      if e in x { assert e !in y; }
    }
  }

  /** Two rounds of taking away one set and adding another, where nothing
      added in the first round is taken away in the second, take away and
      add the unions. */
  lemma TwoRounds<T>(m: multiset<T>, x: multiset<T>, y: multiset<T>, g1: set<T>, g2: set<T>, f1: set<T>, f2: set<T>)
    requires x == m - multiset(g1) + multiset(f1) && y == x - multiset(g2) + multiset(f2)
    requires f1 !! g2 && g1 !! g2 && f1 !! f2
    ensures y == m - multiset(g1 + g2) + multiset(f1 + f2)
  {
    DisjointBags(f1, g2);
    PlusMinus(m - multiset(g1), multiset(f1), multiset(g2));
    MinusMinus(m, multiset(g1), multiset(g2));
    assert multiset(g1 + g2) == multiset(g1) + multiset(g2);
    assert multiset(f1 + f2) == multiset(f1) + multiset(f2);
  }

  /** A round of taking away one set and adding another, followed by adding
      a third set disjoint from the second, adds their union. */
  lemma AddAfter<T>(m: multiset<T>, x: multiset<T>, y: multiset<T>, g: set<T>, f1: set<T>, f2: set<T>)
    requires x == m - multiset(g) + multiset(f1) && y == x + multiset(f2) && f1 !! f2
    ensures y == m - multiset(g) + multiset(f1 + f2)
  {
    assert multiset(f1 + f2) == multiset(f1) + multiset(f2);
  }

  /** Removing the first match takes exactly one copy of `x` out of the bag of
      elements, and leaves the sequence alone when `x` is absent. */
  lemma RemoveFirstSpec<T>(s: seq<T>, x: T)
    ensures x !in s ==> RemoveFirst(s, x) == s
    ensures x in s ==> multiset(RemoveFirst(s, x)) == multiset(s) - multiset{x}
    ensures x in s ==> |RemoveFirst(s, x)| == |s| - 1
  {
    if x in s {
      var i := IndexOf(s, x).value;
      RemoveAtMultiset(s, i);
    }
  }

  /** Every element other than `x` stays, and nothing new appears. */
  lemma RemoveFirstOthers<T>(s: seq<T>, x: T, y: T)
    requires y != x
    ensures y in RemoveFirst(s, x) <==> y in s
  {
    RemoveFirstSpec(s, x);
    if x in s {
      assert multiset(RemoveFirst(s, x))[y] == multiset(s)[y];
    }
  }

  lemma RemoveFirstSubset<T>(s: seq<T>, x: T, y: T)
    requires y in RemoveFirst(s, x)
    ensures y in s
  {
    RemoveFirstSpec(s, x);
    if x in s {
      assert multiset(RemoveFirst(s, x))[y] <= multiset(s)[y];
    }
  }

  /** On a list without duplicates, removing `x` removes its only occurrence. */
  lemma RemoveFirstNoDup<T>(s: seq<T>, x: T)
    requires NoDup(s)
    ensures NoDup(RemoveFirst(s, x))
    ensures x !in RemoveFirst(s, x)
  {
    match IndexOf(s, x)
    case None =>
    case Some(i) =>
      var r := RemoveAt(s, i);
      forall a, b | 0 <= a < b < |r| ensures r[a] != r[b] {
        var a' := if a < i then a else a + 1;
        var b' := if b < i then b else b + 1;
        assert r[a] == s[a'] && r[b] == s[b'] && a' < b';
      }
      forall j | 0 <= j < |r| ensures r[j] != x {
        var j' := if j < i then j else j + 1;
        assert r[j] == s[j'] && j' != i;
      }
  }

  /** Membership is all a duplicate-free list records: two duplicate-free lists
      with the same elements are permutations of each other. */
  lemma NoDupMultisetEqual<T>(s: seq<T>, t: seq<T>)
    requires NoDup(s) && multiset(s) == multiset(t)
    ensures NoDup(t)
  {
    forall a, b | 0 <= a < b < |t| ensures t[a] != t[b] {
      if t[a] == t[b] {
        var u := t[a];
        assert t == t[..a] + [t[a]] + t[a + 1..b] + [t[b]] + t[b + 1..];
        assert multiset(t)[u] >= 2;
        NoDupCount(s, u);
      }
    }
  }

  lemma {:induction false} NoDupCount<T>(s: seq<T>, u: T)
    requires NoDup(s)
    ensures multiset(s)[u] <= 1
  {
    if |s| > 0 {
      var p := s[..|s| - 1];
      assert s == p + [s[|s| - 1]];
      assert NoDup(p);
      NoDupCount(p, u);
      if s[|s| - 1] == u {
        assert u !in p;
      }
    }
  }

  // ---------------------------------------------------------------------------
  // Stable sort by an order key (`sort_by(|a, b| a.get_order().cmp(&b.get_order()))`)

  /** Every element has an order. */
  ghost predicate Keyed<T>(s: seq<T>, key: map<T, nat>)
  {
    forall j :: 0 <= j < |s| ==> s[j] in key
  }

  /** Ascending by order. */
  ghost predicate SortedBy<T>(s: seq<T>, key: map<T, nat>)
    requires Keyed(s, key)
  {
    forall i, j :: 0 <= i < j < |s| ==> key[s[i]] <= key[s[j]]
  }

  /** Insert `x` after every element whose order is not greater than its own. */
  function InsertBy<T>(x: T, s: seq<T>, key: map<T, nat>): (r: seq<T>)
    requires x in key && Keyed(s, key)
    ensures Keyed(r, key) && multiset(r) == multiset(s) + multiset{x}
  {
    if |s| == 0 then [x]
    else if key[x] < key[s[0]] then [x] + s
    else
      assert s == [s[0]] + s[1..];
      [s[0]] + InsertBy(x, s[1..], key)
  }

  /** `sort_by` on the order key: a stable sort by ascending order, here an
      insertion sort. */
  function SortBy<T>(s: seq<T>, key: map<T, nat>): (r: seq<T>)
    requires Keyed(s, key)
    ensures Keyed(r, key) && multiset(r) == multiset(s)
  {
    InsertionSort(s, key)
  }

  /** Insertion sort from the front. */
  function InsertionSort<T>(s: seq<T>, key: map<T, nat>): (r: seq<T>)
    requires Keyed(s, key)
    ensures Keyed(r, key) && multiset(r) == multiset(s)
  {
    if |s| == 0 then []
    else
      assert s == s[..|s| - 1] + [s[|s| - 1]];
      InsertBy(s[|s| - 1], InsertionSort(s[..|s| - 1], key), key)
  }

  lemma {:induction false} InsertBySorted<T>(x: T, s: seq<T>, key: map<T, nat>)
    requires x in key && Keyed(s, key) && SortedBy(s, key)
    ensures SortedBy(InsertBy(x, s, key), key)
    ensures |s| > 0 && key[s[0]] <= key[x] ==> InsertBy(x, s, key)[0] == s[0]
  {
    if |s| > 0 && key[x] >= key[s[0]] {
      var t := InsertBy(x, s[1..], key);
      InsertBySorted(x, s[1..], key);
      assert multiset(t) == multiset(s[1..]) + multiset{x};
      forall j | 0 <= j < |t| ensures key[s[0]] <= key[t[j]] {
        assert t[j] in multiset(t);
        if t[j] != x {
          assert t[j] in multiset(s[1..]);
          var k :| 0 <= k < |s[1..]| && s[1..][k] == t[j];
          assert s[k + 1] == t[j];
        }
      }
    }
  }

  /** `sort_by` leaves the list ordered by ascending order. */
  lemma SortBySorted<T>(s: seq<T>, key: map<T, nat>)
    requires Keyed(s, key)
    ensures SortedBy(SortBy(s, key), key)
  {
    InsertionSortSorted(s, key);
  }

  lemma {:induction false} InsertionSortSorted<T>(s: seq<T>, key: map<T, nat>)
    requires Keyed(s, key)
    ensures SortedBy(InsertionSort(s, key), key)
  {
    if |s| > 0 {
      InsertionSortSorted(s[..|s| - 1], key);
      InsertBySorted(s[|s| - 1], InsertionSort(s[..|s| - 1], key), key);
    }
  }

  /** Removing an element keeps a list ascending. */
  lemma RemoveAtSorted<T>(s: seq<T>, key: map<T, nat>, i: nat)
    requires Keyed(s, key) && SortedBy(s, key) && i < |s|
    ensures Keyed(RemoveAt(s, i), key) && SortedBy(RemoveAt(s, i), key)
  {
  }

  lemma RemoveFirstSorted<T>(s: seq<T>, key: map<T, nat>, x: T)
    requires Keyed(s, key) && SortedBy(s, key)
    ensures Keyed(RemoveFirst(s, x), key) && SortedBy(RemoveFirst(s, x), key)
  {
    if x in s {
      RemoveAtSorted(s, key, IndexOf(s, x).value);
    }
  }

  /** The elements whose order is `k`, in list order. */
  function WithOrder<T>(s: seq<T>, key: map<T, nat>, k: nat): (r: seq<T>)
  {
    if |s| == 0 then []
    else (if s[0] in key && key[s[0]] == k then [s[0]] else []) + WithOrder(s[1..], key, k)
  }

  lemma {:induction false} WithOrderAppend<T>(a: seq<T>, b: seq<T>, key: map<T, nat>, k: nat)
    ensures WithOrder(a + b, key, k) == WithOrder(a, key, k) + WithOrder(b, key, k)
  {
    if |a| > 0 {
      assert (a + b)[0] == a[0] && (a + b)[1..] == a[1..] + b;
      WithOrderAppend(a[1..], b, key, k);
    } else {
      assert a + b == b;
    }
  }

  lemma {:induction false} WithOrderAbove<T>(s: seq<T>, key: map<T, nat>, k: nat)
    requires Keyed(s, key)
    requires forall j :: 0 <= j < |s| ==> key[s[j]] > k
    ensures WithOrder(s, key, k) == []
  {
    if |s| > 0 {
      WithOrderAbove(s[1..], key, k);
    }
  }

  lemma WithOrderSingle<T>(x: T, key: map<T, nat>, k: nat)
    requires x in key
    ensures WithOrder([x], key, k) == if key[x] == k then [x] else []
  {
    assert [x][1..] == [];
  }

  lemma {:induction false} InsertByStable<T>(x: T, s: seq<T>, key: map<T, nat>, k: nat)
    requires x in key && Keyed(s, key) && SortedBy(s, key)
    ensures WithOrder(InsertBy(x, s, key), key, k)
         == WithOrder(s, key, k) + (if key[x] == k then [x] else [])
  {
    WithOrderSingle(x, key, k);
    if |s| == 0 {
      assert InsertBy(x, s, key) == [x];
    } else if key[x] < key[s[0]] {
      InsertByStableFront(x, s, key, k);
    } else {
      InsertByStable(x, s[1..], key, k);
      InsertByStableStep(x, s, key, k);
    }
  }

  lemma InsertByStableFront<T>(x: T, s: seq<T>, key: map<T, nat>, k: nat)
    requires x in key && Keyed(s, key) && SortedBy(s, key)
    requires |s| > 0 && key[x] < key[s[0]]
    ensures WithOrder(InsertBy(x, s, key), key, k)
         == WithOrder(s, key, k) + (if key[x] == k then [x] else [])
  {
    assert InsertBy(x, s, key) == [x] + s;
    assert ([x] + s)[1..] == s;
    if key[x] == k {
      WithOrderAbove(s, key, k);
    }
  }

  lemma InsertByStableStep<T>(x: T, s: seq<T>, key: map<T, nat>, k: nat)
    requires x in key && Keyed(s, key)
    requires |s| > 0 && key[x] >= key[s[0]]
    requires WithOrder(InsertBy(x, s[1..], key), key, k)
          == WithOrder(s[1..], key, k) + (if key[x] == k then [x] else [])
    ensures WithOrder(InsertBy(x, s, key), key, k)
         == WithOrder(s, key, k) + (if key[x] == k then [x] else [])
  {
    assert InsertBy(x, s, key) == [s[0]] + InsertBy(x, s[1..], key);
    assert s == [s[0]] + s[1..];
    WithOrderCons(s[0], InsertBy(x, s[1..], key), s[1..], if key[x] == k then [x] else [], key, k);
  }

  /** Putting the same element in front of both sides keeps a `WithOrder` equation. */
  lemma WithOrderCons<T>(y: T, t: seq<T>, u: seq<T>, tail: seq<T>, key: map<T, nat>, k: nat)
    requires WithOrder(t, key, k) == WithOrder(u, key, k) + tail
    ensures WithOrder([y] + t, key, k) == WithOrder([y] + u, key, k) + tail
  {
    assert ([y] + t)[0] == y && ([y] + t)[1..] == t;
    assert ([y] + u)[0] == y && ([y] + u)[1..] == u;
  }

  /** `sort_by` is stable: the elements of any one order keep their relative order. */
  lemma SortByStable<T>(s: seq<T>, key: map<T, nat>, k: nat)
    requires Keyed(s, key)
    ensures WithOrder(SortBy(s, key), key, k) == WithOrder(s, key, k)
  {
    InsertionSortStable(s, key, k);
  }

  lemma {:induction false} InsertionSortStable<T>(s: seq<T>, key: map<T, nat>, k: nat)
    requires Keyed(s, key)
    ensures WithOrder(InsertionSort(s, key), key, k) == WithOrder(s, key, k)
  {
    if |s| > 0 {
      var p, x := s[..|s| - 1], s[|s| - 1];
      InsertionSortStable(p, key, k);
      InsertionSortSorted(p, key);
      InsertByStable(x, InsertionSort(p, key), key, k);
      SplitLast(s);
      WithOrderSnoc(p, x, key, k);
    }
  }

  lemma SplitLast<T>(s: seq<T>)
    requires |s| > 0
    ensures s == s[..|s| - 1] + [s[|s| - 1]]
  {
  }

  lemma WithOrderSnoc<T>(p: seq<T>, x: T, key: map<T, nat>, k: nat)
    requires x in key
    ensures WithOrder(p + [x], key, k) == WithOrder(p, key, k) + (if key[x] == k then [x] else [])
  {
    WithOrderAppend(p, [x], key, k);
    WithOrderSingle(x, key, k);
  }

  /** `m` is the least element of `ks`. */
  predicate IsLeast(ks: set<nat>, m: nat)
  {
    m in ks && forall k :: k in ks ==> m <= k
  }

  /** A finite non-empty set of naturals has a least element. */
  lemma {:induction false} MinExists(ks: set<nat>)
    requires ks != {}
    ensures exists m :: IsLeast(ks, m)
    decreases |ks|
  {
    var x :| x in ks;
    var rest := ks - {x};
    if rest == {} {
      assert IsLeast(ks, x) by {
        forall k | k in ks ensures k == x {
          assert k !in rest;
        }
      }
    } else {
      MinExists(rest);
      var m :| IsLeast(rest, m);
      var least := if x < m then x else m;
      assert IsLeast(ks, least) by {
        forall k | k in ks ensures least <= k {
          assert k == x || k in rest;
        }
      }
    }
  }

  /** Putting the least element in front of the ascending sequence of the rest. */
  lemma LeastFirst(ks: set<nat>, m: nat, r: seq<nat>)
    requires IsLeast(ks, m)
    requires forall k :: k in r <==> k in ks - {m}
    requires forall i, j :: 0 <= i < j < |r| ==> r[i] < r[j]
    ensures forall k :: k in [m] + r <==> k in ks
    ensures forall i, j :: 0 <= i < j < |[m] + r| ==> ([m] + r)[i] < ([m] + r)[j]
  {
    forall i, j | 0 <= i < j < |[m] + r| ensures ([m] + r)[i] < ([m] + r)[j] {
      if i == 0 {
        assert r[j - 1] in ks - {m};
      }
    }
  }

  /** The elements of a finite set of naturals in ascending order. */
  function SortedIds(ks: set<nat>): (r: seq<nat>)
    ensures forall k :: k in r <==> k in ks
    ensures forall i, j :: 0 <= i < j < |r| ==> r[i] < r[j]
    decreases |ks|
  {
    if ks == {} then []
    else
      MinExists(ks);
      var m :| IsLeast(ks, m);
      var r := SortedIds(ks - {m});
      LeastFirst(ks, m, r);
      [m] + r
  }
}
