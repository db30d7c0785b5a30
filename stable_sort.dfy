/**
 * `sorted(items, key=...)`: Python's sort is stable, so its result is the one
 * permutation of the input that is ordered and keeps items with equal keys
 * in their input order. It is written here as an insertion sort, generic in
 * the item type, the key and the order, and `StableSortUnique` shows that any
 * sort with those properties returns the same list.
 *
 * `le(x, y)` says that `x` may come before `y`; it must be a total preorder
 * whose ties are exactly the items with equal keys.
 */
module StableSort {

  ghost predicate IsKeyPreorder<T(!new), K>(le: (T, T) -> bool, key: T -> K)
  {
    && (forall x, y :: le(x, y) || le(y, x))
    && (forall x, y, z :: le(x, y) && le(y, z) ==> le(x, z))
    && (forall x, y :: le(x, y) && le(y, x) <==> key(x) == key(y))
  }

  /** No item is placed after one that must come before it. */
  ghost predicate Sorted<T>(s: seq<T>, le: (T, T) -> bool)
  {
    forall i, j :: 0 <= i < j < |s| ==> le(s[i], s[j])
  }

  /** The items of `s` whose key is `k`, in their order in `s`. */
  function SameKey<T, K(==)>(s: seq<T>, key: T -> K, k: K): seq<T>
  {
    if s == [] then [] else (if key(s[0]) == k then [s[0]] else []) + SameKey(s[1..], key, k)
  }

  /** Items with equal keys appear in `output` in the order they have in `input`. */
  ghost predicate Stable<T, K(!new)>(input: seq<T>, output: seq<T>, key: T -> K)
  {
    forall k :: SameKey(output, key, k) == SameKey(input, key, k)
  }

  /** Puts `x` before the first item of `s` that it may precede. */
  function Insert<T>(x: T, s: seq<T>, le: (T, T) -> bool): (r: seq<T>)
    ensures |r| == |s| + 1 && x in r
  {
    if s == [] then [x]
    else if le(x, s[0]) then [x] + s
    else [s[0]] + Insert(x, s[1..], le)
  }

  function Sort<T>(items: seq<T>, le: (T, T) -> bool): (r: seq<T>)
    ensures |r| == |items|
  {
    if items == [] then [] else Insert(items[0], Sort(items[1..], le), le)
  }

  lemma {:induction false} InsertPermutes<T>(x: T, s: seq<T>, le: (T, T) -> bool)
    ensures multiset(Insert(x, s, le)) == multiset(s) + multiset{x}
    decreases |s|
  {
    if s != [] && !le(x, s[0]) {
      InsertPermutes(x, s[1..], le);
      assert s == [s[0]] + s[1..];
    }
  }

  lemma {:induction false} InsertSorted<T(!new), K>(x: T, s: seq<T>, le: (T, T) -> bool, key: T -> K)
    requires IsKeyPreorder(le, key) && Sorted(s, le)
    ensures Sorted(Insert(x, s, le), le)
    decreases |s|
  {
    if s == [] {
    } else if le(x, s[0]) {
      var r := [x] + s;
      forall j | 1 <= j < |r| ensures le(x, r[j]) {
        if j > 1 { assert le(s[0], r[j]); }
      }
    } else {
      assert le(s[0], x);
      var t := Insert(x, s[1..], le);
      InsertSorted(x, s[1..], le, key);
      InsertPermutes(x, s[1..], le);
      forall j | 0 <= j < |t| ensures le(s[0], t[j]) {
        assert t[j] in multiset(t);
        if t[j] != x {
          assert t[j] in s[1..];
        }
      }
    }
  }

  lemma SameKeyCons<T, K>(y: T, s: seq<T>, key: T -> K, k: K)
    ensures SameKey([y] + s, key, k) == (if key(y) == k then [y] else []) + SameKey(s, key, k)
  {
    assert ([y] + s)[1..] == s;
  }

  /** Inserting `x` only adds `x` to its own class, ahead of the items already there. */
  lemma {:induction false} InsertSameKey<T(!new), K>(x: T, s: seq<T>, le: (T, T) -> bool, key: T -> K, k: K)
    requires forall y :: key(y) == key(x) ==> le(x, y)
    ensures SameKey(Insert(x, s, le), key, k) == (if key(x) == k then [x] else []) + SameKey(s, key, k)
    decreases |s|
  {
    if s == [] {
      assert Insert(x, s, le) == [x] + s;
      SameKeyCons(x, s, key, k);
    } else if le(x, s[0]) {
      SameKeyCons(x, s, key, k);
    } else {
      var y := s[0];
      InsertSameKey(x, s[1..], le, key, k);
      SameKeyCons(y, Insert(x, s[1..], le), key, k);
      assert s == [y] + s[1..];
      SameKeyCons(y, s[1..], key, k);
      if key(x) == k {
        assert key(y) != k;
      } else if key(y) == k {
        assert [y] + ([] + SameKey(s[1..], key, k)) == [] + ([y] + SameKey(s[1..], key, k));
      }
    }
  }

  /** `Sort` returns a permutation of its input, in order. */
  lemma SortIsSortedPermutation<T(!new), K>(items: seq<T>, le: (T, T) -> bool, key: T -> K)
    requires IsKeyPreorder(le, key)
    ensures multiset(Sort(items, le)) == multiset(items)
    ensures Sorted(Sort(items, le), le)
  {
    SortPermutes(items, le);
    SortSorted(items, le, key);
  }

  lemma {:induction false} SortPermutes<T>(items: seq<T>, le: (T, T) -> bool)
    ensures multiset(Sort(items, le)) == multiset(items)
    decreases |items|
  {
    if items != [] {
      SortPermutes(items[1..], le);
      InsertPermutes(items[0], Sort(items[1..], le), le);
      assert items == [items[0]] + items[1..];
    }
  }

  lemma {:induction false} SortSorted<T(!new), K>(items: seq<T>, le: (T, T) -> bool, key: T -> K)
    requires IsKeyPreorder(le, key)
    ensures Sorted(Sort(items, le), le)
    decreases |items|
  {
    if items != [] {
      SortSorted(items[1..], le, key);
      InsertSorted(items[0], Sort(items[1..], le), le, key);
    }
  }

  /** `Sort` keeps items with equal keys in their input order. */
  lemma {:induction false} SortIsStable<T(!new), K(!new)>(items: seq<T>, le: (T, T) -> bool, key: T -> K)
    requires IsKeyPreorder(le, key)
    ensures Stable(items, Sort(items, le), key)
    decreases |items|
  {
    if items != [] {
      var rest := Sort(items[1..], le);
      SortIsStable(items[1..], le, key);
      forall k ensures SameKey(Sort(items, le), key, k) == SameKey(items, key, k) {
        InsertSameKey(items[0], rest, le, key, k);
        assert SameKey(rest, key, k) == SameKey(items[1..], key, k);
      }
    }
  }

  lemma {:induction false} SameKeyMembers<T, K>(s: seq<T>, key: T -> K, k: K, x: T)
    requires x in SameKey(s, key, k)
    ensures x in s && key(x) == k
    decreases |s|
  {
    if x != s[0] || key(s[0]) != k {
      SameKeyMembers(s[1..], key, k, x);
    }
  }

  /** The class of the first item of a non-empty list is not empty. */
  lemma SameKeyNonEmpty<T, K>(s: seq<T>, key: T -> K)
    ensures s != [] ==> SameKey(s, key, key(s[0])) != []
  {
  }

  /** A total preorder is reflexive: totality for the pair (x, x). */
  lemma PreorderReflexive<T(!new), K>(le: (T, T) -> bool, key: T -> K, x: T)
    requires IsKeyPreorder(le, key)
    ensures le(x, x)
  {
    var y := x;
    assert le(x, y) || le(y, x);
  }

  /** Two sorted lists with the same key classes start with the same item. */
  lemma SameFront<T(!new), K>(a: seq<T>, b: seq<T>, le: (T, T) -> bool, key: T -> K)
    requires IsKeyPreorder(le, key)
    requires Sorted(a, le) && Sorted(b, le) && a != [] && b != []
    requires SameKey(a, key, key(a[0])) == SameKey(b, key, key(a[0]))
    requires SameKey(a, key, key(b[0])) == SameKey(b, key, key(b[0]))
    ensures a[0] == b[0]
  {
    var x, y := a[0], b[0];
    assert SameKey(a, key, key(x)) == [x] + SameKey(a[1..], key, key(x));
    assert SameKey(b, key, key(y)) == [y] + SameKey(b[1..], key, key(y));
    SameKeyMembers(b, key, key(x), x);
    SameKeyMembers(a, key, key(y), y);
    var i :| 0 <= i < |a| && a[i] == y;
    var j :| 0 <= j < |b| && b[j] == x;
    assert le(x, y) by {
      if i == 0 { PreorderReflexive(le, key, x); } else { assert le(a[0], a[i]); }
    }
    assert le(y, x) by {
      if j == 0 { PreorderReflexive(le, key, y); } else { assert le(b[0], b[j]); }
    }
    assert key(x) == key(y);
    assert SameKey(b, key, key(x))[0] == y;
  }

  /** Two stable sorts of the same input are the same list. */
  lemma {:induction false} StableSortUnique<T(!new), K(!new)>(a: seq<T>, b: seq<T>, le: (T, T) -> bool, key: T -> K)
    requires IsKeyPreorder(le, key)
    requires Sorted(a, le) && Sorted(b, le)
    requires forall k :: SameKey(a, key, k) == SameKey(b, key, k)
    ensures a == b
    decreases |a|
  {
    SameKeyNonEmpty(a, key);
    SameKeyNonEmpty(b, key);
    if a != [] && b != [] {
      SameFront(a, b, le, key);
      forall k ensures SameKey(a[1..], key, k) == SameKey(b[1..], key, k) {
        var p := if key(a[0]) == k then [a[0]] else [];
        assert SameKey(a, key, k) == p + SameKey(a[1..], key, k);
        assert SameKey(b, key, k) == p + SameKey(b[1..], key, k);
        assert SameKey(a[1..], key, k) == (p + SameKey(a[1..], key, k))[|p|..];
        assert SameKey(b[1..], key, k) == (p + SameKey(b[1..], key, k))[|p|..];
      }
      assert Sorted(a[1..], le) && Sorted(b[1..], le);
      StableSortUnique(a[1..], b[1..], le, key);
      assert a == [a[0]] + a[1..] && b == [b[0]] + b[1..];
    }
  }

  // ---------------------------------------------------------------------
  // Filtering before or after sorting

  /** The items of `s` that `keep` accepts, in their order in `s`. */
  function Filter<T>(s: seq<T>, keep: T -> bool): (r: seq<T>)
    ensures |r| <= |s|
  {
    if s == [] then [] else (if keep(s[0]) then [s[0]] else []) + Filter(s[1..], keep)
  }

  lemma {:induction false} FilterConcat<T>(a: seq<T>, b: seq<T>, keep: T -> bool)
    ensures Filter(a + b, keep) == Filter(a, keep) + Filter(b, keep)
    decreases |a|
  {
    if a != [] {
      assert (a + b)[1..] == a[1..] + b;
      FilterConcat(a[1..], b, keep);
    } else {
      assert a + b == b;
    }
  }

  lemma {:induction false} FilterMembers<T(!new)>(s: seq<T>, keep: T -> bool)
    ensures forall x :: x in Filter(s, keep) <==> x in s && keep(x)
    decreases |s|
  {
    if s != [] {
      FilterMembers(s[1..], keep);
      assert s == [s[0]] + s[1..];
    }
  }

  /** Nothing passes a filter that rejects every item. */
  lemma {:induction false} FilterNone<T(!new)>(s: seq<T>, keep: T -> bool)
    ensures (forall x :: x in s ==> !keep(x)) ==> Filter(s, keep) == []
    decreases |s|
  {
    if s != [] {
      FilterNone(s[1..], keep);
      assert forall x :: x in s[1..] ==> x in s;
    }
  }

  /** Dropping items from a sorted list leaves it sorted. */
  lemma {:induction false} FilterSorted<T(!new)>(s: seq<T>, keep: T -> bool, le: (T, T) -> bool)
    requires Sorted(s, le)
    ensures Sorted(Filter(s, keep), le)
    decreases |s|
  {
    if s != [] {
      var tail := s[1..];
      assert Sorted(tail, le) by {
        forall i, j | 0 <= i < j < |tail| ensures le(tail[i], tail[j]) {
          assert tail[i] == s[i + 1] && tail[j] == s[j + 1];
        }
      }
      FilterSorted(tail, keep, le);
      FilterMembers(tail, keep);
      var rest := Filter(tail, keep);
      if keep(s[0]) {
        var r := [s[0]] + rest;
        forall i, j | 0 <= i < j < |r| ensures le(r[i], r[j]) {
          if i == 0 {
            assert r[j] == rest[j - 1] && rest[j - 1] in rest;
            assert r[j] in tail;
            var t :| 0 <= t < |tail| && tail[t] == r[j];
            assert s[t + 1] == r[j];
          } else {
            assert r[i] == rest[i - 1] && r[j] == rest[j - 1];
          }
        }
      }
    }
  }

  /** One key class of the filtered list is that class, filtered. */
  lemma {:induction false} SameKeyFilter<T, K>(s: seq<T>, keep: T -> bool, key: T -> K, k: K)
    ensures SameKey(Filter(s, keep), key, k) == Filter(SameKey(s, key, k), keep)
    decreases |s|
  {
    if s != [] {
      var x := s[0];
      SameKeyFilter(s[1..], keep, key, k);
      var own: seq<T> := if key(x) == k then [x] else [];
      FilterConcat(own, SameKey(s[1..], key, k), keep);
      assert [x][1..] == [];
      if keep(x) {
        assert ([x] + Filter(s[1..], keep))[1..] == Filter(s[1..], keep);
      } else {
        assert Filter(s, keep) == Filter(s[1..], keep);
        assert Filter(own, keep) == [];
      }
    }
  }

  /** Filtering a stable sort gives the stable sort of the filtered list. */
  lemma FilterSortCommute<T(!new), K(!new)>(s: seq<T>, keep: T -> bool, le: (T, T) -> bool, key: T -> K)
    requires IsKeyPreorder(le, key)
    ensures Filter(Sort(s, le), keep) == Sort(Filter(s, keep), le)
  {
    var a := Filter(Sort(s, le), keep);
    var b := Sort(Filter(s, keep), le);
    SortIsSortedPermutation(s, le, key);
    SortIsSortedPermutation(Filter(s, keep), le, key);
    SortIsStable(s, le, key);
    SortIsStable(Filter(s, keep), le, key);
    FilterSorted(Sort(s, le), keep, le);
    forall k ensures SameKey(a, key, k) == SameKey(b, key, k) {
      SameKeyFilter(Sort(s, le), keep, key, k);
      SameKeyFilter(s, keep, key, k);
    }
    StableSortUnique(a, b, le, key);
  }
}
