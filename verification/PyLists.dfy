/** Python list operations the allocator code relies on: slices with any integer bound, and `remove`. */
module PyLists {

  datatype Option<+T> = None | Some(value: T)

  /** `s[:n]` */
  function Take<T>(s: seq<T>, n: int): seq<T> {
    if n >= 0 then s[..if n <= |s| then n else |s|]
    else if -n <= |s| then s[..|s| + n]
    else []
  }

  /** `s[n:]` */
  function Drop<T>(s: seq<T>, n: int): seq<T> {
    if n >= 0 then s[if n <= |s| then n else |s|..]
    else if -n <= |s| then s[|s| + n..]
    else s
  }

  /** The two halves of a slice lose nothing, whatever the sign or size of the bound. */
  lemma SlicesPartition<T>(s: seq<T>, n: int)
    ensures Take(s, n) + Drop(s, n) == s
    ensures multiset(Take(s, n)) + multiset(Drop(s, n)) == multiset(s)
  {
    assert Take(s, n) + Drop(s, n) == s;
  }

  /** `s.remove(x)` for an `x` in `s`; the list itself otherwise. */
  function RemoveFirst<T(==)>(s: seq<T>, x: T): (r: seq<T>)
    ensures |s| - 1 <= |r| <= |s|
  {
    if s == [] then []
    else if s[0] == x then s[1..]
    else [s[0]] + RemoveFirst(s[1..], x)
  }

  lemma {:induction false} RemoveFirstIsOneLess<T>(s: seq<T>, x: T)
    ensures multiset(RemoveFirst(s, x)) == multiset(s) - multiset{x}
    ensures |RemoveFirst(s, x)| == if x in s then |s| - 1 else |s|
  {
    if s != [] {
      assert multiset(s) == multiset{s[0]} + multiset(s[1..]) by { assert s == [s[0]] + s[1..]; }
      RemoveFirstIsOneLess(s[1..], x);
    }
  }

  predicate Distinct<T(==)>(s: seq<T>) {
    forall i, j :: 0 <= i < j < |s| ==> s[i] != s[j]
  }

  lemma {:induction false} SetNoLargerThanList<T>(s: seq<T>)
    ensures |set x | x in s| <= |s|
  {
    if s != [] {
      SetNoLargerThanList(s[1..]);
      assert (set x | x in s) == {s[0]} + set x | x in s[1..];
    } else {
      assert (set x | x in s) == {};
    }
  }

  lemma {:induction false} SubmultisetWhenDistinct<T>(s: seq<T>, pool: seq<T>)
    requires Distinct(s)
    requires forall x :: x in s ==> x in pool
    ensures multiset(s) <= multiset(pool)
  {
    forall x ensures multiset(s)[x] <= multiset(pool)[x] {
      CountInDistinct(s, x);
    }
  }

  lemma {:induction false} CountInDistinct<T>(s: seq<T>, x: T)
    requires Distinct(s)
    ensures multiset(s)[x] == if x in s then 1 else 0
  {
    if s != [] {
      assert s == [s[0]] + s[1..];
      CountInDistinct(s[1..], x);
    }
  }

  /** Removes items one by one; a missing item raises with the earlier ones already gone. */
  function RemoveEach<T(==)>(pool: seq<T>, items: seq<T>): (seq<T>, bool)
    decreases |items|
  {
    if items == [] then (pool, true)
    else if items[0] in pool then RemoveEach(RemoveFirst(pool, items[0]), items[1..])
    else (pool, false)
  }

  lemma {:induction false} RemoveEachShrinks<T>(pool: seq<T>, items: seq<T>)
    ensures |RemoveEach(pool, items).0| <= |pool|
    ensures items != [] && items[0] in pool ==> |RemoveEach(pool, items).0| < |pool|
    ensures multiset(RemoveEach(pool, items).0) <= multiset(pool)
    decreases |items|
  {
    if items != [] && items[0] in pool {
      RemoveFirstIsOneLess(pool, items[0]);
      RemoveEachShrinks(RemoveFirst(pool, items[0]), items[1..]);
    }
  }

  lemma OneMore<T(!new)>(x: T, items: multiset<T>, pool: multiset<T>)
    requires x in pool
    ensures multiset{x} + items <= pool <==> items <= pool - multiset{x}
    ensures pool - multiset{x} - items == pool - (multiset{x} + items)
  {
    if multiset{x} + items <= pool {
      assert (multiset{x} + items) - multiset{x} == items;
      forall y ensures items[y] <= (pool - multiset{x})[y] {
        assert (multiset{x} + items)[y] <= pool[y];
      }
    }
  }

  /** All items can be removed exactly when the pool has enough of each. */
  lemma {:induction false} RemoveEachExactly<T(!new)>(pool: seq<T>, items: seq<T>)
    ensures RemoveEach(pool, items).1 <==> multiset(items) <= multiset(pool)
    ensures RemoveEach(pool, items).1 ==> multiset(RemoveEach(pool, items).0) == multiset(pool) - multiset(items)
    decreases |items|
  {
    if items != [] {
      var x, rest := items[0], items[1..];
      assert multiset(items) == multiset{x} + multiset(rest) by { assert items == [x] + rest; }
      if x in pool {
        RemoveFirstIsOneLess(pool, x);
        RemoveEachExactly(RemoveFirst(pool, x), rest);
        OneMore(x, multiset(rest), multiset(pool));
      } else {
        assert multiset(items)[x] > 0 == multiset(pool)[x];
      }
    }
  }
}
