/** Bookkeeping facts about one pool: a list of free items, the items held elsewhere, and their constant total. */
module Ledger {
  import opened PyLists

  lemma Cancel<T(!new)>(a: multiset<T>, b: multiset<T>, common: multiset<T>)
    ensures a + common == b + common <==> a == b
  {
    if a + common == b + common {
      forall x ensures a[x] == b[x] {
        assert (a + common)[x] == (b + common)[x];
      }
      assert a == b;
    }
  }

  lemma NothingIn<T>(s: seq<T>)
    ensures multiset(s) == multiset{} <==> s == []
  {
    assert |multiset(s)| == |s|;
  }

  /** Items taken off the list and held by a new owner; or handed back at once; or lost, which only an empty loan survives. */
  lemma Lend<T(!new)>(list: seq<T>, taken: seq<T>, left: seq<T>, held: multiset<T>)
    requires multiset(list) == multiset(taken) + multiset(left)
    ensures multiset(left) + (held + multiset(taken)) == multiset(list) + held
    ensures multiset(left + taken) + held == multiset(list) + held
    ensures multiset(left) + held == multiset(list) + held <==> taken == []
  {
    NothingIn(taken);
    Cancel(multiset{}, multiset(taken), multiset(left) + held);
    assert multiset{} + (multiset(left) + held) == multiset(left) + held;
    assert multiset(taken) + (multiset(left) + held) == multiset(list) + held;
  }

  /** What is neither on the list nor held is gone from the total. */
  lemma Missing<T(!new)>(list: multiset<T>, held: multiset<T>, gone: multiset<T>, total: multiset<T>)
    requires list + (held + gone) == total
    ensures gone <= total && list + held == total - gone
  {
    forall x ensures gone[x] <= total[x] && (list + held)[x] == (total - gone)[x] {
      assert (list + (held + gone))[x] == total[x];
    }
  }

  /** Two lists under the same holdings differ by what one total lacks. */
  lemma Short<T(!new)>(list: multiset<T>, shorter: multiset<T>, held: multiset<T>, gone: multiset<T>, total: multiset<T>)
    requires list + held == total && gone <= total && shorter + held == total - gone
    ensures shorter + gone == list
  {
    forall x ensures (shorter + gone)[x] == list[x] {
      assert (list + held)[x] == total[x] && (shorter + held)[x] == (total - gone)[x];
    }
  }

  /** An owner of `lost` is removed and `given` goes back on the list: balanced exactly when the two are the same. */
  lemma HandBack<T(!new)>(list: seq<T>, given: seq<T>, lost: multiset<T>, kept: multiset<T>)
    ensures multiset(list + given) + kept == multiset(list) + (lost + kept) <==> multiset(given) == lost
  {
    Cancel(multiset(given), lost, multiset(list) + kept);
    assert multiset(given) + (multiset(list) + kept) == multiset(list + given) + kept;
    assert lost + (multiset(list) + kept) == multiset(list) + (lost + kept);
  }

  lemma Unlist<T(!new)>(list: seq<T>, x: T, y: T, kept: multiset<T>)
    requires multiset(list) == multiset{y} + kept && x in list
    ensures multiset(RemoveFirst(list, x)) == kept <==> x == y
  {
    RemoveFirstIsOneLess(list, x);
    var less := multiset(list) - multiset{x};
    assert less + multiset{x} == multiset{y} + kept by { assert x in multiset(list); }
    if x == y {
      Cancel(less, kept, multiset{x});
    } else {
      assert (less + multiset{x})[x] == kept[x];
      assert less[x] != kept[x];
    }
  }

  /** A different item cannot keep the list in step. */
  lemma Enlist<T>(list: seq<T>, x: T)
    ensures multiset(list + [x]) == multiset(list) + multiset{x}
    ensures multiset(RemoveFirst(list + [x], x)) == multiset(list)
  {
    RemoveFirstIsOneLess(list + [x], x);
  }

  lemma Halves<T>(list: seq<T>, n: nat)
    requires n <= |list|
    ensures multiset(list) == multiset(list[..n]) + multiset(list[n..])
  {
    assert list == list[..n] + list[n..];
  }

  /** Nothing can be handed back that nobody held. */
  lemma Stray<T(!new)>(list: seq<T>, given: seq<T>, held: multiset<T>)
    ensures multiset(list + given) + held == multiset(list) + held <==> given == []
  {
    HandBack(list, given, multiset{}, held);
    NothingIn(given);
    assert multiset{} + held == held;
  }

  lemma Shorter<T>(list: seq<T>, x: T)
    requires x in list
    ensures multiset(RemoveFirst(list, x)) != multiset(list)
  {
    RemoveFirstIsOneLess(list, x);
    assert multiset(list)[x] > 0;
  }
}
