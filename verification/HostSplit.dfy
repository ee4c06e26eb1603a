/**
How the provisioner divides the demanded hosts among the resource managers that said they could serve
them. Each manager's list is edited while it is iterated by index, so the element after a removed one is
not looked at.
*/
module HostSplit {
  import opened PyLists

  /** The iteration over one list from index `i` on: a host some other manager also has is removed. */
  function SplitPass<T(==)>(hosts: seq<T>, i: nat, others: set<T>): seq<T>
    decreases |hosts| - i
  {
    if i >= |hosts| then hosts
    else if hosts[i] in others then SplitPass(RemoveFirst(hosts, hosts[i]), i + 1, others)
    else SplitPass(hosts, i + 1, others)
  }

  function Union<T(==)>(lists: seq<seq<T>>): set<T> {
    set j: nat, h | j < |lists| && h in lists[j] :: h
  }

  /** What the managers other than `k` have. */
  function Others<T(==)>(lists: seq<seq<T>>, k: nat): set<T> {
    set j: nat, h | j < |lists| && j != k && h in lists[j] :: h
  }

  function SplitFrom<T(==)>(lists: seq<seq<T>>, k: nat): (r: seq<seq<T>>)
    ensures |r| == |lists|
    decreases |lists| - k
  {
    if k >= |lists| then lists
    else SplitFrom(lists[k := SplitPass(lists[k], 0, Others(lists, k))], k + 1)
  }

  /** The loop over one manager's hosts, removing from the list it iterates. */
  method Prune<T(==)>(offered: seq<T>, others: set<T>) returns (hosts: seq<T>)
    ensures hosts == SplitPass(offered, 0, others)
  {
    hosts := offered;
    var i := 0;
    while i < |hosts|
      invariant SplitPass(hosts, i, others) == SplitPass(offered, 0, others)
      decreases |hosts| - i
    {
      if hosts[i] in others {
        RemoveFirstIsOneLess(hosts, hosts[i]);
        hosts := RemoveFirst(hosts, hosts[i]);
      }
      i := i + 1;
    }
  }

  // ----- coverage, for any number of managers and any lists

  lemma {:induction false} RemoveFirstMembers<T>(s: seq<T>, x: T)
    ensures forall y :: y in RemoveFirst(s, x) ==> y in s
    ensures forall y :: y in s && y != x ==> y in RemoveFirst(s, x)
  {
    if s != [] { RemoveFirstMembers(s[1..], x); }
  }

  lemma {:induction false} PassKeepsOwn<T>(hosts: seq<T>, i: nat, others: set<T>)
    ensures forall h :: h in SplitPass(hosts, i, others) ==> h in hosts
    ensures forall h :: h in hosts && h !in SplitPass(hosts, i, others) ==> h in others
    decreases |hosts| - i
  {
    if i < |hosts| {
      if hosts[i] in others {
        RemoveFirstMembers(hosts, hosts[i]);
        RemoveFirstIsOneLess(hosts, hosts[i]);
        PassKeepsOwn(RemoveFirst(hosts, hosts[i]), i + 1, others);
      } else {
        PassKeepsOwn(hosts, i + 1, others);
      }
    }
  }

  lemma StepKeepsUnion<T>(lists: seq<seq<T>>, k: nat)
    requires k < |lists|
    ensures Union(lists[k := SplitPass(lists[k], 0, Others(lists, k))]) == Union(lists)
  {
    var kept := SplitPass(lists[k], 0, Others(lists, k));
    var after := lists[k := kept];
    PassKeepsOwn(lists[k], 0, Others(lists, k));
    forall h | h in Union(lists) ensures h in Union(after) {
      if h !in kept {
        var j: nat :| j < |lists| && h in lists[j];
        if j == k {
          var m: nat :| m < |lists| && m != k && h in lists[m];
          assert h in after[m];
        } else {
          assert h in after[j];
        }
      } else {
        assert h in after[k];
      }
    }
    forall h | h in Union(after) ensures h in Union(lists) {
      var j: nat :| j < |after| && h in after[j];
      assert h in lists[j];
    }
  }

  /** The splitting never drops a host from every list. */
  lemma {:induction false} SplitKeepsUnion<T>(lists: seq<seq<T>>, k: nat)
    ensures Union(SplitFrom(lists, k)) == Union(lists)
    decreases |lists| - k
  {
    if k < |lists| {
      StepKeepsUnion(lists, k);
      SplitKeepsUnion(lists[k := SplitPass(lists[k], 0, Others(lists, k))], k + 1);
    }
  }

  /** The test made before the splitting: as many different hosts were offered as demanded. */
  predicate LooksPossible<T(==)>(lists: seq<seq<T>>, demands: seq<T>) {
    lists != [] && |Union(lists)| == |demands|
  }

  /**
  If managers offer only what is demanded, the test passes exactly if there is a manager and every demand is
  offered by one.
  */
  lemma PossibleExactly<T>(lists: seq<seq<T>>, demands: seq<T>)
    requires Distinct(demands) && forall j :: 0 <= j < |lists| ==> forall h <- lists[j] :: h in demands
    ensures LooksPossible(lists, demands) <==> lists != [] && forall h <- demands :: exists j :: 0 <= j < |lists| && h in lists[j]
  {
    var asked := set h | h in demands;
    DistinctSize(demands);
    assert Union(lists) <= asked;
    if |Union(lists)| == |demands| {
      SubsetOfSameSize(Union(lists), asked);
      forall h <- demands ensures exists j :: 0 <= j < |lists| && h in lists[j] {
        assert h in Union(lists);
      }
    }
    if forall h <- demands :: exists j :: 0 <= j < |lists| && h in lists[j] {
      forall h | h in asked ensures h in Union(lists) {
        var j :| 0 <= j < |lists| && h in lists[j];
      }
      assert Union(lists) == asked;
    }
  }

  /** The demands that are sent to one manager. */
  function Filtered<T(==)>(demands: seq<T>, hosts: seq<T>): (r: seq<T>)
    ensures (forall h <- r :: h in demands) && forall h <- demands :: h in r <==> h in hosts
  {
    if demands == [] then []
    else if demands[0] in hosts then [demands[0]] + Filtered(demands[1..], hosts)
    else Filtered(demands[1..], hosts)
  }

  method FilterDemands<T(==)>(demands: seq<T>, hosts: seq<T>) returns (r: seq<T>)
    ensures r == Filtered(demands, hosts)
  {
    r := [];
    assert demands[0..] == demands;
    for i := 0 to |demands|
      invariant Filtered(demands, hosts) == r + Filtered(demands[i..], hosts)
    {
      assert demands[i..][1..] == demands[i + 1..];
      if demands[i] in hosts {
        r := r + [demands[i]];
      }
    }
    assert demands[|demands|..] == [];
  }

  lemma {:induction false} DistinctSize<T>(s: seq<T>)
    requires Distinct(s)
    ensures |set x | x in s| == |s|
  {
    if s != [] {
      var rest := set x | x in s[1..];
      DistinctSize(s[1..]);
      assert (set x | x in s) == rest + {s[0]};
    } else {
      assert (set x | x in s) == {};
    }
  }

  lemma SubsetOfSameSize<T>(a: set<T>, b: set<T>)
    requires a <= b && |a| == |b|
    ensures a == b
  {
    assert |b - a| == |b| - |a|;
  }

  /**
  Once the test has passed, every demanded host is kept by at least one manager's filtered demands if and only if no manager
  offered a host that was not demanded.
  */
  lemma EveryDemandIsKept<T>(lists: seq<seq<T>>, demands: seq<T>)
    requires Distinct(demands) && LooksPossible(lists, demands)
    ensures (forall h <- demands :: exists j :: 0 <= j < |lists| && h in Filtered(demands, SplitFrom(lists, 0)[j]))
            <==> (forall j :: 0 <= j < |lists| ==> forall h <- lists[j] :: h in demands)
  {
    var asked := set h | h in demands;
    var final := SplitFrom(lists, 0);
    DistinctSize(demands);
    SplitKeepsUnion(lists, 0);
    if forall j :: 0 <= j < |lists| ==> forall h <- lists[j] :: h in demands {
      assert Union(lists) <= asked;
      SubsetOfSameSize(Union(lists), asked);
      forall h <- demands ensures exists j :: 0 <= j < |lists| && h in Filtered(demands, final[j]) {
        assert h in Union(final);
        var j: nat :| j < |final| && h in final[j];
        assert h in Filtered(demands, final[j]);
      }
    }
    if forall h <- demands :: exists j :: 0 <= j < |lists| && h in Filtered(demands, final[j]) {
      forall h | h in asked ensures h in Union(final) {
        var j :| 0 <= j < |lists| && h in Filtered(demands, final[j]);
      }
      SubsetOfSameSize(asked, Union(lists));
      forall j, h | 0 <= j < |lists| && h in lists[j] ensures h in demands {
        assert h in Union(lists);
      }
    }
  }
}
