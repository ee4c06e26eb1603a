/** When the splitting leaves a host with two managers: exactly, for any number of them. */
module HostPartition {
  import opened PyLists
  import opened HostSplit

  function Members<T(==)>(s: seq<T>): set<T> {
    set h | h in s
  }

  // ----- one pass on a list without duplicates

  /** What is left of a list without duplicates: of two neighbours, the first of which is shared, the second stays. */
  function Sieve<T(==)>(s: seq<T>, others: set<T>): seq<T> {
    if s == [] then []
    else if s[0] !in others then [s[0]] + Sieve(s[1..], others)
    else if |s| == 1 then []
    else [s[1]] + Sieve(s[2..], others)
  }

  lemma {:induction false} RemoveFirstAt<T>(s: seq<T>, i: nat)
    requires i < |s| && Distinct(s)
    ensures RemoveFirst(s, s[i]) == s[..i] + s[i + 1..]
  {
    if i > 0 {
      RemoveFirstAt(s[1..], i - 1);
      assert s[..i] == [s[0]] + s[1..][..i - 1];
      assert s[1..][i..] == s[i + 1..];
    }
  }

  lemma DistinctWithout<T>(s: seq<T>, i: nat)
    requires i < |s| && Distinct(s)
    ensures Distinct(s[..i] + s[i + 1..])
  {
    var r := s[..i] + s[i + 1..];
    assert forall k :: 0 <= k < |r| ==> r[k] == s[if k < i then k else k + 1];
  }

  lemma {:induction false} PassIsSieve<T>(hosts: seq<T>, i: nat, others: set<T>)
    requires Distinct(hosts) && i <= |hosts|
    ensures SplitPass(hosts, i, others) == hosts[..i] + Sieve(hosts[i..], others)
    decreases |hosts| - i
  {
    if i < |hosts| {
      if hosts[i] !in others {
        PassIsSieve(hosts, i + 1, others);
        assert hosts[..i + 1] == hosts[..i] + [hosts[i]] && hosts[i..][1..] == hosts[i + 1..];
      } else {
        RemoveFirstAt(hosts, i);
        if i + 1 < |hosts| {
          PassSkips(hosts, i, others);
        }
      }
    }
  }

  /** After a removal at `i` the former neighbour sits at `i` and the iteration goes on behind it. */
  lemma {:induction false} PassSkips<T>(hosts: seq<T>, i: nat, others: set<T>)
    requires Distinct(hosts) && i + 1 < |hosts| && hosts[i] in others
    ensures SplitPass(hosts, i, others) == hosts[..i] + Sieve(hosts[i..], others)
    decreases |hosts| - i, 0
  {
    RemoveFirstAt(hosts, i);
    DistinctWithout(hosts, i);
    var less := hosts[..i] + hosts[i + 1..];
    PassIsSieve(less, i + 1, others);
    WithoutAt(hosts, i);
    SieveSkips(hosts[i..], others);
  }

  lemma WithoutAt<T>(s: seq<T>, i: nat)
    requires i + 1 < |s|
    ensures var less := s[..i] + s[i + 1..];
      less[..i + 1] == s[..i] + [s[i + 1]] && less[i + 1..] == s[i..][2..] && s[i..][1] == s[i + 1]
  {
  }

  lemma SieveSkips<T>(s: seq<T>, others: set<T>)
    requires |s| > 1 && s[0] in others
    ensures Sieve(s, others) == [s[1]] + Sieve(s[2..], others)
  {
  }

  lemma {:induction false} SieveMembers<T>(s: seq<T>, others: set<T>)
    ensures forall x :: x in Sieve(s, others) ==> x in s
  {
    if s == [] {
    } else if s[0] !in others {
      SieveMembers(s[1..], others);
    } else if |s| > 1 {
      SieveMembers(s[2..], others);
    }
  }

  /** How many shared hosts stand directly before position `i`. */
  function Run<T(==)>(s: seq<T>, others: set<T>, i: nat): nat
    requires i <= |s|
  {
    if i == 0 || s[i - 1] !in others then 0 else 1 + Run(s, others, i - 1)
  }

  /** The host at `i` is nobody else's, or stands behind an odd number of shared hosts. */
  predicate Stays<T(==)>(s: seq<T>, others: set<T>, i: nat)
    requires i < |s|
  {
    s[i] !in others || Run(s, others, i) % 2 == 1
  }

  lemma {:induction false} RunBehind<T>(s: seq<T>, others: set<T>, n: nat, i: nat)
    requires n <= i <= |s| && Run(s, others, n) % 2 == 0
    ensures Run(s, others, i) % 2 == Run(s[n..], others, i - n) % 2
    decreases i
  {
    if i > n {
      assert s[n..][i - n - 1] == s[i - 1];
      if s[i - 1] in others {
        RunBehind(s, others, n, i - 1);
      }
    }
  }

  lemma {:induction false} SieveExactly<T>(s: seq<T>, others: set<T>, i: nat)
    requires Distinct(s) && i < |s|
    ensures s[i] in Sieve(s, others) <==> Stays(s, others, i)
    decreases |s|
  {
    if s[0] !in others {
      if i > 0 {
        SieveExactly(s[1..], others, i - 1);
        RunBehind(s, others, 1, i);
      }
    } else if |s| > 1 {
      if i == 0 {
        SieveMembers(s[2..], others);
      } else if i > 1 {
        SieveExactly(s[2..], others, i - 2);
        RunBehind(s, others, 2, i);
      }
    }
  }

  /** A pass leaves a manager a host exactly if nobody else has it or it stands behind an odd number of shared hosts. */
  lemma PassExactly<T>(hosts: seq<T>, others: set<T>, i: nat)
    requires Distinct(hosts) && i < |hosts|
    ensures hosts[i] in SplitPass(hosts, 0, others) <==> Stays(hosts, others, i)
  {
    PassIsSieve(hosts, 0, others);
    assert hosts[0..] == hosts && SplitPass(hosts, 0, others) == Sieve(hosts, others);
    SieveExactly(hosts, others, i);
  }

  /** Two neighbours in the list are both offered by someone else. */
  predicate NeighboursShared<T(==)>(hosts: seq<T>, others: set<T>) {
    exists i :: 0 < i < |hosts| && hosts[i - 1] in others && hosts[i] in others
  }

  /** So it leaves some shared host if and only if two neighbours in the list are shared. */
  lemma PassKeepsSharedExactly<T>(hosts: seq<T>, others: set<T>)
    requires Distinct(hosts)
    ensures (exists x <- SplitPass(hosts, 0, others) :: x in others) <==> NeighboursShared(hosts, others)
  {
    PassKeepsOwn(hosts, 0, others);
    if x :| x in SplitPass(hosts, 0, others) && x in others {
      var i :| 0 <= i < |hosts| && hosts[i] == x;
      PassExactly(hosts, others, i);
      assert i > 0 && hosts[i - 1] in others;
    }
    if NeighboursShared(hosts, others) {
      var i :| 0 < i < |hosts| && hosts[i - 1] in others && hosts[i] in others;
      PassExactly(hosts, others, i);
      PassExactly(hosts, others, i - 1);
      assert Run(hosts, others, i) == 1 + Run(hosts, others, i - 1);
    }
  }

  // ----- any number of managers

  /** The first `k` lists have no host in common. */
  ghost predicate Apart<T(!new)>(lists: seq<seq<T>>, k: nat) {
    forall i: nat, j: nat, h :: i < j < k && j < |lists| && h in lists[i] ==> h !in lists[j]
  }

  ghost predicate AllDistinct<T(!new)>(lists: seq<seq<T>>) {
    forall k: nat :: k < |lists| ==> Distinct(lists[k])
  }

  /** A host that an earlier list still has stands in list `k` behind an odd number of shared hosts. */
  ghost predicate Clashes<T(!new)>(lists: seq<seq<T>>, k: nat)
    requires k < |lists|
  {
    exists j: nat, i: nat :: j < k && i < |lists[k]| && lists[k][i] in lists[j] && Run(lists[k], Others(lists, k), i) % 2 == 1
  }

  function Passed<T(==)>(lists: seq<seq<T>>, k: nat): (r: seq<seq<T>>)
    requires k < |lists|
    ensures |r| == |lists|
  {
    lists[k := SplitPass(lists[k], 0, Others(lists, k))]
  }

  /** No manager's pass, from the `k`-th on, finds such a host in its list. */
  ghost predicate NoClash<T(!new)>(lists: seq<seq<T>>, k: nat)
    decreases |lists| - k
  {
    k >= |lists| || (!Clashes(lists, k) && NoClash(Passed(lists, k), k + 1))
  }

  lemma PassIsApartExactly<T(!new)>(lists: seq<seq<T>>, k: nat)
    requires k < |lists| && Distinct(lists[k]) && Apart(lists, k)
    ensures Apart(Passed(lists, k), k + 1) <==> !Clashes(lists, k)
  {
    var others, after := Others(lists, k), Passed(lists, k);
    PassKeepsOwn(lists[k], 0, others);
    if Clashes(lists, k) {
      var j: nat, i: nat :| j < k && i < |lists[k]| && lists[k][i] in lists[j] && Run(lists[k], others, i) % 2 == 1;
      PassExactly(lists[k], others, i);
      assert after[j] == lists[j] && lists[k][i] in after[k];
    } else {
      forall j: nat, h | j < k && h in lists[j] ensures h !in after[k] {
        if h in lists[k] {
          var i :| 0 <= i < |lists[k]| && lists[k][i] == h;
          assert h in others;
          PassExactly(lists[k], others, i);
        }
      }
    }
  }

  lemma {:induction false} EarlierStay<T>(lists: seq<seq<T>>, k: nat, j: nat)
    requires j < k && j < |lists|
    ensures SplitFrom(lists, k)[j] == lists[j]
    decreases |lists| - k
  {
    if k < |lists| {
      EarlierStay(Passed(lists, k), k + 1, j);
    }
  }

  lemma ApartSoFar<T(!new)>(lists: seq<seq<T>>, k: nat)
    requires Apart(SplitFrom(lists, k), |lists|)
    ensures Apart(lists, k)
  {
    forall i: nat, j: nat, h | i < j < k && j < |lists| && h in lists[i] ensures h !in lists[j] {
      EarlierStay(lists, k, i);
      EarlierStay(lists, k, j);
    }
  }

  lemma {:induction false} SplitExactly<T(!new)>(lists: seq<seq<T>>, k: nat)
    requires k <= |lists| && AllDistinct(lists[k..]) && Apart(lists, k)
    ensures Apart(SplitFrom(lists, k), |lists|) <==> NoClash(lists, k)
    decreases |lists| - k
  {
    if k < |lists| {
      assert Distinct(lists[k..][0]);
      PassIsApartExactly(lists, k);
      var after := Passed(lists, k);
      assert after[k + 1..] == lists[k..][1..];
      assert AllDistinct(after[k + 1..]);
      if Clashes(lists, k) {
        if Apart(SplitFrom(after, k + 1), |after|) {
          ApartSoFar(after, k + 1);
        }
      } else {
        SplitExactly(after, k + 1);
      }
    }
  }

  /** The split is a partition of what was offered if and only if no manager's pass meets such a host. */
  lemma PartitionExactly<T(!new)>(lists: seq<seq<T>>)
    requires AllDistinct(lists)
    ensures Union(SplitFrom(lists, 0)) == Union(lists)
    ensures Apart(SplitFrom(lists, 0), |lists|) <==> NoClash(lists, 0)
  {
    SplitKeepsUnion(lists, 0);
    assert lists[0..] == lists;
    SplitExactly(lists, 0);
  }

  /** What a caller can check before the split: no list has two neighbours that other managers offer as well. */
  ghost predicate Spread<T(!new)>(lists: seq<seq<T>>, k: nat) {
    forall j: nat :: k <= j < |lists| ==> Distinct(lists[j]) && !NeighboursShared(lists[j], Others(lists, j))
  }

  lemma FewerOthers<T>(lists: seq<seq<T>>, k: nat, kept: seq<T>, j: nat)
    requires k < |lists| && forall h <- kept :: h in lists[k]
    ensures forall h :: h in Others(lists[k := kept], j) ==> h in Others(lists, j)
    ensures Others(lists[k := kept], k) == Others(lists, k)
  {
    var after := lists[k := kept];
    forall h | h in Others(after, j) ensures h in Others(lists, j) {
      var m: nat :| m < |after| && m != j && h in after[m];
      assert h in lists[m];
    }
    forall h | h in Others(lists, k) ensures h in Others(after, k) {
      var m: nat :| m < |lists| && m != k && h in lists[m];
      assert h in after[m];
    }
    forall h | h in Others(after, k) ensures h in Others(lists, k) {
      var m: nat :| m < |after| && m != k && h in after[m];
      assert h in lists[m];
    }
  }

  lemma ClashHasNeighbours<T(!new)>(lists: seq<seq<T>>, k: nat)
    requires k < |lists| && Clashes(lists, k)
    ensures NeighboursShared(lists[k], Others(lists, k))
  {
    var others := Others(lists, k);
    var j: nat, i: nat :| j < k && i < |lists[k]| && lists[k][i] in lists[j] && Run(lists[k], others, i) % 2 == 1;
    assert lists[k][i] in others && 0 < i && lists[k][i - 1] in others;
  }

  lemma SpreadDoesNotClash<T(!new)>(lists: seq<seq<T>>, k: nat)
    requires k < |lists| && Spread(lists, k)
    ensures !Clashes(lists, k) && Spread(Passed(lists, k), k + 1)
  {
    if Clashes(lists, k) {
      ClashHasNeighbours(lists, k);
    }
    PassKeepsOwn(lists[k], 0, Others(lists, k));
    var after := Passed(lists, k);
    forall j: nat | k + 1 <= j < |after| ensures Distinct(after[j]) && !NeighboursShared(after[j], Others(after, j)) {
      FewerOthers(lists, k, after[k], j);
    }
  }

  lemma {:induction false} SpreadNeverClashes<T(!new)>(lists: seq<seq<T>>, k: nat)
    requires Spread(lists, k)
    ensures NoClash(lists, k)
    decreases |lists| - k
  {
    if k < |lists| {
      SpreadDoesNotClash(lists, k);
      SpreadNeverClashes(Passed(lists, k), k + 1);
    }
  }

  /** Lists without such neighbours are always divided. */
  lemma SpreadListsPartition<T(!new)>(lists: seq<seq<T>>)
    requires Spread(lists, 0)
    ensures Union(SplitFrom(lists, 0)) == Union(lists) && Apart(SplitFrom(lists, 0), |lists|)
  {
    PartitionExactly(lists);
    SpreadNeverClashes(lists, 0);
  }

  // ----- two managers

  /** The hosts of `b` that stand in `a` behind an odd number of hosts of `b`. */
  ghost function KeptShared<T(!new)>(a: seq<T>, b: seq<T>): set<T> {
    set i: nat | i < |a| && a[i] in b && Run(a, Members(b), i) % 2 == 1 :: a[i]
  }

  lemma KeptSharedExactly<T(!new)>(a: seq<T>, b: seq<T>, x: T)
    requires Distinct(a) && x in b
    ensures x in SplitPass(a, 0, Members(b)) <==> x in KeptShared(a, b)
  {
    var others := Members(b);
    PassKeepsOwn(a, 0, others);
    if x in a {
      var i :| 0 <= i < |a| && a[i] == x;
      PassExactly(a, others, i);
    }
  }

  /** Two managers' lists end disjoint if and only if no two neighbours in the second are such hosts of the first. */
  lemma TwoManagersExactly<T(!new)>(a: seq<T>, b: seq<T>)
    requires Distinct(a) && Distinct(b)
    ensures var r := SplitFrom([a, b], 0);
      (forall h :: !(h in r[0] && h in r[1])) <==> !NeighboursShared(b, KeptShared(a, b))
  {
    var a' := SplitPass(a, 0, Members(b));
    var inA' := Members(a');
    TwoPasses(a, b);
    PassKeepsSharedExactly(b, inA');
    forall x | x in b ensures x in inA' <==> x in KeptShared(a, b) {
      KeptSharedExactly(a, b, x);
    }
    SameNeighbours(b, inA', KeptShared(a, b));
    var r := SplitFrom([a, b], 0);
    assert r[0] == a' && r[1] == SplitPass(b, 0, inA');
  }

  lemma SameNeighbours<T>(s: seq<T>, a: set<T>, b: set<T>)
    requires forall x <- s :: x in a <==> x in b
    ensures NeighboursShared(s, a) <==> NeighboursShared(s, b)
  {
    forall i | 0 < i < |s| ensures s[i - 1] in a && s[i] in a <==> s[i - 1] in b && s[i] in b {
    }
  }

  /** No two hosts appear in one order in `a` and in the other order in `b`. */
  predicate SameOrder<T(==)>(a: seq<T>, b: seq<T>) {
    forall i, j, k, l :: 0 <= i < j < |a| && 0 <= k < l < |b| ==> !(a[i] == b[l] && a[j] == b[k])
  }

  /** Both sides of two managers' lists list hosts in the order of the demands. */
  predicate Subsequence<T(==)>(a: seq<T>, order: seq<T>) {
    if a == [] then true
    else if order == [] then false
    else if a[0] == order[0] then Subsequence(a[1..], order[1..])
    else Subsequence(a, order[1..])
  }

  /** What is sent to a manager keeps the order of the demands. */
  lemma {:induction false} FilteredInOrder<T>(demands: seq<T>, hosts: seq<T>)
    requires Distinct(demands)
    ensures Subsequence(Filtered(demands, hosts), demands)
    decreases |demands|
  {
    if demands != [] {
      FilteredInOrder(demands[1..], hosts);
      if demands[0] in hosts {
        assert ([demands[0]] + Filtered(demands[1..], hosts))[1..] == Filtered(demands[1..], hosts);
      }
    }
  }

  lemma {:induction false} SubsequenceAt<T>(a: seq<T>, order: seq<T>, i: nat) returns (p: nat)
    requires Subsequence(a, order) && i < |a|
    ensures p < |order| && order[p] == a[i]
    decreases |order|
  {
    if a[0] != order[0] {
      p := SubsequenceAt(a, order[1..], i);
      p := p + 1;
    } else if i == 0 {
      p := 0;
    } else {
      p := SubsequenceAt(a[1..], order[1..], i - 1);
      p := p + 1;
    }
  }

  lemma {:induction false} SubsequenceAscends<T>(a: seq<T>, order: seq<T>, i: nat, j: nat) returns (p: nat, q: nat)
    requires Subsequence(a, order) && i < j < |a|
    ensures p < q < |order| && order[p] == a[i] && order[q] == a[j]
    decreases |order|
  {
    if a[0] != order[0] {
      p, q := SubsequenceAscends(a, order[1..], i, j);
      p, q := p + 1, q + 1;
    } else if i == 0 {
      q := SubsequenceAt(a[1..], order[1..], j - 1);
      p, q := 0, q + 1;
    } else {
      p, q := SubsequenceAscends(a[1..], order[1..], i - 1, j - 1);
      p, q := p + 1, q + 1;
    }
  }

  lemma SubsequenceIsDistinct<T>(a: seq<T>, order: seq<T>)
    requires Subsequence(a, order) && Distinct(order)
    ensures Distinct(a)
  {
    forall i, j | 0 <= i < j < |a| ensures a[i] != a[j] {
      var p, q := SubsequenceAscends(a, order, i, j);
    }
  }

  lemma SubsequencesAgree<T>(a: seq<T>, b: seq<T>, order: seq<T>)
    requires Distinct(order) && Subsequence(a, order) && Subsequence(b, order)
    ensures SameOrder(a, b)
  {
    forall i, j, k, l | 0 <= i < j < |a| && 0 <= k < l < |b| ensures !(a[i] == b[l] && a[j] == b[k]) {
      var p, q := SubsequenceAscends(a, order, i, j);
      var m, n := SubsequenceAscends(b, order, k, l);
    }
  }

  /** In one order, the neighbours in `b` that are also in `a` are neighbours among the hosts of `b` there, so their runs differ in parity. */
  lemma OrderedNeverClash<T(!new)>(a: seq<T>, b: seq<T>)
    requires Distinct(a) && Distinct(b) && SameOrder(a, b)
    ensures !NeighboursShared(b, KeptShared(a, b))
  {
    var kept, others := KeptShared(a, b), Members(b);
    forall k | 0 < k < |b| && b[k - 1] in kept ensures b[k] !in kept {
      if b[k] in kept {
        var p: nat :| p < |a| && a[p] == b[k - 1] && Run(a, others, p) % 2 == 1;
        var q: nat :| q < |a| && a[q] == b[k] && Run(a, others, q) % 2 == 1;
        NeighboursMeet(a, b, p, q, k);
      }
    }
  }

  lemma NeighboursMeet<T>(a: seq<T>, b: seq<T>, p: nat, q: nat, k: nat)
    requires Distinct(a) && Distinct(b) && SameOrder(a, b) && 0 < k < |b| && p < |a| && q < |a|
    requires a[p] == b[k - 1] && a[q] == b[k]
    requires Run(a, Members(b), p) % 2 == 1
    ensures Run(a, Members(b), q) % 2 == 0
  {
    var others := Members(b);
    assert p < q;
    forall l | 0 <= l < |b| && p < q - 1 ensures b[l] != a[q - 1] {
      assert l < k - 1 || l == k - 1 || l == k || l > k;
    }
  }

  /** With two managers that list hosts in the order of the demands, the split is a partition of what they offered. */
  lemma TwoManagersPartition<T(!new)>(a: seq<T>, b: seq<T>, demands: seq<T>)
    requires Distinct(demands) && Subsequence(a, demands) && Subsequence(b, demands)
    ensures var r := SplitFrom([a, b], 0);
      && (forall h :: !(h in r[0] && h in r[1]))
      && (forall h :: h in r[0] || h in r[1] <==> h in a || h in b)
  {
    SubsequenceIsDistinct(a, demands);
    SubsequenceIsDistinct(b, demands);
    SubsequencesAgree(a, b, demands);
    OrderedNeverClash(a, b);
    TwoManagersExactly(a, b);
    TwoPasses(a, b);
    PassKeepsOwn(a, 0, Members(b));
    PassKeepsOwn(b, 0, Members(SplitPass(a, 0, Members(b))));
  }

  lemma OthersOfTwo<T>(a: seq<T>, b: seq<T>)
    ensures Others([a, b], 0) == Members(b) && Others([a, b], 1) == Members(a)
  {
    assert [a, b][0] == a && [a, b][1] == b;
  }

  lemma TwoPasses<T>(a: seq<T>, b: seq<T>)
    ensures var a' := SplitPass(a, 0, Members(b));
      SplitFrom([a, b], 0) == [a', SplitPass(b, 0, Members(a'))]
  {
    var a' := SplitPass(a, 0, Members(b));
    OthersOfTwo(a, b);
    OthersOfTwo(a', b);
    var b' := SplitPass(b, 0, Members(a'));
    assert [a, b][0 := a'] == [a', b] && [a', b][1 := b'] == [a', b'];
    assert SplitFrom([a', b'], 2) == [a', b'];
    assert SplitFrom([a', b], 1) == SplitFrom([a', b'], 2);
  }

  lemma SubsequenceBoth<T>(a: seq<T>, order: seq<T>, h: T)
    requires Subsequence(a, order)
    ensures Subsequence([h] + a, [h] + order)
  {
    assert ([h] + a)[1..] == a && ([h] + order)[1..] == order;
  }

  lemma SubsequenceSkips<T>(a: seq<T>, order: seq<T>, h: T)
    requires Subsequence(a, order) && (a == [] || a[0] != h)
    ensures Subsequence(a, [h] + order)
  {
    assert ([h] + order)[1..] == order;
  }

  lemma InOrder<T>(x: T, t: T, r: T, s: T)
    requires x != t && t != r && r != s
    ensures Subsequence([x, t, r, s], [x, t, r, s]) && Subsequence([t, s], [x, t, r, s]) && Subsequence([x, r], [x, t, r, s])
  {
    assert [s] == [s] + [] && [r, s] == [r] + [s] && [t, r, s] == [t] + [r, s] && [x, t, r, s] == [x] + [t, r, s];
    assert [t, s] == [t] + [s] && [x, r] == [x] + [r] && [r] == [r] + [];
    SubsequenceBoth([], [], s);
    SubsequenceBoth([s], [s], r);
    SubsequenceBoth([r, s], [r, s], t);
    SubsequenceBoth([t, r, s], [t, r, s], x);
    SubsequenceSkips([s], [s], r);
    SubsequenceBoth([s], [r, s], t);
    SubsequenceSkips([t, s], [t, r, s], x);
    SubsequenceSkips([], [], s);
    SubsequenceBoth([], [s], r);
    SubsequenceSkips([r], [r, s], t);
    SubsequenceBoth([r], [t, r, s], x);
  }

  /** With three managers a host can stay with two of them, even though all lists agree on one order. */
  lemma ThreeManagersOverlap<T>(x: T, t: T, r: T, s: T)
    requires Distinct([x, t, r, s])
    ensures Subsequence([x, t, r, s], [x, t, r, s]) && Subsequence([t, s], [x, t, r, s]) && Subsequence([x, r], [x, t, r, s])
    ensures SplitFrom([[x, t, r, s], [t, s], [x, r]], 0) == [[t, s], [s], [x, r]]
  {
    assert Distinct([x, t, r, s]) ==> x != t && x != r && x != s && t != r && t != s && r != s by {
      var d := [x, t, r, s];
      assert d[0] == x && d[1] == t && d[2] == r && d[3] == s;
    }
    Tails(x, t, r, s);
    InOrder(x, t, r, s);
    var a, b, c := [x, t, r, s], [t, s], [x, r];
    OthersOfThree(a, b, c);
    assert SplitPass(a, 0, Others([a, b, c], 0)) == [t, s] by { FourToTwo(x, t, r, s, Others([a, b, c], 0)); }
    assert [a, b, c][0 := [t, s]] == [[t, s], b, c];
    OthersOfThree([t, s], b, c);
    assert SplitPass(b, 0, Others([[t, s], b, c], 1)) == [s] by { TwoToOne(t, s, Others([[t, s], b, c], 1)); }
    assert [[t, s], b, c][1 := [s]] == [[t, s], [s], c];
    OthersOfThree([t, s], [s], c);
    assert SplitPass(c, 0, Others([[t, s], [s], c], 2)) == c by { NothingShared(x, r, Others([[t, s], [s], c], 2)); }
    assert [[t, s], [s], c][2 := c] == [[t, s], [s], c];
    assert SplitFrom([[t, s], [s], c], 3) == [[t, s], [s], c];
    assert SplitFrom([[t, s], [s], c], 2) == SplitFrom([[t, s], [s], c], 3);
    assert SplitFrom([[t, s], b, c], 1) == SplitFrom([[t, s], [s], c], 2);
  }

  lemma Tails<T>(x: T, t: T, r: T, s: T)
    ensures [x, t, r, s][1..] == [t, r, s] && [t, r, s][1..] == [r, s] && [r, s][1..] == [s] && [s][1..] == []
    ensures [t, s][1..] == [s] && [x, r][1..] == [r] && [r][1..] == []
  {
  }

  lemma OthersOfThree<T>(a: seq<T>, b: seq<T>, c: seq<T>)
    ensures forall h :: h in Others([a, b, c], 0) <==> h in b || h in c
    ensures forall h :: h in Others([a, b, c], 1) <==> h in a || h in c
    ensures forall h :: h in Others([a, b, c], 2) <==> h in a || h in b
  {
    var lists := [a, b, c];
    assert |lists| == 3 && lists[0] == a && lists[1] == b && lists[2] == c;
  }

  lemma FourToTwo<T>(x: T, t: T, r: T, s: T, others: set<T>)
    requires x in others && r in others && x != t && t != r && x != r
    ensures SplitPass([x, t, r, s], 0, others) == [t, s]
  {
    Tails(x, t, r, s);
    assert RemoveFirst([x, t, r, s], x) == [t, r, s];
    assert RemoveFirst([t, r, s], r) == [t, s] by { assert RemoveFirst([r, s], r) == [s]; }
    assert SplitPass([t, s], 2, others) == [t, s];
    assert SplitPass([t, r, s], 1, others) == SplitPass([t, s], 2, others);
  }

  lemma TwoToOne<T>(t: T, s: T, others: set<T>)
    requires t in others
    ensures SplitPass([t, s], 0, others) == [s]
  {
    assert RemoveFirst([t, s], t) == [s];
  }

  lemma NothingShared<T>(x: T, r: T, others: set<T>)
    requires x !in others && r !in others
    ensures SplitPass([x, r], 0, others) == [x, r]
  {
    assert SplitPass([x, r], 1, others) == SplitPass([x, r], 2, others);
  }

  /** With two managers it takes lists that disagree on the order. */
  lemma DisorderOverlaps<T>(v: T, x: T, w: T, y: T)
    requires Distinct([v, x, w, y])
    ensures SplitFrom([[v, x, w, y], [v, w, x, y]], 0) == [[x, y], [v, w, y]]
  {
    assert v != x && v != w && v != y && x != w && x != y && w != y by {
      var d := [v, x, w, y];
      assert d[0] == v && d[1] == x && d[2] == w && d[3] == y;
    }
    var a, b := [v, x, w, y], [v, w, x, y];
    TwoPasses(a, b);
    FourToTwo(v, x, w, y, Members(b));
    var others := Members([x, y]);
    assert RemoveFirst(b, x) == [v, w, y] by {
      assert b[1..] == [w, x, y] && [w, x, y][1..] == [x, y];
      assert RemoveFirst([x, y], x) == [y] && RemoveFirst([w, x, y], x) == [w, y];
    }
    assert SplitPass([v, w, y], 3, others) == [v, w, y];
    assert SplitPass(b, 2, others) == SplitPass([v, w, y], 3, others);
    assert SplitPass(b, 1, others) == SplitPass(b, 2, others);
  }
}
