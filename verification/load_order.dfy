/**
  The relaxed scheduler's candidate order: the roster stably sorted by each
  player's current play count. The sort is an insertion sort; its contract
  (a permutation, non-decreasing in the count, players with equal counts in
  roster order) pins the result down uniquely, so it agrees with any stable
  sort of the same list.
 */
module LoadOrder {
  import opened Band

  function Load(counts: multiset<Name>, p: Player): nat {
    counts[p.name]
  }

  ghost predicate SortedByLoad(counts: multiset<Name>, ps: seq<Player>) {
    forall i, j :: 0 <= i < j < |ps| ==> Load(counts, ps[i]) <= Load(counts, ps[j])
  }

  /** The players of `ps` whose count is `k`, in their order in `ps`. */
  function WithLoad(counts: multiset<Name>, ps: seq<Player>, k: nat): (r: seq<Player>)
    ensures |r| <= |ps|
  {
    if ps == [] then []
    else (if Load(counts, ps[0]) == k then [ps[0]] else []) + WithLoad(counts, ps[1..], k)
  }

  lemma PrependKeepsSorted(counts: multiset<Name>, x: Player, ps: seq<Player>)
    requires SortedByLoad(counts, ps)
    requires ps == [] || Load(counts, x) <= Load(counts, ps[0])
    ensures SortedByLoad(counts, [x] + ps)
  {
    var r := [x] + ps;
    forall i, j | 0 <= i < j < |r|
      ensures Load(counts, r[i]) <= Load(counts, r[j])
    {
      if i > 0 {
        assert r[i] == ps[i - 1] && r[j] == ps[j - 1];
      } else if j > 1 {
        assert Load(counts, ps[0]) <= Load(counts, ps[j - 1]);
      }
    }
  }

  /** Places `p` in front of the first player whose count is not smaller. */
  function InsertByLoad(counts: multiset<Name>, p: Player, sorted: seq<Player>): (r: seq<Player>)
    requires SortedByLoad(counts, sorted)
    ensures SortedByLoad(counts, r)
    ensures multiset(r) == multiset(sorted) + multiset{p}
    ensures r[0] == p || (sorted != [] && r[0] == sorted[0])
  {
    if sorted == [] || Load(counts, p) <= Load(counts, sorted[0]) then
      PrependKeepsSorted(counts, p, sorted);
      [p] + sorted
    else
      var tail := sorted[1..];
      assert SortedByLoad(counts, tail) by {
        forall i, j | 0 <= i < j < |tail|
          ensures Load(counts, tail[i]) <= Load(counts, tail[j])
        {
          assert tail[i] == sorted[i + 1] && tail[j] == sorted[j + 1];
        }
      }
      var rest := InsertByLoad(counts, p, tail);
      assert Load(counts, sorted[0]) <= Load(counts, rest[0]) by {
        if rest[0] != p {
          assert rest[0] == sorted[1];
        }
      }
      PrependKeepsSorted(counts, sorted[0], rest);
      assert sorted == [sorted[0]] + tail;
      [sorted[0]] + rest
  }

  /** The candidate list of the relaxed scheduler: the roster ordered by play count. */
  function SortByLoad(counts: multiset<Name>, ps: seq<Player>): (r: seq<Player>)
    ensures SortedByLoad(counts, r)
    ensures multiset(r) == multiset(ps)
  {
    if ps == [] then []
    else
      assert ps == [ps[0]] + ps[1..];
      InsertByLoad(counts, ps[0], SortByLoad(counts, ps[1..]))
  }

  lemma {:induction false} InsertKeepsTies(counts: multiset<Name>, p: Player, sorted: seq<Player>, k: nat)
    requires SortedByLoad(counts, sorted)
    ensures WithLoad(counts, InsertByLoad(counts, p, sorted), k)
         == (if Load(counts, p) == k then [p] else []) + WithLoad(counts, sorted, k)
    decreases |sorted|
  {
    if sorted == [] || Load(counts, p) <= Load(counts, sorted[0]) {
      var r := [p] + sorted;
      assert r[1..] == sorted;
    } else {
      var rest := InsertByLoad(counts, p, sorted[1..]);
      var r := [sorted[0]] + rest;
      assert r[1..] == rest;
      InsertKeepsTies(counts, p, sorted[1..], k);
      assert WithLoad(counts, sorted, k)
          == (if Load(counts, sorted[0]) == k then [sorted[0]] else []) + WithLoad(counts, sorted[1..], k);
    }
  }

  /** Stability: for every count, the players with that count appear in the
      sorted list exactly as they appear in the roster. */
  lemma {:induction false} SortByLoadIsStable(counts: multiset<Name>, ps: seq<Player>, k: nat)
    ensures WithLoad(counts, SortByLoad(counts, ps), k) == WithLoad(counts, ps, k)
    decreases |ps|
  {
    if ps != [] {
      SortByLoadIsStable(counts, ps[1..], k);
      InsertKeepsTies(counts, ps[0], SortByLoad(counts, ps[1..]), k);
    }
  }

  lemma {:induction false} WithLoadMembers(counts: multiset<Name>, ps: seq<Player>, k: nat, x: Player)
    ensures x in WithLoad(counts, ps, k) <==> x in ps && Load(counts, x) == k
    decreases |ps|
  {
    if ps != [] {
      WithLoadMembers(counts, ps[1..], k, x);
      assert x in ps <==> x == ps[0] || x in ps[1..] by {
        assert ps == [ps[0]] + ps[1..];
      }
    }
  }

  /** The first player of a sorted list also appears in any list with the
      same tie groups, so that list's first load is no larger. */
  lemma LeadCarriesOver(counts: multiset<Name>, r1: seq<Player>, r2: seq<Player>)
    requires SortedByLoad(counts, r2) && r1 != []
    requires forall k: nat :: WithLoad(counts, r1, k) == WithLoad(counts, r2, k)
    ensures r2 != [] && Load(counts, r2[0]) <= Load(counts, r1[0])
  {
    var m := Load(counts, r1[0]);
    WithLoadMembers(counts, r1, m, r1[0]);
    assert WithLoad(counts, r1, m) == WithLoad(counts, r2, m);
    WithLoadMembers(counts, r2, m, r1[0]);
    var j :| 0 <= j < |r2| && r2[j] == r1[0];
    assert Load(counts, r2[0]) <= Load(counts, r2[j]);
  }

  /** Uniqueness of the stable order: two lists sorted by load whose tie
      groups agree are the same list. */
  lemma {:induction false} StableOrderIsUnique(counts: multiset<Name>, r1: seq<Player>, r2: seq<Player>)
    requires SortedByLoad(counts, r1) && SortedByLoad(counts, r2)
    requires forall k: nat :: WithLoad(counts, r1, k) == WithLoad(counts, r2, k)
    ensures r1 == r2
    decreases |r1| + |r2|
  {
    if r1 == [] && r2 == [] {
      return;
    }
    if r1 != [] {
      LeadCarriesOver(counts, r1, r2);
    }
    if r2 != [] {
      LeadCarriesOver(counts, r2, r1);
    }
    var m := Load(counts, r1[0]);
    assert WithLoad(counts, r1, m)[0] == r1[0];
    assert WithLoad(counts, r2, m)[0] == r2[0];
    var t1, t2 := r1[1..], r2[1..];
    assert SortedByLoad(counts, t1) by {
      forall i, j | 0 <= i < j < |t1| ensures Load(counts, t1[i]) <= Load(counts, t1[j]) {
        assert t1[i] == r1[i + 1] && t1[j] == r1[j + 1];
      }
    }
    assert SortedByLoad(counts, t2) by {
      forall i, j | 0 <= i < j < |t2| ensures Load(counts, t2[i]) <= Load(counts, t2[j]) {
        assert t2[i] == r2[i + 1] && t2[j] == r2[j + 1];
      }
    }
    assert r1[0] == r2[0] by {
      assert WithLoad(counts, r1, m) == WithLoad(counts, r2, m);
    }
    forall k: nat ensures WithLoad(counts, t1, k) == WithLoad(counts, t2, k) {
      var head := if m == k then [r1[0]] else [];
      assert WithLoad(counts, r1, k) == head + WithLoad(counts, t1, k);
      assert WithLoad(counts, r2, k) == head + WithLoad(counts, t2, k);
      assert (head + WithLoad(counts, t1, k))[|head|..] == WithLoad(counts, t1, k);
      assert (head + WithLoad(counts, t2, k))[|head|..] == WithLoad(counts, t2, k);
    }
    StableOrderIsUnique(counts, t1, t2);
    assert r1 == [r1[0]] + t1 && r2 == [r2[0]] + t2;
  }

  /** SortByLoad is the stable sort: any list sorted by load that keeps each
      tie group in roster order is exactly SortByLoad's result, so a library
      stable sort of the roster by play count yields the same candidates. */
  lemma SortByLoadIsTheStableSort(counts: multiset<Name>, ps: seq<Player>, r: seq<Player>)
    requires SortedByLoad(counts, r)
    requires forall k: nat :: WithLoad(counts, r, k) == WithLoad(counts, ps, k)
    ensures r == SortByLoad(counts, ps)
  {
    forall k: nat ensures WithLoad(counts, r, k) == WithLoad(counts, SortByLoad(counts, ps), k) {
      SortByLoadIsStable(counts, ps, k);
    }
    StableOrderIsUnique(counts, r, SortByLoad(counts, ps));
  }
}
