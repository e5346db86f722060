/** The stable sort that `Array.prototype.sort` and Python's `sorted` promise. */
module StableSort {
  import opened Wrappers

  ghost predicate TotalPreorder<T(!new)>(le: (T, T) -> bool) {
    && (forall a, b :: le(a, b) || le(b, a))
    && (forall a, b, c :: le(a, b) && le(b, c) ==> le(a, c))
  }

  ghost predicate Sorted<T>(xs: seq<T>, le: (T, T) -> bool) {
    forall i, j | 0 <= i < j < |xs| :: le(xs[i], xs[j])
  }

  /** `x` goes in front of everything it need not follow. */
  function Insert<T>(x: T, xs: seq<T>, le: (T, T) -> bool): seq<T> {
    if xs == [] || le(x, xs[0]) then [x] + xs else [xs[0]] + Insert(x, xs[1..], le)
  }

  function Sort<T>(xs: seq<T>, le: (T, T) -> bool): seq<T> {
    if xs == [] then [] else Insert(xs[0], Sort(xs[1..], le), le)
  }

  function Filter<T>(xs: seq<T>, p: T -> bool): seq<T> {
    if xs == [] then [] else (if p(xs[0]) then [xs[0]] else []) + Filter(xs[1..], p)
  }

  lemma {:induction false} InsertElements<T>(x: T, xs: seq<T>, le: (T, T) -> bool)
    ensures multiset(Insert(x, xs, le)) == multiset{x} + multiset(xs)
    ensures forall y | y in Insert(x, xs, le) :: y == x || y in xs
  {
    if xs != [] && !le(x, xs[0]) {
      InsertElements(x, xs[1..], le);
      assert xs == [xs[0]] + xs[1..];
    }
  }

  lemma {:induction false} InsertSorted<T(!new)>(x: T, xs: seq<T>, le: (T, T) -> bool)
    requires TotalPreorder(le) && Sorted(xs, le)
    ensures Sorted(Insert(x, xs, le), le)
  {
    if xs != [] {
      if le(x, xs[0]) {
        assert forall i | 0 < i < |xs| :: le(xs[0], xs[i]);
      } else {
        InsertSorted(x, xs[1..], le);
        InsertElements(x, xs[1..], le);
        assert forall y | y in xs[1..] :: le(xs[0], y);
      }
    }
  }

  lemma {:induction false} SortSorted<T(!new)>(xs: seq<T>, le: (T, T) -> bool)
    requires TotalPreorder(le)
    ensures Sorted(Sort(xs, le), le) && multiset(Sort(xs, le)) == multiset(xs)
    ensures |Sort(xs, le)| == |xs|
  {
    if xs != [] {
      SortSorted(xs[1..], le);
      InsertSorted(xs[0], Sort(xs[1..], le), le);
      InsertElements(xs[0], Sort(xs[1..], le), le);
      assert xs == [xs[0]] + xs[1..];
      assert |multiset(Sort(xs, le))| == |multiset(xs)|;
    }
  }

  /** Sorting changes nothing about the elements of a class that is not told apart. */
  lemma {:induction false} SortStable<T(!new)>(xs: seq<T>, le: (T, T) -> bool, p: T -> bool)
    requires forall a, b | p(a) && p(b) :: le(a, b)
    ensures Filter(Sort(xs, le), p) == Filter(xs, p)
  {
    if xs != [] {
      SortStable(xs[1..], le, p);
      InsertFilter(xs[0], Sort(xs[1..], le), le, p);
    }
  }

  lemma {:induction false} InsertFilter<T(!new)>(x: T, xs: seq<T>, le: (T, T) -> bool, p: T -> bool)
    requires forall a, b | p(a) && p(b) :: le(a, b)
    ensures Filter(Insert(x, xs, le), p) == (if p(x) then [x] else []) + Filter(xs, p)
  {
    if xs == [] || le(x, xs[0]) {
      assert ([x] + xs)[1..] == xs;
    } else {
      var rest := Insert(x, xs[1..], le);
      InsertFilter(x, xs[1..], le, p);
      assert ([xs[0]] + rest)[1..] == rest;
      if p(xs[0]) {
        assert !p(x);
        assert [] + Filter(xs[1..], p) == Filter(xs[1..], p);
      } else {
        assert [] + Filter(rest, p) == Filter(rest, p);
        assert [] + Filter(xs[1..], p) == Filter(xs[1..], p);
      }
    }
  }

  lemma LeastIsFirst<T(!new)>(a: seq<T>, b: seq<T>, le: (T, T) -> bool)
    requires a != [] && b != [] && multiset(a) == multiset(b) && Sorted(a, le) && Sorted(b, le)
    ensures a[0] != b[0] ==> b[0] in a && le(a[0], b[0]) && le(b[0], a[0])
  {
    assert b[0] in multiset(a) && a[0] in multiset(b);
    var i :| 0 <= i < |a| && a[i] == b[0];
    var j :| 0 <= j < |b| && b[j] == a[0];
  }

  lemma WithoutFirst<T>(a: seq<T>)
    requires a != []
    ensures multiset(a[1..]) == multiset(a) - multiset{a[0]}
  {
    assert a == [a[0]] + a[1..];
  }

  /** Two sorted arrangements of the same elements, no two of them interchangeable, are one. */
  lemma {:induction false} SortedUnique<T(!new)>(a: seq<T>, b: seq<T>, le: (T, T) -> bool)
    requires multiset(a) == multiset(b) && Sorted(a, le) && Sorted(b, le)
    requires forall x, y | x in a && y in a && le(x, y) && le(y, x) :: x == y
    ensures a == b
  {
    assert |multiset(a)| == |multiset(b)|;
    if a != [] {
      LeastIsFirst(a, b, le);
      assert a[0] in a;
      WithoutFirst(a);
      WithoutFirst(b);
      SortedUnique(a[1..], b[1..], le);
      assert a == [a[0]] + a[1..] && b == [b[0]] + b[1..];
    }
  }

  /** `k` of the elements in order, or all there are, none of the rest going before any of them. */
  ghost predicate Best<T>(chosen: seq<T>, k: nat, xs: multiset<T>, le: (T, T) -> bool) {
    && Sorted(chosen, le)
    && |chosen| == (if |xs| < k then |xs| else k)
    && multiset(chosen) <= xs
    && forall x, y | x in chosen && y in xs - multiset(chosen) :: le(x, y)
  }

  lemma Halves<T>(xs: seq<T>, n: nat)
    requires n <= |xs|
    ensures multiset(xs[..n]) <= multiset(xs) && multiset(xs) - multiset(xs[..n]) == multiset(xs[n..])
  {
    assert xs == xs[..n] + xs[n..];
  }

  lemma SplitSorted<T(!new)>(sorted: seq<T>, k: nat, le: (T, T) -> bool)
    requires Sorted(sorted, le)
    ensures Best(Take(sorted, k), k, multiset(sorted), le)
  {
    var n := |Take(sorted, k)|;
    var chosen, rest := sorted[..n], sorted[n..];
    assert |multiset(sorted)| == |sorted|;
    Halves(sorted, n);
    forall x, y | x in chosen && y in multiset(rest) ensures le(x, y) {
      var i :| 0 <= i < n && chosen[i] == x;
      var j :| 0 <= j < |rest| && rest[j] == y;
      assert sorted[i] == x && sorted[n + j] == y;
    }
    assert Take(sorted, k) == chosen;
  }

  lemma FirstAreBest<T(!new)>(xs: seq<T>, k: nat, le: (T, T) -> bool)
    requires TotalPreorder(le)
    ensures Best(Take(Sort(xs, le), k), k, multiset(xs), le)
  {
    SortSorted(xs, le);
    SplitSorted(Sort(xs, le), k, le);
  }

  ghost predicate DistinctBy<T, K>(xs: seq<T>, key: T -> K) {
    forall i, j | 0 <= i < j < |xs| :: key(xs[i]) != key(xs[j])
  }

  lemma {:induction false} DistinctOnce<T, K>(xs: seq<T>, key: T -> K, x: T)
    requires DistinctBy(xs, key)
    ensures multiset(xs)[x] <= 1
  {
    if xs != [] {
      DistinctOnce(xs[1..], key, x);
      assert xs == [xs[0]] + xs[1..];
      assert forall i | 0 <= i < |xs[1..]| :: xs[1..][i] == xs[i + 1] && key(xs[i + 1]) != key(xs[0]);
    }
  }

  lemma Twice<T>(xs: seq<T>, i: nat, j: nat)
    requires i < j < |xs| && xs[i] == xs[j]
    ensures multiset(xs)[xs[i]] >= 2
  {
    assert xs == xs[..j] + [xs[j]] + xs[j + 1..];
    assert xs[..j][i] in multiset(xs[..j]);
  }

  /** Choosing among elements with distinct keys leaves the keys distinct. */
  lemma SubDistinct<T, K>(chosen: seq<T>, xs: seq<T>, key: T -> K)
    requires multiset(chosen) <= multiset(xs) && DistinctBy(xs, key)
    ensures DistinctBy(chosen, key)
  {
    forall i, j | 0 <= i < j < |chosen| ensures key(chosen[i]) != key(chosen[j]) {
      if key(chosen[i]) == key(chosen[j]) {
        assert chosen[i] in multiset(chosen) && chosen[j] in multiset(chosen);
        assert chosen[i] in multiset(xs) && chosen[j] in multiset(xs);
        var a :| 0 <= a < |xs| && xs[a] == chosen[i];
        var b :| 0 <= b < |xs| && xs[b] == chosen[j];
        assert a == b;
        Twice(chosen, i, j);
        DistinctOnce(xs, key, chosen[i]);
        assert false;
      }
    }
  }

  // ----- Where each element ends up -----

  function CountUpTo<T>(xs: seq<T>, v: T, le: (T, T) -> bool): nat {
    if xs == [] then 0 else (if le(xs[0], v) then 1 else 0) + CountUpTo(xs[1..], v, le)
  }

  function CountBelow<T>(xs: seq<T>, v: T, le: (T, T) -> bool): nat {
    if xs == [] then 0 else (if le(v, xs[0]) then 0 else 1) + CountBelow(xs[1..], v, le)
  }

  /** The elements that stand before element `i` once sorted: earlier ones that may, later ones
      that must. */
  function Rank<T>(xs: seq<T>, i: nat, le: (T, T) -> bool): nat
    requires i < |xs|
  {
    CountUpTo(xs[..i], xs[i], le) + CountBelow(xs[i + 1..], xs[i], le)
  }

  lemma {:induction false} InsertCount<T>(x: T, xs: seq<T>, v: T, le: (T, T) -> bool)
    ensures CountBelow(Insert(x, xs, le), v, le) == CountBelow([x] + xs, v, le)
  {
    assert ([x] + xs)[1..] == xs;
    if xs != [] && !le(x, xs[0]) {
      InsertCount(x, xs[1..], v, le);
      assert ([x] + xs[1..])[1..] == xs[1..];
      assert ([xs[0]] + Insert(x, xs[1..], le))[1..] == Insert(x, xs[1..], le);
    }
  }

  lemma {:induction false} SortCount<T>(xs: seq<T>, v: T, le: (T, T) -> bool)
    ensures CountBelow(Sort(xs, le), v, le) == CountBelow(xs, v, le)
  {
    if xs != [] {
      SortCount(xs[1..], v, le);
      InsertCount(xs[0], Sort(xs[1..], le), v, le);
      assert ([xs[0]] + Sort(xs[1..], le))[1..] == Sort(xs[1..], le);
    }
  }

  /** In a sorted sequence the elements below `x` come first, and `x` is inserted after them. */
  lemma {:induction false} InsertPlace<T(!new)>(x: T, xs: seq<T>, le: (T, T) -> bool)
    requires TotalPreorder(le) && Sorted(xs, le)
    ensures var p := CountBelow(xs, x, le);
            && p <= |xs| && Insert(x, xs, le) == xs[..p] + [x] + xs[p..]
            && forall k | 0 <= k < |xs| :: k < p <==> !le(x, xs[k])
  {
    if xs != [] {
      InsertPlace(x, xs[1..], le);
      if le(x, xs[0]) {
        assert forall k | 0 <= k < |xs| :: le(xs[0], xs[k]);
        assert |xs| > 1 ==> le(x, xs[1..][0]);
      } else {
        assert forall k | 0 < k < |xs| :: xs[1..][k - 1] == xs[k];
      }
    }
  }

  lemma RankOfNext<T>(xs: seq<T>, i: nat, le: (T, T) -> bool)
    requires 0 < i < |xs|
    ensures Rank(xs, i, le) == (if le(xs[0], xs[i]) then 1 else 0) + Rank(xs[1..], i - 1, le)
  {
    assert xs[..i][1..] == xs[1..][..i - 1] && xs[i + 1..] == xs[1..][i..];
  }

  lemma RankOfFirst<T(!new)>(xs: seq<T>, le: (T, T) -> bool)
    requires TotalPreorder(le) && xs != []
    ensures Rank(xs, 0, le) < |Sort(xs, le)| && Sort(xs, le)[Rank(xs, 0, le)] == xs[0]
  {
    SortSorted(xs[1..], le);
    InsertPlace(xs[0], Sort(xs[1..], le), le);
    SortCount(xs[1..], xs[0], le);
    assert xs[..0] == [];
  }

  /** Inserting `x` moves an element up by one exactly if `x` may stand before it. */
  lemma Moved<T(!new)>(x: T, xs: seq<T>, q: nat, le: (T, T) -> bool)
    requires TotalPreorder(le) && Sorted(xs, le) && q < |xs|
    ensures var q' := if le(x, xs[q]) then q + 1 else q;
            q' < |Insert(x, xs, le)| && Insert(x, xs, le)[q'] == xs[q]
    ensures le(x, xs[q]) <==> CountBelow(xs, x, le) <= q
  {
    InsertPlace(x, xs, le);
  }

  /** Every element stands in the sorted sequence at its rank. */
  lemma {:induction false} SortRank<T(!new)>(xs: seq<T>, i: nat, le: (T, T) -> bool)
    requires TotalPreorder(le) && i < |xs|
    ensures Rank(xs, i, le) < |Sort(xs, le)| && Sort(xs, le)[Rank(xs, i, le)] == xs[i]
  {
    if i == 0 {
      RankOfFirst(xs, le);
    } else {
      var q := Rank(xs[1..], i - 1, le);
      SortRank(xs[1..], i - 1, le);
      SortSorted(xs[1..], le);
      RankOfNext(xs, i, le);
      Moved(xs[0], Sort(xs[1..], le), q, le);
    }
  }

  /** No two elements have one rank: the ranks are all the places there are. */
  lemma {:induction false} RankInjective<T(!new)>(xs: seq<T>, i: nat, j: nat, le: (T, T) -> bool)
    requires TotalPreorder(le) && i < j < |xs|
    ensures Rank(xs, i, le) != Rank(xs, j, le)
  {
    var rest := Sort(xs[1..], le);
    var q := Rank(xs[1..], j - 1, le);
    SortSorted(xs[1..], le);
    SortRank(xs[1..], j - 1, le);
    RankOfNext(xs, j, le);
    Moved(xs[0], rest, q, le);
    if i == 0 {
      SortCount(xs[1..], xs[0], le);
      assert xs[..0] == [];
    } else {
      SortRank(xs[1..], i - 1, le);
      RankOfNext(xs, i, le);
      Moved(xs[0], rest, Rank(xs[1..], i - 1, le), le);
      RankInjective(xs[1..], i - 1, j - 1, le);
    }
  }
}
