/**
 * The list operations of the JavaScript runtime the application relies on:
 * `filter`, de-duplication through a `Set`, and `Array.prototype.sort` with a
 * comparator. A comparator `cmp` is given here as the relation
 * `le(a, b) == (cmp(a, b) <= 0)`: the sort keeps `a` before `b` whenever
 * `b` does not have to come first.
 */
module Lists {

  /** `le` orders every pair of elements and is transitive: the comparator is consistent. */
  ghost predicate TotalPreorder<T(!new)>(le: (T, T) -> bool) {
    (forall a, b :: le(a, b) || le(b, a))
    && (forall a, b, c :: le(a, b) && le(b, c) ==> le(a, c))
  }

  /** Every element is `le` every element after it. */
  predicate SortedBy<T>(s: seq<T>, le: (T, T) -> bool) {
    forall i, j :: 0 <= i < j < |s| ==> le(s[i], s[j])
  }

  /**
   * Inserts `x` after the last element it does not have to precede:
   * one step of a stable insertion sort.
   */
  function Insert<T>(s: seq<T>, x: T, le: (T, T) -> bool): (r: seq<T>)
    ensures multiset(r) == multiset(s) + multiset{x}
    ensures |r| == |s| + 1
  {
    if s == [] || le(s[|s| - 1], x) then s + [x]
    else
      assert s == s[..|s| - 1] + [s[|s| - 1]];
      Insert(s[..|s| - 1], x, le) + [s[|s| - 1]]
  }

  /** `Array.prototype.sort` with the comparator whose `<= 0` is `le`. */
  function SortBy<T>(s: seq<T>, le: (T, T) -> bool): (r: seq<T>)
    ensures multiset(r) == multiset(s)
    ensures |r| == |s|
  {
    if s == [] then []
    else
      assert s == s[..|s| - 1] + [s[|s| - 1]];
      Insert(SortBy(s[..|s| - 1], le), s[|s| - 1], le)
  }

  lemma {:induction false} InsertSorted<T(!new)>(s: seq<T>, x: T, le: (T, T) -> bool)
    requires TotalPreorder(le)
    requires SortedBy(s, le)
    ensures SortedBy(Insert(s, x, le), le)
    decreases |s|
  {
    if s == [] || le(s[|s| - 1], x) {
    } else {
      var init := s[..|s| - 1];
      var last := s[|s| - 1];
      InsertSorted(init, x, le);
      var r := Insert(init, x, le);
      assert le(x, last);
      forall k | 0 <= k < |r| ensures le(r[k], last) {
        assert r[k] in multiset(r);
        if r[k] == x {
        } else {
          assert r[k] in multiset(init);
          var m :| 0 <= m < |init| && init[m] == r[k];
          assert s[m] == r[k];
        }
      }
    }
  }

  /** The sort orders its result by `le`; together with `SortBy`'s own contract, the result is a sorted permutation. */
  lemma {:induction false} SortBySorted<T(!new)>(s: seq<T>, le: (T, T) -> bool)
    requires TotalPreorder(le)
    ensures SortedBy(SortBy(s, le), le)
    decreases |s|
  {
    if s != [] {
      SortBySorted(s[..|s| - 1], le);
      InsertSorted(SortBy(s[..|s| - 1], le), s[|s| - 1], le);
    }
  }

  /** The first element of a sorted permutation is `le` every element of the input. */
  lemma SortByHeadIsLeast<T(!new)>(s: seq<T>, le: (T, T) -> bool)
    requires TotalPreorder(le)
    requires s != []
    ensures forall x :: x in s ==> le(SortBy(s, le)[0], x)
  {
    var r := SortBy(s, le);
    SortBySorted(s, le);
    forall x | x in s ensures le(r[0], x) {
      assert x in multiset(s);
      assert x in multiset(r);
      var k :| 0 <= k < |r| && r[k] == x;
      if k > 0 {
        assert le(r[0], r[k]);
      } else {
        assert le(x, x) || le(x, x);
      }
    }
  }

  /** The elements tied with `c`: each is `le` `c` and `c` is `le` it. */
  function TiedWith<T>(le: (T, T) -> bool, c: T): T -> bool {
    e => le(e, c) && le(c, e)
  }

  /** Inserting `x` puts it after every element it is tied with. */
  lemma {:induction false} InsertStable<T(!new)>(s: seq<T>, x: T, c: T, le: (T, T) -> bool)
    requires TotalPreorder(le)
    ensures Filter(Insert(s, x, le), TiedWith(le, c)) ==
            Filter(s, TiedWith(le, c)) + (if TiedWith(le, c)(x) then [x] else [])
    decreases |s|
  {
    var tied := TiedWith(le, c);
    if s == [] || le(s[|s| - 1], x) {
      assert (s + [x])[..|s|] == s;
    } else {
      var init := s[..|s| - 1];
      var last := s[|s| - 1];
      var r := Insert(init, x, le);
      InsertStable(init, x, c, le);
      assert (r + [last])[..|r|] == r;
      assert !(tied(x) && tied(last));
    }
  }

  /**
   * The sort is stable: the elements tied with any `c` come out in the order
   * they went in.
   */
  lemma {:induction false} SortByStable<T(!new)>(s: seq<T>, c: T, le: (T, T) -> bool)
    requires TotalPreorder(le)
    ensures Filter(SortBy(s, le), TiedWith(le, c)) == Filter(s, TiedWith(le, c))
    decreases |s|
  {
    if s != [] {
      SortByStable(s[..|s| - 1], c, le);
      InsertStable(SortBy(s[..|s| - 1], le), s[|s| - 1], c, le);
    }
  }

  /** `s.filter(p)`, in the order of `s`. */
  function Filter<T(!new)>(s: seq<T>, p: T -> bool): (r: seq<T>)
    ensures |r| <= |s|
  {
    if s == [] then []
    else
      var init := Filter(s[..|s| - 1], p);
      if p(s[|s| - 1]) then init + [s[|s| - 1]] else init
  }

  /** `filter` keeps every occurrence of an element that satisfies `p` and none of the others. */
  lemma {:induction false} FilterCounts<T(!new)>(s: seq<T>, p: T -> bool)
    ensures forall x :: multiset(Filter(s, p))[x] == if p(x) then multiset(s)[x] else 0
  {
    if s != [] {
      FilterCounts(s[..|s| - 1], p);
      assert s == s[..|s| - 1] + [s[|s| - 1]];
    }
  }

  /** The elements `filter` keeps are exactly those of `s` that satisfy `p`. */
  lemma FilterMembers<T(!new)>(s: seq<T>, p: T -> bool)
    ensures forall x :: x in Filter(s, p) <==> x in s && p(x)
  {
    FilterCounts(s, p);
    forall x ensures x in Filter(s, p) <==> x in s && p(x) {
      assert x in Filter(s, p) <==> x in multiset(Filter(s, p));
      assert x in s <==> x in multiset(s);
    }
  }

  /** Filtering a sequence with one more element in front. */
  lemma {:induction false} FilterPrepend<T(!new)>(x: T, s: seq<T>, p: T -> bool)
    ensures Filter([x] + s, p) == (if p(x) then [x] else []) + Filter(s, p)
    decreases |s|
  {
    if s != [] {
      var xs := [x] + s;
      var init := s[..|s| - 1];
      var last := s[|s| - 1];
      var front: seq<T> := if p(x) then [x] else [];
      assert xs[..|xs| - 1] == [x] + init;
      assert xs[|xs| - 1] == last;
      FilterPrepend(x, init, p);
      if p(last) {
        calc {
          Filter(xs, p);
          Filter([x] + init, p) + [last];
          (front + Filter(init, p)) + [last];
          front + (Filter(init, p) + [last]);
          front + Filter(s, p);
        }
      }
    }
  }

  /** When the first element passes, it is the first element kept. */
  lemma FilterHead<T(!new)>(s: seq<T>, p: T -> bool)
    requires s != [] && p(s[0])
    ensures Filter(s, p) != [] && Filter(s, p)[0] == s[0]
  {
    FilterPrepend(s[0], s[1..], p);
    assert [s[0]] + s[1..] == s;
  }

  /**
   * Filtering twice keeps something whenever some `s[j]` passes both filters,
   * and the first element kept occurs in `s` no later than `s[j]`.
   */
  lemma {:induction false} FilterTwiceFirst<T(!new)>(s: seq<T>, p: T -> bool, q: T -> bool, j: int)
    requires 0 <= j < |s| && p(s[j]) && q(s[j])
    ensures Filter(Filter(s, p), q) != [] && Filter(Filter(s, p), q)[0] in s[..j + 1]
    decreases |s|
  {
    var init := s[..|s| - 1];
    var last := s[|s| - 1];
    var inner := Filter(init, p);
    assert Filter(s, p) == inner + (if p(last) then [last] else []);
    var front := Filter(inner, q);
    assert Filter(Filter(s, p), q) == front + (if p(last) && q(last) then [last] else []) by {
      if p(last) {
        assert (inner + [last])[..|inner|] == inner;
      }
    }
    if j < |s| - 1 {
      FilterTwiceFirst(init, p, q, j);
      assert init[..j + 1] == s[..j + 1];
    } else if front != [] {
      FilterMembers(inner, q);
      FilterMembers(init, p);
      assert front[0] in front;
      assert front[0] in init;
      assert s[..j + 1] == s;
    } else {
      assert s[..j + 1] == s;
    }
  }

  /** Filtering keeps the order of what it keeps: a sorted sequence stays sorted. */
  lemma {:induction false} FilterKeepsSorted<T(!new)>(s: seq<T>, p: T -> bool, le: (T, T) -> bool)
    requires SortedBy(s, le)
    ensures SortedBy(Filter(s, p), le)
  {
    if s != [] {
      var init := s[..|s| - 1];
      var last := s[|s| - 1];
      assert SortedBy(init, le) by {
        forall i, j | 0 <= i < j < |init| ensures le(init[i], init[j]) {
          assert init[i] == s[i] && init[j] == s[j];
        }
      }
      FilterKeepsSorted(init, p, le);
      var r := Filter(init, p);
      FilterCounts(init, p);
      forall k | 0 <= k < |r| ensures le(r[k], last) {
        assert r[k] in multiset(r);
        assert r[k] in multiset(init);
        var m :| 0 <= m < |init| && init[m] == r[k];
        assert s[m] == r[k];
      }
    }
  }

  /** `Array.from(new Set(s))`: the first occurrence of every element, in order. */
  function Distinct<T(==)>(s: seq<T>): seq<T> {
    if s == [] then []
    else
      var init := Distinct(s[..|s| - 1]);
      var last := s[|s| - 1];
      if last in init then init else init + [last]
  }

  /** `new Set` keeps every element once: the same members, none repeated. */
  lemma {:induction false} DistinctFacts<T>(s: seq<T>)
    ensures forall x :: x in Distinct(s) <==> x in s
    ensures NoDuplicates(Distinct(s))
  {
    if s != [] {
      var init := s[..|s| - 1];
      DistinctFacts(init);
      assert forall x :: x in s <==> x in init || x == s[|s| - 1];
    }
  }

  /** Removing repeats never lengthens a list. */
  lemma {:induction false} DistinctNoLonger<T>(s: seq<T>)
    ensures |Distinct(s)| <= |s|
  {
    if s != [] {
      DistinctNoLonger(s[..|s| - 1]);
    }
  }

  /** A sequence with no repeated element. */
  predicate NoDuplicates<T(==)>(s: seq<T>) {
    forall i, j :: 0 <= i < j < |s| ==> s[i] != s[j]
  }

  lemma {:induction false} CountAtMostOne<T>(s: seq<T>, x: T)
    requires NoDuplicates(s)
    ensures multiset(s)[x] <= 1
  {
    if s != [] {
      var init := s[..|s| - 1];
      assert s == init + [s[|s| - 1]];
      assert NoDuplicates(init);
      CountAtMostOne(init, x);
      if s[|s| - 1] == x {
        assert x !in init;
      }
    }
  }

  lemma CountedTwice<T>(a: seq<T>, i: int, j: int)
    requires 0 <= i < j < |a| && a[i] == a[j]
    ensures multiset(a)[a[i]] >= 2
  {
    assert a == a[..j] + a[j..];
    assert a[i] in multiset(a[..j]);
    assert a[j] in multiset(a[j..]);
  }

  /** Permutations have the same members. */
  lemma SameMembers<T>(a: seq<T>, b: seq<T>)
    requires multiset(a) == multiset(b)
    ensures forall x :: x in a <==> x in b
  {
    forall x ensures x in a <==> x in b {
      assert x in a <==> x in multiset(a);
      assert x in b <==> x in multiset(b);
    }
  }

  /** Rearranging a sequence without repeats gives a sequence without repeats. */
  lemma PermutationKeepsNoDuplicates<T>(a: seq<T>, b: seq<T>)
    requires multiset(a) == multiset(b) && NoDuplicates(b)
    ensures NoDuplicates(a)
  {
    forall i, j | 0 <= i < j < |a| ensures a[i] != a[j] {
      if a[i] == a[j] {
        CountedTwice(a, i, j);
        CountAtMostOne(b, a[i]);
        assert false;
      }
    }
  }

  /** A subset is no larger than its superset. */
  lemma SubsetCard<T>(a: set<T>, b: set<T>)
    requires a <= b
    ensures |a| <= |b|
  {
    assert b == a + (b - a);
  }

  /** `s.map(f)`, built front to back as a `push` loop builds it. */
  function Map<A, B>(s: seq<A>, f: A -> B): (r: seq<B>)
    ensures |r| == |s|
  {
    if s == [] then [] else Map(s[..|s| - 1], f) + [f(s[|s| - 1])]
  }

  /** Each element of the mapped list is `f` of the element in the same place. */
  lemma {:induction false} MapAt<A, B>(s: seq<A>, f: A -> B)
    ensures forall i :: 0 <= i < |s| ==> Map(s, f)[i] == f(s[i])
  {
    if s != [] {
      MapAt(s[..|s| - 1], f);
    }
  }

  /** `values.reduce((a, v) => a + v, 0)`. */
  function Sum(s: seq<int>): int {
    if s == [] then 0 else Sum(s[..|s| - 1]) + s[|s| - 1]
  }
}
