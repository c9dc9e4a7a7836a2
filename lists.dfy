/** The list operations the source builds everything from: a stable sort by
    an integer key, largest key first (it stands for `Array.prototype.sort`
    with a numeric comparator, which is stable, and for Dexie's
    `reverse().sortBy(...)`; an ascending sort is the same sort on the negated
    key), `filter`, `find` and a sum over a list. */
module Lists {
  import opened Wrappers

  /** Keys never increase from left to right. */
  ghost predicate SortedDesc<T>(s: seq<T>, key: T -> int) {
    forall i, j :: 0 <= i < j < |s| ==> key(s[i]) >= key(s[j])
  }

  /** Puts `x` after the last element of `s` whose key is at least `key(x)`. */
  function Insert<T>(s: seq<T>, x: T, key: T -> int): (r: seq<T>)
    ensures |r| == |s| + 1
    ensures multiset(r) == multiset(s) + multiset{x}
    decreases |s|
  {
    if s == [] then [x]
    else if key(s[|s| - 1]) >= key(x) then s + [x]
    else
      assert s == s[..|s| - 1] + [s[|s| - 1]];
      Insert(s[..|s| - 1], x, key) + [s[|s| - 1]]
  }

  /** Inserting keeps a lower bound that `x` and every element respect. */
  lemma InsertBound<T>(s: seq<T>, x: T, key: T -> int, b: int)
    requires forall y :: y in s ==> key(y) >= b
    requires key(x) >= b
    ensures forall y :: y in Insert(s, x, key) ==> key(y) >= b
  {
    var r := Insert(s, x, key);
    forall y | y in r ensures key(y) >= b {
      assert y in multiset(r);
      if y != x {
        assert y in multiset(s);
      }
    }
  }

  /** Appending an element no larger than all others keeps a list sorted. */
  lemma SnocSorted<T>(s: seq<T>, last: T, key: T -> int)
    requires SortedDesc(s, key)
    requires forall y :: y in s ==> key(y) >= key(last)
    ensures SortedDesc(s + [last], key)
  {
    var r := s + [last];
    forall i, j | 0 <= i < j < |r| ensures key(r[i]) >= key(r[j]) {
      assert r[i] == s[i];
      if j < |s| {
        assert r[j] == s[j];
      } else {
        assert s[i] in s;
      }
    }
  }

  /** Inserting into a sorted list keeps it sorted. */
  lemma {:induction false} InsertSorted<T>(s: seq<T>, x: T, key: T -> int)
    requires SortedDesc(s, key)
    ensures SortedDesc(Insert(s, x, key), key)
    decreases |s|
  {
    if s == [] {
    } else {
      var init, last := s[..|s| - 1], s[|s| - 1];
      forall y | y in init ensures key(y) >= key(last) {
        var j :| 0 <= j < |init| && init[j] == y;
        assert s[j] == y;
      }
      if key(last) >= key(x) {
        SnocSorted(s, x, key);
      } else {
        assert SortedDesc(init, key) by {
          forall i, j | 0 <= i < j < |init| ensures key(init[i]) >= key(init[j]) {
            assert init[i] == s[i] && init[j] == s[j];
          }
        }
        InsertSorted(init, x, key);
        InsertBound(init, x, key, key(last));
        SnocSorted(Insert(init, x, key), last, key);
      }
    }
  }

  /** Inserts the elements one by one, in their original order, so that
      elements with equal keys keep their relative order. */
  function SortDesc<T>(s: seq<T>, key: T -> int): (r: seq<T>)
    ensures |r| == |s|
    ensures multiset(r) == multiset(s)
    ensures SortedDesc(r, key)
    decreases |s|
  {
    if s == [] then []
    else
      assert s == s[..|s| - 1] + [s[|s| - 1]];
      InsertSorted(SortDesc(s[..|s| - 1], key), s[|s| - 1], key);
      Insert(SortDesc(s[..|s| - 1], key), s[|s| - 1], key)
  }

  /** Sorting keeps the elements. */
  lemma SortDescMembers<T>(s: seq<T>, key: T -> int)
    ensures forall x :: x in SortDesc(s, key) <==> x in s
  {
    var r := SortDesc(s, key);
    forall x ensures x in r <==> x in s {
      assert (x in r) == (x in multiset(r));
      assert (x in s) == (x in multiset(s));
    }
  }

  /** Elements with equal keys appear in increasing `rank`: with `rank` the
      position of each element in some earlier list, the ties are in that
      list's order. */
  ghost predicate TiesRanked<T>(s: seq<T>, key: T -> int, rank: T -> int) {
    forall i, j :: 0 <= i < j < |s| && key(s[i]) == key(s[j]) ==> rank(s[i]) < rank(s[j])
  }

  /** Appending an element that outranks every earlier tie keeps the ties ranked. */
  lemma SnocTiesRanked<T>(s: seq<T>, x: T, key: T -> int, rank: T -> int)
    requires TiesRanked(s, key, rank)
    requires forall y :: y in s && key(y) == key(x) ==> rank(y) < rank(x)
    ensures TiesRanked(s + [x], key, rank)
  {
    var r := s + [x];
    forall i, j | 0 <= i < j < |r| && key(r[i]) == key(r[j]) ensures rank(r[i]) < rank(r[j]) {
      assert r[i] == s[i];
      if j == |s| {
        assert s[i] in s;
      } else {
        assert r[j] == s[j];
      }
    }
  }

  /** Insertion goes after the elements with an equal key, so an element that
      outranks its ties keeps the ties ranked. */
  lemma {:induction false} InsertTiesRanked<T>(s: seq<T>, x: T, key: T -> int, rank: T -> int)
    requires TiesRanked(s, key, rank)
    requires forall y :: y in s && key(y) == key(x) ==> rank(y) < rank(x)
    ensures TiesRanked(Insert(s, x, key), key, rank)
    decreases |s|
  {
    if s == [] {
    } else if key(s[|s| - 1]) >= key(x) {
      SnocTiesRanked(s, x, key, rank);
    } else {
      var init, last := s[..|s| - 1], s[|s| - 1];
      assert s == init + [last];
      assert TiesRanked(init, key, rank) by {
        forall i, j | 0 <= i < j < |init| && key(init[i]) == key(init[j]) ensures rank(init[i]) < rank(init[j]) {
          assert init[i] == s[i] && init[j] == s[j];
        }
      }
      InsertTiesRanked(init, x, key, rank);
      var r' := Insert(init, x, key);
      forall y | y in r' && key(y) == key(last) ensures rank(y) < rank(last) {
        assert y in multiset(r');
        if y != x {
          assert y in multiset(init);
          var m :| 0 <= m < |init| && init[m] == y;
          assert s[m] == y;
        }
      }
      SnocTiesRanked(r', last, key, rank);
    }
  }

  /** The sort is stable: ties ranked in the input are ranked in the output. */
  lemma {:induction false} SortDescTiesRanked<T>(s: seq<T>, key: T -> int, rank: T -> int)
    requires TiesRanked(s, key, rank)
    ensures TiesRanked(SortDesc(s, key), key, rank)
    decreases |s|
  {
    if s != [] {
      var init, last := s[..|s| - 1], s[|s| - 1];
      assert TiesRanked(init, key, rank) by {
        forall i, j | 0 <= i < j < |init| && key(init[i]) == key(init[j]) ensures rank(init[i]) < rank(init[j]) {
          assert init[i] == s[i] && init[j] == s[j];
        }
      }
      SortDescTiesRanked(init, key, rank);
      var sorted := SortDesc(init, key);
      forall y | y in sorted && key(y) == key(last) ensures rank(y) < rank(last) {
        assert y in multiset(sorted);
        assert y in multiset(init);
        var m :| 0 <= m < |init| && init[m] == y;
        assert s[m] == y;
      }
      InsertTiesRanked(sorted, last, key, rank);
    }
  }

  /** On an ascending key (the negation of the descending one) the sort orders
      elements from the smallest key up. */
  lemma SortDescOfNegatedIsAscending<T>(s: seq<T>, key: T -> int, neg: T -> int)
    requires forall t :: neg(t) == -key(t)
    ensures forall i, j :: 0 <= i < j < |SortDesc(s, neg)| ==>
      key(SortDesc(s, neg)[i]) <= key(SortDesc(s, neg)[j])
  {
    var r := SortDesc(s, neg);
    assert SortedDesc(r, neg);
    forall i, j | 0 <= i < j < |r| ensures key(r[i]) <= key(r[j]) {
      assert neg(r[i]) >= neg(r[j]);
    }
  }

  /** Filtering keeps the relative order of the kept elements. */
  function Filter<T(!new)>(s: seq<T>, p: T -> bool): (r: seq<T>)
    ensures |r| <= |s|
    ensures forall x :: x in r <==> x in s && p(x)
    ensures multiset(r) <= multiset(s)
    decreases |s|
  {
    if s == [] then []
    else
      var rest := Filter(s[1..], p);
      FilterConsMembers(s, p, rest);
      FilterConsCount(s, p, rest);
      if p(s[0]) then [s[0]] + rest else rest
  }

  /** The step of Filter, for the elements it keeps. */
  lemma FilterConsMembers<T(!new)>(s: seq<T>, p: T -> bool, rest: seq<T>)
    requires s != []
    requires forall x :: x in rest <==> x in s[1..] && p(x)
    ensures var r := if p(s[0]) then [s[0]] + rest else rest;
      forall x :: x in r <==> x in s && p(x)
  {
    assert s == [s[0]] + s[1..];
  }

  /** The step of Filter, for the count of each element. */
  lemma FilterConsCount<T>(s: seq<T>, p: T -> bool, rest: seq<T>)
    requires s != []
    requires |rest| <= |s[1..]| && multiset(rest) <= multiset(s[1..])
    ensures var r := if p(s[0]) then [s[0]] + rest else rest;
      |r| <= |s| && multiset(r) <= multiset(s)
  {
    assert s == [s[0]] + s[1..];
    assert multiset(s) == multiset{s[0]} + multiset(s[1..]);
  }

  /** Filter distributes over concatenation. */
  lemma {:induction false} FilterAppend<T(!new)>(a: seq<T>, b: seq<T>, p: T -> bool)
    ensures Filter(a + b, p) == Filter(a, p) + Filter(b, p)
    decreases |a|
  {
    if a == [] {
      assert a + b == b;
    } else {
      assert (a + b)[1..] == a[1..] + b;
      assert (a + b)[0] == a[0];
      FilterAppend(a[1..], b, p);
    }
  }

  /** Filtering a list grown by one element. */
  lemma FilterSnoc<T(!new)>(s: seq<T>, x: T, p: T -> bool)
    ensures Filter(s + [x], p) == Filter(s, p) + (if p(x) then [x] else [])
  {
    FilterAppend(s, [x], p);
    FilterSingleton(x, p);
  }

  /** Filtering keeps ties in the order they had. */
  lemma {:induction false} FilterTiesRanked<T(!new)>(s: seq<T>, p: T -> bool, key: T -> int, rank: T -> int)
    requires TiesRanked(s, key, rank)
    ensures TiesRanked(Filter(s, p), key, rank)
    decreases |s|
  {
    if s != [] {
      var tail := s[1..];
      assert TiesRanked(tail, key, rank) by {
        forall i, j | 0 <= i < j < |tail| && key(tail[i]) == key(tail[j]) ensures rank(tail[i]) < rank(tail[j]) {
          assert tail[i] == s[i + 1] && tail[j] == s[j + 1];
        }
      }
      FilterTiesRanked(tail, p, key, rank);
      if p(s[0]) {
        ConsTiesRanked(s, Filter(tail, p), key, rank);
      }
    }
  }

  /** The step of FilterTiesRanked for a head that is kept. */
  lemma ConsTiesRanked<T>(s: seq<T>, rest: seq<T>, key: T -> int, rank: T -> int)
    requires s != [] && TiesRanked(s, key, rank) && TiesRanked(rest, key, rank)
    requires forall x :: x in rest ==> x in s[1..]
    ensures TiesRanked([s[0]] + rest, key, rank)
  {
    var r := [s[0]] + rest;
    forall i, j | 0 <= i < j < |r| && key(r[i]) == key(r[j]) ensures rank(r[i]) < rank(r[j]) {
      assert r[j] == rest[j - 1] && rest[j - 1] in rest;
      if i == 0 {
        var m :| 0 <= m < |s[1..]| && s[1..][m] == r[j];
        assert s[m + 1] == r[j];
      } else {
        assert r[i] == rest[i - 1];
      }
    }
  }

  lemma FilterSingleton<T(!new)>(x: T, p: T -> bool)
    ensures Filter([x], p) == if p(x) then [x] else []
  {
    assert [x][1..] == [];
  }

  /** No element occurs twice. */
  ghost predicate Distinct<T>(s: seq<T>) {
    forall i, j :: 0 <= i < j < |s| ==> s[i] != s[j]
  }

  /** A list without repetitions holds each element at most once. */
  lemma {:induction false} DistinctOnce<T>(s: seq<T>)
    requires Distinct(s)
    ensures forall x :: multiset(s)[x] <= 1
    decreases |s|
  {
    if s != [] {
      var init, last := s[..|s| - 1], s[|s| - 1];
      assert s == init + [last];
      DistinctOnce(init);
      assert last !in init;
    }
  }

  /** Two equal entries make an element occur at least twice. */
  lemma RepeatCounts<T>(s: seq<T>, i: nat, j: nat)
    requires i < j < |s|
    ensures s[i] == s[j] ==> multiset(s)[s[j]] >= 2
  {
    assert s == s[..j] + [s[j]] + s[j + 1..];
    assert s[i] in s[..j];
  }

  /** Conversely, a list that holds each element at most once has no
      repetitions, so any list with the same multiset has none either. */
  lemma OnceDistinct<T>(s: seq<T>)
    requires forall x :: multiset(s)[x] <= 1
    ensures Distinct(s)
  {
    forall i, j | 0 <= i < j < |s| ensures s[i] != s[j] {
      RepeatCounts(s, i, j);
    }
  }

  /** The number of elements that satisfy `p`. */
  function Count<T(!new)>(s: seq<T>, p: T -> bool): nat {
    |Filter(s, p)|
  }

  /** `findIndex`: the position of the first element that satisfies `p`. */
  function FindIndex<T>(s: seq<T>, p: T -> bool): (r: Option<nat>)
    ensures r.Some? ==> r.value < |s| && p(s[r.value])
    ensures r.Some? ==> forall j :: 0 <= j < r.value ==> !p(s[j])
    ensures r.None? ==> forall j :: 0 <= j < |s| ==> !p(s[j])
    decreases |s|
  {
    if s == [] then None
    else if p(s[0]) then Some(0)
    else
      match FindIndex(s[1..], p)
      case None => None
      case Some(j) => Some(j + 1)
  }

  /** `find`: the first element that satisfies `p`, if any. */
  function Find<T>(s: seq<T>, p: T -> bool): (r: Option<T>)
    ensures r.Some? <==> exists i :: 0 <= i < |s| && p(s[i])
    ensures r.Some? ==> r.value in s && p(r.value)
  {
    match FindIndex(s, p)
    case None => None
    case Some(i) => Some(s[i])
  }

  /** The sum of the weights of the elements, accumulated from the left. */
  function Sum<T>(s: seq<T>, w: T -> int): int
    decreases |s|
  {
    if s == [] then 0 else Sum(s[..|s| - 1], w) + w(s[|s| - 1])
  }

  lemma {:induction false} SumAppend<T>(a: seq<T>, b: seq<T>, w: T -> int)
    ensures Sum(a + b, w) == Sum(a, w) + Sum(b, w)
    decreases |b|
  {
    if b == [] {
      assert a + b == a;
    } else {
      assert (a + b)[..|a + b| - 1] == a + b[..|b| - 1];
      SumAppend(a, b[..|b| - 1], w);
    }
  }

  /** Inserting an element adds exactly its weight. */
  lemma {:induction false} SumInsert<T>(s: seq<T>, x: T, key: T -> int, w: T -> int)
    ensures Sum(Insert(s, x, key), w) == Sum(s, w) + w(x)
    decreases |s|
  {
    if s == [] {
      assert Insert(s, x, key) == [x];
      assert [x][..0] == [];
    } else {
      var init, last := s[..|s| - 1], s[|s| - 1];
      if key(last) >= key(x) {
        var r := s + [x];
        assert Insert(s, x, key) == r;
        assert r[..|r| - 1] == s;
      } else {
        var r' := Insert(init, x, key);
        SumInsert(init, x, key, w);
        var r := r' + [last];
        assert Insert(s, x, key) == r;
        assert r[..|r| - 1] == r';
      }
    }
  }

  /** Sorting does not change a sum. */
  lemma {:induction false} SumSortDesc<T>(s: seq<T>, key: T -> int, w: T -> int)
    ensures Sum(SortDesc(s, key), w) == Sum(s, w)
    decreases |s|
  {
    if s != [] {
      SumSortDesc(s[..|s| - 1], key, w);
      SumInsert(SortDesc(s[..|s| - 1], key), s[|s| - 1], key, w);
    }
  }

  /** A sum of weights that are never negative is at least each of them. */
  lemma {:induction false} SumAtLeast<T>(s: seq<T>, w: T -> int, i: nat)
    requires forall x :: x in s ==> w(x) >= 0
    requires i < |s|
    ensures Sum(s, w) >= w(s[i])
    ensures Sum(s, w) >= 0
    decreases |s|
  {
    var init := s[..|s| - 1];
    forall x | x in init ensures w(x) >= 0 {
      assert x in s;
    }
    if i < |s| - 1 {
      SumAtLeast(init, w, i);
      assert init[i] == s[i];
      assert w(s[|s| - 1]) >= 0;
    } else if |init| > 0 {
      SumAtLeast(init, w, 0);
    }
  }
}
