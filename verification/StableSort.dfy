/** Array.prototype.sort as its result: the stable sorted permutation for a total preorder.
    Insertion sort computes it; the lemmas say what callers may rely on. */
module StableSort {
  import opened Sequences

  ghost predicate TotalPreorder<T(!new)>(le: (T, T) -> bool) {
    && (forall a, b :: le(a, b) || le(b, a))
    && (forall a, b, c :: le(a, b) && le(b, c) ==> le(a, c))
  }

  predicate Sorted<T>(xs: seq<T>, le: (T, T) -> bool) {
    forall i, j | 0 <= i < j < |xs| :: le(xs[i], xs[j])
  }

  // An element goes before every later element it does not exceed, so ties keep their order.
  function Insert<T>(x: T, xs: seq<T>, le: (T, T) -> bool): seq<T> {
    if xs == [] || le(x, xs[0]) then [x] + xs else [xs[0]] + Insert(x, xs[1..], le)
  }

  function Sort<T>(xs: seq<T>, le: (T, T) -> bool): seq<T> {
    if xs == [] then [] else Insert(xs[0], Sort(xs[1..], le), le)
  }

  function Filter<T>(p: T -> bool, xs: seq<T>): seq<T> {
    if xs == [] then [] else (if p(xs[0]) then [xs[0]] else []) + Filter(p, xs[1..])
  }

  function Map<T, U>(f: T -> U, xs: seq<T>): (ys: seq<U>)
    ensures |ys| == |xs| && forall i | 0 <= i < |xs| :: ys[i] == f(xs[i])
  {
    if xs == [] then [] else [f(xs[0])] + Map(f, xs[1..])
  }

  lemma MapConcat<T, U>(f: T -> U, xs: seq<T>, ys: seq<T>)
    ensures Map(f, xs + ys) == Map(f, xs) + Map(f, ys)
  {
    hide Map;
  }

  lemma FilterFirst<T>(p: T -> bool, xs: seq<T>)
    requires xs != []
    ensures Filter(p, xs) == (if p(xs[0]) then [xs[0]] else []) + Filter(p, xs[1..])
  {
  }

  lemma {:induction false} FilterConcat<T>(p: T -> bool, xs: seq<T>, ys: seq<T>)
    ensures Filter(p, xs + ys) == Filter(p, xs) + Filter(p, ys)
  {
    if xs == [] {
      NoneThen(ys);
      NoneThen(Filter(p, ys));
    } else {
      FilterFirst(p, xs);
      FilterFirst(p, xs + ys);
      hide Filter;
      FirstOfConcat(xs, ys);
      FilterConcat(p, xs[1..], ys);
      Assoc(if p(xs[0]) then [xs[0]] else [], Filter(p, xs[1..]), Filter(p, ys));
    }
  }

  lemma {:induction false} FilterMembers<T>(p: T -> bool, xs: seq<T>)
    ensures forall x :: x in Filter(p, xs) <==> x in xs && p(x)
  {
    if xs != [] {
      FilterMembers(p, xs[1..]);
      assert forall x :: x in xs <==> x == xs[0] || x in xs[1..];
    }
  }

  lemma {:induction false} InsertMultiset<T>(x: T, xs: seq<T>, le: (T, T) -> bool)
    ensures multiset(Insert(x, xs, le)) == multiset{x} + multiset(xs)
  {
    if xs != [] && !le(x, xs[0]) {
      InsertMultiset(x, xs[1..], le);
      assert xs == [xs[0]] + xs[1..];
    }
  }

  lemma {:induction false} SortPermutes<T>(xs: seq<T>, le: (T, T) -> bool)
    ensures multiset(Sort(xs, le)) == multiset(xs)
    ensures |Sort(xs, le)| == |xs|
    ensures forall x :: x in Sort(xs, le) <==> x in xs
  {
    MultisetHolds(xs);
    MultisetHolds(Sort(xs, le));
    if xs != [] {
      SortPermutes(xs[1..], le);
      InsertMultiset(xs[0], Sort(xs[1..], le), le);
    }
  }

  lemma {:induction false} InsertSorted<T(!new)>(x: T, xs: seq<T>, le: (T, T) -> bool)
    requires TotalPreorder(le) && Sorted(xs, le)
    ensures Sorted(Insert(x, xs, le), le)
  {
    if xs != [] && !le(x, xs[0]) {
      var tail := Insert(x, xs[1..], le);
      InsertSorted(x, xs[1..], le);
      InsertMultiset(x, xs[1..], le);
      forall k | 0 <= k < |tail| ensures le(xs[0], tail[k]) {
        assert tail[k] in multiset(tail);
        assert tail[k] == x || tail[k] in xs[1..];
      }
    } else if xs != [] {
      forall k | 0 <= k < |xs| ensures le(x, xs[k]) {
        assert le(x, xs[0]) && (k == 0 || le(xs[0], xs[k]));
      }
    }
  }

  lemma {:induction false} SortSorts<T(!new)>(xs: seq<T>, le: (T, T) -> bool)
    requires TotalPreorder(le)
    ensures Sorted(Sort(xs, le), le)
  {
    if xs != [] {
      SortSorts(xs[1..], le);
      InsertSorted(xs[0], Sort(xs[1..], le), le);
    }
  }

  lemma {:induction false} SortedIsFixed<T>(xs: seq<T>, le: (T, T) -> bool)
    requires Sorted(xs, le)
    ensures Sort(xs, le) == xs
  {
    if xs != [] {
      SortedIsFixed(xs[1..], le);
      assert xs == [xs[0]] + xs[1..];
      assert |xs| > 1 ==> le(xs[0], xs[1]);
    }
  }

  // Elements that tie keep the order they came in.
  lemma {:induction false} SortIsStable<T(!new)>(xs: seq<T>, le: (T, T) -> bool, tie: T -> bool)
    requires TotalPreorder(le)
    requires forall a, b | tie(a) && tie(b) :: le(a, b)
    ensures Filter(tie, Sort(xs, le)) == Filter(tie, xs)
  {
    if xs != [] {
      FilterFirst(tie, xs);
      FilterFirst(tie, [xs[0]]);
      One(xs[0]);
      assert Filter(tie, []) == [];
      NoneThen(if tie(xs[0]) then [xs[0]] else []);
      assert Sort(xs, le) == Insert(xs[0], Sort(xs[1..], le), le);
      hide Filter, Sort, Insert;
      SortIsStable(xs[1..], le, tie);
      InsertKeepsTies(xs[0], Sort(xs[1..], le), le, tie);
    }
  }

  lemma {:induction false} InsertKeepsTies<T(!new)>(x: T, xs: seq<T>, le: (T, T) -> bool, tie: T -> bool)
    requires TotalPreorder(le)
    requires forall a, b | tie(a) && tie(b) :: le(a, b)
    ensures Filter(tie, Insert(x, xs, le)) == Filter(tie, [x]) + Filter(tie, xs)
  {
    if xs == [] || le(x, xs[0]) {
      FilterConcat(tie, [x], xs);
    } else {
      InsertKeepsTies(x, xs[1..], le, tie);
      assert !tie(x) || !tie(xs[0]);
      assert Insert(x, xs, le) == [xs[0]] + Insert(x, xs[1..], le);
      FilterOne(tie, x);
      FilterOne(tie, xs[0]);
      hide Filter, Insert, TotalPreorder;
      FirstThenRest(xs);
      FilterConcat(tie, [xs[0]], Insert(x, xs[1..], le));
      FilterConcat(tie, [xs[0]], xs[1..]);
      NoneThen(Filter(tie, xs[1..]));
      NoneThen(Filter(tie, [x]) + Filter(tie, xs[1..]));
    }
  }

  lemma FilterOne<T>(p: T -> bool, x: T)
    ensures Filter(p, [x]) == if p(x) then [x] else []
  {
    One(x);
  }

  // A map commutes with sorting when it keeps how each element compares with the ones after it.
  lemma {:induction false} SortMap<T, U>(f: T -> U, xs: seq<T>, le: (T, T) -> bool, le': (U, U) -> bool)
    requires forall i, j | 0 <= i < j < |xs| :: le'(f(xs[i]), f(xs[j])) == le(xs[i], xs[j])
    ensures Sort(Map(f, xs), le') == Map(f, Sort(xs, le))
  {
    if xs != [] {
      var tail := xs[1..];
      forall i, j | 0 <= i < j < |tail| ensures le'(f(tail[i]), f(tail[j])) == le(tail[i], tail[j]) {
        assert tail[i] == xs[i + 1] && tail[j] == xs[j + 1];
      }
      SortMap(f, tail, le, le');
      var sorted := Sort(tail, le);
      SortPermutes(tail, le);
      forall y | y in sorted ensures le'(f(xs[0]), f(y)) == le(xs[0], y) {
        assert y in multiset(sorted);
        var j :| 0 <= j < |tail| && tail[j] == y;
        assert xs[j + 1] == y;
      }
      InsertMap(f, xs[0], sorted, le, le');
      assert Map(f, xs)[1..] == Map(f, xs[1..]);
    }
  }

  lemma {:induction false} InsertMap<T, U>(f: T -> U, x: T, xs: seq<T>, le: (T, T) -> bool, le': (U, U) -> bool)
    requires forall y | y in xs :: le'(f(x), f(y)) == le(x, y)
    ensures Insert(f(x), Map(f, xs), le') == Map(f, Insert(x, xs, le))
  {
    if xs == [] || le(x, xs[0]) {
      assert ([x] + xs)[1..] == xs;
      assert xs != [] ==> xs[0] in xs;
    } else {
      InsertMap(f, x, xs[1..], le, le');
      assert xs[0] in xs;
      assert Map(f, xs)[1..] == Map(f, xs[1..]);
      var whole := Insert(x, xs, le);
      assert whole[1..] == Insert(x, xs[1..], le);
    }
  }

  // Under a total order a multiset has one sorted list.
  lemma {:induction false} SortedIsUnique<T(!new)>(xs: seq<T>, ys: seq<T>, le: (T, T) -> bool)
    requires TotalPreorder(le) && forall a, b | le(a, b) && le(b, a) :: a == b
    requires Sorted(xs, le) && Sorted(ys, le) && multiset(xs) == multiset(ys)
    ensures xs == ys
  {
    MultisetHolds(xs);
    MultisetHolds(ys);
    if xs != [] {
      FirstIsLeast(xs, ys, le);
      FirstIsLeast(ys, xs, le);
      RestIsSorted(xs, le);
      RestIsSorted(ys, le);
      hide Sorted, TotalPreorder;
      SortedIsUnique(xs[1..], ys[1..], le);
      FirstThenRest(xs);
      FirstThenRest(ys);
    }
  }

  lemma RestIsSorted<T>(xs: seq<T>, le: (T, T) -> bool)
    requires xs != [] && Sorted(xs, le)
    ensures Sorted(xs[1..], le)
  {
  }

  lemma FirstIsLeast<T(!new)>(xs: seq<T>, ys: seq<T>, le: (T, T) -> bool)
    requires TotalPreorder(le) && Sorted(xs, le) && multiset(xs) == multiset(ys) && xs != [] && ys != []
    ensures le(xs[0], ys[0])
  {
    assert ys[0] in multiset(xs);
    var k :| 0 <= k < |xs| && xs[k] == ys[0];
  }
}
