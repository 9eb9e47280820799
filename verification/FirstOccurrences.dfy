/** Lists that keep the first element of each key, the way the source's loops do with a set of seen keys. */
module FirstOccurrences {
  function Keys<T(==)>(key: T -> string, xs: seq<T>): set<string> {
    set x | x in xs :: key(x)
  }

  // `kept` extended by the elements of xs whose key is new when their turn comes.
  function Added<T(==)>(key: T -> string, kept: seq<T>, xs: seq<T>): seq<T>
    decreases |xs|
  {
    if xs == [] then kept
    else Added(key, if key(xs[0]) in Keys(key, kept) then kept else kept + [xs[0]], xs[1..])
  }

  predicate DistinctKeys<T>(key: T -> string, xs: seq<T>) {
    forall i, j | 0 <= i < j < |xs| :: key(xs[i]) != key(xs[j])
  }

  predicate IsFirst<T>(key: T -> string, xs: seq<T>, i: nat) {
    i < |xs| && forall j | 0 <= j < i :: key(xs[j]) != key(xs[i])
  }

  lemma KeysOfMore<T>(key: T -> string, xs: seq<T>, x: T)
    ensures Keys(key, xs + [x]) == Keys(key, xs) + {key(x)}
  {
    assert forall y :: y in xs + [x] <==> y in xs || y == x;
  }

  lemma KeyIn<T>(key: T -> string, xs: seq<T>, k: string)
    ensures k in Keys(key, xs) <==> exists i | 0 <= i < |xs| :: key(xs[i]) == k
  {
    if i :| 0 <= i < |xs| && key(xs[i]) == k {
      assert xs[i] in xs;
    }
  }

  lemma {:induction false} AddedOneMore<T>(key: T -> string, kept: seq<T>, xs: seq<T>, x: T)
    ensures var front := Added(key, kept, xs);
      Added(key, kept, xs + [x]) == if key(x) in Keys(key, front) then front else front + [x]
    decreases |xs|
  {
    if xs == [] {
      assert [x][1..] == [] && xs + [x] == [x];
    } else {
      assert (xs + [x])[1..] == xs[1..] + [x];
      AddedOneMore(key, if key(xs[0]) in Keys(key, kept) then kept else kept + [xs[0]], xs[1..], x);
    }
  }

  lemma {:induction false} AddedTwice<T>(key: T -> string, kept: seq<T>, xs: seq<T>, ys: seq<T>)
    ensures Added(key, Added(key, kept, xs), ys) == Added(key, kept, xs + ys)
    decreases |xs|
  {
    if xs == [] {
      assert xs + ys == ys;
    } else {
      assert (xs + ys)[1..] == xs[1..] + ys;
      AddedTwice(key, if key(xs[0]) in Keys(key, kept) then kept else kept + [xs[0]], xs[1..], ys);
    }
  }

  // No key is lost and none is kept twice.
  lemma {:induction false} AddedKeys<T>(key: T -> string, kept: seq<T>, xs: seq<T>)
    requires DistinctKeys(key, kept)
    ensures DistinctKeys(key, Added(key, kept, xs))
    ensures Keys(key, Added(key, kept, xs)) == Keys(key, kept) + Keys(key, xs)
    decreases |xs|
  {
    if xs != [] {
      var next := if key(xs[0]) in Keys(key, kept) then kept else kept + [xs[0]];
      KeysOfMore(key, kept, xs[0]);
      KeyIn(key, kept, key(xs[0]));
      AddedKeys(key, next, xs[1..]);
      assert forall y :: y in xs <==> y == xs[0] || y in xs[1..];
    }
  }

  // The positions `at`, in order, are those of the first elements of xs, which ys lists.
  predicate PicksFirsts<T(==)>(key: T -> string, xs: seq<T>, at: seq<nat>, ys: seq<T>) {
    && |at| == |ys|
    && (forall k | 0 <= k < |at| :: IsFirst(key, xs, at[k]) && ys[k] == xs[at[k]])
    && (forall k, l | 0 <= k < l < |at| :: at[k] < at[l])
    && (forall i | 0 <= i < |xs| && IsFirst(key, xs, i) :: i in at)
  }

  lemma FirstsOfMore<T>(key: T -> string, xs: seq<T>, x: T, i: nat)
    ensures IsFirst(key, xs + [x], i) <==> IsFirst(key, xs, i) || (i == |xs| && key(x) !in Keys(key, xs))
  {
    KeyIn(key, xs, key(x));
    var more := xs + [x];
    assert forall j | 0 <= j < |xs| :: more[j] == xs[j];
  }

  lemma PicksOneMore<T>(key: T -> string, xs: seq<T>, x: T, at: seq<nat>, ys: seq<T>)
    requires PicksFirsts(key, xs, at, ys)
    ensures if key(x) in Keys(key, xs) then PicksFirsts(key, xs + [x], at, ys)
            else PicksFirsts(key, xs + [x], at + [|xs|], ys + [x])
  {
    forall i: nat ensures IsFirst(key, xs + [x], i) <==> IsFirst(key, xs, i) || (i == |xs| && key(x) !in Keys(key, xs)) {
      FirstsOfMore(key, xs, x, i);
    }
    assert forall k | 0 <= k < |at| :: at[k] < |xs|;
    hide Keys;
    var more := at + [|xs|];
    assert forall i | i in at :: i in more;
    assert more[|at|] == |xs|;
  }

  /** What is kept is the first element of each key, in the order of the list. */
  lemma {:induction false} AddedAreTheFirsts<T>(key: T -> string, xs: seq<T>) returns (at: seq<nat>)
    ensures PicksFirsts(key, xs, at, Added(key, [], xs))
  {
    at := [];
    if xs != [] {
      var n := |xs| - 1;
      var front, x := xs[..n], xs[n];
      at := AddedAreTheFirsts(key, front);
      assert front + [x] == xs;
      AddedOneMore(key, [], front, x);
      AddedKeys(key, [], front);
      PicksOneMore(key, front, x, at, Added(key, [], front));
      hide PicksFirsts;
      if key(x) !in Keys(key, front) {
        at := at + [n];
      }
    }
  }
}
