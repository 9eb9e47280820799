/** The sliding-window limiter of apps/browser-demo/src/chatResearchQuota.ts.
    Times are milliseconds as reals. A run is the list of clock readings at which
    `recordChatResearchQuotaUse` is called; only a granted call writes storage. */
module ChatResearchQuota {
  import Sequences
  import opened Wrappers
  import opened StableSort

  // What JSON.parse can leave in the stored array.
  datatype Value = Finite(ms: real) | NotFinite | NotANumber

  datatype Stored = Absent | Malformed | NotAList | List(values: seq<Value>)

  datatype Snapshot = Snapshot(allowed: bool, used: nat, limit: int, retryAfterMs: Option<real>, timestamps: seq<real>)

  function Earlier(): (real, real) -> bool {
    (a: real, b: real) => a <= b
  }

  function Live(now: real, windowMs: real): real -> bool {
    (t: real) => t > 0.0 && t <= now && now - t < windowMs
  }

  function Finites(values: seq<Value>): seq<real> {
    if values == [] then []
    else (if values[0].Finite? then [values[0].ms] else []) + Finites(values[1..])
  }

  function StoredTimes(stored: Stored): seq<real> {
    if stored.List? then Finites(stored.values) else []
  }

  function NormalizeTimestamps(stored: Stored, now: real, windowMs: real): seq<real> {
    Sort(Filter(Live(now, windowMs), StoredTimes(stored)), Earlier())
  }

  function ReadQuota(stored: Stored, now: real, limit: int, windowMs: real): Snapshot {
    var timestamps := NormalizeTimestamps(stored, now, windowMs);
    var allowed := |timestamps| < limit;
    var oldest := if timestamps == [] then now else timestamps[0];
    var wait := windowMs - (now - oldest);
    Snapshot(allowed, |timestamps|, limit,
             if allowed then None else Some(if wait < 0.0 then 0.0 else wait), timestamps)
  }

  // xs.slice(-n) for n > 0
  function SliceLast(xs: seq<real>, n: int): seq<real>
    requires n > 0
  {
    if n < |xs| then xs[|xs| - n..] else xs
  }

  function RecordUse(stored: Stored, now: real, limit: int, windowMs: real): Snapshot {
    var current := ReadQuota(stored, now, limit, windowMs);
    if !current.allowed then current
    else
      var timestamps := SliceLast(current.timestamps + [now], limit);
      Snapshot(true, |timestamps|, limit, None, timestamps)
  }

  function Persist(timestamps: seq<real>): Stored {
    List(Map((t: real) => Finite(t), timestamps))
  }

  // ---- What a snapshot says ------------------------------------------------------

  // How often the stored list holds the number; nothing else in storage counts.
  function Occurrences(stored: Stored, t: real): nat {
    if stored.List? then multiset(stored.values)[Finite(t)] else 0
  }

  lemma {:induction false} FinitesOccur(values: seq<Value>, t: real)
    ensures multiset(Finites(values))[t] == multiset(values)[Finite(t)]
  {
    if values != [] {
      Sequences.FirstThenRest(values);
      FinitesOccur(values[1..], t);
      assert multiset(values) == multiset{values[0]} + multiset(values[1..]);
    }
  }

  lemma {:induction false} FilterOccurs(p: real -> bool, xs: seq<real>, t: real)
    ensures multiset(Filter(p, xs))[t] == if p(t) then multiset(xs)[t] else 0
  {
    if xs != [] {
      Sequences.FirstThenRest(xs);
      FilterOccurs(p, xs[1..], t);
      assert multiset(xs) == multiset{xs[0]} + multiset(xs[1..]);
    }
  }

  /** Counted are exactly the stored numbers that are positive, not after now and less than a window old, each as often
      as it is stored, in ascending order; use is allowed while they are fewer than the limit. */
  lemma SnapshotCounts(stored: Stored, now: real, limit: int, windowMs: real, t: real)
    ensures var s := ReadQuota(stored, now, limit, windowMs);
      && multiset(s.timestamps)[t] == (if 0.0 < t <= now && now - t < windowMs then Occurrences(stored, t) else 0)
      && (forall i, j | 0 <= i < j < |s.timestamps| :: s.timestamps[i] <= s.timestamps[j])
      && s.used == |s.timestamps| && s.limit == limit && (s.allowed <==> s.used < limit)
      && (s.allowed ==> s.retryAfterMs == None)
      && (!s.allowed && s.timestamps != [] ==>
            s.retryAfterMs == Some(if now > s.timestamps[0] + windowMs then 0.0 else s.timestamps[0] + windowMs - now))
  {
    TimestampsOccur(stored, now, windowMs, t);
    TimestampsAscend(stored, now, windowMs);
    hide NormalizeTimestamps, Occurrences;
  }

  lemma TimestampsOccur(stored: Stored, now: real, windowMs: real, t: real)
    ensures multiset(NormalizeTimestamps(stored, now, windowMs))[t]
      == if 0.0 < t <= now && now - t < windowMs then Occurrences(stored, t) else 0
  {
    var times := StoredTimes(stored);
    FilterOccurs(Live(now, windowMs), times, t);
    SortPermutes(Filter(Live(now, windowMs), times), Earlier());
    hide Filter, Sort;
    if stored.List? {
      FinitesOccur(stored.values, t);
    }
    hide Finites;
  }

  lemma TimestampsAscend(stored: Stored, now: real, windowMs: real)
    ensures var times := NormalizeTimestamps(stored, now, windowMs);
      forall i, j | 0 <= i < j < |times| :: times[i] <= times[j]
  {
    var live := Filter(Live(now, windowMs), StoredTimes(stored));
    hide Filter, Sort, StoredTimes;
    SortSorts(live, Earlier());
    var times := Sort(live, Earlier());
    assert forall i, j | 0 <= i < j < |times| :: Earlier()(times[i], times[j]);
  }

  /** A granted use is added to what was counted, which stays within the limit; a denied one changes nothing. */
  lemma UseIsAdded(stored: Stored, now: real, limit: int, windowMs: real)
    ensures var s, next := ReadQuota(stored, now, limit, windowMs), RecordUse(stored, now, limit, windowMs);
      if s.used >= limit then next == s
      else
        && next.allowed && next.limit == limit && next.retryAfterMs == None && next.used == |next.timestamps| <= limit
        && next.timestamps == s.timestamps + [now]
  {
    hide NormalizeTimestamps;
  }

  // ---- Runs ------------------------------------------------------------------

  datatype Run = Run(stored: Stored, grants: seq<real>, decisions: seq<bool>)

  function RunOf(calls: seq<real>, limit: int, windowMs: real): Run {
    if calls == [] then Run(Absent, [], [])
    else
      RunNext(RunOf(calls[..|calls| - 1], limit, windowMs), calls[|calls| - 1], limit, windowMs)
  }

  function RunNext(before: Run, now: real, limit: int, windowMs: real): Run {
    var next := RecordUse(before.stored, now, limit, windowMs);
    if next.allowed then Run(Persist(next.timestamps), before.grants + [now], before.decisions + [true])
    else Run(before.stored, before.grants, before.decisions + [false])
  }

  // The limiter one would write with the whole history at hand.
  function InWindow(grants: seq<real>, now: real, windowMs: real): nat {
    |Filter((t: real) => now - t < windowMs, grants)|
  }

  function NaiveRunOf(calls: seq<real>, limit: int, windowMs: real): (r: (seq<real>, seq<bool>)) {
    if calls == [] then ([], [])
    else
      var before := NaiveRunOf(calls[..|calls| - 1], limit, windowMs);
      var now := calls[|calls| - 1];
      var allowed := InWindow(before.0, now, windowMs) < limit;
      (if allowed then before.0 + [now] else before.0, before.1 + [allowed])
  }

  ghost predicate PositiveClock(calls: seq<real>) {
    && (forall i | 0 <= i < |calls| :: calls[i] > 0.0)
    && (forall i, j | 0 <= i < j < |calls| :: calls[i] <= calls[j])
  }

  // ---- The stored list against the full history --------------------------------

  // `stored` holds the newest grants; the dropped ones left the window by time `last`.
  ghost predicate Tracks(stored: Stored, grants: seq<real>, last: real, limit: int, windowMs: real) {
    && Sorted(grants, Earlier())
    && (forall i | 0 <= i < |grants| :: 0.0 < grants[i] <= last)
    && var kept, dropped := StoredTimes(stored), |grants| - |StoredTimes(stored)|;
    && 0 <= dropped && kept == grants[dropped..]
    && (kept == [] || |kept| <= limit)
    && forall i | 0 <= i < dropped :: last - grants[i] >= windowMs
  }

  lemma {:induction false} PersistedFinites(timestamps: seq<real>)
    ensures StoredTimes(Persist(timestamps)) == timestamps
  {
    if timestamps != [] {
      PersistedFinites(timestamps[1..]);
      var f := (t: real) => Finite(t);
      assert Map(f, timestamps)[1..] == Map(f, timestamps[1..]);
    }
  }

  lemma {:induction false} FilterSorted(p: real -> bool, xs: seq<real>)
    requires Sorted(xs, Earlier())
    ensures Sorted(Filter(p, xs), Earlier())
  {
    if xs != [] {
      FilterSorted(p, xs[1..]);
      var tail := Filter(p, xs[1..]);
      forall j | 0 <= j < |tail| ensures xs[0] <= tail[j] {
        FilterMembers(p, xs[1..]);
        assert tail[j] in tail && tail[j] in xs[1..];
      }
    }
  }

  lemma {:induction false} FilterNone(p: real -> bool, xs: seq<real>)
    requires forall i | 0 <= i < |xs| :: !p(xs[i])
    ensures Filter(p, xs) == []
  {
    if xs != [] {
      FilterNone(p, xs[1..]);
    }
  }

  lemma {:induction false} FilterAgrees(p: real -> bool, q: real -> bool, xs: seq<real>)
    requires forall i | 0 <= i < |xs| :: p(xs[i]) == q(xs[i])
    ensures Filter(p, xs) == Filter(q, xs)
  {
    if xs != [] {
      FilterAgrees(p, q, xs[1..]);
    }
  }

  // In an increasing list the live timestamps are a suffix.
  lemma {:induction false} LiveSuffix(xs: seq<real>, now: real, windowMs: real) returns (k: nat)
    requires Sorted(xs, Earlier()) && forall i | 0 <= i < |xs| :: 0.0 < xs[i] <= now
    ensures k <= |xs| && Filter(Live(now, windowMs), xs) == xs[k..]
    ensures forall i | 0 <= i < k :: now - xs[i] >= windowMs
  {
    k := 0;
    if xs == [] {
    } else if now - xs[0] < windowMs {
      forall i | 0 <= i < |xs| ensures Live(now, windowMs)(xs[i]) {
        assert i > 0 ==> Earlier()(xs[0], xs[i]);
      }
      FilterAll(Live(now, windowMs), xs);
      Sequences.Ends(xs);
    } else {
      FilterFirst(Live(now, windowMs), xs);
      hide Filter;
      assert forall i | 0 <= i < |xs[1..]| :: xs[1..][i] == xs[i + 1];
      var rest := LiveSuffix(xs[1..], now, windowMs);
      k := rest + 1;
      Sequences.DropFirst(xs, k);
      Sequences.NoneThen(xs[k..]);
    }
  }

  // Reading the pruned list is filtering the history.
  lemma ReadsHistory(stored: Stored, grants: seq<real>, last: real, now: real, limit: int, windowMs: real)
    requires Tracks(stored, grants, last, limit, windowMs) && last <= now
    ensures NormalizeTimestamps(stored, now, windowMs) == Filter(Live(now, windowMs), grants)
    ensures |NormalizeTimestamps(stored, now, windowMs)| == InWindow(grants, now, windowMs)
    ensures limit >= 0 ==> |NormalizeTimestamps(stored, now, windowMs)| <= limit
  {
    var live, kept := Live(now, windowMs), StoredTimes(stored);
    var dropped := |grants| - |kept|;
    assert grants == grants[..dropped] + kept;
    FilterAgrees(live, (t: real) => now - t < windowMs, grants);
    FilterNone(live, grants[..dropped]);
    hide Filter, Persist;
    FilterConcat(live, grants[..dropped], kept);
    Sequences.NoneThen(Filter(live, kept));
    FilterSorted(live, kept);
    SortedIsFixed(Filter(live, kept), Earlier());
    FilterLength(live, kept);
  }

  lemma {:induction false} FilterLength(p: real -> bool, xs: seq<real>)
    ensures |Filter(p, xs)| <= |xs|
  {
    if xs != [] {
      FilterLength(p, xs[1..]);
    }
  }

  lemma TracksStep(stored: Stored, grants: seq<real>, last: real, now: real, limit: int, windowMs: real)
    requires Tracks(stored, grants, last, limit, windowMs) && last <= now && now > 0.0
    ensures var next := RecordUse(stored, now, limit, windowMs);
      && next.allowed == (InWindow(grants, now, windowMs) < limit)
      && (next.allowed ==> Tracks(Persist(next.timestamps), grants + [now], now, limit, windowMs))
      && (!next.allowed ==> Tracks(stored, grants, now, limit, windowMs))
  {
    ReadsHistory(stored, grants, last, now, limit, windowMs);
    var next := RecordUse(stored, now, limit, windowMs);
    if next.allowed {
      var k := LiveSuffix(grants, now, windowMs);
      TracksGrant(grants, last, now, k, limit, windowMs);
    }
  }

  lemma TracksGrant(grants: seq<real>, last: real, now: real, k: nat, limit: int, windowMs: real)
    requires Sorted(grants, Earlier()) && forall i | 0 <= i < |grants| :: 0.0 < grants[i] <= last
    requires 0.0 < now && last <= now && k <= |grants| && |grants| - k < limit
    requires forall i | 0 <= i < k :: now - grants[i] >= windowMs
    ensures Tracks(Persist(grants[k..] + [now]), grants + [now], now, limit, windowMs)
  {
    var kept, grants' := grants[k..] + [now], grants + [now];
    PersistedFinites(kept);
    assert kept == grants'[k..];
    assert forall i | 0 <= i < |grants| :: grants'[i] == grants[i];
  }

  lemma {:induction false} RunTracks(calls: seq<real>, limit: int, windowMs: real, last: real)
    requires PositiveClock(calls) && last >= 0.0 && (calls != [] ==> last == calls[|calls| - 1])
    ensures Tracks(RunOf(calls, limit, windowMs).stored, RunOf(calls, limit, windowMs).grants, last, limit, windowMs)
  {
    if calls != [] {
      var earlier := calls[..|calls| - 1];
      var before := RunOf(earlier, limit, windowMs);
      var last' := if earlier == [] then 0.0 else earlier[|earlier| - 1];
      RunTracks(earlier, limit, windowMs, last');
      TracksStep(before.stored, before.grants, last', last, limit, windowMs);
    }
  }

  lemma NaiveLast(calls: seq<real>, limit: int, windowMs: real)
    requires calls != []
    ensures var before := NaiveRunOf(calls[..|calls| - 1], limit, windowMs); var now := calls[|calls| - 1];
      var allowed := InWindow(before.0, now, windowMs) < limit;
      NaiveRunOf(calls, limit, windowMs) == (if allowed then before.0 + [now] else before.0, before.1 + [allowed])
  {
    hide InWindow;
  }

  /** Every decision, and so the whole run, is the one of a limiter that never forgets a grant. */
  lemma {:induction false} RunIsNaive(calls: seq<real>, limit: int, windowMs: real)
    requires PositiveClock(calls)
    ensures var r := RunOf(calls, limit, windowMs); (r.grants, r.decisions) == NaiveRunOf(calls, limit, windowMs)
  {
    if calls != [] {
      var earlier := calls[..|calls| - 1];
      var before := RunOf(earlier, limit, windowMs);
      var last := if earlier == [] then 0.0 else earlier[|earlier| - 1];
      assert PositiveClock(earlier) && last <= calls[|calls| - 1];
      NaiveLast(calls, limit, windowMs);
      hide PositiveClock, NaiveRunOf, Tracks, InWindow, RecordUse;
      RunIsNaive(earlier, limit, windowMs);
      RunTracks(earlier, limit, windowMs, last);
      TracksStep(before.stored, before.grants, last, calls[|calls| - 1], limit, windowMs);
      assert RunOf(calls, limit, windowMs) == RunNext(before, calls[|calls| - 1], limit, windowMs);
      hide RunOf;
    }
  }

  // ---- No window holds more than the limit ---------------------------------------

  ghost predicate Spaced(grants: seq<real>, limit: int, windowMs: real) {
    forall i, j | 0 <= i <= j < |grants| && limit <= j - i :: grants[j] - grants[i] >= windowMs
  }

  lemma {:induction false} RunIsSpaced(calls: seq<real>, limit: int, windowMs: real)
    requires PositiveClock(calls) && limit > 0
    ensures Spaced(RunOf(calls, limit, windowMs).grants, limit, windowMs)
  {
    if calls != [] {
      var earlier := calls[..|calls| - 1];
      var now := calls[|calls| - 1];
      var before := RunOf(earlier, limit, windowMs);
      var last := if earlier == [] then 0.0 else earlier[|earlier| - 1];
      RunIsSpaced(earlier, limit, windowMs);
      RunTracks(earlier, limit, windowMs, last);
      LastIsSpaced(before, last, now, limit, windowMs);
    }
  }

  lemma LastIsSpaced(before: Run, last: real, now: real, limit: int, windowMs: real)
    requires Tracks(before.stored, before.grants, last, limit, windowMs) && last <= now && limit > 0
    requires Spaced(before.grants, limit, windowMs)
    ensures Spaced(RunNext(before, now, limit, windowMs).grants, limit, windowMs)
  {
    ReadsHistory(before.stored, before.grants, last, now, limit, windowMs);
    if RecordUse(before.stored, now, limit, windowMs).allowed {
      var k := LiveSuffix(before.grants, now, windowMs);
      GrantIsSpaced(before.grants, now, k, limit, windowMs);
    }
  }

  lemma GrantIsSpaced(grants: seq<real>, now: real, k: nat, limit: int, windowMs: real)
    requires Spaced(grants, limit, windowMs) && k <= |grants| && |grants| - k < limit
    requires forall i | 0 <= i < k :: now - grants[i] >= windowMs
    ensures Spaced(grants + [now], limit, windowMs)
  {
    var all := grants + [now];
    forall i, j | 0 <= i <= j < |all| && limit <= j - i ensures all[j] - all[i] >= windowMs {
      assert j < |grants| ==> all[i] == grants[i] && all[j] == grants[j];
    }
  }

  lemma {:induction false} SpacedWindow(grants: seq<real>, from: real, limit: int, windowMs: real)
    requires Sorted(grants, Earlier()) && Spaced(grants, limit, windowMs) && limit > 0
    ensures |Filter((t: real) => from <= t && t - from < windowMs, grants)| <= limit
  {
    var inside := (t: real) => from <= t && t - from < windowMs;
    if grants != [] && !inside(grants[0]) {
      var rest := grants[1..];
      assert forall i | 0 <= i < |rest| :: rest[i] == grants[i + 1];
      SpacedWindow(rest, from, limit, windowMs);
    } else if |grants| > limit {
      FilterNone(inside, grants[limit..]);
      FilterConcat(inside, grants[..limit], grants[limit..]);
      assert grants == grants[..limit] + grants[limit..];
      FilterLength(inside, grants[..limit]);
    } else {
      FilterLength(inside, grants);
    }
  }

  /** Wherever a window of length windowMs is placed, at most `limit` grants fall in it. */
  lemma NoWindowExceedsLimit(calls: seq<real>, from: real, limit: int, windowMs: real)
    requires PositiveClock(calls) && limit > 0
    ensures |Filter((t: real) => from <= t && t - from < windowMs, RunOf(calls, limit, windowMs).grants)| <= limit
  {
    RunTracks(calls, limit, windowMs, if calls == [] then 0.0 else calls[|calls| - 1]);
    RunIsSpaced(calls, limit, windowMs);
    SpacedWindow(RunOf(calls, limit, windowMs).grants, from, limit, windowMs);
  }

  // ---- The retry hint ---------------------------------------------------------------

  lemma EarlierIsTotal()
    ensures TotalPreorder(Earlier())
  {
  }

  lemma {:induction false} FilterWeaker(p: real -> bool, q: real -> bool, xs: seq<real>)
    requires forall t | p(t) :: q(t)
    ensures |Filter(p, xs)| <= |Filter(q, xs)|
  {
    if xs != [] {
      FilterWeaker(p, q, xs[1..]);
    }
  }

  lemma {:induction false} FilterTwice(p: real -> bool, q: real -> bool, xs: seq<real>)
    ensures Filter(p, Filter(q, xs)) == Filter((t: real) => p(t) && q(t), xs)
  {
    if xs != [] {
      FilterTwice(p, q, xs[1..]);
      var kept := if q(xs[0]) then [xs[0]] else [];
      FilterConcat(p, kept, Filter(q, xs[1..]));
    }
  }

  lemma FilterSort(p: real -> bool, xs: seq<real>)
    ensures |Filter(p, Sort(xs, Earlier()))| == |Filter(p, xs)|
  {
    SortPermutes(xs, Earlier());
    FilterCount(p, xs);
    FilterCount(p, Sort(xs, Earlier()));
    FilterOfPermutation(p, xs, Sort(xs, Earlier()));
  }

  lemma {:induction false} FilterCount(p: real -> bool, xs: seq<real>)
    ensures forall t :: multiset(Filter(p, xs))[t] == if p(t) then multiset(xs)[t] else 0
  {
    if xs != [] {
      FilterCount(p, xs[1..]);
      assert xs == [xs[0]] + xs[1..];
    }
  }

  lemma FilterOfPermutation(p: real -> bool, xs: seq<real>, ys: seq<real>)
    requires multiset(xs) == multiset(ys)
    ensures |Filter(p, xs)| == |Filter(p, ys)|
  {
    FilterCount(p, xs);
    FilterCount(p, ys);
    var a, b := multiset(Filter(p, xs)), multiset(Filter(p, ys));
    assert forall t :: a[t] == b[t];
    assert a == b;
    assert |multiset(Filter(p, xs))| == |Filter(p, xs)| && |multiset(Filter(p, ys))| == |Filter(p, ys)|;
  }

  /** Whatever is stored, a caller denied at `now` is denied at every moment before the hint runs out. */
  lemma DeniedUntilRetry(stored: Stored, now: real, later: real, limit: int, windowMs: real)
    requires limit > 0 && !ReadQuota(stored, now, limit, windowMs).allowed
    requires now <= later < RetryAt(stored, now, limit, windowMs)
    ensures !ReadQuota(stored, later, limit, windowMs).allowed
  {
    var values := StoredTimes(stored);
    var live := Filter(Live(now, windowMs), values);
    var timestamps := Sort(live, Earlier());
    SortPermutes(live, Earlier());
    EarlierIsTotal();
    SortSorts(live, Earlier());
    FilterMembers(Live(now, windowMs), values);
    forall i | 0 <= i < |timestamps| ensures Live(later, windowMs)(timestamps[i]) {
      assert timestamps[i] in timestamps;
      assert timestamps[i] in live;
      assert timestamps[0] <= timestamps[i];
    }
    FilterAll(Live(later, windowMs), timestamps);
    FilterSort(Live(later, windowMs), live);
    FilterTwice(Live(later, windowMs), Live(now, windowMs), values);
    FilterWeaker((t: real) => Live(later, windowMs)(t) && Live(now, windowMs)(t), Live(later, windowMs), values);
    SortPermutes(Filter(Live(later, windowMs), values), Earlier());
  }

  lemma {:induction false} FilterAll(p: real -> bool, xs: seq<real>)
    requires forall i | 0 <= i < |xs| :: p(xs[i])
    ensures Filter(p, xs) == xs
  {
    if xs != [] {
      FilterAll(p, xs[1..]);
    }
  }

  function Newer(oldest: real): real -> bool {
    (t: real) => oldest < t
  }

  // A window length after the oldest live timestamp, the live ones are those newer than it.
  lemma LiveAgain(values: seq<real>, oldest: real, now: real, windowMs: real)
    requires forall t | t in values :: t <= now
    requires 0.0 < oldest <= now && now - oldest < windowMs
    ensures Filter(Live(oldest + windowMs, windowMs), values)
      == Filter(Newer(oldest), Filter(Live(now, windowMs), values))
  {
    var newer := Newer(oldest);
    FilterTwice(newer, Live(now, windowMs), values);
    forall i | 0 <= i < |values|
      ensures Live(oldest + windowMs, windowMs)(values[i]) == (newer(values[i]) && Live(now, windowMs)(values[i]))
    {
      assert values[i] in values;
    }
    FilterAgrees(Live(oldest + windowMs, windowMs), (t: real) => newer(t) && Live(now, windowMs)(t), values);
  }

  // The moment a denied caller is told to come back.
  function RetryAt(stored: Stored, now: real, limit: int, windowMs: real): real
    requires !ReadQuota(stored, now, limit, windowMs).allowed
  {
    now + ReadQuota(stored, now, limit, windowMs).retryAfterMs.value
  }

  lemma DeniedOldest(stored: Stored, now: real, limit: int, windowMs: real) returns (oldest: real)
    requires limit > 0 && !ReadQuota(stored, now, limit, windowMs).allowed
    ensures NormalizeTimestamps(stored, now, windowMs) != [] && oldest == NormalizeTimestamps(stored, now, windowMs)[0]
    ensures 0.0 < oldest <= now && now - oldest < windowMs
    ensures RetryAt(stored, now, limit, windowMs) == oldest + windowMs
  {
    var live := Filter(Live(now, windowMs), StoredTimes(stored));
    var timestamps := Sort(live, Earlier());
    oldest := timestamps[0];
    SortPermutes(live, Earlier());
    assert oldest in multiset(timestamps);
    FilterMembers(Live(now, windowMs), StoredTimes(stored));
    assert oldest in live;
  }

  function Between(oldest: real, end: real): real -> bool {
    (t: real) => oldest < t && t <= end
  }

  /** Whatever is stored, by whomever and under whatever clock, the hint is exact if and only if fewer than `limit` of
      the stored times lie after the oldest counted one and at most a window length after it. */
  lemma RetryIsExactWhen(stored: Stored, now: real, limit: int, windowMs: real)
    requires limit > 0 && !ReadQuota(stored, now, limit, windowMs).allowed
    ensures var timestamps := NormalizeTimestamps(stored, now, windowMs);
      && timestamps != []
      && (ReadQuota(stored, RetryAt(stored, now, limit, windowMs), limit, windowMs).allowed
          <==> |Filter(Between(timestamps[0], timestamps[0] + windowMs), StoredTimes(stored))| < limit)
  {
    var oldest := DeniedOldest(stored, now, limit, windowMs);
    LiveBetween(StoredTimes(stored), oldest, windowMs);
    AllowedIff(stored, oldest + windowMs, limit, windowMs);
    hide ReadQuota, RetryAt, NormalizeTimestamps, Filter;
  }

  lemma LiveBetween(values: seq<real>, oldest: real, windowMs: real)
    requires oldest > 0.0
    ensures Filter(Live(oldest + windowMs, windowMs), values) == Filter(Between(oldest, oldest + windowMs), values)
  {
    FilterAgrees(Live(oldest + windowMs, windowMs), Between(oldest, oldest + windowMs), values);
  }

  lemma AllowedIff(stored: Stored, at: real, limit: int, windowMs: real)
    ensures ReadQuota(stored, at, limit, windowMs).allowed <==> |Filter(Live(at, windowMs), StoredTimes(stored))| < limit
  {
    SortPermutes(Filter(Live(at, windowMs), StoredTimes(stored)), Earlier());
  }

  /** With no time after `now` in storage these are the counted times newer than the oldest one. */
  lemma RetryOfPastIsExactWhen(stored: Stored, now: real, limit: int, windowMs: real)
    requires limit > 0 && !ReadQuota(stored, now, limit, windowMs).allowed
    requires forall t | t in StoredTimes(stored) :: t <= now
    ensures var timestamps := NormalizeTimestamps(stored, now, windowMs);
      && timestamps != []
      && (ReadQuota(stored, RetryAt(stored, now, limit, windowMs), limit, windowMs).allowed
          <==> |Filter(Newer(timestamps[0]), timestamps)| < limit)
  {
    var values := StoredTimes(stored);
    var live := Filter(Live(now, windowMs), values);
    var oldest := DeniedOldest(stored, now, limit, windowMs);
    RetryIsExactWhen(stored, now, limit, windowMs);
    LiveBetween(values, oldest, windowMs);
    LiveAgain(values, oldest, now, windowMs);
    FilterSort(Newer(oldest), live);
  }

  /** After a run, a denied caller is allowed exactly when the hint runs out. */
  lemma AllowedAtRetry(calls: seq<real>, now: real, limit: int, windowMs: real)
    requires PositiveClock(calls) && limit > 0 && now > 0.0 && (calls != [] ==> calls[|calls| - 1] <= now)
    requires !ReadQuota(RunOf(calls, limit, windowMs).stored, now, limit, windowMs).allowed
    ensures var stored := RunOf(calls, limit, windowMs).stored;
      var at := RetryAt(stored, now, limit, windowMs);
      at > now && ReadQuota(stored, at, limit, windowMs).allowed
  {
    var run := RunOf(calls, limit, windowMs);
    var last := if calls == [] then 0.0 else calls[|calls| - 1];
    RunTracks(calls, limit, windowMs, last);
    RunWithinLimit(run, last, now, limit, windowMs);
    var oldest := DeniedOldest(run.stored, now, limit, windowMs);
    RetryOfPastIsExactWhen(run.stored, now, limit, windowMs);
    FilterLength(Newer(oldest), NormalizeTimestamps(run.stored, now, windowMs)[1..]);
  }

  lemma RunWithinLimit(run: Run, last: real, now: real, limit: int, windowMs: real)
    requires Tracks(run.stored, run.grants, last, limit, windowMs) && last <= now && limit >= 0
    ensures |NormalizeTimestamps(run.stored, now, windowMs)| <= limit
    ensures forall t | t in StoredTimes(run.stored) :: t <= now
  {
    ReadsHistory(run.stored, run.grants, last, now, limit, windowMs);
  }
}
