/** Pending biometric prompts (biometricPrompt, rejectPending, purgePendingBiometric and the
    callback bridge in apps/browser-demo/src/androidConfigClient.ts). The JS Map is the sequence of
    its entries in insertion order. Prompts are numbered by tickets in the order of their issue. */
module AndroidConfigClient {
  import opened Sequences
  import Text
  import opened Wrappers

  const PENDING_BIOMETRIC_MAX_ENTRIES := 100

  datatype Outcome = Envelope(result: string) | TimedOut | Evicted | DispatchFailed | Purged

  datatype Entry = Entry(id: string, ticket: nat)

  datatype Registry = Registry(ids: seq<string>, pending: seq<Entry>, timers: set<nat>, outcomes: map<nat, Outcome>)

  // DispatchThrows: the native call of the prompt issued last throws, in the turn that issued it.
  datatype Event =
    | Prompt(nowMs: nat, random: nat)
    | DispatchThrows
    | Callback(id: string, result: string)
    | TimerFires(ticket: nat)
    | Purge

  const EMPTY := Registry([], [], {}, map[])

  // `biometric-${Date.now()}-${random}`
  function PromptId(nowMs: nat, random: nat): (id: string)
    ensures id != ""
  {
    "biometric-" + Text.Print(nowMs, 10) + "-" + Text.Print(random, 10)
  }

  function Find(pending: seq<Entry>, id: string): (k: nat)
    ensures k <= |pending|
    ensures k < |pending| ==> pending[k].id == id
    ensures forall i | 0 <= i < k :: pending[i].id != id
  {
    if pending == [] || pending[0].id == id then 0 else 1 + Find(pending[1..], id)
  }

  predicate Has(pending: seq<Entry>, id: string) {
    Find(pending, id) < |pending|
  }

  // Map.set and Map.delete
  function Put(pending: seq<Entry>, e: Entry): seq<Entry> {
    var k := Find(pending, e.id);
    if k < |pending| then pending[k := e] else pending + [e]
  }

  function Delete(pending: seq<Entry>, id: string): seq<Entry> {
    var k := Find(pending, id);
    if k < |pending| then pending[..k] + pending[k + 1..] else pending
  }

  // A promise keeps the first outcome it is given.
  function Resolve(r: Registry, ticket: nat, outcome: Outcome): Registry {
    if ticket in r.outcomes then r else r.(outcomes := r.outcomes[ticket := outcome])
  }

  function Reject(r: Registry, e: Entry, outcome: Outcome): Registry {
    Resolve(r.(timers := r.timers - {e.ticket}), e.ticket, outcome)
  }

  function EvictOldest(r: Registry): Registry {
    if |r.pending| >= PENDING_BIOMETRIC_MAX_ENTRIES && r.pending[0].id != ""
    then Reject(r.(pending := Delete(r.pending, r.pending[0].id)), r.pending[0], Evicted)
    else r
  }

  function RejectAll(r: Registry, entries: seq<Entry>): Registry
    decreases |entries|
  {
    if entries == [] then r else RejectAll(Reject(r, entries[0], Purged), entries[1..])
  }

  function Step(r: Registry, event: Event): Registry {
    match event
    case Prompt(nowMs, random) =>
      var t, id := |r.ids|, PromptId(nowMs, random);
      var armed := r.(ids := r.ids + [id], timers := r.timers + {t});
      var room := EvictOldest(armed);
      room.(pending := Put(room.pending, Entry(id, t)))
    case DispatchThrows =>
      if r.ids == [] then r
      else
        var t := |r.ids| - 1;
        Resolve(r.(pending := Delete(r.pending, r.ids[t]), timers := r.timers - {t}), t, DispatchFailed)
    case Callback(id, result) =>
      if !Has(r.pending, id) then r
      else
        var e := r.pending[Find(r.pending, id)];
        Resolve(r.(pending := Delete(r.pending, id), timers := r.timers - {e.ticket}), e.ticket, Envelope(result))
    case TimerFires(t) =>
      if t !in r.timers || t >= |r.ids| then r
      else
        var fired := r.(timers := r.timers - {t});
        if !Has(r.pending, r.ids[t]) then fired
        else Resolve(fired.(pending := Delete(r.pending, r.ids[t])), t, TimedOut)
    case Purge =>
      RejectAll(r, r.pending).(pending := [])
  }

  function RunOf(events: seq<Event>): Registry {
    if events == [] then EMPTY else Step(RunOf(events[..|events| - 1]), events[|events| - 1])
  }

  // ---- The module state and the code that changes it -----------------------------------------

  class PendingPrompts {
    var ids: seq<string>
    var pending: seq<Entry>
    var timers: set<nat>
    var outcomes: map<nat, Outcome>

    function State(): Registry
      reads this
    {
      Registry(ids, pending, timers, outcomes)
    }

    constructor ()
      ensures State() == EMPTY
    {
      ids, pending, timers, outcomes := [], [], {}, map[];
    }

    method ResolvePromise(ticket: nat, outcome: Outcome)
      modifies this`outcomes
      ensures State() == Resolve(old(State()), ticket, outcome)
    {
      if ticket !in outcomes {
        outcomes := outcomes[ticket := outcome];
      }
    }

    method RejectPending(e: Entry, outcome: Outcome)
      modifies this`timers, this`outcomes
      ensures State() == Reject(old(State()), e, outcome)
    {
      timers := timers - {e.ticket};
      ResolvePromise(e.ticket, outcome);
    }

    method EvictIfFull()
      modifies this
      ensures State() == EvictOldest(old(State()))
    {
      hide Delete;
      if |pending| >= PENDING_BIOMETRIC_MAX_ENTRIES {
        var oldest := pending[0];
        if oldest.id != "" {
          pending := Delete(pending, oldest.id);
          RejectPending(oldest, Evicted);
        }
      }
    }

    method BiometricPrompt(nowMs: nat, random: nat, throws: bool) returns (ticket: nat)
      modifies this
      ensures ticket == old(|ids|)
      ensures var issued := Step(old(State()), Prompt(nowMs, random));
        State() == if throws then Step(issued, DispatchThrows) else issued
    {
      hide PromptId, Put, Delete;
      EvictionKeepsIds(State().(ids := ids + [PromptId(nowMs, random)], timers := timers + {|ids|}));
      hide EvictOldest;
      var id := PromptId(nowMs, random);
      ticket := |ids|;
      ids := ids + [id];
      timers := timers + {ticket};
      EvictIfFull();
      pending := Put(pending, Entry(id, ticket));
      if throws {
        pending := Delete(pending, id);
        timers := timers - {ticket};
        ResolvePromise(ticket, DispatchFailed);
      }
    }

    method OnCallback(id: string, result: string)
      modifies this
      ensures State() == Step(old(State()), Callback(id, result))
    {
      var k := Find(pending, id);
      if k < |pending| {
        var e := pending[k];
        pending := Delete(pending, id);
        timers := timers - {e.ticket};
        ResolvePromise(e.ticket, Envelope(result));
      }
    }

    method OnTimer(ticket: nat)
      modifies this
      ensures State() == Step(old(State()), TimerFires(ticket))
    {
      if ticket in timers && ticket < |ids| {
        timers := timers - {ticket};
        if Has(pending, ids[ticket]) {
          pending := Delete(pending, ids[ticket]);
          ResolvePromise(ticket, TimedOut);
        }
      }
    }

    method PurgePendingBiometric()
      modifies this
      ensures State() == Step(old(State()), Purge)
    {
      if pending == [] {
        return;
      }
      for i := 0 to |pending|
        invariant pending == old(pending)
        invariant RejectAll(State(), pending[i..]) == RejectAll(old(State()), old(pending))
      {
        assert pending[i..][1..] == pending[i + 1..];
        RejectPending(pending[i], Purged);
      }
      pending := [];
      RejectAllKeeps(old(State()), old(pending));
    }
  }

  lemma EvictionKeepsIds(r: Registry)
    ensures EvictOldest(r).ids == r.ids
  {
    hide Delete;
  }

  lemma {:induction false} RejectAllKeeps(r: Registry, entries: seq<Entry>)
    ensures var r' := RejectAll(r, entries);
      && r'.ids == r.ids && r'.pending == r.pending
      && r'.timers == r.timers - (set e | e in entries :: e.ticket)
      && r'.outcomes.Keys == r.outcomes.Keys + (set e | e in entries :: e.ticket)
      && (forall t | t in r.outcomes :: r'.outcomes[t] == r.outcomes[t])
    decreases |entries|
  {
    if entries != [] {
      RejectAllKeeps(Reject(r, entries[0], Purged), entries[1..]);
      assert forall e :: e in entries <==> e == entries[0] || e in entries[1..];
      assert (set e | e in entries :: e.ticket) == {entries[0].ticket} + (set e | e in entries[1..] :: e.ticket);
    }
  }

  // ---- Every interleaving -----------------------------------------------------------------------

  predicate Waiting(r: Registry, ticket: nat) {
    ticket < |r.ids| && ticket !in r.outcomes
  }

  predicate Pends(r: Registry, ticket: nat) {
    ticket < |r.ids| && Entry(r.ids[ticket], ticket) in r.pending
  }

  predicate Ordered(pending: seq<Entry>) {
    forall i, j | 0 <= i < j < |pending| :: pending[i].ticket < pending[j].ticket
  }

  ghost predicate DistinctWaiting(r: Registry) {
    && (forall t | t in r.outcomes :: t < |r.ids|)
    && (forall t | 0 <= t < |r.ids| :: r.ids[t] != "")
    && (forall t, u | 0 <= t < u < |r.ids| && r.ids[t] == r.ids[u] :: t in r.outcomes)
  }

  ghost predicate Faithful(r: Registry) {
    && Ordered(r.pending)
    && (forall e | e in r.pending :: Waiting(r, e.ticket) && e.id == r.ids[e.ticket])
    && (forall t: nat | Waiting(r, t) :: Pends(r, t))
  }

  /** The map holds exactly the unsettled prompts, oldest first, never more than the cap, and exactly
      these have a live timer. */
  ghost predicate Consistent(r: Registry) {
    && |r.pending| <= 100
    && DistinctWaiting(r)
    && Faithful(r)
    && (forall t: nat :: t in r.timers <==> Waiting(r, t))
  }

  // Where a waiting prompt stands in the map: nothing before it has its id.
  lemma PlaceOf(r: Registry, ticket: nat) returns (k: nat)
    requires Consistent(r) && Waiting(r, ticket)
    ensures k < |r.pending| && r.pending[k] == Entry(r.ids[ticket], ticket)
    ensures Find(r.pending, r.ids[ticket]) == k
  {
    assert Pends(r, ticket);
    k :| 0 <= k < |r.pending| && r.pending[k] == Entry(r.ids[ticket], ticket);
    var f := Find(r.pending, r.ids[ticket]);
    assert Waiting(r, r.pending[f].ticket);
  }

  function Without(pending: seq<Entry>, k: nat): (rest: seq<Entry>)
    requires k < |pending|
    ensures |rest| == |pending| - 1
  {
    pending[..k] + pending[k + 1..]
  }

  lemma WithoutIsOrdered(pending: seq<Entry>, k: nat)
    requires k < |pending| && Ordered(pending)
    ensures Ordered(Without(pending, k))
  {
    var rest := Without(pending, k);
    forall i, j | 0 <= i < j < |rest| ensures rest[i].ticket < rest[j].ticket {
      var a, b := if i < k then i else i + 1, if j < k then j else j + 1;
      assert rest[i] == pending[a] && rest[j] == pending[b];
    }
  }

  lemma WithoutKeeps(pending: seq<Entry>, k: nat, e: Entry)
    requires k < |pending| && Ordered(pending)
    ensures e in Without(pending, k) <==> e in pending && e != pending[k]
    ensures e in pending && e != pending[k] ==> e.ticket != pending[k].ticket
  {
    var rest := Without(pending, k);
    if e in rest {
      var i :| 0 <= i < |rest| && rest[i] == e;
      assert pending[if i < k then i else i + 1] == e;
    }
    if e in pending && e != pending[k] {
      var i :| 0 <= i < |pending| && pending[i] == e;
      assert rest[if i < k then i else i - 1] == e;
    }
  }

  function Settled(r: Registry, ticket: nat, outcome: Outcome): Registry
    requires ticket < |r.ids|
  {
    r.(pending := Delete(r.pending, r.ids[ticket]), timers := r.timers - {ticket},
       outcomes := r.outcomes[ticket := outcome])
  }

  lemma SettlingKeeps(r: Registry, ticket: nat, outcome: Outcome)
    requires Consistent(r) && Waiting(r, ticket)
    ensures Consistent(Settled(r, ticket, outcome))
    ensures |Settled(r, ticket, outcome).pending| == |r.pending| - 1
  {
    var k := PlaceOf(r, ticket);
    var r' := Settled(r, ticket, outcome);
    assert r'.pending == Without(r.pending, k);
    hide Without, Find;
    assert forall t: nat :: Waiting(r', t) <==> Waiting(r, t) && t != ticket;
    assert DistinctWaiting(r') by {
      hide Faithful, Ordered, Pends;
    }
    assert Faithful(r') by {
      hide DistinctWaiting, Ordered;
      WithoutIsOrdered(r.pending, k);
      forall e ensures e in r'.pending <==> e in r.pending && e.ticket != ticket {
        WithoutKeeps(r.pending, k, e);
      }
    }
  }

  /** Eviction makes room by settling the oldest unsettled prompt, and only when the cap is reached. */
  lemma EvictionTakesTheOldest(r: Registry)
    requires Consistent(r)
    ensures Consistent(EvictOldest(r)) && |EvictOldest(r).pending| < 100
    ensures |r.pending| < 100 ==> EvictOldest(r) == r
    ensures |r.pending| == 100 ==>
      var oldest := r.pending[0].ticket;
      && EvictOldest(r) == Settled(r, oldest, Evicted)
      && Waiting(r, oldest) && forall t: nat | Waiting(r, t) :: oldest <= t
  {
    if |r.pending| == PENDING_BIOMETRIC_MAX_ENTRIES {
      var oldest := r.pending[0].ticket;
      assert Waiting(r, oldest) && r.pending[0].id == r.ids[oldest];
      SettlingKeeps(r, oldest, Evicted);
      forall t: nat | Waiting(r, t) ensures oldest <= t {
        var k := PlaceOf(r, t);
      }
    }
  }

  function Armed(r: Registry, id: string): Registry {
    r.(ids := r.ids + [id], timers := r.timers + {|r.ids|}, pending := Put(r.pending, Entry(id, |r.ids|)))
  }

  lemma PromptIsArming(r: Registry, nowMs: nat, random: nat)
    requires Consistent(r)
    ensures Step(r, Prompt(nowMs, random)) == Armed(EvictOldest(r), PromptId(nowMs, random))
  {
    if |r.pending| == PENDING_BIOMETRIC_MAX_ENTRIES {
      var oldest := r.pending[0].ticket;
      assert Waiting(r, oldest);
      assert r.timers + {|r.ids|} - {oldest} == r.timers - {oldest} + {|r.ids|};
    }
  }

  lemma ArmingFresh(r: Registry, id: string)
    requires Consistent(r) && id != "" && !Has(r.pending, id) && |r.pending| < PENDING_BIOMETRIC_MAX_ENTRIES
    ensures Consistent(Armed(r, id))
  {
    var r' := Armed(r, id);
    assert r'.pending == r.pending + [Entry(id, |r.ids|)];
    hide Find, Put;
    assert forall t: nat :: Waiting(r', t) <==> Waiting(r, t) || t == |r.ids|;
    assert DistinctWaiting(r') by {
      hide Ordered;
      forall t | 0 <= t < |r.ids| && r.ids[t] == id ensures t in r.outcomes {
        if Waiting(r, t) {
          var k := PlaceOf(r, t);
        }
      }
    }
    assert Faithful(r') by {
      hide DistinctWaiting;
      forall e | e in r.pending ensures e.ticket < |r.ids| {
      }
    }
  }

  lemma ArmingReused(r: Registry, id: string)
    requires Consistent(r) && Has(r.pending, id)
    ensures !Consistent(Armed(r, id))
  {
    var r' := Armed(r, id);
    var t := r.pending[Find(r.pending, id)].ticket;
    assert Waiting(r, t) && r.ids[t] == id;
    assert r'.ids[t] == r'.ids[|r.ids|] && t !in r'.outcomes;
  }

  // The last prompt has left the map once it is settled.
  lemma LastIsGone(r: Registry)
    requires Consistent(r) && r.ids != [] && |r.ids| - 1 in r.outcomes
    ensures !Has(r.pending, r.ids[|r.ids| - 1]) && |r.ids| - 1 !in r.timers
  {
    var t := |r.ids| - 1;
    assert !Waiting(r, t);
    forall i | 0 <= i < |r.pending| ensures r.pending[i].id != r.ids[t] {
      assert r.pending[i] in r.pending && Waiting(r, r.pending[i].ticket);
    }
  }

  lemma ThrowSettles(r: Registry)
    requires Consistent(r) && r.ids != []
    ensures var t := |r.ids| - 1;
      Step(r, DispatchThrows) == if t in r.outcomes then r else Settled(r, t, DispatchFailed)
  {
    if |r.ids| - 1 in r.outcomes {
      LastIsGone(r);
      hide Consistent;
      assert r.timers - {|r.ids| - 1} == r.timers;
    }
  }

  lemma LateThrow(r: Registry)
    requires Consistent(r) && r.ids != []
    ensures Consistent(Step(r, DispatchThrows))
  {
    ThrowSettles(r);
    hide Step, Consistent, Settled;
    if |r.ids| - 1 !in r.outcomes {
      SettlingKeeps(r, |r.ids| - 1, DispatchFailed);
    }
  }

  lemma CallbackSettles(r: Registry, id: string, result: string)
    requires Consistent(r) && Has(r.pending, id)
    ensures var t := r.pending[Find(r.pending, id)].ticket;
      Waiting(r, t) && Step(r, Callback(id, result)) == Settled(r, t, Envelope(result))
  {
    var e := r.pending[Find(r.pending, id)];
    assert e in r.pending && Waiting(r, e.ticket) && r.ids[e.ticket] == id;
  }

  lemma CallbackKeeps(r: Registry, id: string, result: string)
    requires Consistent(r)
    ensures Consistent(Step(r, Callback(id, result)))
  {
    if Has(r.pending, id) {
      CallbackSettles(r, id, result);
      hide Step, Consistent, Settled;
      SettlingKeeps(r, r.pending[Find(r.pending, id)].ticket, Envelope(result));
    }
  }

  lemma TimerKeeps(r: Registry, t: nat)
    requires Consistent(r)
    ensures Consistent(Step(r, TimerFires(t)))
  {
    if t in r.timers {
      var k := PlaceOf(r, t);
      SettlingKeeps(r, t, TimedOut);
    }
  }

  /** A purge settles every prompt and leaves neither entries nor timers. */
  lemma PurgeSettlesAll(r: Registry)
    requires Consistent(r)
    ensures var r' := Step(r, Purge);
      && Consistent(r') && r'.ids == r.ids && r'.pending == [] && r'.timers == {}
      && (forall t: nat | t < |r.ids| :: t in r'.outcomes)
      && (forall t | t in r.outcomes :: r'.outcomes[t] == r.outcomes[t])
  {
    RejectAllKeeps(r, r.pending);
    var tickets := set e | e in r.pending :: e.ticket;
    forall t: nat ensures t in tickets <==> Waiting(r, t) {
      if Waiting(r, t) {
        var k := PlaceOf(r, t);
        assert r.pending[k] in r.pending;
      }
    }
    var r' := Step(r, Purge);
    forall t: nat | t < |r.ids| ensures t in r'.outcomes {
      assert t in r.outcomes.Keys + tickets;
    }
  }

  /** A step keeps the registry consistent if and only if it does not issue a prompt under an id that
      is still in flight once the map has made room. */
  lemma StepKeepsConsistency(r: Registry, event: Event)
    requires Consistent(r)
    ensures Consistent(Step(r, event)) <==>
      !(event.Prompt? && Has(EvictOldest(r).pending, PromptId(event.nowMs, event.random)))
  {
    hide Consistent, Step, PromptId;
    match event
    case Prompt(nowMs, random) =>
      PromptIsArming(r, nowMs, random);
      EvictionTakesTheOldest(r);
      if Has(EvictOldest(r).pending, PromptId(nowMs, random)) {
        ArmingReused(EvictOldest(r), PromptId(nowMs, random));
      } else {
        ArmingFresh(EvictOldest(r), PromptId(nowMs, random));
      }
    case DispatchThrows =>
      if r.ids != [] {
        LateThrow(r);
      } else {
        NothingThrows(r);
      }
    case Callback(id, result) => CallbackKeeps(r, id, result);
    case TimerFires(t) => TimerKeeps(r, t);
    case Purge => PurgeSettlesAll(r);
  }

  lemma NothingThrows(r: Registry)
    requires r.ids == []
    ensures Step(r, DispatchThrows) == r
  {
  }

  ghost predicate DistinctInFlight(events: seq<Event>) {
    forall i | 0 <= i < |events| && events[i].Prompt? ::
      !Has(EvictOldest(RunOf(events[..i])).pending, PromptId(events[i].nowMs, events[i].random))
  }

  /** Over every run with distinct ids in flight the map stays within its cap and holds exactly the
      unsettled prompts, which alone have live timers. */
  lemma {:induction false} RunIsConsistent(events: seq<Event>)
    requires DistinctInFlight(events)
    ensures Consistent(RunOf(events))
  {
    if events == [] {
      assert RunOf(events) == EMPTY;
    } else {
      var front := events[..|events| - 1];
      forall i | 0 <= i < |front| && front[i].Prompt?
        ensures !Has(EvictOldest(RunOf(front[..i])).pending, PromptId(front[i].nowMs, front[i].random))
      {
        assert front[..i] == events[..i];
      }
      RunIsConsistent(front);
      StepKeepsConsistency(RunOf(front), events[|events| - 1]);
    }
  }

  ghost predicate ConsistentThroughout(events: seq<Event>) {
    forall i | 0 <= i <= |events| :: Consistent(RunOf(events[..i]))
  }

  lemma RunOneMore(events: seq<Event>, i: nat)
    requires i < |events|
    ensures RunOf(events[..i + 1]) == Step(RunOf(events[..i]), events[i])
  {
    hide Step;
    assert events[..i + 1][..i] == events[..i];
  }

  lemma PrefixIsDistinct(events: seq<Event>, n: nat)
    requires n <= |events| && DistinctInFlight(events)
    ensures DistinctInFlight(events[..n])
  {
    hide RunOf, EvictOldest, PromptId, Has;
    var front := events[..n];
    forall i | 0 <= i < |front| && front[i].Prompt?
      ensures !Has(EvictOldest(RunOf(front[..i])).pending, PromptId(front[i].nowMs, front[i].random))
    {
      assert front[..i] == events[..i];
    }
  }

  /** A run is consistent at every point if and only if it never reuses an id in flight. */
  lemma RunIsConsistentIff(events: seq<Event>)
    ensures ConsistentThroughout(events) <==> DistinctInFlight(events)
  {
    hide RunOf, Consistent, Step, EvictOldest, PromptId, Has;
    if DistinctInFlight(events) {
      forall i | 0 <= i <= |events| ensures Consistent(RunOf(events[..i])) {
        PrefixIsDistinct(events, i);
        RunIsConsistent(events[..i]);
      }
    }
    if ConsistentThroughout(events) {
      forall i | 0 <= i < |events| && events[i].Prompt?
        ensures !Has(EvictOldest(RunOf(events[..i])).pending, PromptId(events[i].nowMs, events[i].random))
      {
        RunOneMore(events, i);
        assert Consistent(RunOf(events[..i])) && Consistent(RunOf(events[..i + 1]));
        StepKeepsConsistency(RunOf(events[..i]), events[i]);
      }
    }
  }

  /** Each prompt is settled once: an outcome never changes. */
  lemma StepSettlesOnce(r: Registry, event: Event, ticket: nat)
    requires ticket in r.outcomes
    ensures ticket in Step(r, event).outcomes && Step(r, event).outcomes[ticket] == r.outcomes[ticket]
  {
    hide Delete, Put, PromptId, Find, RejectAll;
    if event.Purge? {
      RejectAllKeeps(r, r.pending);
    }
  }

  // What an event means for a prompt that waits.
  function SettledBy(r: Registry, event: Event, ticket: nat): Option<Outcome>
    requires ticket < |r.ids|
  {
    match event
    case Callback(id, result) => if id == r.ids[ticket] then Some(Envelope(result)) else None
    case TimerFires(t) => if t == ticket then Some(TimedOut) else None
    case DispatchThrows => if ticket == |r.ids| - 1 then Some(DispatchFailed) else None
    case Purge => Some(Purged)
    case Prompt(_, _) =>
      if |r.pending| == 100 && r.pending[0].ticket == ticket then Some(Evicted) else None
  }

  /** A waiting prompt is settled by its own callback, timer or throw, by a purge, or by being the oldest when
      another needs its place, with that outcome, and by nothing else. */
  lemma SettledByItsOwnEvent(r: Registry, event: Event, ticket: nat)
    requires Consistent(r) && Waiting(r, ticket)
    ensures var cause := SettledBy(r, event, ticket); var r' := Step(r, event);
      if cause.Some? then ticket in r'.outcomes && r'.outcomes[ticket] == cause.value else ticket !in r'.outcomes
  {
    hide PromptId, Ordered, DistinctWaiting, RejectAll, Find;
    var k := PlaceOf(r, ticket);
    match event
    case Prompt(nowMs, random) =>
      PromptIsArming(r, nowMs, random);
      EvictionTakesTheOldest(r);
    case Callback(id, _) =>
      if Has(r.pending, id) {
        SameIdSameTicket(r, id, k);
      }
    case Purge =>
      PurgeOutcome(r, r.pending, ticket, k);
    case _ =>
  }

  lemma SameIdSameTicket(r: Registry, id: string, k: nat)
    requires Consistent(r) && Has(r.pending, id) && k < |r.pending|
    ensures r.pending[k].id == id <==> Find(r.pending, id) == k
  {
    var f := Find(r.pending, id);
    assert r.pending[k] in r.pending && r.pending[f] in r.pending;
  }

  lemma {:induction false} PurgeOutcome(r: Registry, entries: seq<Entry>, ticket: nat, k: nat)
    requires ticket !in r.outcomes && k < |entries| && entries[k].ticket == ticket
    ensures var r' := RejectAll(r, entries); ticket in r'.outcomes && r'.outcomes[ticket] == Purged
    decreases |entries|
  {
    var next := Reject(r, entries[0], Purged);
    if ticket in next.outcomes {
      RejectAllKeeps(next, entries[1..]);
    } else {
      PurgeOutcome(next, entries[1..], ticket, k - 1);
    }
  }

  // ---- Prompt ids ------------------------------------------------------------------------------------------

  /** Two prompts have one id only for the same clock reading and the same random number. */
  lemma PromptIdsDiffer(a: nat, m: nat, b: nat, n: nat)
    ensures "biometric-" <= PromptId(a, m)
    ensures PromptId(a, m) == PromptId(b, n) <==> a == b && m == n
  {
    hide Text.Print, Text.Numeral;
    var prefix := "biometric-";
    var s, t := Text.Print(a, 10) + ['-'] + Text.Print(m, 10), Text.Print(b, 10) + ['-'] + Text.Print(n, 10);
    assert PromptId(a, m) == prefix + s && PromptId(b, n) == prefix + t;
    if PromptId(a, m) == PromptId(b, n) {
      SamePrefix(prefix, s, t);
      NumeralHasNoDash(a);
      NumeralHasNoDash(b);
      Text.SplitsAtFirst('-', Text.Print(a, 10), Text.Print(m, 10), Text.Print(b, 10), Text.Print(n, 10));
      Text.ParsePrint(a, 10);
      Text.ParsePrint(b, 10);
      Text.ParsePrint(m, 10);
      Text.ParsePrint(n, 10);
    }
  }

  lemma NumeralHasNoDash(n: nat)
    ensures '-' !in Text.Print(n, 10)
  {
    hide Text.Print;
  }

  predicate Prompted(events: seq<Event>, id: string) {
    exists i | 0 <= i < |events| :: events[i].Prompt? && PromptId(events[i].nowMs, events[i].random) == id
  }

  lemma DeleteLeaves(pending: seq<Entry>, id: string, e: Entry)
    requires e in Delete(pending, id)
    ensures e in pending
  {
    hide Find;
  }

  lemma PutHolds(pending: seq<Entry>, entry: Entry, e: Entry)
    requires e in Put(pending, entry)
    ensures e in pending || e == entry
  {
    hide Find;
  }

  lemma PendingIsOldOrPrompted(r: Registry, event: Event, e: Entry)
    requires e in Step(r, event).pending
    ensures e in r.pending || (event.Prompt? && e.id == PromptId(event.nowMs, event.random))
  {
    hide PromptId, Find, Delete, Put, EvictOldest, RejectAll;
    match event
    case Prompt(nowMs, random) =>
      var armed := r.(ids := r.ids + [PromptId(nowMs, random)], timers := r.timers + {|r.ids|});
      PutHolds(EvictOldest(armed).pending, Entry(PromptId(nowMs, random), |r.ids|), e);
      if e in EvictOldest(armed).pending {
        EvictionLeaves(armed, e);
      }
    case DispatchThrows =>
      if r.ids != [] {
        DeleteLeaves(r.pending, r.ids[|r.ids| - 1], e);
      }
    case Callback(id, _) =>
      if Has(r.pending, id) {
        DeleteLeaves(r.pending, id, e);
      }
    case TimerFires(t) =>
      if t in r.timers && t < |r.ids| && Has(r.pending, r.ids[t]) {
        DeleteLeaves(r.pending, r.ids[t], e);
      }
    case Purge =>
  }

  lemma {:induction false} PendingWasPrompted(events: seq<Event>)
    ensures forall e | e in RunOf(events).pending :: Prompted(events, e.id)
  {
    if events != [] {
      var front, last := events[..|events| - 1], events[|events| - 1];
      PendingWasPrompted(front);
      hide PromptId, Step;
      forall e | e in RunOf(events).pending ensures Prompted(events, e.id) {
        PendingIsOldOrPrompted(RunOf(front), last, e);
        if e in RunOf(front).pending {
          assert Prompted(front, e.id);
          var i :| 0 <= i < |front| && front[i].Prompt? && PromptId(front[i].nowMs, front[i].random) == e.id;
          assert events[i] == front[i];
        }
      }
    }
  }

  predicate DistinctReadings(events: seq<Event>) {
    forall i, j | 0 <= i < j < |events| && events[i].Prompt? && events[j].Prompt? ::
      events[i].nowMs != events[j].nowMs || events[i].random != events[j].random
  }

  /** So a run is consistent throughout unless two prompts draw the same random number in the same millisecond. */
  lemma DistinctReadingsKeepConsistency(events: seq<Event>)
    requires DistinctReadings(events)
    ensures DistinctInFlight(events) && ConsistentThroughout(events)
  {
    hide RunOf, PromptId;
    forall i | 0 <= i < |events| && events[i].Prompt?
      ensures !Has(EvictOldest(RunOf(events[..i])).pending, PromptId(events[i].nowMs, events[i].random))
    {
      var id := PromptId(events[i].nowMs, events[i].random);
      NewReading(events, i);
      PendingWasPrompted(events[..i]);
      NotAfterEviction(RunOf(events[..i]), id);
    }
    RunIsConsistentIff(events);
  }

  lemma NewReading(events: seq<Event>, i: nat)
    requires DistinctReadings(events) && i < |events| && events[i].Prompt?
    ensures !Prompted(events[..i], PromptId(events[i].nowMs, events[i].random))
  {
    hide PromptId;
    forall j | 0 <= j < i && events[j].Prompt?
      ensures PromptId(events[j].nowMs, events[j].random) != PromptId(events[i].nowMs, events[i].random)
    {
      PromptIdsDiffer(events[j].nowMs, events[j].random, events[i].nowMs, events[i].random);
    }
  }

  lemma EvictionLeaves(r: Registry, e: Entry)
    requires e in EvictOldest(r).pending
    ensures e in r.pending
  {
    hide Find;
  }

  lemma NotAfterEviction(r: Registry, id: string)
    requires forall e | e in r.pending :: e.id != id
    ensures !Has(EvictOldest(r).pending, id)
  {
    forall e | e in EvictOldest(r).pending ensures e.id != id {
      EvictionLeaves(r, e);
    }
    hide EvictOldest;
  }
}
