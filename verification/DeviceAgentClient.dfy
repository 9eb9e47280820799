/** In-flight device-agent requests (deviceAgentRequest, finalize and the callback bridge in
    apps/browser-demo/src/deviceAgentClient.ts). Requests are numbered by tickets in the order of
    their issue; an event is one turn of the event loop, and a run is any sequence of events. */
module DeviceAgentClient {
  import opened Wrappers
  import opened Sequences
  import opened Text

  datatype Outcome = Resolved(envelope: string) | Rejected(code: string)

  datatype Entry = Entry(ticket: nat, hasSignal: bool)

  // ids[t] and signals[t] belong to the closure of ticket t; timers and listeners hold the
  // tickets whose timeout is armed and whose abort listener is registered.
  datatype Registry = Registry(
    ids: seq<string>, signals: seq<bool>, pending: map<string, Entry>,
    timers: set<nat>, listeners: set<nat>, outcomes: map<nat, Outcome>)

  // DispatchThrows: the native call of the request issued last throws, in the turn that issued it;
  // native callbacks may already have come back in between. An unparsable envelope is None.
  datatype Event =
    | Issue(id: string, hasSignal: bool)
    | DispatchThrows
    | NativeResolve(id: string, envelope: Option<string>)
    | NativeReject(id: string, code: string)
    | TimerFires(ticket: nat)
    | AbortFires(ticket: nat)

  const EMPTY := Registry([], [], map[], {}, {}, map[])

  // A promise keeps the first outcome it is given.
  function Settle(r: Registry, ticket: nat, outcome: Outcome): Registry {
    if ticket in r.outcomes then r else r.(outcomes := r.outcomes[ticket := outcome])
  }

  function Finalize(r: Registry, id: string): Registry {
    if id !in r.pending then r
    else
      var e := r.pending[id];
      r.(timers := r.timers - {e.ticket},
         listeners := if e.hasSignal then r.listeners - {e.ticket} else r.listeners,
         pending := r.pending - {id})
  }

  function Step(r: Registry, event: Event): Registry {
    match event
    case Issue(id, hasSignal) =>
      var t := |r.ids|;
      r.(ids := r.ids + [id], signals := r.signals + [hasSignal],
         timers := r.timers + {t}, listeners := if hasSignal then r.listeners + {t} else r.listeners,
         pending := r.pending[id := Entry(t, hasSignal)])
    case DispatchThrows =>
      if r.ids == [] then r
      else var t := |r.ids| - 1; Settle(Finalize(r, r.ids[t]), t, Rejected("bridge_error"))
    case NativeResolve(id, envelope) =>
      if id !in r.pending then r
      else Settle(Finalize(r, id), r.pending[id].ticket,
                  if envelope.Some? then Resolved(envelope.value) else Rejected("invalid_response"))
    case NativeReject(id, code) =>
      if id !in r.pending then r else Settle(Finalize(r, id), r.pending[id].ticket, Rejected(code))
    case TimerFires(t) =>
      if t in r.timers && t < |r.ids|
      then Settle(Finalize(r.(timers := r.timers - {t}), r.ids[t]), t, Rejected("request_timeout")) else r
    case AbortFires(t) =>
      if t in r.listeners && t < |r.ids|
      then Settle(Finalize(r.(listeners := r.listeners - {t}), r.ids[t]), t, Rejected("aborted")) else r
  }

  // Who draws an id: deviceAgentRequest itself, or a chat turn that is going to stream (main.ts).
  datatype Source = Agent | Stream

  function Prefix(source: Source): string {
    if source.Agent? then "device-agent-" else "chat-stream-"
  }

  // `${prefix}${Date.now().toString(36)}-${counter.toString(36)}`
  function GeneratedId(source: Source, nowMs: nat, count: nat): string {
    Prefix(source) + (Print(nowMs, 36) + "-" + Print(count, 36))
  }

  function RunOf(events: seq<Event>): Registry {
    if events == [] then EMPTY else Step(RunOf(events[..|events| - 1]), events[|events| - 1])
  }

  // ---- The module state and the code that changes it --------------------------------------

  class Client {
    var ids: seq<string>
    var signals: seq<bool>
    var pending: map<string, Entry>
    var timers: set<nat>
    var listeners: set<nat>
    var outcomes: map<nat, Outcome>
    var nonce: nat

    function State(): Registry
      reads this
    {
      Registry(ids, signals, pending, timers, listeners, outcomes)
    }

    constructor ()
      ensures State() == EMPTY && nonce == 1
    {
      ids, signals, pending, timers, listeners, outcomes, nonce := [], [], map[], {}, {}, map[], 1;
    }

    method FinalizeEntry(id: string)
      modifies this`pending, this`timers, this`listeners
      ensures State() == Finalize(old(State()), id)
    {
      if id in pending {
        var e := pending[id];
        timers := timers - {e.ticket};
        if e.hasSignal {
          listeners := listeners - {e.ticket};
        }
        pending := pending - {id};
      }
    }

    method SettlePromise(ticket: nat, outcome: Outcome)
      modifies this`outcomes
      ensures State() == Settle(old(State()), ticket, outcome)
    {
      if ticket !in outcomes {
        outcomes := outcomes[ticket := outcome];
      }
    }

    method GenerateRequestId(nowMs: nat) returns (id: string)
      modifies this`nonce
      ensures id == GeneratedId(Agent, nowMs, old(nonce)) && nonce == old(nonce) + 1
    {
      id := GeneratedId(Agent, nowMs, nonce);
      nonce := nonce + 1;
    }

    // Registers the request and calls the bridge, which throws or returns.
    method Request(id: string, hasSignal: bool, throws: bool) returns (ticket: nat)
      modifies this
      ensures ticket == old(|ids|) && nonce == old(nonce)
      ensures var issued := Step(old(State()), Issue(id, hasSignal));
        State() == if throws then Step(issued, DispatchThrows) else issued
    {
      ticket := |ids|;
      ids := ids + [id];
      signals := signals + [hasSignal];
      timers := timers + {ticket};
      if hasSignal {
        listeners := listeners + {ticket};
      }
      pending := pending[id := Entry(ticket, hasSignal)];
      if throws {
        FinalizeEntry(id);
        SettlePromise(ticket, Rejected("bridge_error"));
      }
    }

    method OnNativeResolve(id: string, envelope: Option<string>)
      modifies this
      ensures State() == Step(old(State()), NativeResolve(id, envelope)) && nonce == old(nonce)
    {
      if id in pending {
        var entry := pending[id];
        FinalizeEntry(id);
        if envelope.Some? {
          SettlePromise(entry.ticket, Resolved(envelope.value));
        } else {
          SettlePromise(entry.ticket, Rejected("invalid_response"));
        }
      }
    }

    method OnNativeReject(id: string, code: string)
      modifies this
      ensures State() == Step(old(State()), NativeReject(id, code)) && nonce == old(nonce)
    {
      if id in pending {
        var entry := pending[id];
        FinalizeEntry(id);
        SettlePromise(entry.ticket, Rejected(code));
      }
    }

    method OnTimer(ticket: nat)
      modifies this
      ensures State() == Step(old(State()), TimerFires(ticket)) && nonce == old(nonce)
    {
      if ticket in timers && ticket < |ids| {
        timers := timers - {ticket};
        FinalizeEntry(ids[ticket]);
        SettlePromise(ticket, Rejected("request_timeout"));
      }
    }

    method OnAbort(ticket: nat)
      modifies this
      ensures State() == Step(old(State()), AbortFires(ticket)) && nonce == old(nonce)
    {
      if ticket in listeners && ticket < |ids| {
        listeners := listeners - {ticket};
        FinalizeEntry(ids[ticket]);
        SettlePromise(ticket, Rejected("aborted"));
      }
    }
  }

  // ---- Every interleaving ------------------------------------------------------------------

  predicate Waiting(r: Registry, ticket: nat) {
    ticket < |r.ids| && ticket !in r.outcomes
  }

  ghost predicate DistinctWaiting(r: Registry) {
    && |r.signals| == |r.ids|
    && (forall t | t in r.outcomes :: t < |r.ids|)
    && (forall t, u | 0 <= t < u < |r.ids| && r.ids[t] == r.ids[u] :: t in r.outcomes)
  }

  ghost predicate Registered(r: Registry)
    requires |r.signals| == |r.ids|
  {
    && (forall id | id in r.pending :: var t := r.pending[id].ticket;
          Waiting(r, t) && r.ids[t] == id && r.pending[id].hasSignal == r.signals[t])
    && (forall t: nat | Waiting(r, t) :: r.ids[t] in r.pending && r.pending[r.ids[t]].ticket == t)
  }

  ghost predicate Armed(r: Registry)
    requires |r.signals| == |r.ids|
  {
    && (forall t: nat :: t in r.timers <==> Waiting(r, t))
    && (forall t: nat :: t in r.listeners <==> Waiting(r, t) && r.signals[t])
  }

  /** A request is in `pending`, under its own id, exactly while it is unsettled, and exactly then
      its timer is armed and, if it has a signal, its abort listener registered. */
  ghost predicate Consistent(r: Registry) {
    DistinctWaiting(r) && Registered(r) && Armed(r)
  }

  function Settled(r: Registry, ticket: nat, outcome: Outcome): Registry
    requires ticket < |r.ids|
  {
    r.(pending := r.pending - {r.ids[ticket]}, timers := r.timers - {ticket},
       listeners := r.listeners - {ticket}, outcomes := r.outcomes[ticket := outcome])
  }

  lemma FinalizeIsSettled(r: Registry, ticket: nat, outcome: Outcome)
    requires Consistent(r) && Waiting(r, ticket)
    ensures Settle(Finalize(r, r.ids[ticket]), ticket, outcome) == Settled(r, ticket, outcome)
  {
    SameLengths(r);
    hide DistinctWaiting;
    var e := r.pending[r.ids[ticket]];
    assert e.ticket == ticket && e.hasSignal == r.signals[ticket];
    assert !e.hasSignal ==> r.listeners - {ticket} == r.listeners;
  }

  lemma SettledWaits(r: Registry, ticket: nat, outcome: Outcome, t: nat)
    requires Waiting(r, ticket)
    ensures Waiting(Settled(r, ticket, outcome), t) <==> Waiting(r, t) && t != ticket
  {
  }

  lemma SettledIsRegistered(r: Registry, ticket: nat, outcome: Outcome)
    requires DistinctWaiting(r) && Registered(r) && Waiting(r, ticket)
    ensures Registered(Settled(r, ticket, outcome))
  {
    hide DistinctWaiting;
    var r' := Settled(r, ticket, outcome);
    forall t: nat ensures Waiting(r', t) <==> Waiting(r, t) && t != ticket {
      SettledWaits(r, ticket, outcome, t);
    }
    forall t: nat | Waiting(r', t) ensures r'.ids[t] in r'.pending && r'.pending[r'.ids[t]].ticket == t {
      assert r.pending[r.ids[t]].ticket == t;
    }
  }

  lemma SettledIsArmed(r: Registry, ticket: nat, outcome: Outcome)
    requires |r.signals| == |r.ids| && Armed(r) && Waiting(r, ticket)
    ensures Armed(Settled(r, ticket, outcome))
  {
    forall t: nat ensures Waiting(Settled(r, ticket, outcome), t) <==> Waiting(r, t) && t != ticket {
      SettledWaits(r, ticket, outcome, t);
    }
    hide Waiting;
  }

  lemma SettledIsDistinct(r: Registry, ticket: nat, outcome: Outcome)
    requires DistinctWaiting(r) && Waiting(r, ticket)
    ensures DistinctWaiting(Settled(r, ticket, outcome))
  {
  }

  lemma FinalizeWaiting(r: Registry, ticket: nat, outcome: Outcome)
    requires Consistent(r) && Waiting(r, ticket)
    ensures Settle(Finalize(r, r.ids[ticket]), ticket, outcome) == Settled(r, ticket, outcome)
    ensures Consistent(Settled(r, ticket, outcome))
  {
    FinalizeIsSettled(r, ticket, outcome);
    SettledIsDistinct(r, ticket, outcome);
    hide DistinctWaiting, Registered, Armed, Settle, Finalize;
    SettledIsRegistered(r, ticket, outcome);
    SettledIsArmed(r, ticket, outcome);
  }

  function Issued(r: Registry, id: string, hasSignal: bool): Registry {
    Step(r, Issue(id, hasSignal))
  }

  lemma IssuedWaits(r: Registry, id: string, hasSignal: bool, t: nat)
    requires forall u | u in r.outcomes :: u < |r.ids|
    ensures Waiting(Issued(r, id, hasSignal), t) <==> Waiting(r, t) || t == |r.ids|
  {
  }

  lemma IssuedIsRegistered(r: Registry, id: string, hasSignal: bool)
    requires DistinctWaiting(r) && Registered(r) && id !in r.pending
    ensures |r.signals| == |r.ids| && Registered(Issued(r, id, hasSignal))
  {
    var r' := Issued(r, id, hasSignal);
    forall t: nat ensures Waiting(r', t) <==> Waiting(r, t) || t == |r.ids| {
      IssuedWaits(r, id, hasSignal, t);
    }
    hide Waiting, DistinctWaiting;
    forall t: nat | Waiting(r', t) ensures r'.ids[t] in r'.pending && r'.pending[r'.ids[t]].ticket == t {
      assert t < |r.ids| ==> r'.ids[t] == r.ids[t];
    }
  }

  lemma IssuedIsArmed(r: Registry, id: string, hasSignal: bool)
    requires DistinctWaiting(r) && Armed(r)
    ensures Armed(Issued(r, id, hasSignal))
  {
    var r' := Issued(r, id, hasSignal);
    forall t: nat ensures Waiting(r', t) <==> Waiting(r, t) || t == |r.ids| {
      IssuedWaits(r, id, hasSignal, t);
    }
    assert !Waiting(r, |r.ids|);
    assert forall t: nat | t < |r.ids| :: r'.signals[t] == r.signals[t];
    hide DistinctWaiting;
  }

  lemma IssuedIsDistinct(r: Registry, id: string, hasSignal: bool)
    requires DistinctWaiting(r) && Registered(r) && id !in r.pending
    ensures DistinctWaiting(Issued(r, id, hasSignal))
  {
    var r' := Issued(r, id, hasSignal);
    forall t: nat | t < |r.ids| && r.ids[t] == id ensures t in r.outcomes {
      assert !Waiting(r, t);
    }
    hide Registered;
    assert forall t: nat | t < |r.ids| :: r'.ids[t] == r.ids[t];
  }

  lemma IssueFresh(r: Registry, id: string, hasSignal: bool)
    requires Consistent(r) && id !in r.pending
    ensures Consistent(Step(r, Issue(id, hasSignal)))
  {
    hide DistinctWaiting, Registered, Armed, Step;
    IssuedIsDistinct(r, id, hasSignal);
    IssuedIsRegistered(r, id, hasSignal);
    IssuedIsArmed(r, id, hasSignal);
    SameLengths(Issued(r, id, hasSignal));
  }

  lemma SameLengths(r: Registry)
    requires DistinctWaiting(r)
    ensures |r.signals| == |r.ids|
  {
  }

  lemma IssueReused(r: Registry, id: string, hasSignal: bool)
    requires Consistent(r) && id in r.pending
    ensures !Consistent(Step(r, Issue(id, hasSignal)))
  {
    var r' := Step(r, Issue(id, hasSignal));
    var t := r.pending[id].ticket;
    assert Waiting(r, t) && r'.ids[t] == r'.ids[|r.ids|] == id && t !in r'.outcomes;
  }

  lemma ThrowKeeps(r: Registry)
    requires Consistent(r)
    ensures Consistent(Step(r, DispatchThrows))
  {
    if r.ids != [] {
      var t := |r.ids| - 1;
      if Waiting(r, t) {
        FinalizeWaiting(r, t, Rejected("bridge_error"));
      } else {
        assert forall u: nat | Waiting(r, u) :: u < t && r.ids[u] != r.ids[t];
        assert r.ids[t] !in r.pending;
      }
    }
  }

  /** A step keeps this if and only if it does not issue a request under an id that is in flight. */
  lemma StepKeepsConsistency(r: Registry, event: Event)
    requires Consistent(r)
    ensures Consistent(Step(r, event)) <==> !(event.Issue? && event.id in r.pending)
  {
    hide Consistent;
    match event
    case Issue(id, hasSignal) =>
      if id in r.pending { IssueReused(r, id, hasSignal); } else { IssueFresh(r, id, hasSignal); }
    case DispatchThrows =>
      ThrowKeeps(r);
    case NativeResolve(id, envelope) =>
      if id in r.pending {
        SettleByCallback(r, id, if envelope.Some? then Resolved(envelope.value) else Rejected("invalid_response"));
      }
    case NativeReject(id, code) =>
      if id in r.pending {
        SettleByCallback(r, id, Rejected(code));
      }
    case TimerFires(t) =>
      TimerKeeps(r, t);
    case AbortFires(t) =>
      AbortKeeps(r, t);
  }

  lemma SettleByCallback(r: Registry, id: string, outcome: Outcome)
    requires Consistent(r) && id in r.pending
    ensures Consistent(Settle(Finalize(r, id), r.pending[id].ticket, outcome))
  {
    FinalizeWaiting(r, r.pending[id].ticket, outcome);
  }

  lemma TimerKeeps(r: Registry, t: nat)
    requires Consistent(r)
    ensures Consistent(Step(r, TimerFires(t)))
  {
    if t in r.timers {
      FinalizeWaiting(r, t, Rejected("request_timeout"));
      assert r.timers - {t} - {t} == r.timers - {t};
    }
  }

  lemma AbortKeeps(r: Registry, t: nat)
    requires Consistent(r)
    ensures Consistent(Step(r, AbortFires(t)))
  {
    if t in r.listeners {
      FinalizeWaiting(r, t, Rejected("aborted"));
      assert r.listeners - {t} - {t} == r.listeners - {t};
    }
  }

  // No request is issued under the id of a request still in flight.
  ghost predicate DistinctInFlight(events: seq<Event>) {
    forall i | 0 <= i < |events| && events[i].Issue? :: events[i].id !in RunOf(events[..i]).pending
  }

  /** Over every run with distinct ids in flight, `pending`, timers and abort listeners name exactly
      the unsettled requests. */
  lemma {:induction false} RunIsConsistent(events: seq<Event>)
    requires DistinctInFlight(events)
    ensures Consistent(RunOf(events))
  {
    if events != [] {
      FrontIsDistinct(events);
      hide DistinctInFlight, Consistent, Step;
      RunIsConsistent(events[..|events| - 1]);
      StepKeepsConsistency(RunOf(events[..|events| - 1]), events[|events| - 1]);
    }
  }

  lemma PrefixIsDistinct(events: seq<Event>, n: nat)
    requires n <= |events| && DistinctInFlight(events)
    ensures DistinctInFlight(events[..n])
  {
    hide RunOf;
    var front := events[..n];
    forall i | 0 <= i < |front| && front[i].Issue? ensures front[i].id !in RunOf(front[..i]).pending {
      PrefixOfPrefix(events, n, i);
    }
  }

  lemma RunOneMore(events: seq<Event>, i: nat)
    requires i < |events|
    ensures RunOf(events[..i + 1]) == Step(RunOf(events[..i]), events[i])
  {
    hide Step;
    PrefixOfPrefix(events, i + 1, i);
  }

  ghost predicate ConsistentThroughout(events: seq<Event>) {
    forall i | 0 <= i <= |events| :: Consistent(RunOf(events[..i]))
  }

  /** A run is consistent at every point if and only if it never issues a request under an id in flight. */
  lemma RunIsConsistentIff(events: seq<Event>)
    ensures ConsistentThroughout(events) <==> DistinctInFlight(events)
  {
    hide RunOf, Consistent, Step;
    if DistinctInFlight(events) {
      forall i | 0 <= i <= |events| ensures Consistent(RunOf(events[..i])) {
        PrefixIsDistinct(events, i);
        RunIsConsistent(events[..i]);
      }
    }
    if ConsistentThroughout(events) {
      forall i | 0 <= i < |events| && events[i].Issue? ensures events[i].id !in RunOf(events[..i]).pending {
        RunOneMore(events, i);
        assert Consistent(RunOf(events[..i])) && Consistent(RunOf(events[..i + 1]));
        StepKeepsConsistency(RunOf(events[..i]), events[i]);
      }
    }
  }

  lemma FrontIsDistinct(events: seq<Event>)
    requires events != [] && DistinctInFlight(events)
    ensures var front, last := events[..|events| - 1], events[|events| - 1];
      DistinctInFlight(front) && !(last.Issue? && last.id in RunOf(front).pending)
  {
    var front := events[..|events| - 1];
    hide RunOf;
    forall i | 0 <= i < |front| && front[i].Issue? ensures front[i].id !in RunOf(front[..i]).pending {
      PrefixOfPrefix(events, |events| - 1, i);
    }
  }

  /** A settled request never changes its outcome, and an outcome is given in the very step in which
      the request leaves `pending`. */
  lemma StepSettlesOnce(r: Registry, event: Event, ticket: nat)
    requires Consistent(r) && !(event.Issue? && event.id in r.pending)
    ensures ticket in r.outcomes ==> ticket in Step(r, event).outcomes && Step(r, event).outcomes[ticket] == r.outcomes[ticket]
    ensures Waiting(r, ticket) ==>
      (ticket in Step(r, event).outcomes <==> r.ids[ticket] !in Step(r, event).pending)
  {
    StepKeepsConsistency(r, event);
    StepOnlyAdds(r, event);
    var r' := Step(r, event);
    if Waiting(r, ticket) {
      assert r'.ids[ticket] == r.ids[ticket];
      assert Waiting(r', ticket) <==> ticket !in r'.outcomes;
      if r.ids[ticket] in r'.pending {
        var u := r'.pending[r.ids[ticket]].ticket;
        assert Waiting(r', u) && r'.ids[u] == r.ids[ticket];
        assert u != ticket ==> u < |r.ids| && u !in r.outcomes;
      }
    }
  }

  // What an event means for a request that waits.
  function SettledBy(r: Registry, event: Event, ticket: nat): Option<Outcome>
    requires ticket < |r.ids| == |r.signals|
  {
    match event
    case NativeResolve(id, envelope) =>
      if id != r.ids[ticket] then None
      else Some(if envelope.Some? then Resolved(envelope.value) else Rejected("invalid_response"))
    case NativeReject(id, code) => if id == r.ids[ticket] then Some(Rejected(code)) else None
    case TimerFires(t) => if t == ticket then Some(Rejected("request_timeout")) else None
    case AbortFires(t) => if t == ticket && r.signals[t] then Some(Rejected("aborted")) else None
    case DispatchThrows => if ticket == |r.ids| - 1 then Some(Rejected("bridge_error")) else None
    case Issue(_, _) => None
  }

  /** A waiting request is settled by its own callback, timer, abort or throw, with the outcome of that event,
      and by nothing else. */
  lemma SettledByItsOwnEvent(r: Registry, event: Event, ticket: nat)
    requires Consistent(r) && Waiting(r, ticket)
    ensures var cause := SettledBy(r, event, ticket); var r' := Step(r, event);
      if cause.Some? then ticket in r'.outcomes && r'.outcomes[ticket] == cause.value else Waiting(r', ticket)
  {
  }

  // Outcomes are only added, ids only appended, and an id only by a request that is not in flight.
  lemma StepOnlyAdds(r: Registry, event: Event)
    ensures var r' := Step(r, event);
      && (forall t | t in r.outcomes :: t in r'.outcomes && r'.outcomes[t] == r.outcomes[t])
      && |r.ids| <= |r'.ids| && (forall t | 0 <= t < |r.ids| :: r'.ids[t] == r.ids[t])
      && (event.Issue? ==> r'.ids == r.ids + [event.id] && r'.outcomes == r.outcomes)
      && (!event.Issue? ==> r'.ids == r.ids)
  {
  }

  /** In every run, reused ids or not. */
  lemma {:induction false} SettledForGood(events: seq<Event>, more: seq<Event>, ticket: nat)
    requires ticket in RunOf(events).outcomes
    ensures ticket in RunOf(events + more).outcomes
    ensures RunOf(events + more).outcomes[ticket] == RunOf(events).outcomes[ticket]
  {
    if more == [] {
      NoneThen(events);
    } else {
      hide Step, RunOf;
      var front, last := more[..|more| - 1], more[|more| - 1];
      FirstsThenLast(events, more);
      RunOfMore(events + front, last);
      SettledForGood(events, front, ticket);
      StepOnlyAdds(RunOf(events + front), last);
    }
  }

  // ---- A reused id ------------------------------------------------------------------------------

  // Nothing is left that could settle the request.
  ghost predicate Stranded(r: Registry, ticket: nat) {
    && Waiting(r, ticket) && ticket < |r.ids| - 1
    && ticket !in r.timers && ticket !in r.listeners
    && forall id | id in r.pending :: r.pending[id].ticket != ticket
  }

  lemma {:induction false} StrandedForever(r: Registry, ticket: nat, event: Event)
    requires Stranded(r, ticket)
    ensures Stranded(Step(r, event), ticket)
  {
  }

  lemma RunOfMore(events: seq<Event>, event: Event)
    ensures RunOf(events + [event]) == Step(RunOf(events), event)
  {
    assert (events + [event])[..|events|] == events;
  }

  lemma RunOfFour(e0: Event, e1: Event, e2: Event, e3: Event)
    ensures RunOf([e0, e1, e2, e3]) == Step(Step(Step(Step(EMPTY, e0), e1), e2), e3)
  {
    assert RunOf([]) == EMPTY;
    hide Step, RunOf;
    Grow(e0, e1, e2, e3);
    RunOfMore([], e0);
    RunOfMore([e0], e1);
    RunOfMore([e0, e1], e2);
    RunOfMore([e0, e1, e2], e3);
  }

  lemma ReusedIdStrandsAtOnce(id: string, other: string)
    requires other != id
    ensures Stranded(Step(Step(Step(Step(EMPTY, Issue(id, false)), Issue(id, false)), TimerFires(0)), Issue(other, false)), 1)
  {
    var r2 := Step(Step(EMPTY, Issue(id, false)), Issue(id, false));
    assert r2 == Registry([id, id], [false, false], map[id := Entry(1, false)], {0, 1}, {}, map[]);
    var r3 := Step(r2, TimerFires(0));
    assert r3 == Registry([id, id], [false, false], map[], {}, {}, map[0 := Rejected("request_timeout")]);
  }

  /** With a reused id the timeout of the first request clears the timer of the second, whose
      promise then never settles, whatever happens after a third request is issued. */
  lemma {:induction false} ReusedIdStrandsARequest(id: string, other: string, more: seq<Event>)
    requires other != id
    ensures Stranded(RunOf([Issue(id, false), Issue(id, false), TimerFires(0), Issue(other, false)] + more), 1)
  {
    hide Step, Stranded, RunOf;
    var start := [Issue(id, false), Issue(id, false), TimerFires(0), Issue(other, false)];
    if more == [] {
      NoneThen(start);
      RunOfFour(start[0], start[1], start[2], start[3]);
      ReusedIdStrandsAtOnce(id, other);
    } else {
      var front, last := more[..|more| - 1], more[|more| - 1];
      FirstsThenLast(start, more);
      RunOfMore(start + front, last);
      ReusedIdStrandsARequest(id, other, front);
      StrandedForever(RunOf(start + front), 1, last);
    }
  }

  // ---- Generated ids ------------------------------------------------------------------------------

  /** Two generated ids are equal only for the same source, clock reading and count: whatever the
      clock does, the counters alone keep them apart. */
  lemma GeneratedIdsDiffer(p: Source, a: nat, m: nat, q: Source, b: nat, n: nat)
    ensures GeneratedId(p, a, m) == GeneratedId(q, b, n) <==> p == q && a == b && m == n
  {
    hide Print, Numeral, Prefix;
    if GeneratedId(p, a, m) == GeneratedId(q, b, n) {
      var s, t := Print(a, 36) + ['-'] + Print(m, 36), Print(b, 36) + ['-'] + Print(n, 36);
      SameSource(p, s, q, t);
      SamePrefix(Prefix(p), s, t);
      NumeralHasNoDash(a);
      NumeralHasNoDash(b);
      SplitsAtFirst('-', Print(a, 36), Print(m, 36), Print(b, 36), Print(n, 36));
      ParsePrint(a, 36);
      ParsePrint(b, 36);
      ParsePrint(m, 36);
      ParsePrint(n, 36);
    }
  }

  lemma SameSource(p: Source, s: string, q: Source, t: string)
    requires Prefix(p) + s == Prefix(q) + t
    ensures p == q
  {
    assert (Prefix(p) + s)[0] == Prefix(p)[0] && (Prefix(q) + t)[0] == Prefix(q)[0];
  }

  lemma NumeralHasNoDash(n: nat)
    ensures '-' !in Print(n, 36)
  {
    hide Print;
  }

  predicate IsIdChar(c: char) {
    'A' <= c <= 'Z' || 'a' <= c <= 'z' || '0' <= c <= '9' || c in "_.:-"
  }

  predicate AllIdChars(s: string) {
    forall c | c in s :: IsIdChar(c)
  }

  // DEVICE_AGENT_REQUEST_ID_PATTERN: /^[A-Za-z0-9_.:-]{1,160}$/
  predicate IsRequestId(id: string) {
    1 <= |id| <= 160 && AllIdChars(id)
  }

  lemma IdCharsConcat(a: string, b: string)
    requires AllIdChars(a) && AllIdChars(b)
    ensures AllIdChars(a + b)
  {
    hide IsIdChar;
    assert forall c | c in a + b :: c in a || c in b;
  }

  lemma NumeralsAreIdChars(n: nat)
    ensures AllIdChars(Print(n, 36)) && AllIdChars("-")
  {
    hide Print;
  }

  lemma PrefixIsIdChars(source: Source)
    ensures AllIdChars(Prefix(source)) && 0 < |Prefix(source)| <= 13
    ensures Prefix(source) == if source == Agent then "device-agent-" else "chat-stream-"
  {
  }

  function Pow36(k: nat): nat {
    if k == 0 then 1 else 36 * Pow36(k - 1)
  }

  lemma {:induction false} PrintLength36(n: nat, k: nat)
    requires n < Pow36(k) && k > 0
    ensures |Print(n, 36)| <= k
  {
    PrintMore(n, 36);
    if n >= 36 {
      assert k > 1 && n / 36 < Pow36(k - 1);
      PrintLength36(n / 36, k - 1);
    }
  }

  lemma ElevenDigits()
    ensures Pow36(11) > 8_640_000_000_000_000 && Pow36(11) > 9_007_199_254_740_991
  {
    assert Pow36(3) == 46656;
    assert Pow36(5) == 60466176;
    assert Pow36(7) == 78364164096;
    assert Pow36(9) == 101559956668416;
  }

  /** Up to the last time of a Date and the last safe integer, a generated id starts with the prefix of its source and
      matches the pattern that the native side asks for. */
  lemma GeneratedIdsMatch(source: Source, nowMs: nat, count: nat)
    requires nowMs <= 8_640_000_000_000_000 && count <= 9_007_199_254_740_991
    ensures (if source == Agent then "device-agent-" else "chat-stream-") <= GeneratedId(source, nowMs, count)
    ensures IsRequestId(GeneratedId(source, nowMs, count))
  {
    hide Prefix, Print, Pow36, GeneratedId, AllIdChars, IsRequestId;
    ElevenDigits();
    PrintLength36(nowMs, 11);
    PrintLength36(count, 11);
    PrefixIsIdChars(source);
    NumeralsAreIdChars(nowMs);
    NumeralsAreIdChars(count);
    var a, b, c := Prefix(source), Print(nowMs, 36) + "-", Print(count, 36);
    IdCharsConcat(Print(nowMs, 36), "-");
    IdCharsConcat(b, c);
    IdCharsConcat(a, b + c);
    IdIs(source, nowMs, count, a + (b + c));
  }

  lemma IdIs(source: Source, nowMs: nat, count: nat, id: string)
    requires id == Prefix(source) + (Print(nowMs, 36) + "-" + Print(count, 36)) && AllIdChars(id) && 1 <= |id| <= 160
    ensures GeneratedId(source, nowMs, count) == id && Prefix(source) <= id && IsRequestId(id)
  {
    hide Prefix, Print, AllIdChars;
  }

  // A turn of the app that issues a request under a generated id, draws an id without issuing it, or is any
  // other event of the registry.
  datatype Turn = Ask(source: Source, nowMs: nat, hasSignal: bool) | Draw(source: Source) | Other(event: Event)

  // The source's counter.
  function Next(turns: seq<Turn>, source: Source): nat {
    if turns == [] then 1
    else
      var last := turns[|turns| - 1];
      Next(turns[..|turns| - 1], source) + (if !last.Other? && last.source == source then 1 else 0)
  }

  function EventsOf(turns: seq<Turn>): seq<Event> {
    if turns == [] then []
    else
      var front := turns[..|turns| - 1];
      match turns[|turns| - 1]
      case Ask(source, nowMs, hasSignal) =>
        EventsOf(front) + [Issue(GeneratedId(source, nowMs, Next(front, source)), hasSignal)]
      case Draw(_) => EventsOf(front)
      case Other(event) => EventsOf(front) + [event]
  }

  predicate AllGenerated(turns: seq<Turn>) {
    forall turn | turn in turns :: turn.Other? ==> !turn.event.Issue?
  }

  ghost predicate DrawnBefore(turns: seq<Turn>, id: string) {
    exists source: Source, nowMs: nat, count: nat :: count < Next(turns, source) && id == GeneratedId(source, nowMs, count)
  }

  lemma StillDrawn(turns: seq<Turn>, id: string)
    requires turns != [] && DrawnBefore(turns[..|turns| - 1], id)
    ensures DrawnBefore(turns, id)
  {
    hide GeneratedId;
    var front := turns[..|turns| - 1];
    var source: Source, nowMs: nat, count: nat :| count < Next(front, source) && id == GeneratedId(source, nowMs, count);
    assert count < Next(turns, source);
  }

  lemma JustDrawn(turns: seq<Turn>)
    requires turns != [] && turns[|turns| - 1].Ask?
    ensures var last, front := turns[|turns| - 1], turns[..|turns| - 1];
      DrawnBefore(turns, GeneratedId(last.source, last.nowMs, Next(front, last.source)))
  {
    hide GeneratedId;
    var last, front := turns[|turns| - 1], turns[..|turns| - 1];
    assert Next(front, last.source) < Next(turns, last.source);
  }

  lemma NextIsNew(turns: seq<Turn>, source: Source, nowMs: nat)
    ensures !DrawnBefore(turns, GeneratedId(source, nowMs, Next(turns, source)))
  {
    hide GeneratedId, Next;
    var id := GeneratedId(source, nowMs, Next(turns, source));
    forall p: Source, a: nat, m: nat | m < Next(turns, p) ensures id != GeneratedId(p, a, m) {
      GeneratedIdsDiffer(source, nowMs, Next(turns, source), p, a, m);
    }
  }

  lemma PendingIsOldOrIssued(r: Registry, event: Event, id: string)
    requires id in Step(r, event).pending
    ensures id in r.pending || (event.Issue? && id == event.id)
  {
  }

  lemma DistinctSoFar(events: seq<Event>, event: Event)
    requires DistinctInFlight(events) && !(event.Issue? && event.id in RunOf(events).pending)
    ensures DistinctInFlight(events + [event])
  {
    hide RunOf;
    var all := events + [event];
    forall i | 0 <= i < |all| && all[i].Issue? ensures all[i].id !in RunOf(all[..i]).pending {
      SplitConcat(events, [event], i);
      if i == |events| { Ends(events); }
    }
  }

  ghost predicate Apart(turns: seq<Turn>) {
    && DistinctInFlight(EventsOf(turns))
    && forall id | id in RunOf(EventsOf(turns)).pending :: DrawnBefore(turns, id)
  }

  lemma OneTurnMore(turns: seq<Turn>, event: Event)
    requires turns != [] && EventsOf(turns) == EventsOf(turns[..|turns| - 1]) + [event]
    requires Apart(turns[..|turns| - 1])
    requires event.Issue? ==> DrawnBefore(turns, event.id) && !DrawnBefore(turns[..|turns| - 1], event.id)
    ensures Apart(turns)
  {
    hide RunOf, EventsOf, DrawnBefore, DistinctInFlight, Step;
    var events := EventsOf(turns[..|turns| - 1]);
    DistinctSoFar(events, event);
    RunOfMore(events, event);
    forall id | id in RunOf(EventsOf(turns)).pending ensures DrawnBefore(turns, id) {
      PendingIsOldOrIssued(RunOf(events), event, id);
      if id in RunOf(events).pending { StillDrawn(turns, id); }
    }
  }

  lemma {:induction false} GeneratedIdsStayApart(turns: seq<Turn>)
    requires AllGenerated(turns)
    ensures Apart(turns)
  {
    if turns != [] {
      var front, last := turns[..|turns| - 1], turns[|turns| - 1];
      hide RunOf, DrawnBefore, DistinctInFlight, GeneratedId, Next;
      GeneratedIdsStayApart(front);
      match last
      case Ask(source, nowMs, hasSignal) =>
        JustDrawn(turns);
        NextIsNew(front, source, nowMs);
        OneTurnMore(turns, Issue(GeneratedId(source, nowMs, Next(front, source)), hasSignal));
      case Draw(source) =>
        forall id | id in RunOf(EventsOf(turns)).pending ensures DrawnBefore(turns, id) {
          StillDrawn(turns, id);
        }
      case Other(event) =>
        OneTurnMore(turns, event);
    }
  }

  /** So every run in which the app draws all its ids is consistent at every point, whatever the clock does and
      however draws and issues of the two sources interleave. */
  lemma GeneratedIdsKeepConsistency(turns: seq<Turn>)
    requires AllGenerated(turns)
    ensures DistinctInFlight(EventsOf(turns)) && ConsistentThroughout(EventsOf(turns))
  {
    GeneratedIdsStayApart(turns);
    RunIsConsistentIff(EventsOf(turns));
  }
}
