/** The single native chat-stream sink (setNativeChatStreamSink, nativeStreamEventMatches and the
    stream callbacks in apps/browser-demo/src/deviceAgentClient.ts). */
module ChatStream {
  import opened Sequences
  import opened Wrappers

  datatype Payload = Chunk(text: string) | End | Error(message: string)

  // Sinks are numbered. The request id of a native event is None when it is not a string.
  datatype Event =
    | Install(sink: nat, requestId: Option<string>)
    | Clear
    | Native(requestId: Option<string>, payload: Payload)

  datatype Delivery = Delivery(sink: nat, payload: Payload)

  datatype Demux = Demux(sink: Option<nat>, requestId: Option<string>, delivered: seq<Delivery>)

  predicate Matches(active: Option<string>, requestId: Option<string>) {
    active.None? || requestId == active
  }

  function Step(d: Demux, event: Event): Demux {
    match event
    case Install(sink, requestId) => d.(sink := Some(sink), requestId := requestId)
    case Clear => d.(sink := None, requestId := None)
    case Native(requestId, payload) =>
      if Matches(d.requestId, requestId) && d.sink.Some?
      then d.(delivered := d.delivered + [Delivery(d.sink.value, payload)]) else d
  }

  function RunFrom(d: Demux, events: seq<Event>): Demux
    decreases |events|
  {
    if events == [] then d else RunFrom(Step(d, events[0]), events[1..])
  }

  const IDLE := Demux(None, None, [])

  class StreamSlot {
    var sink: Option<nat>
    var requestId: Option<string>
    var delivered: seq<Delivery>

    function State(): Demux
      reads this
    {
      Demux(sink, requestId, delivered)
    }

    constructor ()
      ensures State() == IDLE
    {
      sink, requestId, delivered := None, None, [];
    }

    method SetNativeChatStreamSink(sink: Option<nat>, requestId: Option<string>)
      modifies this
      ensures State() == Step(old(State()), if sink.Some? then Install(sink.value, requestId) else Clear)
    {
      this.sink := sink;
      this.requestId := if sink.Some? then requestId else None;
    }

    // The Android callbacks check the id first and find the sink absent last; iOS the other way round.
    method OnNativeEvent(requestId: Option<string>, payload: Payload)
      modifies this`delivered
      ensures State() == Step(old(State()), Native(requestId, payload))
    {
      if !Matches(this.requestId, requestId) {
        return;
      }
      if sink.Some? {
        delivered := delivered + [Delivery(sink.value, payload)];
      }
    }
  }

  // ---- What each sink receives ----------------------------------------------------------------

  function ReceivedBy(sink: nat, delivered: seq<Delivery>): seq<Payload> {
    if delivered == [] then []
    else (if delivered[0].sink == sink then [delivered[0].payload] else []) + ReceivedBy(sink, delivered[1..])
  }

  // The events of a turn without those that carry another id; a turn without an id takes them all.
  function Own(requestId: Option<string>, events: seq<Event>): seq<Event> {
    if events == [] then []
    else
      (if requestId.Some? && events[0].Native? && events[0].requestId != requestId then [] else [events[0]])
      + Own(requestId, events[1..])
  }

  function PayloadsOf(events: seq<Event>): seq<Payload> {
    if events == [] then [] else (if events[0].Native? then [events[0].payload] else []) + PayloadsOf(events[1..])
  }

  predicate Switches(event: Event) {
    event.Install? || event.Clear?
  }

  ghost predicate NeverInstalls(sink: nat, events: seq<Event>) {
    forall e | e in events :: !(e.Install? && e.sink == sink)
  }

  function Payloads(sink: nat, d: Delivery): seq<Payload> {
    if d.sink == sink then [d.payload] else []
  }

  lemma ReceivedFirst(sink: nat, a: seq<Delivery>)
    requires a != []
    ensures ReceivedBy(sink, a) == Payloads(sink, a[0]) + ReceivedBy(sink, a[1..])
  {
  }

  lemma {:induction false} ReceivedConcat(sink: nat, a: seq<Delivery>, b: seq<Delivery>)
    ensures ReceivedBy(sink, a + b) == ReceivedBy(sink, a) + ReceivedBy(sink, b)
  {
    if a == [] {
      NoneThen(b);
      NoneThen(ReceivedBy(sink, b));
    } else {
      ReceivedFirst(sink, a);
      ReceivedFirst(sink, a + b);
      hide ReceivedBy;
      FirstOfConcat(a, b);
      ReceivedConcat(sink, a[1..], b);
      Assoc(Payloads(sink, a[0]), ReceivedBy(sink, a[1..]), ReceivedBy(sink, b));
    }
  }

  lemma ReceivedOneMore(sink: nat, a: seq<Delivery>, d: Delivery)
    ensures ReceivedBy(sink, a + [d]) == ReceivedBy(sink, a) + Payloads(sink, d)
  {
    ReceivedConcat(sink, a, [d]);
    ReceivedFirst(sink, [d]);
    One(d);
    NoneThen(Payloads(sink, d));
  }

  lemma RunFirst(d: Demux, events: seq<Event>)
    requires events != []
    ensures RunFrom(d, events) == RunFrom(Step(d, events[0]), events[1..])
  {
  }

  lemma {:induction false} RunConcat(d: Demux, a: seq<Event>, b: seq<Event>)
    ensures RunFrom(d, a + b) == RunFrom(RunFrom(d, a), b)
    decreases |a|
  {
    if a == [] {
      NoneThen(b);
    } else {
      RunFirst(d, a);
      RunFirst(d, a + b);
      hide RunFrom, Step;
      FirstOfConcat(a, b);
      RunConcat(Step(d, a[0]), a[1..], b);
    }
  }

  // While a sink is out, it receives nothing.
  lemma {:induction false} SilentWhileOut(d: Demux, sink: nat, events: seq<Event>)
    requires d.sink != Some(sink) && NeverInstalls(sink, events)
    ensures RunFrom(d, events).sink != Some(sink)
    ensures ReceivedBy(sink, RunFrom(d, events).delivered) == ReceivedBy(sink, d.delivered)
    decreases |events|
  {
    if events != [] {
      var next := Step(d, events[0]);
      assert events[0] in events;
      assert forall e | e in events[1..] :: e in events;
      if next.delivered != d.delivered {
        ReceivedOneMore(sink, d.delivered, Delivery(d.sink.value, events[0].payload));
        NoneThen(ReceivedBy(sink, d.delivered));
      }
      SilentWhileOut(next, sink, events[1..]);
    }
  }

  // While a sink is in, it receives exactly the events that carry its id, in order.
  lemma {:induction false} HearsWhileIn(d: Demux, sink: nat, events: seq<Event>)
    requires d.sink == Some(sink) && forall e | e in events :: !Switches(e)
    ensures RunFrom(d, events).sink == d.sink && RunFrom(d, events).requestId == d.requestId
    ensures ReceivedBy(sink, RunFrom(d, events).delivered)
      == ReceivedBy(sink, d.delivered) + PayloadsOf(Own(d.requestId, events))
    decreases |events|
  {
    if events == [] {
      NoneThen(ReceivedBy(sink, d.delivered));
    } else {
      var e := events[0];
      var next := Step(d, e);
      assert e in events && forall x | x in events[1..] :: x in events;
      var heard := Carried(d.requestId, e);
      OwnFirst(d.requestId, events);
      RunFirst(d, events);
      assert ReceivedBy(sink, next.delivered) == ReceivedBy(sink, d.delivered) + heard by {
        if Matches(d.requestId, e.requestId) {
          ReceivedOneMore(sink, d.delivered, Delivery(sink, e.payload));
        } else {
          NoneThen(ReceivedBy(sink, d.delivered));
        }
      }
      hide ReceivedBy, Own, PayloadsOf, RunFrom;
      HearsWhileIn(next, sink, events[1..]);
      Assoc(ReceivedBy(sink, d.delivered), heard, PayloadsOf(Own(d.requestId, events[1..])));
    }
  }

  // The payload that the event has for the turn.
  function Carried(requestId: Option<string>, e: Event): seq<Payload> {
    if e.Native? && (requestId.None? || e.requestId == requestId) then [e.payload] else []
  }

  lemma OwnFirst(requestId: Option<string>, events: seq<Event>)
    requires events != []
    ensures PayloadsOf(Own(requestId, events)) == Carried(requestId, events[0]) + PayloadsOf(Own(requestId, events[1..]))
  {
    var e, rest := events[0], Own(requestId, events[1..]);
    if requestId.Some? && e.Native? && e.requestId != requestId {
      assert Own(requestId, events) == [] + rest;
      NoneThen(rest);
      NoneThen(PayloadsOf(rest));
    } else {
      assert Own(requestId, events) == [e] + rest;
      FirstOfConcat([e], rest);
      One(e);
      NoneThen(rest);
    }
  }

  /** Over every run, a sink installed once receives exactly the payloads of the events that occur between its
      installation and the next change of sink and carry its id, or of all of these if it was installed without one. */
  lemma SinkReceivesItsTurn(
      before: seq<Event>, sink: nat, requestId: Option<string>, during: seq<Event>, after: seq<Event>)
    requires NeverInstalls(sink, before) && NeverInstalls(sink, after)
    requires forall e | e in during :: !Switches(e)
    requires after != [] ==> Switches(after[0])
    ensures ReceivedBy(sink, RunFrom(IDLE, before + [Install(sink, requestId)] + during + after).delivered)
      == PayloadsOf(Own(requestId, during))
  {
    var d0 := RunFrom(IDLE, before);
    SilentWhileOut(IDLE, sink, before);
    var d1 := Step(d0, Install(sink, requestId));
    RunConcat(IDLE, before, [Install(sink, requestId)]);
    assert RunFrom(d0, [Install(sink, requestId)]) == RunFrom(d1, []);
    RunConcat(IDLE, before + [Install(sink, requestId)], during);
    HearsWhileIn(d1, sink, during);
    var d2 := RunFrom(d1, during);
    RunConcat(IDLE, before + [Install(sink, requestId)] + during, after);
    if after != [] {
      assert after[0] in after && forall e | e in after[1..] :: e in after;
      SilentWhileOut(Step(d2, after[0]), sink, after[1..]);
    }
  }

  /** So a turn all of whose events carry its id, or whose sink has none, is heard in full. */
  lemma TurnIsHeard(before: seq<Event>, sink: nat, requestId: Option<string>, during: seq<Event>, after: seq<Event>)
    requires NeverInstalls(sink, before) && NeverInstalls(sink, after)
    requires forall e | e in during :: !Switches(e) && (requestId.Some? ==> e.requestId == requestId)
    requires after != [] ==> Switches(after[0])
    ensures ReceivedBy(sink, RunFrom(IDLE, before + [Install(sink, requestId)] + during + after).delivered)
      == PayloadsOf(during)
  {
    SinkReceivesItsTurn(before, sink, requestId, during, after);
    AllAreOwn(requestId, during);
  }

  lemma {:induction false} AllAreOwn(requestId: Option<string>, events: seq<Event>)
    requires forall e | e in events :: e.Native? && (requestId.Some? ==> e.requestId == requestId)
    ensures Own(requestId, events) == events
  {
    if events != [] {
      assert events[0] in events && forall e | e in events[1..] :: e in events;
      AllAreOwn(requestId, events[1..]);
      FirstThenRest(events);
    }
  }

  /** Late events of earlier turns never reach the next one: however events with other ids are strewn among those of
      its turn, a sink installed under an id receives the same. */
  lemma NoBleed(before: seq<Event>, sink: nat, requestId: string, during: seq<Event>, during': seq<Event>,
                after: seq<Event>)
    requires NeverInstalls(sink, before) && NeverInstalls(sink, after)
    requires forall e | e in during + during' :: !Switches(e)
    requires after != [] ==> Switches(after[0])
    requires Own(Some(requestId), during) == Own(Some(requestId), during')
    ensures ReceivedBy(sink, RunFrom(IDLE, before + [Install(sink, Some(requestId))] + during + after).delivered)
      == ReceivedBy(sink, RunFrom(IDLE, before + [Install(sink, Some(requestId))] + during' + after).delivered)
  {
    hide ReceivedBy, RunFrom, PayloadsOf, Own;
    SinkReceivesItsTurn(before, sink, Some(requestId), during, after);
    SinkReceivesItsTurn(before, sink, Some(requestId), during', after);
  }
}
