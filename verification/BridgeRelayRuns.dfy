/** What holds over whole runs of BridgeRelayProtocol, whatever the relay does: whose answer a call gets, what the
    desktop runs, and what goes wrong when a nonce or a request id repeats. */
module BridgeRelayRuns {
  import BridgeE2ee
  import opened BridgeRelayClient
  import opened BridgeRelayInvariant
  import opened BridgeRelayProtocol
  import Sequences
  import Text
  import opened Wrappers

  // The call has accepted a reply, or returned a payload.
  predicate HasAnswer(s: System, c: nat) {
    && c < |s.calls|
    && (s.calls[c].accepted.Some? || (s.calls[c].verdict.Some? && s.calls[c].verdict.value.Returned?))
  }

  // The reply was sealed for this call.
  predicate IsSealedFor(reply: Reply, call: Call) {
    reply.path == call.path && call.requestId == Some(reply.requestId) && reply.clientNonce == Some(call.clientNonce)
  }

  // The run is of this very call.
  predicate IsRunOf(run: Run, s: System, c: nat)
    requires c < |s.calls|
  {
    var call := s.calls[c];
    && run.request == c && run.path == call.path && run.clientNonce == call.clientNonce
    && run.body == if call.body == JNull then JObject(map[]) else call.body
  }

  // The reply the call accepted was sealed for it, and the call ended as the result of a run of the connector on that
  // very call has it.
  ghost predicate IsAnsweredByItsRun(s: System, c: nat) {
    && c < |s.calls|
    && var call := s.calls[c];
      && call.accepted.Some? && call.accepted.value < |s.replies| && call.verdict.Some?
      && var reply := s.replies[call.accepted.value];
      && IsSealedFor(reply, call)
      && exists run :: run in s.runs && IsRunOf(run, s, c) && run.result == reply.result && Tells(call.verdict.value, run.result)
  }

  lemma SoundAnswers(s: System, c: nat)
    requires Sound(s) && FreshNonces(s) && HasAnswer(s, c)
    ensures IsAnsweredByItsRun(s, c)
  {
    hide Tells, Settle, OrEmpty;
    var call := s.calls[c];
    assert call in s.calls;
    var reply := s.replies[call.accepted.value];
    assert reply in s.replies && reply.clientNonce.Some?;
    var i: nat :| Gave(s, i, reply.clientNonce.value, reply.result);
    assert s.runs[i] in s.runs && RunOfRequest(s, s.runs[i]);
    assert s.runs[i].request == c;
    SettledTells(reply.result, call.verdict.value);
    assert IsRunOf(s.runs[i], s, c);
  }

  /** Whatever the relay does, a payload that a call returns is the result of a run of the connector on that
      very call: its path, nonce and body, sealed by the desktop for that call's request id. So is an error that the
      call raises for the reply it accepted. */
  lemma PayloadIsTheDesktopsAnswer(events: seq<Event>, c: nat)
    requires FreshNonces(After(events)) && HasAnswer(After(events), c)
    ensures IsAnsweredByItsRun(After(events), c)
  {
    RunIsSound(events);
    SoundAnswers(After(events), c);
  }

  /** No sealed reply serves two calls. */
  lemma NoReplyServesTwoCalls(events: seq<Event>, c: nat, d: nat)
    requires FreshNonces(After(events)) && HasAnswer(After(events), c) && HasAnswer(After(events), d) && c != d
    ensures After(events).calls[c].accepted != After(events).calls[d].accepted
  {
    PayloadIsTheDesktopsAnswer(events, c);
    PayloadIsTheDesktopsAnswer(events, d);
    hide After, Tells;
  }

  /** The desktop runs only what the phone asked for, on allowlisted paths, and a request at most once in
      any 33 runs, however often and under however many ids it is delivered. */
  lemma OnlyRequestsRun(events: seq<Event>, i: nat)
    requires i < |After(events).runs|
    ensures RunOfRequest(After(events), After(events).runs[i])
    ensures forall j | 0 <= j < |After(events).runs| && j != i
      && After(events).runs[j].clientNonce == After(events).runs[i].clientNonce ::
      j - i > 32 || i - j > 32
  {
    RunIsSound(events);
    assert After(events).runs[i] in After(events).runs;
  }

  /** Nor does it seal two replies for one request id within 33 replies. */
  lemma IdsAreAnsweredOnce(events: seq<Event>, i: nat, j: nat)
    requires i < j < |After(events).replies| && After(events).replies[i].requestId == After(events).replies[j].requestId
    ensures j - i > 32
  {
    RunIsSound(events);
    hide After;
  }

  /** A poll is repeated exactly where the network failed, the relay said to come back, or the result is not there. */
  lemma PollIsRepeatedIff(s: System, call: Call, answer: Transport<PollBody>)
    ensures Passes(PollResult(s, call, answer)) <==>
      answer.NetworkFailure? || (answer.Http? && (IsRetried(answer.status) || (IsOk(answer.status) && answer.body.Pending?)))
  {
  }

  /** Whatever the nonces, an accepted reply is of the call's path, nonce and request id. */
  lemma AcceptedRepliesMatch(events: seq<Event>, c: nat)
    requires c < |After(events).calls| && After(events).calls[c].accepted.Some?
    ensures var s := After(events); var call := s.calls[c];
      && call.accepted.value < |s.replies|
      && var reply := s.replies[call.accepted.value];
        && reply.path == call.path && call.requestId == Some(reply.requestId)
        && (if reply.clientNonce.Some? then reply.clientNonce.value else "") == call.clientNonce
  {
    RunIsSound(events);
    assert After(events).calls[c] in After(events).calls;
    hide After, Settle;
  }

  /** A call that has ended stays as it is, whatever happens then. */
  lemma {:induction false} CallsEndOnce(events: seq<Event>, more: seq<Event>, c: nat)
    requires c < |After(events).calls| && After(events).calls[c].verdict.Some?
    ensures c < |After(events + more).calls| && After(events + more).calls[c] == After(events).calls[c]
  {
    hide After, Step;
    if more == [] {
      Sequences.NoneThen(events);
    } else {
      var front, last := more[..|more| - 1], more[|more| - 1];
      CallsEndOnce(events, front, c);
      Sequences.FirstsThenLast(events, more);
      AfterOne(After(events + front), events + front, last);
      RunIsSound(events + front);
      StepIsSound(After(events + front), last);
      hide Sound;
    }
  }

  /** A request on an allowlisted path opens a call, which ends at once iff the relay does not accept the request. */
  lemma ForwardOpensOrEnds(s: System, path: Path, clientNonce: string, body: Json, sending: Sending)
    ensures var t := Step(s, Forward(path, clientNonce, body, sending));
      if !IsForwardable(path) then t == s
      else
        && t == s.(calls := t.calls) && |t.calls| == |s.calls| + 1 && s.calls <= t.calls
        && var call := t.calls[|s.calls|];
          && call.path == path && call.clientNonce == clientNonce && call.body == body && call.accepted == None
          && if IsAccepted(sending) then call.verdict == None && call.requestId.Some?
             else call.requestId == None && call.verdict.Some? && call.verdict.value.Raised?
                  && IsSendingError(sending, call.verdict.value.error)
  {
    SendingErrors(sending);
    hide SendingError, RequestIdOf, IsSendingError, IsAccepted;
  }

  /** A call that waits can be given up, which ends it as a timeout or as cancelled. */
  lemma GivingUpEnds(s: System, c: nat, aborted: bool)
    ensures var t := Step(s, GiveUp(c, aborted));
      if c < |s.calls| && s.calls[c].requestId.Some? && s.calls[c].verdict.None? then
        t == s.(calls := s.calls[c := s.calls[c].(verdict :=
          Some(Raised(RelayError(if aborted then Aborted else Timeout, "", false))))])
      else t == s
  {
  }

  function AcceptedAs(id: string): Sending {
    Sent(Http(200, JObject(map["requestId" := JText(id)])))
  }

  lemma IdIsAccepted(id: string)
    requires IsId(id)
    ensures SendingError(AcceptedAs(id)).None? && RequestIdOf(AcceptedAs(id).answer.body) == id
  {
    Text.TrimFixed(id);
  }

  // The call that a request opens.
  function Opened(path: Path, clientNonce: string, body: Json, requestId: string): Call {
    Call(path, clientNonce, body, Some(requestId), None, None)
  }

  lemma ForwardOpens(s: System, path: Path, clientNonce: string, body: Json, sending: Sending)
    requires IsForwardable(path) && SendingError(sending).None?
    ensures Step(s, Forward(path, clientNonce, body, sending))
      == s.(calls := s.calls + [Opened(path, clientNonce, body, RequestIdOf(sending.answer.body))])
  {
    hide SendingError, RequestIdOf;
  }

  // Two requests under one nonce, and the ids that the relay gives them.
  datatype Twins = Twins(clientNonce: string, path: Path, body: Json, id: string, path': Path, body': Json, id': string)

  predicate IsId(id: string) {
    id != "" && !Text.IsSpace(id[0]) && !Text.IsSpace(id[|id| - 1])
  }

  predicate CanBeSent(t: Twins) {
    && IsForwardable(t.path) && IsForwardable(t.path') && IsClientNonce(t.clientNonce)
    && IsId(t.id) && IsId(t.id') && t.id != t.id'
  }

  function FirstRun(t: Twins, result: Json): Run {
    Run(0, t.path, t.clientNonce, OrEmpty(t.body), result)
  }

  function TwoCalls(t: Twins, runs: seq<Run>, replies: seq<Reply>, ids: seq<string>, cache: seq<(string, Json)>): System {
    System([Opened(t.path, t.clientNonce, t.body, t.id), Opened(t.path', t.clientNonce, t.body', t.id')],
           replies, runs, ids, cache)
  }

  // Both calls open, the first request has run.
  function AfterFirst(t: Twins, result: Json): System {
    TwoCalls(t, [FirstRun(t, result)], [Reply(t.path, t.id, Some(t.clientNonce), result)], [t.id], [(t.clientNonce, result)])
  }

  // The second request has got the first one's result.
  function AfterSecond(t: Twins, result: Json): System {
    TwoCalls(t, [FirstRun(t, result)],
             [Reply(t.path, t.id, Some(t.clientNonce), result), Reply(t.path', t.id', Some(t.clientNonce), result)],
             [t.id, t.id'], [(t.clientNonce, result)])
  }

  lemma TwoForwards(t: Twins)
    requires CanBeSent(t)
    ensures Step(Step(EMPTY, Forward(t.path, t.clientNonce, t.body, AcceptedAs(t.id))),
                 Forward(t.path', t.clientNonce, t.body', AcceptedAs(t.id')))
      == TwoCalls(t, [], [], [], [])
  {
    IdIsAccepted(t.id);
    IdIsAccepted(t.id');
    hide SendingError, RequestIdOf, AcceptedAs, Step, Text.IsSpace, Opened;
    var first := Opened(t.path, t.clientNonce, t.body, t.id);
    ForwardOpens(EMPTY, t.path, t.clientNonce, t.body, AcceptedAs(t.id));
    Sequences.NoneThen([first]);
    ForwardOpens(EMPTY.(calls := [first]), t.path', t.clientNonce, t.body', AcceptedAs(t.id'));
  }

  lemma FirstDelivery(t: Twins, result: Json)
    requires t.id != t.id' && IsClientNonce(t.clientNonce)
    ensures Step(TwoCalls(t, [], [], [], []), Deliver(t.id, t.path, FromPhone(0), Answered(result))) == AfterFirst(t, result)
  {
  }

  lemma SecondDelivery(t: Twins, result: Json, other: Dispatch)
    requires t.id != t.id' && IsClientNonce(t.clientNonce)
    ensures Step(AfterFirst(t, result), Deliver(t.id', t.path', FromPhone(1), other)) == AfterSecond(t, result)
  {
    hide OrEmpty, IsClientNonce;
    OnlyEntry(t.clientNonce, result);
    var s := AfterFirst(t, result);
    assert s.processedResults == [t.id] && s.calls[1] == Opened(t.path', t.clientNonce, t.body', t.id');
  }

  lemma OnlyEntry(key: string, value: Json)
    ensures Lookup([(key, value)], key) == 0
  {
  }

  lemma TheOtherReplyIsAccepted(t: Twins, result: Json)
    ensures var s := Step(AfterSecond(t, result), Poll(1, Http(200, ResolvedWith(FromDesktop(1)))));
      && |s.calls| == 2 && s.calls[1].path == t.path' && s.calls[1].body == t.body'
      && s.calls[1].verdict == Some(Settle(OrEmpty(result))) && s.runs == [FirstRun(t, result)]
  {
    hide Settle;
  }

  /** Nonces must not repeat: for any two requests under one valid nonce there is a run in which the desktop's nonce cache hands
      the first one's result to the second, under the second's own path and request id, and the second never runs. */
  lemma RepeatedNonceCrossesCalls(t: Twins, result: Json) returns (events: seq<Event>)
    requires CanBeSent(t)
    ensures var s := After(events);
      && |s.calls| == 2 && s.calls[1].path == t.path' && s.calls[1].body == t.body'
      && s.calls[1].verdict.Some? && Tells(s.calls[1].verdict.value, result) && s.runs == [FirstRun(t, result)]
  {
    hide *;
    SettledTells(result, Settle(OrEmpty(result)));
    var e0, e1 := Forward(t.path, t.clientNonce, t.body, AcceptedAs(t.id)), Forward(t.path', t.clientNonce, t.body', AcceptedAs(t.id'));
    var e2 := Deliver(t.id, t.path, FromPhone(0), Answered(result));
    var e3 := Deliver(t.id', t.path', FromPhone(1), Answered(JNull));
    var e4 := Poll(1, Http(200, ResolvedWith(FromDesktop(1))));
    Different(t);
    TwoForwards(t);
    FirstDelivery(t, result);
    SecondDelivery(t, result, Answered(JNull));
    TheOtherReplyIsAccepted(t, result);
    events := [e0, e1, e2, e3, e4];
    AfterFive(e0, e1, e2, e3, e4);
  }

  lemma Different(t: Twins)
    requires CanBeSent(t)
    ensures t.id != t.id' && IsClientNonce(t.clientNonce)
  {
  }

  lemma AfterFive(e0: Event, e1: Event, e2: Event, e3: Event, e4: Event)
    ensures After([e0, e1, e2, e3, e4]) == Step(Step(Step(Step(Step(EMPTY, e0), e1), e2), e3), e4)
  {
    hide Step;
    AfterOne(EMPTY, [], e0);
    assert [] + [e0] == [e0] && [e0] + [e1] == [e0, e1] && [e0, e1] + [e2] == [e0, e1, e2];
    assert [e0, e1, e2] + [e3] == [e0, e1, e2, e3] && [e0, e1, e2, e3] + [e4] == [e0, e1, e2, e3, e4];
    AfterOne(After([e0]), [e0], e1);
    AfterOne(After([e0, e1]), [e0, e1], e2);
    AfterOne(After([e0, e1, e2]), [e0, e1, e2], e3);
    AfterOne(After([e0, e1, e2, e3]), [e0, e1, e2, e3], e4);
  }

  lemma AfterOne(s: System, events: seq<Event>, event: Event)
    requires After(events) == s
    ensures After(events + [event]) == Step(s, event)
  {
    assert (events + [event])[..|events|] == events;
  }

  /** With an honest relay that gives the call an id the desktop does not remember, a call with a valid and fresh nonce
      gets what its own run gives: the connector's result, or the message of the error that it throws. */
  lemma HonestRelayDelivers(s: System, path: Path, clientNonce: string, body: Json, id: string, dispatch: Dispatch)
    requires Sound(s) && 16 <= |clientNonce| <= 128 && BridgeE2ee.AllUrlSafe(clientNonce) && id !in s.processedResults
    requires forall run | run in s.runs :: run.clientNonce != clientNonce
    ensures var c := |s.calls|;
      var s1 := s.(calls := s.calls + [Opened(path, clientNonce, body, id)]);
      var s2 := Step(s1, Deliver(id, path, FromPhone(c), dispatch));
      var s3 := Step(s2, Poll(c, Http(200, ResolvedWith(FromDesktop(|s.replies|)))));
      var result := if dispatch.Answered? then dispatch.json else JObject(map["error" := JText(dispatch.message)]);
      && s3.calls[c].verdict.Some? && Tells(s3.calls[c].verdict.value, result)
      && |s3.runs| == |s.runs| + 1 && s.runs <= s3.runs && IsRunOf(s3.runs[|s.runs|], s3, c) && s3.runs[|s.runs|].result == result
  {
    var result := if dispatch.Answered? then dispatch.json else JObject(map["error" := JText(dispatch.message)]);
    SettledTells(result, Settle(OrEmpty(result)));
    hide Settle, Sound, Remember, Tells, BridgeE2ee.AllUrlSafe;
    NewToTheDesktop(s, clientNonce);
    var c := |s.calls|;
    var s1 := s.(calls := s.calls + [Opened(path, clientNonce, body, id)]);
    var s2 := Step(s1, Deliver(id, path, FromPhone(c), dispatch));
    assert s2.replies == s.replies + [Reply(path, id, Some(clientNonce), result)];
    assert s2.calls == s1.calls;
  }

  /** So an error with a message that the connector throws is raised by the phone with that message. */
  lemma ThrownErrorsAreRaised(verdict: Verdict, message: string)
    requires Tells(verdict, JObject(map["error" := JText(message)])) && !Text.AllSpace(message)
    ensures verdict == Raised(RelayError(Upstream, message, false))
  {
    hide Text.IsSpace;
    var payload := JObject(map["error" := JText(message)]);
    ErrorIsItsText(payload, message);
    assert HasError(payload, message);
  }

  /** The phone's own nonces, from sixteen random bytes, pass the desktop's check, and repeat only if the bytes do. */
  lemma RandomNonces(a: seq<BridgeE2ee.Byte>, b: seq<BridgeE2ee.Byte>)
    requires |a| == |b| == 16
    ensures IsClientNonce(BridgeE2ee.UrlEncode(a))
    ensures BridgeE2ee.UrlEncode(a) == BridgeE2ee.UrlEncode(b) <==> a == b
  {
    hide BridgeE2ee.UrlEncode;
    BridgeE2ee.EncodedForm(a);
    if BridgeE2ee.UrlEncode(a) == BridgeE2ee.UrlEncode(b) {
      BridgeE2ee.EncodeIsInjective(a, b);
    }
  }

  /** When the desktop does remember the id, it does not run the request, and no box that the relay can show
      answers the call. */
  lemma UsedIdIsRefused(s: System, path: Path, clientNonce: string, body: Json, id: string, dispatch: Dispatch, packet: Packet)
    requires Sound(s) && clientNonce != "" && id in s.processedResults
    requires forall run | run in s.runs :: run.clientNonce != clientNonce
    ensures var c := |s.calls|;
      var s1 := s.(calls := s.calls + [Opened(path, clientNonce, body, id)]);
      && Step(s1, Deliver(id, path, FromPhone(c), dispatch)) == s1
      && DecodeResult(s1, s1.calls[c], packet).Failed?
  {
    NewToTheDesktop(s, clientNonce);
    hide Sound;
  }

  // A nonce without a run is neither in the desktop's cache nor in a reply.
  lemma NewToTheDesktop(s: System, clientNonce: string)
    requires Sound(s) && clientNonce != "" && forall run | run in s.runs :: run.clientNonce != clientNonce
    ensures Lookup(s.processedNonces, clientNonce) == |s.processedNonces|
    ensures forall reply | reply in s.replies :: reply.clientNonce.GetOr("") != clientNonce
  {
    LookupFinds(s.processedNonces, clientNonce);
    forall k | 0 <= k < |s.processedNonces| ensures s.processedNonces[k].0 != clientNonce {
      CachedGave(s, k);
      assert s.runs[|s.runs| - |s.processedNonces| + k] in s.runs;
    }
    forall reply | reply in s.replies ensures reply.clientNonce.GetOr("") != clientNonce {
      if reply.clientNonce.Some? {
        var i: nat :| Gave(s, i, reply.clientNonce.value, reply.result);
        assert s.runs[i] in s.runs;
      }
    }
  }
}
