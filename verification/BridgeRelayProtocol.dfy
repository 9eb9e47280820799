/** Phone, relay and desktop on one encrypted pairing: forward, pollResult and decodeResult of
    apps/browser-demo/src/bridgeRelayClient.ts against handleRequest and decodeRequestBody of
    packages/mcp-server/src/bridgePairingClient.ts. A sealed box is a handle into the log of what its
    side has sealed, so the relay can replay, drop, delay and swap boxes but neither open nor make one. */
module BridgeRelayProtocol {
  import BridgeE2ee
  import opened BridgeRelayClient
  import opened Wrappers

  const MAX_PROCESSED_CACHE := 32

  // What the relay hands over where a box is due.
  datatype Packet = FromPhone(k: nat) | FromDesktop(k: nat) | Plain(json: Json)

  // A call of forwardAi; `accepted` is the reply it accepted. Its request is the phone's box of the same number.
  datatype Call = Call(path: Path, clientNonce: string, body: Json, requestId: Option<string>,
                       verdict: Option<Verdict>, accepted: Option<nat>)

  // The desktop's boxes.
  datatype Reply = Reply(path: Path, requestId: string, clientNonce: Option<string>, result: Json)

  // A run of a connector, for the phone's box `request`.
  datatype Run = Run(request: nat, path: Path, clientNonce: string, body: Json, result: Json)

  datatype PollBody = Pending | ResolvedWith(packet: Packet)

  datatype Dispatch = Answered(json: Json) | Threw(message: string)

  datatype System = System(calls: seq<Call>, replies: seq<Reply>, runs: seq<Run>,
                           processedResults: seq<string>, processedNonces: seq<(string, Json)>)

  datatype Event =
    | Forward(path: Path, clientNonce: string, body: Json, sending: Sending)
    | Deliver(requestId: string, path: Path, packet: Packet, dispatch: Dispatch)
    | Poll(call: nat, answer: Transport<PollBody>)
    | GiveUp(call: nat, aborted: bool)

  const EMPTY := System([], [], [], [], [])

  // ---- Phone ----------------------------------------------------------------------------------

  function ForwardStep(s: System, path: Path, clientNonce: string, body: Json, sending: Sending): System {
    if !IsForwardable(path) then s
    else
      var error := SendingError(sending);
      var call := Call(path, clientNonce, body, None, None, None);
      s.(calls := s.calls + [
        if error.Some? then call.(verdict := Some(Raised(error.value)))
        else call.(requestId := Some(RequestIdOf(sending.answer.body)))])
  }

  const INVALID_RESPONSE := RelayError(InvalidResponse, "", false)

  // The box the desktop sealed under this packet, if it did.
  function Unseal(s: System, packet: Packet): Option<Reply> {
    if packet.FromDesktop? && packet.k < |s.replies| then Some(s.replies[packet.k]) else None
  }

  predicate Answers(reply: Reply, call: Call) {
    && reply.path == call.path && call.requestId == Some(reply.requestId)
    && reply.clientNonce.GetOr("") == call.clientNonce
  }

  function DecodeResult(s: System, call: Call, packet: Packet): PollOutcome {
    match Unseal(s, packet)
    case None => Failed(INVALID_RESPONSE)
    case Some(reply) => if Answers(reply, call) then Resolved(OrEmpty(reply.result)) else Failed(INVALID_RESPONSE)
  }

  function PollResult(s: System, call: Call, answer: Transport<PollBody>): PollOutcome {
    var error := TransportError(answer);
    if error.Some? then Failed(error.value)
    else if answer.body.Pending? then Unresolved
    else DecodeResult(s, call, answer.body.packet)
  }

  predicate Polls(s: System, c: nat) {
    c < |s.calls| && s.calls[c].requestId.Some? && s.calls[c].verdict.None?
  }

  function PollStep(s: System, c: nat, answer: Transport<PollBody>): System {
    if !Polls(s, c) then s
    else
      var outcome := PollResult(s, s.calls[c], answer);
      var verdict := Conclude(outcome);
      if verdict.None? then s
      else
        s.(calls := s.calls[c := s.calls[c].(verdict := verdict,
             accepted := if outcome.Resolved? then Some(answer.body.packet.k) else None)])
  }

  // The loop ends without a decisive poll.
  function GiveUpStep(s: System, c: nat, aborted: bool): System {
    if !Polls(s, c) then s
    else s.(calls := s.calls[c := s.calls[c].(verdict := Some(Raised(if aborted then ABORTED else TIMED_OUT)))])
  }

  // ---- Desktop --------------------------------------------------------------------------------

  // Map.set of a new key, then the oldest goes.
  function Remember<T>(cache: seq<T>, entry: T): seq<T> {
    var grown := cache + [entry];
    if |grown| > MAX_PROCESSED_CACHE then grown[1..] else grown
  }

  // The place of the key in the cache, or past its end.
  function Lookup(cache: seq<(string, Json)>, key: string): nat {
    if cache == [] || cache[0].0 == key then 0 else 1 + Lookup(cache[1..], key)
  }

  lemma {:induction false} LookupFinds(cache: seq<(string, Json)>, key: string)
    ensures var k := Lookup(cache, key);
      k <= |cache| && (k < |cache| ==> cache[k].0 == key) && forall i | 0 <= i < k :: cache[i].0 != key
  {
    if cache != [] && cache[0].0 != key {
      LookupFinds(cache[1..], key);
    }
  }

  // /^[A-Za-z0-9_-]{16,128}$/
  predicate IsClientNonce(s: string) {
    16 <= |s| <= 128 && BridgeE2ee.AllUrlSafe(s)
  }

  // Only the phone seals requests, and always as version 2, so a box that opens can fail decodeRequestBody
  // only on its path and its nonce.
  predicate Decodes(s: System, path: Path, packet: Packet) {
    && packet.FromPhone? && packet.k < |s.calls|
    && s.calls[packet.k].path == path && IsClientNonce(s.calls[packet.k].clientNonce)
  }

  function Post(s: System, reply: Reply): System {
    s.(replies := s.replies + [reply], processedResults := Remember(s.processedResults, reply.requestId))
  }

  // Stands for the texts of decode errors.
  const DECODE_ERROR := "decode"

  function ErrorResult(message: string): Json {
    JObject(map["error" := JText(message)])
  }

  // A request id seen before gets its reply posted again: nothing new is sealed.
  function DeliverStep(s: System, requestId: string, path: Path, packet: Packet, dispatch: Dispatch): System {
    if requestId in s.processedResults then s
    else if !Decodes(s, path, packet) then
      Post(s, Reply(path, requestId, None, ErrorResult(DECODE_ERROR)))
    else
      var call := s.calls[packet.k];
      var cached := Lookup(s.processedNonces, call.clientNonce);
      if cached < |s.processedNonces| then
        Post(s, Reply(path, requestId, Some(call.clientNonce), s.processedNonces[cached].1))
      else
        var result := if dispatch.Threw? then ErrorResult(dispatch.message) else dispatch.json;
        Post(s, Reply(path, requestId, Some(call.clientNonce), result)).(
          runs := s.runs + [Run(packet.k, path, call.clientNonce, OrEmpty(call.body), result)],
          processedNonces := Remember(s.processedNonces, (call.clientNonce, result)))
  }

  function Step(s: System, event: Event): System {
    match event
    case Forward(path, clientNonce, body, sending) => ForwardStep(s, path, clientNonce, body, sending)
    case Deliver(requestId, path, packet, dispatch) => DeliverStep(s, requestId, path, packet, dispatch)
    case Poll(c, answer) => PollStep(s, c, answer)
    case GiveUp(c, aborted) => GiveUpStep(s, c, aborted)
  }

  function After(events: seq<Event>): System {
    if events == [] then EMPTY else Step(After(events[..|events| - 1]), events[|events| - 1])
  }
}
