/** What every run of BridgeRelayProtocol keeps: runs come from sealed requests, the desktop's nonce cache is its last
    runs, replies carry results of runs, and calls accept only replies that answer them. */
module BridgeRelayInvariant {
  import BridgeE2ee
  import opened BridgeRelayClient
  import opened BridgeRelayProtocol
  import opened Wrappers

  // What randomClientNonce is for.
  predicate FreshNonces(s: System) {
    && (forall c | 0 <= c < |s.calls| :: s.calls[c].clientNonce != "")
    && (forall c, d | 0 <= c < d < |s.calls| :: s.calls[c].clientNonce != s.calls[d].clientNonce)
  }

  predicate RunOfRequest(s: System, run: Run) {
    && run.request < |s.calls| && IsForwardable(run.path)
    && 16 <= |run.clientNonce| <= 128 && BridgeE2ee.AllUrlSafe(run.clientNonce)
    && var call := s.calls[run.request];
      run.path == call.path && run.clientNonce == call.clientNonce
      && run.body == if call.body == JNull then JObject(map[]) else call.body
  }

  // Run i gave the answer `result` to the request with this nonce.
  predicate Gave(s: System, i: nat, clientNonce: string, result: Json) {
    i < |s.runs| && s.runs[i].clientNonce == clientNonce && s.runs[i].result == result
  }

  // The nonce cache holds the last runs.
  predicate CacheIsTheLastRuns(s: System) {
    var n, m := |s.runs|, |s.processedNonces|;
    && m == (if n < MAX_PROCESSED_CACHE then n else MAX_PROCESSED_CACHE)
    && forall i | 0 <= i < m :: s.processedNonces[i] == (s.runs[n - m + i].clientNonce, s.runs[n - m + i].result)
  }

  // So does the other cache the ids of the last replies.
  predicate IdsAreOfTheLastReplies(s: System) {
    var n, m := |s.replies|, |s.processedResults|;
    && m == (if n < MAX_PROCESSED_CACHE then n else MAX_PROCESSED_CACHE)
    && forall i | 0 <= i < m :: s.processedResults[i] == s.replies[n - m + i].requestId
  }

  predicate RepliesAreSpaced(s: System) {
    forall i, j | 0 <= i < j < |s.replies| && s.replies[i].requestId == s.replies[j].requestId :: j - i > MAX_PROCESSED_CACHE
  }

  ghost predicate RepliesAreOfRuns(s: System) {
    forall reply | reply in s.replies && reply.clientNonce.Some? ::
      && (exists i: nat :: Gave(s, i, reply.clientNonce.value, reply.result))
      && (exists c: nat :: c < |s.calls| && s.calls[c].clientNonce == reply.clientNonce.value && s.calls[c].path == reply.path)
  }

  predicate CallsAreOfReplies(s: System) {
    forall call | call in s.calls ::
      && IsForwardable(call.path) && (call.requestId.None? ==> call.verdict.Some?)
      && (call.accepted.Some? ==>
            && call.accepted.value < |s.replies| && Answers(s.replies[call.accepted.value], call)
            && call.verdict == Some(Settle(OrEmpty(s.replies[call.accepted.value].result))))
      && (call.verdict.Some? && call.verdict.value.Returned? ==> call.accepted.Some?)
  }

  predicate RunsAreSpaced(s: System) {
    forall i, j | 0 <= i < j < |s.runs| && s.runs[i].clientNonce == s.runs[j].clientNonce :: j - i > MAX_PROCESSED_CACHE
  }

  ghost predicate Sound(s: System) {
    && (forall run | run in s.runs :: RunOfRequest(s, run))
    && CacheIsTheLastRuns(s)
    && RunsAreSpaced(s)
    && IdsAreOfTheLastReplies(s)
    && RepliesAreSpaced(s)
    && RepliesAreOfRuns(s)
    && CallsAreOfReplies(s)
  }

  // ---- Steps ----------------------------------------------------------------------------------

  // Calls only grow, what they ask for never changes, and a call that has ended stays as it is.
  predicate Extends(s: System, t: System) {
    && |s.calls| <= |t.calls| && s.replies <= t.replies && s.runs <= t.runs
    && forall c | 0 <= c < |s.calls| :: t.calls[c].path == s.calls[c].path
         && t.calls[c].clientNonce == s.calls[c].clientNonce && t.calls[c].body == s.calls[c].body
         && (s.calls[c].verdict.Some? ==> t.calls[c] == s.calls[c])
  }

  lemma RunsAndRepliesStand(s: System, t: System)
    requires Sound(s) && Extends(s, t) && t.runs == s.runs && t.processedNonces == s.processedNonces
    requires t.replies == s.replies
    ensures (forall run | run in t.runs :: RunOfRequest(t, run)) && CacheIsTheLastRuns(t) && RunsAreSpaced(t)
    ensures RepliesAreOfRuns(t)
  {
    forall reply | reply in t.replies && reply.clientNonce.Some?
      ensures exists i: nat :: Gave(t, i, reply.clientNonce.value, reply.result)
      ensures exists c: nat :: c < |t.calls| && t.calls[c].clientNonce == reply.clientNonce.value && t.calls[c].path == reply.path
    {
      var i: nat :| Gave(s, i, reply.clientNonce.value, reply.result);
      assert Gave(t, i, reply.clientNonce.value, reply.result);
      var c: nat :| c < |s.calls| && s.calls[c].clientNonce == reply.clientNonce.value && s.calls[c].path == reply.path;
      assert t.calls[c].path == s.calls[c].path;
    }
  }

  lemma ForwardIsSound(s: System, path: Path, clientNonce: string, body: Json, sending: Sending)
    requires Sound(s)
    ensures Sound(ForwardStep(s, path, clientNonce, body, sending))
    ensures Extends(s, ForwardStep(s, path, clientNonce, body, sending))
  {
    hide SendingError, RequestIdOf, Settle, Answers;
    RunsAndRepliesStand(s, ForwardStep(s, path, clientNonce, body, sending));
  }

  lemma PollIsSound(s: System, c: nat, answer: Transport<PollBody>)
    requires Sound(s)
    ensures Sound(PollStep(s, c, answer)) && Extends(s, PollStep(s, c, answer))
  {
    hide TransportError, Settle;
    RunsAndRepliesStand(s, PollStep(s, c, answer));
  }

  lemma GiveUpIsSound(s: System, c: nat, aborted: bool)
    requires Sound(s)
    ensures Sound(GiveUpStep(s, c, aborted)) && Extends(s, GiveUpStep(s, c, aborted))
  {
    hide Settle;
    RunsAndRepliesStand(s, GiveUpStep(s, c, aborted));
  }

  // A nonce that is not in the cache has no run among the last ones.
  lemma MissIsSpaced(s: System, clientNonce: string, i: nat)
    requires CacheIsTheLastRuns(s) && i < |s.runs| && s.runs[i].clientNonce == clientNonce
    requires Lookup(s.processedNonces, clientNonce) == |s.processedNonces|
    ensures |s.runs| - i > MAX_PROCESSED_CACHE
  {
    LookupFinds(s.processedNonces, clientNonce);
    var n, m := |s.runs|, |s.processedNonces|;
    forall j | n - m <= j < n ensures s.runs[j].clientNonce != clientNonce {
      assert s.processedNonces[j - (n - m)].0 == s.runs[j].clientNonce;
    }
  }

  // The reply carries the answer of run i, to the request of call c.
  predicate IsOfRun(s: System, reply: Reply, i: nat, c: nat)
    requires reply.clientNonce.Some?
  {
    && Gave(s, i, reply.clientNonce.value, reply.result)
    && c < |s.calls| && s.calls[c].clientNonce == reply.clientNonce.value && s.calls[c].path == reply.path
  }

  // An id that is not in the cache is not that of one of the last replies.
  lemma NewIdIsSpaced(s: System, reply: Reply)
    requires IdsAreOfTheLastReplies(s) && RepliesAreSpaced(s) && reply.requestId !in s.processedResults
    ensures IdsAreOfTheLastReplies(Post(s, reply)) && RepliesAreSpaced(Post(s, reply))
  {
    var n, m := |s.replies|, |s.processedResults|;
    forall j | n - m <= j < n ensures s.replies[j].requestId != reply.requestId {
      assert s.processedResults[j - (n - m)] == s.replies[j].requestId;
    }
  }

  lemma PostIsSound(s: System, reply: Reply, i: nat, c: nat)
    requires Sound(s) && reply.requestId !in s.processedResults && (reply.clientNonce.Some? ==> IsOfRun(s, reply, i, c))
    ensures Sound(Post(s, reply)) && Extends(s, Post(s, reply))
  {
    hide Settle, RunOfRequest, Answers, IsClientNonce, Remember, RepliesAreSpaced, IdsAreOfTheLastReplies;
    NewIdIsSpaced(s, reply);
    var t := Post(s, reply);
    assert forall run | run in t.runs :: RunOfRequest(s, run) ==> RunOfRequest(t, run) by {
      RunsOfTheSameCalls(s, t);
    }
    forall r | r in t.replies && r.clientNonce.Some?
      ensures exists i: nat :: Gave(t, i, r.clientNonce.value, r.result)
      ensures exists c: nat :: c < |t.calls| && t.calls[c].clientNonce == r.clientNonce.value && t.calls[c].path == r.path
    {
      var j: nat := i;
      if r in s.replies {
        j :| Gave(s, j, r.clientNonce.value, r.result);
      }
      assert Gave(t, j, r.clientNonce.value, r.result);
    }
  }

  lemma RunsOfTheSameCalls(s: System, t: System)
    requires s.calls == t.calls
    ensures forall run :: RunOfRequest(s, run) <==> RunOfRequest(t, run)
  {
  }

  // The desktop runs a request whose nonce it does not remember.
  function Ran(s: System, k: nat, result: Json): System
    requires k < |s.calls|
  {
    var call := s.calls[k];
    s.(runs := s.runs + [Run(k, call.path, call.clientNonce, OrEmpty(call.body), result)],
       processedNonces := Remember(s.processedNonces, (call.clientNonce, result)))
  }

  lemma RanIsSound(s: System, k: nat, result: Json)
    requires Sound(s) && k < |s.calls| && IsClientNonce(s.calls[k].clientNonce)
    requires Lookup(s.processedNonces, s.calls[k].clientNonce) == |s.processedNonces|
    ensures Sound(Ran(s, k, result)) && Extends(s, Ran(s, k, result))
    ensures Gave(Ran(s, k, result), |s.runs|, s.calls[k].clientNonce, result)
  {
    hide Settle, Answers, BridgeE2ee.AllUrlSafe;
    var t := Ran(s, k, result);
    assert s.calls[k] in s.calls;
    assert RunsAreSpaced(t) by {
      forall i | 0 <= i < |s.runs| && s.runs[i].clientNonce == s.calls[k].clientNonce
        ensures |s.runs| - i > MAX_PROCESSED_CACHE
      {
        MissIsSpaced(s, s.calls[k].clientNonce, i);
      }
    }
    forall r | r in t.replies && r.clientNonce.Some?
      ensures exists i: nat :: Gave(t, i, r.clientNonce.value, r.result)
      ensures exists c: nat :: c < |t.calls| && t.calls[c].clientNonce == r.clientNonce.value && t.calls[c].path == r.path
    {
      var j: nat :| Gave(s, j, r.clientNonce.value, r.result);
      assert Gave(t, j, r.clientNonce.value, r.result);
    }
  }

  lemma DeliverIsSound(s: System, requestId: string, path: Path, packet: Packet, dispatch: Dispatch)
    requires Sound(s)
    ensures Sound(DeliverStep(s, requestId, path, packet, dispatch))
    ensures Extends(s, DeliverStep(s, requestId, path, packet, dispatch))
  {
    hide Sound, Gave, OrEmpty, IsClientNonce;
    if requestId !in s.processedResults {
      if !Decodes(s, path, packet) {
        PostIsSound(s, Reply(path, requestId, None, ErrorResult(DECODE_ERROR)), 0, 0);
      } else {
        var call := s.calls[packet.k];
        var cached := Lookup(s.processedNonces, call.clientNonce);
        LookupFinds(s.processedNonces, call.clientNonce);
        if cached < |s.processedNonces| {
          CachedGave(s, cached);
          PostIsSound(s, Reply(path, requestId, Some(call.clientNonce), s.processedNonces[cached].1),
                      |s.runs| - |s.processedNonces| + cached, packet.k);
        } else {
          var result := if dispatch.Threw? then ErrorResult(dispatch.message) else dispatch.json;
          RanIsSound(s, packet.k, result);
          PostIsSound(Ran(s, packet.k, result), Reply(path, requestId, Some(call.clientNonce), result), |s.runs|, packet.k);
        }
      }
    }
  }

  lemma CachedGave(s: System, k: nat)
    requires Sound(s) && k < |s.processedNonces|
    ensures |s.runs| >= |s.processedNonces|
    ensures Gave(s, |s.runs| - |s.processedNonces| + k, s.processedNonces[k].0, s.processedNonces[k].1)
  {
  }

  lemma StepIsSound(s: System, event: Event)
    requires Sound(s)
    ensures Sound(Step(s, event)) && Extends(s, Step(s, event))
  {
    hide Sound, Extends;
    match event
    case Forward(path, clientNonce, body, sending) => ForwardIsSound(s, path, clientNonce, body, sending);
    case Deliver(requestId, path, packet, dispatch) => DeliverIsSound(s, requestId, path, packet, dispatch);
    case Poll(c, answer) => PollIsSound(s, c, answer);
    case GiveUp(c, aborted) => GiveUpIsSound(s, c, aborted);
  }

  lemma {:induction false} RunIsSound(events: seq<Event>)
    ensures Sound(After(events))
  {
    if events != [] {
      RunIsSound(events[..|events| - 1]);
      StepIsSound(After(events[..|events| - 1]), events[|events| - 1]);
    }
  }
}
