/** The local agent payment profiles: single-use write intents and versioned records
    (handleLocalAgentProfileIntent, -Publish and -Takedown, assertLocalAgentProfileIntent and
    pruneExpiredLocalAgentProfileIntents in apps/browser-demo/vite.acpDevApi.ts). */
module AgentProfiles {
  import Sequences
  import opened Text
  import opened Wrappers

  const AGENT_PROFILE_NONCE_TTL_MS := 300_000

  datatype Payload = Payload(discoverable: bool, terms: string)

  datatype Record = Record(payload: Payload, updatedAt: int, version: nat)

  datatype Fields = Fields(domain: string, wallet: string, nonce: string, issuedAt: int, expiresAt: int)

  datatype Intent = Intent(fields: Fields, takedown: bool, message: string, payloadHash: Option<string>)

  // The payload's hash and the texts to sign are computed by code outside the model.
  datatype Env = Env(hash: Payload -> string, publishMessage: (Fields, string) -> string, takedownMessage: Fields -> string)

  // `payload` is None when the validator refuses it; a takedown has none.
  datatype Event =
    | Issue(nowMs: int, header: string, takedown: bool, payload: Option<Payload>, domain: string, nonce: string)
    | Write(nowMs: int, header: string, bodyWallet: string, takedown: bool, payload: Option<Payload>, domain: string,
            nonce: string, signature: string, message: string)

  datatype Refusal = WalletMissing | InvalidPayload | InvalidNonce | MissingSignature | IntentMismatch

  datatype Response =
    | Issued(intent: Intent)
    | Saved(record: Record)
    | NothingToTakeDown
    | Refused(status: int, refusal: Refusal)

  datatype State = State(profiles: map<string, Record>, intents: map<string, Intent>)

  const EMPTY := State(map[], map[])

  predicate IsBase58(c: char) {
    '1' <= c <= '9' || ('A' <= c <= 'Z' && c != 'I' && c != 'O') || ('a' <= c <= 'z' && c != 'l')
  }

  predicate IsWallet(s: string) {
    32 <= |s| <= 44 && forall c | c in s :: IsBase58(c)
  }

  // The fallback for a blank header, `local-browser-wallet`, is not a wallet either.
  function ConnectedWallet(header: string): string {
    if IsWallet(Trim(header)) then Trim(header) else ""
  }

  function WriteWallet(header: string, bodyWallet: string): string {
    if IsWallet(Trim(bodyWallet)) then Trim(bodyWallet) else ConnectedWallet(header)
  }

  const NO_WALLET := Refused(403, WalletMissing)
  const BAD_PAYLOAD := Refused(400, InvalidPayload)
  const BAD_NONCE := Refused(401, InvalidNonce)
  const NO_SIGNATURE := Refused(400, MissingSignature)
  const MISMATCH := Refused(401, IntentMismatch)

  predicate Issues(e: Event) {
    e.Issue? && ConnectedWallet(e.header) != "" && (e.takedown || e.payload.Some?)
  }

  // The intent that an accepted request for one gets.
  function IntentOf(env: Env, e: Event): Intent
    requires Issues(e)
  {
    var fields := Fields(e.domain, ConnectedWallet(e.header), e.nonce, e.nowMs, e.nowMs + AGENT_PROFILE_NONCE_TTL_MS);
    if e.takedown then Intent(fields, true, env.takedownMessage(fields), None)
    else
      var hash := env.hash(e.payload.value);
      Intent(fields, false, env.publishMessage(fields, hash), Some(hash))
  }

  function Unexpired(intents: map<string, Intent>, nowMs: int): map<string, Intent> {
    map n | n in intents && intents[n].fields.expiresAt > nowMs :: intents[n]
  }

  // A write that gets past the checks before the intent's.
  predicate WellFormed(e: Event) {
    e.Write? && WriteWallet(e.header, e.bodyWallet) != "" && (e.takedown || e.payload.Some?)
  }

  predicate Matches(env: Env, intent: Intent, e: Event)
    requires WellFormed(e)
  {
    && intent.takedown == e.takedown && intent.fields.wallet == WriteWallet(e.header, e.bodyWallet)
    && intent.fields.domain == e.domain && intent.message == e.message
    && (!e.takedown ==> intent.payloadHash == Some(env.hash(e.payload.value)))
  }

  function IntentError(env: Env, s: State, e: Event): Option<Response>
    requires WellFormed(e)
  {
    var nonce := Trim(e.nonce);
    if nonce == "" || nonce !in s.intents || s.intents[nonce].fields.expiresAt <= e.nowMs then Some(BAD_NONCE)
    else if IsBlank(e.signature) then Some(NO_SIGNATURE)
    else if !Matches(env, s.intents[nonce], e) then Some(MISMATCH)
    else None
  }

  predicate Accepts(env: Env, s: State, e: Event) {
    WellFormed(e) && IntentError(env, s, e).None?
  }

  // A write that changes the wallet's record: a takedown finds nothing to change where there is none.
  predicate Stores(env: Env, s: State, e: Event) {
    Accepts(env, s, e) && (e.takedown ==> WriteWallet(e.header, e.bodyWallet) in s.profiles)
  }

  function Version(s: State, wallet: string): nat {
    if wallet in s.profiles then s.profiles[wallet].version else 0
  }

  function NewRecord(s: State, e: Event): Record
    requires WellFormed(e) && (e.takedown ==> WriteWallet(e.header, e.bodyWallet) in s.profiles)
  {
    var wallet := WriteWallet(e.header, e.bodyWallet);
    var payload := if e.takedown then s.profiles[wallet].payload.(discoverable := false) else e.payload.value;
    Record(payload, e.nowMs, Version(s, wallet) + 1)
  }

  function Step(env: Env, s: State, e: Event): State {
    if Issues(e) then s.(intents := Unexpired(s.intents[e.nonce := IntentOf(env, e)], e.nowMs))
    else if Accepts(env, s, e) then
      var spent := s.(intents := s.intents - {Trim(e.nonce)});
      if Stores(env, s, e) then spent.(profiles := s.profiles[WriteWallet(e.header, e.bodyWallet) := NewRecord(s, e)])
      else spent
    else s
  }

  function After(env: Env, events: seq<Event>): State {
    if events == [] then EMPTY else Step(env, After(env, events[..|events| - 1]), events[|events| - 1])
  }

  // ---- The module's maps and the handlers that change them -------------------------------------------

  class LocalAgentProfiles {
    var profiles: map<string, Record>
    var intents: map<string, Intent>

    function Contents(): State
      reads this
    {
      State(profiles, intents)
    }

    constructor ()
      ensures Contents() == EMPTY
    {
      profiles, intents := map[], map[];
    }

    method PruneExpired(nowMs: int)
      modifies this`intents
      ensures intents == Unexpired(old(intents), nowMs)
    {
      var rest := intents.Keys;
      while rest != {}
        invariant rest <= intents.Keys <= old(intents).Keys
        invariant forall n | n in intents :: intents[n] == old(intents)[n]
        invariant forall n | n in rest :: n in intents
        invariant forall n | n in old(intents) && n !in rest ::
          n in intents <==> old(intents)[n].fields.expiresAt > nowMs
        decreases |rest|
      {
        var nonce :| nonce in rest;
        if intents[nonce].fields.expiresAt <= nowMs {
          intents := intents - {nonce};
        }
        rest := rest - {nonce};
      }
    }

    method HandleIntent(env: Env, e: Event) returns (response: Response)
      requires e.Issue?
      modifies this
      ensures Contents() == Step(env, old(Contents()), e)
      ensures response == (if ConnectedWallet(e.header) == "" then NO_WALLET
                           else if !e.takedown && e.payload.None? then BAD_PAYLOAD
                           else Issued(IntentOf(env, e)))
    {
      hide ConnectedWallet, IntentOf, Unexpired;
      if ConnectedWallet(e.header) == "" {
        return NO_WALLET;
      }
      if !e.takedown && e.payload.None? {
        return BAD_PAYLOAD;
      }
      var intent := IntentOf(env, e);
      intents := intents[e.nonce := intent];
      PruneExpired(e.nowMs);
      return Issued(intent);
    }

    method AssertIntent(env: Env, e: Event) returns (error: Option<Response>)
      requires WellFormed(e)
      modifies this`intents
      ensures error == old(IntentError(env, Contents(), e))
      ensures intents == if error.None? then old(intents) - {Trim(e.nonce)} else old(intents)
    {
      hide Trim, IsBlank, WriteWallet;
      var nonce := Trim(e.nonce);
      if nonce == "" || nonce !in intents || intents[nonce].fields.expiresAt <= e.nowMs {
        return Some(BAD_NONCE);
      }
      if IsBlank(e.signature) {
        return Some(NO_SIGNATURE);
      }
      if !Matches(env, intents[nonce], e) {
        return Some(MISMATCH);
      }
      intents := intents - {nonce};
      return None;
    }

    // handleLocalAgentProfilePublish and -Takedown, by the event's kind
    method HandleWrite(env: Env, e: Event) returns (response: Response)
      requires e.Write?
      modifies this
      ensures Contents() == Step(env, old(Contents()), e)
      ensures response.Saved? <==> old(Stores(env, Contents(), e))
      ensures response.Saved? ==> response.record == old(NewRecord(Contents(), e))
      ensures response.NothingToTakeDown? <==> old(Accepts(env, Contents(), e) && !Stores(env, Contents(), e))
      ensures response.Refused? <==> !old(Accepts(env, Contents(), e))
      ensures WriteWallet(e.header, e.bodyWallet) == "" ==> response == NO_WALLET
      ensures WriteWallet(e.header, e.bodyWallet) != "" && !WellFormed(e) ==> response == BAD_PAYLOAD
      ensures response.Refused? && WellFormed(e) ==> Some(response) == old(IntentError(env, Contents(), e))
    {
      hide IsWallet, Trim, IsBlank;
      var wallet := WriteWallet(e.header, e.bodyWallet);
      if wallet == "" {
        return NO_WALLET;
      }
      if !e.takedown && e.payload.None? {
        return BAD_PAYLOAD;
      }
      var error := AssertIntent(env, e);
      if error.Some? {
        return error.value;
      }
      if e.takedown && wallet !in profiles {
        return NothingToTakeDown;
      }
      var record := NewRecord(Contents(), e);
      profiles := profiles[wallet := record];
      return Saved(record);
    }
  }

  // ---- Wallets --------------------------------------------------------------------------------------

  // 32 to 44 letters and digits, none of them one of the look-alikes.
  lemma WalletIff(s: string)
    ensures IsWallet(s) <==> 32 <= |s| <= 44 && forall c | c in s ::
      ('0' <= c <= '9' || 'A' <= c <= 'Z' || 'a' <= c <= 'z') && c !in "0OIl"
  {
    forall c ensures IsBase58(c) <==> ('0' <= c <= '9' || 'A' <= c <= 'Z' || 'a' <= c <= 'z') && c !in "0OIl" {
    }
  }

  /** A write is for the wallet that its body names, and otherwise for the connected one, white space apart. */
  lemma WriteWalletIff(header: string, bodyWallet: string, wallet: string)
    requires wallet != ""
    ensures WriteWallet(header, bodyWallet) == wallet <==>
      IsWallet(wallet) && (Trim(bodyWallet) == wallet || (!IsWallet(Trim(bodyWallet)) && Trim(header) == wallet))
  {
    hide Trim;
    assert !IsWallet("");
    hide IsWallet;
  }

  // ---- Whole runs ---------------------------------------------------------------------------------

  // randomUUID does not repeat.
  predicate DistinctNonces(events: seq<Event>) {
    forall i, j | 0 <= i < j < |events| && Issues(events[i]) && Issues(events[j]) :: events[i].nonce != events[j].nonce
  }

  predicate MonotoneClock(events: seq<Event>) {
    forall i, j | 0 <= i < j < |events| :: events[i].nowMs <= events[j].nowMs
  }

  function Before(env: Env, events: seq<Event>, i: nat): State
    requires i <= |events|
  {
    After(env, events[..i])
  }

  predicate AcceptedAt(env: Env, events: seq<Event>, i: nat) {
    i < |events| && Accepts(env, Before(env, events, i), events[i])
  }

  // The write is of the issue's action, wallet and domain, its message is the text for the fields of the issue, and what it
  // publishes has the hash of what the issue was for.
  predicate AgreesWith(env: Env, write: Event, issue: Event)
    requires WellFormed(write) && Issues(issue)
  {
    var wallet := ConnectedWallet(issue.header);
    var fields := Fields(issue.domain, wallet, issue.nonce, issue.nowMs, issue.nowMs + 300_000);
    && write.takedown == issue.takedown && WriteWallet(write.header, write.bodyWallet) == wallet
    && write.domain == issue.domain
    && if issue.takedown then write.message == env.takedownMessage(fields)
       else
         var hash := env.hash(issue.payload.value);
         env.hash(write.payload.value) == hash && write.message == env.publishMessage(fields, hash)
  }

  // The write at i answers the intent issued at j.
  predicate Answers(env: Env, events: seq<Event>, i: nat, j: nat) {
    && j < i < |events| && Issues(events[j]) && WellFormed(events[i])
    && events[j].nonce == Trim(events[i].nonce) != ""
    && AgreesWith(env, events[i], events[j])
    && events[i].nowMs < events[j].nowMs + 300_000
  }

  lemma MatchesIff(env: Env, write: Event, issue: Event)
    requires WellFormed(write) && Issues(issue)
    ensures Matches(env, IntentOf(env, issue), write) <==> AgreesWith(env, write, issue)
  {
    hide ConnectedWallet, WriteWallet;
  }

  predicate SpentBetween(env: Env, events: seq<Event>, nonce: string, j: nat, k: nat) {
    exists m | j < m < k && m < |events| :: AcceptedAt(env, events, m) && Trim(events[m].nonce) == nonce
  }

  // Before event k the intent issued at j has not been spent.
  predicate Live(env: Env, events: seq<Event>, nonce: string, j: nat, k: nat) {
    j < k <= |events| && Issues(events[j]) && events[j].nonce == nonce && !SpentBetween(env, events, nonce, j, k)
  }

  predicate Holds(env: Env, events: seq<Event>, nonce: string, j: nat, k: nat)
    requires k <= |events| && j < |events|
  {
    var intents := Before(env, events, k).intents;
    nonce in intents && Issues(events[j]) && intents[nonce] == IntentOf(env, events[j])
  }

  // The map holds only live intents.
  ghost predicate HoldsOnlyLive(env: Env, events: seq<Event>, k: nat)
    requires k <= |events|
  {
    forall n | n in Before(env, events, k).intents ::
      exists j: nat :: Live(env, events, n, j, k) && Holds(env, events, n, j, k)
  }

  predicate UnexpiredBy(events: seq<Event>, j: nat, k: nat)
    requires j < |events| && 0 < k <= |events|
  {
    events[k - 1].nowMs < events[j].nowMs + AGENT_PROFILE_NONCE_TTL_MS
  }

  // It holds all live intents that had not expired by the last event.
  ghost predicate HoldsTheUnexpired(env: Env, events: seq<Event>, k: nat)
    requires k <= |events|
  {
    forall j: nat, n | Live(env, events, n, j, k) && UnexpiredBy(events, j, k) :: Holds(env, events, n, j, k)
  }

  lemma BeforeNext(env: Env, events: seq<Event>, k: nat)
    requires k < |events|
    ensures Before(env, events, k + 1) == Step(env, Before(env, events, k), events[k])
  {
    assert events[..k + 1][..k] == events[..k];
  }

  lemma LiveNext(env: Env, events: seq<Event>, n: string, j: nat, k: nat)
    requires k < |events| && j < k
    ensures Live(env, events, n, j, k + 1) <==>
      Live(env, events, n, j, k) && !(AcceptedAt(env, events, k) && Trim(events[k].nonce) == n)
  {
    hide AcceptedAt, Trim, Issues;
  }

  lemma HoldsNext(env: Env, events: seq<Event>, n: string, k: nat)
    requires k < |events|
    ensures var intents, intents' := Before(env, events, k).intents, Before(env, events, k + 1).intents; var e := events[k];
      if Issues(e) then
        && (n in intents' <==> n == e.nonce || (n in intents && intents[n].fields.expiresAt > e.nowMs))
        && (n in intents' ==> intents'[n] == if n == e.nonce then IntentOf(env, e) else intents[n])
      else
        && (n in intents' <==> n in intents && !(AcceptedAt(env, events, k) && n == Trim(e.nonce)))
        && (n in intents' ==> intents'[n] == intents[n])
  {
    BeforeNext(env, events, k);
    var s := Before(env, events, k);
    hide Before, Step, Accepts, IntentOf, Trim;
    if Issues(events[k]) {
      IssueIntents(env, s, events[k], n);
    } else {
      WriteIntents(env, s, events[k], n);
    }
  }

  lemma IssueIntents(env: Env, s: State, e: Event, n: string)
    requires Issues(e)
    ensures var intents' := Step(env, s, e).intents;
      && (n in intents' <==> n == e.nonce || (n in s.intents && s.intents[n].fields.expiresAt > e.nowMs))
      && (n in intents' ==> intents'[n] == if n == e.nonce then IntentOf(env, e) else s.intents[n])
  {
    hide Issues, ConnectedWallet;
    assert IntentOf(env, e).fields.expiresAt > e.nowMs;
    hide IntentOf;
  }

  lemma WriteIntents(env: Env, s: State, e: Event, n: string)
    requires !Issues(e)
    ensures var intents' := Step(env, s, e).intents;
      && (n in intents' <==> n in s.intents && !(Accepts(env, s, e) && n == Trim(e.nonce)))
      && (n in intents' ==> intents'[n] == s.intents[n])
  {
    hide Issues, Accepts, Trim, NewRecord, WriteWallet;
  }

  lemma HoldsOnlyLiveNext(env: Env, events: seq<Event>, k: nat)
    requires k < |events| && HoldsOnlyLive(env, events, k)
    ensures HoldsOnlyLive(env, events, k + 1)
  {
    hide Before, Accepts, Trim, ConnectedWallet, SpentBetween, AcceptedAt;
    var k' := k + 1;
    forall n | n in Before(env, events, k').intents
      ensures exists j: nat :: Live(env, events, n, j, k') && Holds(env, events, n, j, k')
    {
      HoldsNext(env, events, n, k);
      if Issues(events[k]) && n == events[k].nonce {
        JustIssued(env, events, k);
        assert Live(env, events, n, k, k') && Holds(env, events, n, k, k');
      } else {
        var j: nat :| Live(env, events, n, j, k) && Holds(env, events, n, j, k);
        LiveNext(env, events, n, j, k);
        IssuesAreNotAccepted(env, events, k);
        assert Live(env, events, n, j, k') && Holds(env, events, n, j, k');
      }
    }
  }

  lemma HoldsTheUnexpiredNext(env: Env, events: seq<Event>, k: nat)
    requires k < |events| && DistinctNonces(events) && MonotoneClock(events) && HoldsTheUnexpired(env, events, k)
    ensures HoldsTheUnexpired(env, events, k + 1)
  {
    hide Before, Accepts, Trim, ConnectedWallet, SpentBetween, AcceptedAt;
    var k' := k + 1;
    forall j: nat, n | Live(env, events, n, j, k') && UnexpiredBy(events, j, k') ensures Holds(env, events, n, j, k') {
      HoldsNext(env, events, n, k);
      if j < k {
        LiveNext(env, events, n, j, k);
        assert UnexpiredBy(events, j, k);
        assert Holds(env, events, n, j, k);
      }
    }
  }

  lemma JustIssued(env: Env, events: seq<Event>, k: nat)
    requires k < |events| && Issues(events[k])
    ensures Live(env, events, events[k].nonce, k, k + 1)
  {
  }

  lemma IssuesAreNotAccepted(env: Env, events: seq<Event>, k: nat)
    requires k < |events|
    ensures Issues(events[k]) ==> !AcceptedAt(env, events, k)
  {
  }

  // Under any clock, and whatever the nonces.
  lemma {:induction false} RunHoldsOnlyLive(env: Env, events: seq<Event>, k: nat)
    requires k <= |events|
    ensures HoldsOnlyLive(env, events, k)
  {
    if k == 0 {
      NothingIsHeld(env, events);
    } else {
      hide HoldsOnlyLive;
      RunHoldsOnlyLive(env, events, k - 1);
      HoldsOnlyLiveNext(env, events, k - 1);
    }
  }

  lemma {:induction false} RunHoldsTheUnexpired(env: Env, events: seq<Event>, k: nat)
    requires k <= |events| && DistinctNonces(events) && MonotoneClock(events)
    ensures HoldsTheUnexpired(env, events, k)
  {
    if k == 0 {
      NothingIsHeld(env, events);
    } else {
      hide HoldsTheUnexpired, DistinctNonces, MonotoneClock;
      RunHoldsTheUnexpired(env, events, k - 1);
      HoldsTheUnexpiredNext(env, events, k - 1);
    }
  }

  lemma NothingIsHeld(env: Env, events: seq<Event>)
    ensures HoldsOnlyLive(env, events, 0) && HoldsTheUnexpired(env, events, 0)
  {
    Sequences.Ends(events);
  }

  /** A write is accepted if and only if it is signed and answers an intent issued earlier, with its action,
      wallet, domain, text and payload hash, that is unexpired and that no write in between has spent. Pruning
      the map loses nothing. */
  lemma AcceptedIff(env: Env, events: seq<Event>, i: nat)
    requires i < |events| && DistinctNonces(events) && MonotoneClock(events) && WellFormed(events[i])
    ensures AcceptedAt(env, events, i) <==>
      && !IsBlank(events[i].signature)
      && exists j: nat :: Answers(env, events, i, j) && Live(env, events, Trim(events[i].nonce), j, i)
  {
    var n := Trim(events[i].nonce);
    if AcceptedAt(env, events, i) {
      var j := AcceptedAnswers(env, events, i);
    }
    if j: nat :| Answers(env, events, i, j) && Live(env, events, n, j, i) {
      if !IsBlank(events[i].signature) {
        AnswerIsAccepted(env, events, i, j);
      }
    }
  }

  lemma AcceptedIntent(env: Env, s: State, e: Event)
    requires Accepts(env, s, e)
    ensures var nonce := Trim(e.nonce);
      && WellFormed(e) && nonce != "" && nonce in s.intents && e.nowMs < s.intents[nonce].fields.expiresAt
      && !IsBlank(e.signature) && Matches(env, s.intents[nonce], e)
  {
    hide Trim, IsBlank, Matches, WriteWallet;
  }

  lemma AcceptedAnswers(env: Env, events: seq<Event>, i: nat) returns (j: nat)
    requires AcceptedAt(env, events, i)
    ensures !IsBlank(events[i].signature) && Answers(env, events, i, j) && Live(env, events, Trim(events[i].nonce), j, i)
  {
    hide Trim, SpentBetween, Before, IsBlank, Matches, Accepts, IntentOf, Live, Holds, Answers, WellFormed;
    RunHoldsOnlyLive(env, events, i);
    AcceptedIntent(env, Before(env, events, i), events[i]);
    j := Holder(env, events, Trim(events[i].nonce), i);
    HolderAnswers(env, events, i, j);
  }

  lemma Holder(env: Env, events: seq<Event>, n: string, k: nat) returns (j: nat)
    requires k <= |events| && HoldsOnlyLive(env, events, k) && n in Before(env, events, k).intents
    ensures Live(env, events, n, j, k) && Holds(env, events, n, j, k)
  {
    hide Holds, Before;
    j :| Live(env, events, n, j, k) && Holds(env, events, n, j, k);
  }

  lemma HolderAnswers(env: Env, events: seq<Event>, i: nat, j: nat)
    requires AcceptedAt(env, events, i) && Live(env, events, Trim(events[i].nonce), j, i)
    requires Holds(env, events, Trim(events[i].nonce), j, i)
    ensures Answers(env, events, i, j)
  {
    hide Trim, SpentBetween, Before, IsBlank, Matches, AgreesWith, Accepts, WellFormed, Issues;
    AcceptedIntent(env, Before(env, events, i), events[i]);
    MatchesIff(env, events[i], events[j]);
  }

  lemma AnswerIsAccepted(env: Env, events: seq<Event>, i: nat, j: nat)
    requires DistinctNonces(events) && MonotoneClock(events)
    requires Answers(env, events, i, j) && Live(env, events, Trim(events[i].nonce), j, i) && !IsBlank(events[i].signature)
    ensures AcceptedAt(env, events, i)
  {
    RunHoldsTheUnexpired(env, events, i);
    assert events[i - 1].nowMs <= events[i].nowMs;
    hide Trim, ConnectedWallet, WriteWallet, SpentBetween, Before, IsBlank, DistinctNonces, MonotoneClock, Matches, AgreesWith;
    hide Accepts, IntentOf;
    assert Holds(env, events, Trim(events[i].nonce), j, i);
    MatchesIff(env, events[i], events[j]);
    hide HoldsTheUnexpired, Live;
    LiveIntentIsAccepted(env, Before(env, events, i), events[i], events[j]);
  }

  lemma LiveIntentIsAccepted(env: Env, s: State, e: Event, issue: Event)
    requires WellFormed(e) && Issues(issue) && !IsBlank(e.signature)
    requires Trim(e.nonce) != "" && Trim(e.nonce) in s.intents && s.intents[Trim(e.nonce)] == IntentOf(env, issue)
    requires Matches(env, IntentOf(env, issue), e) && e.nowMs < issue.nowMs + AGENT_PROFILE_NONCE_TTL_MS
    ensures Accepts(env, s, e)
  {
    IntentExpires(env, issue);
    hide Trim, IsBlank, Matches, IntentOf, WriteWallet, Issues;
  }

  lemma IntentExpires(env: Env, e: Event)
    requires Issues(e)
    ensures IntentOf(env, e).fields.expiresAt == e.nowMs + AGENT_PROFILE_NONCE_TTL_MS
  {
    hide ConnectedWallet;
  }

  /** Accepted writes map one-to-one into issued intents, under any clock. */
  lemma IntentsAreSpentOnce(env: Env, events: seq<Event>, i: nat, i': nat) returns (j: nat, j': nat)
    requires i < i' < |events| && AcceptedAt(env, events, i) && AcceptedAt(env, events, i')
    ensures Answers(env, events, i, j) && Answers(env, events, i', j') && j != j'
  {
    j := AcceptedAnswers(env, events, i);
    j' := AcceptedAnswers(env, events, i');
    hide AcceptedAt, Trim, AgreesWith, WellFormed;
  }

  /** A wallet's record changes only through an intent that was issued to that wallet. */
  lemma RecordsChangeByTheirWalletsIntent(env: Env, events: seq<Event>, i: nat, wallet: string) returns (j: nat)
    requires i < |events|
    requires var profiles, profiles' := Before(env, events, i).profiles, Before(env, events, i + 1).profiles;
      !(wallet in profiles <==> wallet in profiles') || (wallet in profiles && profiles[wallet] != profiles'[wallet])
    ensures AcceptedAt(env, events, i) && Answers(env, events, i, j) && ConnectedWallet(events[j].header) == wallet
  {
    BeforeNext(env, events, i);
    StoreIsOfItsWallet(env, Before(env, events, i), events[i], wallet);
    hide Step, Before, Accepts, WriteWallet;
    j := AcceptedAnswers(env, events, i);
  }

  lemma StoreIsOfItsWallet(env: Env, s: State, e: Event, wallet: string)
    requires var profiles, profiles' := s.profiles, Step(env, s, e).profiles;
      !(wallet in profiles <==> wallet in profiles') || (wallet in profiles && profiles[wallet] != profiles'[wallet])
    ensures Accepts(env, s, e) && WriteWallet(e.header, e.bodyWallet) == wallet
  {
    hide Issues, IntentError, NewRecord, WriteWallet, IntentOf, Unexpired, Trim;
  }

  function StoresFor(env: Env, events: seq<Event>, wallet: string): nat {
    if events == [] then 0
    else
      var front, e := events[..|events| - 1], events[|events| - 1];
      StoresFor(env, front, wallet)
      + if Stores(env, After(env, front), e) && WriteWallet(e.header, e.bodyWallet) == wallet then 1 else 0
  }

  /** A wallet's version is the number of its stored writes. */
  lemma {:induction false} VersionCountsStores(env: Env, events: seq<Event>, wallet: string)
    ensures Version(After(env, events), wallet) == StoresFor(env, events, wallet)
  {
    if events != [] {
      VersionCountsStores(env, events[..|events| - 1], wallet);
      hide Trim, IsWallet, WriteWallet, IntentError;
    }
  }

  // The payload that the wallet's last stored publish put up, whether it has been taken down since, and the time of the
  // last of these writes.
  function LastPublished(env: Env, events: seq<Event>, wallet: string): Option<(Payload, bool, int)> {
    if events == [] then None
    else
      var front, e := events[..|events| - 1], events[|events| - 1];
      var before := LastPublished(env, front, wallet);
      if !Stores(env, After(env, front), e) || WriteWallet(e.header, e.bodyWallet) != wallet then before
      else if !e.takedown then Some((e.payload.value, false, e.nowMs))
      else if before.Some? then Some((before.value.0, true, e.nowMs))
      else None
  }

  /** A wallet's profile is the last payload it published, discoverable unless it was taken down since. */
  lemma {:induction false} ProfileIsTheLastPublished(env: Env, events: seq<Event>, wallet: string)
    ensures var profiles, last := After(env, events).profiles, LastPublished(env, events, wallet);
      && (wallet in profiles <==> last.Some?)
      && (last.Some? ==>
            && profiles[wallet].payload == last.value.0.(discoverable := last.value.0.discoverable && !last.value.1)
            && profiles[wallet].updatedAt == last.value.2)
  {
    hide Trim, IsWallet, WriteWallet, ConnectedWallet, IntentError, Matches;
    if events != [] {
      ProfileIsTheLastPublished(env, events[..|events| - 1], wallet);
    }
  }
}
