/** The phone's calls to a paired computer over the relay (relayFetch, mapRelayStatusCode, forward,
    pollResult and the poll loop of forwardAi in apps/browser-demo/src/bridgeRelayClient.ts). Clock
    readings, sleeps and answers of the relay are parameters. */
module BridgeRelayClient {
  import Text
  import opened Wrappers

  // A path is one of the four of FORWARDABLE_AI_PATHS (/bridge/ai/generate-plan, review-plan, ask-about-plan
  // and chat) or any other.
  datatype Path = GeneratePlan | ReviewPlan | AskAboutPlan | Chat | OtherPath(text: string)

  predicate IsForwardable(path: Path) {
    !path.OtherPath?
  }

  // JNull stands for null and for a field that is absent.
  datatype Json = JNull | JText(text: string) | JOther(n: int) | JObject(fields: map<string, Json>)

  datatype Code =
    | Aborted | Auth | DesktopOffline | InvalidConfig | InvalidResponse | Network | PathNotAllowed | RateLimited
    | Timeout | TooLarge | Upstream

  // `detail` is text from outside: the desktop's error or the network's. The client's own texts are fixed.
  datatype RelayError = RelayError(code: Code, detail: string, transient: bool)

  // What a fetch ends in.
  datatype Transport<+T> = NetworkFailure(message: string) | Cancelled | Http(status: int, body: T)

  datatype Liveness = Liveness(paired: bool, desktopOnline: bool)

  datatype Sending = Oversized | Sent(answer: Transport<Json>)

  datatype PollOutcome = Unresolved | Resolved(payload: Json) | Failed(error: RelayError)

  datatype Verdict = Returned(payload: Json) | Raised(error: RelayError)

  const ABORTED := RelayError(Aborted, "", false)
  const TIMED_OUT := RelayError(Timeout, "", false)

  // `json ?? {}`
  function OrEmpty(json: Json): Json {
    if json.JNull? then JObject(map[]) else json
  }

  function Field(json: Json, name: string): Json {
    if json.JObject? && name in json.fields then json.fields[name] else JNull
  }

  function StatusError(status: int): RelayError {
    if status == 401 || status == 403 then RelayError(Auth, "", false)
    else if status == 404 || status == 410 then RelayError(InvalidConfig, "", false)
    else if status == 408 || status == 504 then RelayError(Timeout, "", true)
    else if status == 429 then RelayError(RateLimited, "", true)
    else if 500 <= status <= 599 then RelayError(Upstream, "", true)
    else RelayError(InvalidResponse, "", false)
  }

  // The error of a fetch that did not end in a 2xx answer.
  function TransportError<T>(t: Transport<T>): Option<RelayError> {
    match t
    case NetworkFailure(why) => Some(RelayError(Network, why, true))
    case Cancelled => Some(ABORTED)
    case Http(status, _) => if 200 <= status <= 299 then None else Some(StatusError(status))
  }

  // relayStatus and the checks on it: only a cancellation and a paired but absent desktop stop the call.
  function Preflight(live: Transport<Liveness>): Option<RelayError> {
    match live
    case Cancelled => Some(ABORTED)
    case NetworkFailure(_) => None
    case Http(status, body) =>
      if 200 <= status <= 299 && body.paired && !body.desktopOnline
      then Some(RelayError(DesktopOffline, "", false)) else None
  }

  function RequestIdOf(json: Json): string {
    var id := Field(json, "requestId");
    if id.JText? then Text.Trim(id.text) else ""
  }

  // The error of forward(), if it does not yield a request id.
  function SendingError(sending: Sending): Option<RelayError> {
    if sending.Oversized? then Some(RelayError(TooLarge, "", false))
    else
      var failed := TransportError(sending.answer);
      if failed.Some? then failed
      else if RequestIdOf(sending.answer.body) == ""
      then Some(RelayError(InvalidResponse, "", false))
      else None
  }

  // A resolved payload is returned unless it carries the desktop's error text.
  function Settle(payload: Json): Verdict {
    var error := Field(payload, "error");
    if error.JText? && !Text.IsBlank(error.text) then Raised(RelayError(Upstream, error.text, false)) else Returned(payload)
  }

  // What one poll does to the loop: nothing, or end it.
  function Conclude(outcome: PollOutcome): Option<Verdict> {
    match outcome
    case Unresolved => None
    case Resolved(payload) => Some(Settle(OrEmpty(payload)))
    case Failed(error) => if error.transient then None else Some(Raised(error))
  }

  // ---- What ends a call -------------------------------------------------------------------------

  // Its field `error` is this text, and not blank.
  ghost predicate HasError(payload: Json, text: string) {
    && payload.JObject? && "error" in payload.fields && payload.fields["error"] == JText(text)
    && exists i | 0 <= i < |text| :: !Text.IsSpace(text[i])
  }

  // An answered call raises the error that the desktop's result carries, and otherwise returns that result, an empty
  // object for none.
  ghost predicate Tells(verdict: Verdict, result: Json) {
    match verdict
    case Returned(payload) =>
      payload == (if result == JNull then JObject(map[]) else result) && forall text :: !HasError(payload, text)
    case Raised(error) => HasError(result, error.detail) && error.code == Upstream && !error.transient
  }

  lemma SettledTells(result: Json, verdict: Verdict)
    ensures verdict == Settle(OrEmpty(result)) <==> Tells(verdict, result)
  {
    var payload := OrEmpty(result);
    var error := Field(payload, "error");
    if error.JText? {
      Text.BlankIsSpace(error.text);
      ErrorIsItsText(payload, error.text);
    }
  }

  lemma ErrorIsItsText(payload: Json, text: string)
    requires Field(payload, "error") == JText(text)
    ensures forall t :: HasError(payload, t) <==> t == text && !Text.AllSpace(t)
  {
    forall t ensures HasError(payload, t) <==> t == text && !Text.AllSpace(t) {
      if !Text.AllSpace(t) {
        var c :| c in t && !Text.IsSpace(c);
        var i :| 0 <= i < |t| && t[i] == c;
      }
    }
  }

  // A poll after which the loop goes on.
  predicate Passes(outcome: PollOutcome) {
    outcome.Unresolved? || (outcome.Failed? && outcome.error.transient)
  }

  lemma ConcludeTells(outcome: PollOutcome)
    ensures Conclude(outcome).None? <==> Passes(outcome)
    ensures outcome.Resolved? ==> Tells(Conclude(outcome).value, outcome.payload)
    ensures outcome.Failed? && !Passes(outcome) ==> Conclude(outcome).value == Raised(outcome.error)
  {
    hide Tells, Settle, OrEmpty;
    if outcome.Resolved? {
      SettledTells(outcome.payload, Settle(OrEmpty(outcome.payload)));
    }
  }

  // The loop as its environment sees it: reading i of the clock is taken at the i-th loop test.
  datatype Session = Session(deadline: int, clock: nat -> int, aborts: nat -> bool, polls: nat -> PollOutcome)

  ghost predicate Undecided(s: Session, i: nat) {
    s.clock(i) < s.deadline && !s.aborts(i) && Passes(s.polls(i))
  }

  ghost predicate DecidedAt(s: Session, k: nat) {
    (forall i: nat | i < k :: Undecided(s, i)) && !Undecided(s, k)
  }

  // What ends the loop in round k: the deadline, a cancelled sleep, or else the poll.
  ghost predicate EndsIn(s: Session, k: nat, verdict: Verdict) {
    if s.clock(k) >= s.deadline then verdict == Raised(RelayError(Timeout, "", false))
    else if s.aborts(k) then verdict == Raised(RelayError(Aborted, "", false))
    else
      match s.polls(k)
      case Resolved(result) => Tells(verdict, result)
      case Failed(error) => verdict == Raised(error)
      case Unresolved => false
  }

  // The polls of a loop that ends in round k: one a round, none once the deadline has passed or a sleep is cancelled.
  ghost function Made(s: Session, k: nat): nat {
    if s.clock(k) < s.deadline && !s.aborts(k) then k + 1 else k
  }

  /** Where some round decides, the loop ends, and with what the first such round says; an error that is worth a retry
      never leaves it. The clock may stand still or step back. */
  method PollUntil(deadline: int, clock: nat -> int, aborts: nat -> bool, polls: nat -> PollOutcome)
    returns (verdict: Verdict, made: nat)
    requires var s := Session(deadline, clock, aborts, polls); exists k: nat :: !Undecided(s, k)
    ensures var s := Session(deadline, clock, aborts, polls);
      exists k: nat :: DecidedAt(s, k) && EndsIn(s, k, verdict) && made == Made(s, k)
    ensures verdict.Raised? ==> !verdict.error.transient
    ensures verdict.Returned? ==> made > 0 && polls(made - 1).Resolved? && Tells(verdict, polls(made - 1).payload)
  {
    hide Conclude, HasError;
    ghost var s := Session(deadline, clock, aborts, polls);
    ghost var end: nat :| !Undecided(s, end);
    made := 0;
    while clock(made) < deadline
      invariant forall i: nat | i < made :: Undecided(s, i)
      decreases end - made
    {
      if aborts(made) {
        assert DecidedAt(s, made);
        return Raised(ABORTED), made;
      }
      var concluded := Conclude(polls(made));
      ConcludeTells(polls(made));
      if concluded.Some? {
        assert DecidedAt(s, made) && EndsIn(s, made, concluded.value);
        return concluded.value, made + 1;
      }
      made := made + 1;
    }
    assert DecidedAt(s, made);
    return Raised(TIMED_OUT), made;
  }

  predicate IsOk(status: int) {
    200 <= status <= 299
  }

  // The relay knows the pairing, and that the computer does not poll.
  predicate SaysOffline(live: Transport<Liveness>) {
    live.Http? && IsOk(live.status) && live.body.paired && !live.body.desktopOnline
  }

  // The relay took the request and answered with an id that is not blank.
  ghost predicate IsAccepted(sending: Sending) {
    && sending.Sent? && sending.answer.Http? && IsOk(sending.answer.status)
    && var body := sending.answer.body;
      && body.JObject? && "requestId" in body.fields && body.fields["requestId"].JText?
      && !Text.AllSpace(body.fields["requestId"].text)
  }

  // Worth another poll: timeouts, rate limits and errors of the relay itself.
  predicate IsRetried(status: int) {
    status in {408, 429} || 500 <= status <= 599
  }

  predicate IsStatusError(status: int, error: RelayError) {
    && error.detail == "" && (error.transient <==> IsRetried(status))
    && (error.code == Auth <==> status in {401, 403}) && (error.code == InvalidConfig <==> status in {404, 410})
    && (error.code == Timeout <==> status in {408, 504}) && (error.code == RateLimited <==> status == 429)
    && (error.code == Upstream <==> 500 <= status <= 599 && status != 504)
    && (error.code == InvalidResponse <==> status !in {401, 403, 404, 410} && !IsRetried(status))
  }

  predicate IsFetchError<T>(t: Transport<T>, error: RelayError) {
    match t
    case NetworkFailure(why) => error == RelayError(Network, why, true)
    case Cancelled => error == RelayError(Aborted, "", false)
    case Http(status, _) => !IsOk(status) && IsStatusError(status, error)
  }

  lemma FetchErrors<T>(t: Transport<T>)
    ensures TransportError(t).None? <==> t.Http? && IsOk(t.status)
    ensures TransportError(t).Some? ==> IsFetchError(t, TransportError(t).value)
  {
  }

  predicate IsSendingError(sending: Sending, error: RelayError) {
    if sending.Oversized? then error == RelayError(TooLarge, "", false)
    else if sending.answer.Http? && IsOk(sending.answer.status) then error == RelayError(InvalidResponse, "", false)
    else IsFetchError(sending.answer, error)
  }

  lemma SendingErrors(sending: Sending)
    ensures SendingError(sending).None? <==> IsAccepted(sending)
    ensures SendingError(sending).Some? ==> IsSendingError(sending, SendingError(sending).value)
  {
    if sending.Sent? {
      FetchErrors(sending.answer);
      hide TransportError, IsFetchError;
      if sending.answer.Http? {
        var id := Field(sending.answer.body, "requestId");
        if id.JText? {
          Text.BlankIsSpace(id.text);
        }
        hide Text.Trim, Text.AllSpace;
      }
    }
  }

  /** The relay's id may stand between white space. */
  lemma RequestIdIsTrimmed(json: Json, before: string, id: string, after: string)
    requires json.JObject? && "requestId" in json.fields && json.fields["requestId"] == JText(before + id + after)
    requires Text.AllSpace(before) && Text.AllSpace(after)
    requires id != "" && !Text.IsSpace(id[0]) && !Text.IsSpace(id[|id| - 1])
    ensures RequestIdOf(json) == id
  {
    Text.TrimOf(before, id, after);
  }

  // forwardAi: an allowlisted path, the preflight, the request, then the loop.
  method ForwardAi(path: Path, live: Transport<Liveness>, sending: Sending, start: int, requestTimeoutMs: int,
                   clock: nat -> int, aborts: nat -> bool, polls: nat -> PollOutcome)
    returns (verdict: Verdict, made: nat)
    requires var s := Session(start + requestTimeoutMs, clock, aborts, polls); exists k: nat :: !Undecided(s, k)
    ensures !IsForwardable(path) ==> verdict == Raised(RelayError(PathNotAllowed, "", false)) && made == 0
    ensures IsForwardable(path) && live.Cancelled? ==> verdict == Raised(RelayError(Aborted, "", false)) && made == 0
    ensures IsForwardable(path) && SaysOffline(live) ==>
      verdict == Raised(RelayError(DesktopOffline, "", false)) && made == 0
    ensures IsForwardable(path) && !live.Cancelled? && !SaysOffline(live) && !IsAccepted(sending) ==>
      verdict.Raised? && IsSendingError(sending, verdict.error) && made == 0
    ensures IsForwardable(path) && !live.Cancelled? && !SaysOffline(live) && IsAccepted(sending) ==>
      var s := Session(start + requestTimeoutMs, clock, aborts, polls);
      exists k: nat :: DecidedAt(s, k) && EndsIn(s, k, verdict) && made == Made(s, k)
    ensures verdict.Raised? && verdict.error.transient ==> !IsAccepted(sending)
    ensures verdict.Returned? ==> made > 0 && polls(made - 1).Resolved? && Tells(verdict, polls(made - 1).payload)
  {
    SendingErrors(sending);
    hide SendingError, DecidedAt, Undecided, EndsIn, Made, Tells, IsSendingError, IsAccepted;
    if !IsForwardable(path) {
      return Raised(RelayError(PathNotAllowed, "", false)), 0;
    }
    if Preflight(live).Some? {
      return Raised(Preflight(live).value), 0;
    }
    if SendingError(sending).Some? {
      return Raised(SendingError(sending).value), 0;
    }
    verdict, made := PollUntil(start + requestTimeoutMs, clock, aborts, polls);
  }

  // Every sleep takes at least the interval.
  ghost predicate Paced(clock: nat -> int, intervalMs: int) {
    forall i: nat :: clock(i + 1) - clock(i) >= intervalMs
  }

  lemma {:induction false} ReadingsArePaced(clock: nat -> int, intervalMs: int, k: nat)
    requires Paced(clock, intervalMs)
    ensures clock(k) - clock(0) >= k * intervalMs
  {
    if k > 0 {
      ReadingsArePaced(clock, intervalMs, k - 1);
      assert clock(k - 1 + 1) - clock(k - 1) >= intervalMs;
      assert k * intervalMs == (k - 1) * intervalMs + intervalMs;
    }
  }

  /** With sleeps that take any time at all the deadline decides at the latest, so the loop ends whatever the relay
      does. */
  lemma DeadlineDecides(s: Session)
    requires Paced(s.clock, 1)
    ensures exists k: nat :: !Undecided(s, k)
  {
    var k: nat := if s.deadline > s.clock(0) then s.deadline - s.clock(0) else 0;
    ReadingsArePaced(s.clock, 1, k);
    assert !Undecided(s, k);
  }

  /** When each sleep takes at least the interval, the loop makes at most ceil(timeout / interval) polls. */
  lemma PollsAreBounded(s: Session, k: nat, start: int, requestTimeoutMs: int, intervalMs: int)
    requires DecidedAt(s, k) && Paced(s.clock, intervalMs)
    requires s.deadline == start + requestTimeoutMs && start <= s.clock(0)
    ensures Made(s, k) == 0 || Made(s, k) * intervalMs < requestTimeoutMs + intervalMs
  {
    var made := Made(s, k);
    if made > 0 {
      assert made - 1 < k ==> Undecided(s, made - 1);
      ReadingsArePaced(s.clock, intervalMs, made - 1);
      assert made * intervalMs == (made - 1) * intervalMs + intervalMs;
    }
  }

  function Quiet(outcome: PollOutcome): PollOutcome {
    if outcome.Failed? && outcome.error.transient then Unresolved else outcome
  }

  /** The first deciding round leaves one verdict only. */
  lemma OneVerdict(s: Session, k: nat, verdict: Verdict, other: Verdict)
    requires DecidedAt(s, k) && EndsIn(s, k, verdict) && EndsIn(s, k, other)
    ensures verdict == other
  {
    if s.polls(k).Resolved? {
      SettledTells(s.polls(k).payload, verdict);
      SettledTells(s.polls(k).payload, other);
    }
    hide Tells, Settle;
  }

  /** Transient errors of polls might as well be unresolved answers: the same round decides, and the same way. */
  lemma TransientErrorsChangeNothing(s: Session, k: nat, verdict: Verdict)
    ensures var t := s.(polls := (i: nat) => Quiet(s.polls(i)));
      && (DecidedAt(s, k) <==> DecidedAt(t, k))
      && (DecidedAt(s, k) ==> (EndsIn(s, k, verdict) <==> EndsIn(t, k, verdict)))
  {
    hide Tells;
    var t := s.(polls := (i: nat) => Quiet(s.polls(i)));
    forall i: nat ensures Undecided(s, i) <==> Undecided(t, i) {
      assert t.polls(i) == Quiet(s.polls(i));
    }
    assert t.polls(k) == Quiet(s.polls(k));
  }

  lemma OneRoundDecides(s: Session, j: nat, k: nat)
    requires DecidedAt(s, j) && DecidedAt(s, k)
    ensures j == k
  {
  }
}
