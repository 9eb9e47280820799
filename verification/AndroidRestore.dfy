/** Restoring a wallet on Android (restoreLatestAndroidNativeWallet and the reconnect methods and applyStatus
    of AndroidNativeWalletBackend in apps/browser-demo/src/androidNative.ts). What the native side answers to
    each method is a parameter. */
module AndroidRestore {
  import Text
  import opened Wrappers

  datatype Method = ReconnectSession | ReconnectForPubkey | ReconnectLatest

  // `unsupported` is isUnsupportedAndroidNativeBridgeMethodError.
  datatype Error = Error(code: string, unsupported: bool)

  // An absent address is "".
  datatype Status = Status(address: string, cachedCount: nat)

  datatype Reply = Answers(status: Status) | Fails(error: Error)

  // The options as given; the code trims them.
  datatype Options = Options(address: string, authCacheKey: string, walletPackage: string, hasWalletType: bool)

  datatype Attempt = Found(address: string) | Nothing | Threw(error: Error)

  datatype Outcome = Restored(address: string, via: Method) | NoWallet | Raised(error: Error)

  const UNAUTHORIZED := Error("unauthorized", false)

  function Expected(o: Options): string {
    Text.Trim(o.address)
  }

  function Attempts(o: Options): seq<Method> {
    (if !Text.IsBlank(o.authCacheKey) then [ReconnectSession] else [])
    + (if Expected(o) != "" && (!Text.IsBlank(o.walletPackage) || o.hasWalletType) then [ReconnectForPubkey] else [])
    + [ReconnectLatest]
  }

  function ResultOf(o: Options, attempted: Method, reply: Reply): Attempt {
    match reply
    case Fails(error) => Threw(error)
    case Answers(status) =>
      if attempted == ReconnectSession && Expected(o) != "" && status.address != "" && status.address != Expected(o)
      then Threw(UNAUTHORIZED)
      else if status.address == "" then Nothing else Found(status.address)
  }

  // Why the loop goes on to the next attempt.
  predicate FallsThrough(o: Options, attempted: Method, result: Attempt) {
    || result.Nothing? || (result.Threw? && result.error.unsupported)
    || (result.Found? && attempted != ReconnectLatest && Expected(o) != "" && result.address != Expected(o))
  }

  function Chain(o: Options, methods: seq<Method>, replies: Method -> Reply): Outcome {
    if methods == [] then NoWallet
    else
      var result := ResultOf(o, methods[0], replies(methods[0]));
      if FallsThrough(o, methods[0], result) then Chain(o, methods[1..], replies)
      else if result.Threw? then Raised(result.error)
      else Restored(result.address, methods[0])
  }

  class AndroidNativeWalletBackend {
    var activeStatus: Option<Status>

    constructor ()
      ensures activeStatus == None
    {
      activeStatus := None;
    }

    method Reconnect(o: Options, attempted: Method, reply: Reply) returns (result: Attempt)
      modifies this
      ensures result == ResultOf(o, attempted, reply)
      ensures activeStatus == if reply.Answers? then Some(reply.status) else old(activeStatus)
    {
      if reply.Fails? {
        return Threw(reply.error);
      }
      activeStatus := Some(reply.status);
      var address := reply.status.address;
      if attempted == ReconnectSession && Expected(o) != "" && address != "" && address != Expected(o) {
        return Threw(UNAUTHORIZED);
      }
      return if address == "" then Nothing else Found(address);
    }

    method RestoreLatest(o: Options, replies: Method -> Reply) returns (outcome: Outcome)
      modifies this
      ensures outcome == Chain(o, Attempts(o), replies)
      ensures outcome.Restored? ==> activeStatus.Some? && activeStatus.value.address == outcome.address
      ensures outcome.Restored? ==> replies(outcome.via).Answers? && activeStatus == Some(replies(outcome.via).status)
    {
      hide Expected, Text.IsBlank;
      var attempts: seq<Method> := [];
      if !Text.IsBlank(o.authCacheKey) {
        attempts := attempts + [ReconnectSession];
      }
      if Expected(o) != "" && (!Text.IsBlank(o.walletPackage) || o.hasWalletType) {
        attempts := attempts + [ReconnectForPubkey];
      }
      attempts := attempts + [ReconnectLatest];
      assert attempts == Attempts(o);
      hide Attempts;
      for i := 0 to |attempts|
        invariant Chain(o, attempts, replies) == Chain(o, attempts[i..], replies)
      {
        assert attempts[i..][1..] == attempts[i + 1..];
        var result := Reconnect(o, attempts[i], replies(attempts[i]));
        if result.Threw? {
          if result.error.unsupported {
            continue;
          }
          return Raised(result.error);
        }
        if result.Nothing? {
          continue;
        }
        if attempts[i] != ReconnectLatest && Expected(o) != "" && result.address != Expected(o) {
          continue;
        }
        return Restored(result.address, attempts[i]);
      }
      return NoWallet;
    }
  }

  // The session that was saved, then the account by its address, then whatever was authorized last.
  function Order(attempted: Method): nat {
    match attempted
    case ReconnectSession => 0
    case ReconnectForPubkey => 1
    case ReconnectLatest => 2
  }

  predicate HasText(s: string) {
    !Text.AllSpace(s)
  }

  // What the options allow.
  predicate IsTried(o: Options, attempted: Method) {
    match attempted
    case ReconnectSession => HasText(o.authCacheKey)
    case ReconnectForPubkey => HasText(o.address) && (HasText(o.walletPackage) || o.hasWalletType)
    case ReconnectLatest => true
  }

  /** Exactly the attempts that the options allow are made, each once, in this order. */
  lemma AttemptsAreInOrder(o: Options)
    ensures forall attempted: Method :: attempted in Attempts(o) <==> IsTried(o, attempted)
    ensures var attempts := Attempts(o); forall i, j | 0 <= i < j < |attempts| :: Order(attempts[i]) < Order(attempts[j])
  {
    Text.BlankIsSpace(o.authCacheKey);
    Text.BlankIsSpace(o.address);
    Text.BlankIsSpace(o.walletPackage);
    hide Text.Trim, Text.AllSpace;
  }

  // An answer is taken when it has an address, and the one to expect if there is one; only the latest authorization
  // may be another's.
  predicate Takes(o: Options, attempted: Method, reply: Reply) {
    && reply.Answers? && reply.status.address != ""
    && (attempted == ReconnectLatest || Expected(o) in {"", reply.status.address})
  }

  // The bridge knows the method and fails, or the saved session is another account's.
  predicate Stops(o: Options, attempted: Method, reply: Reply) {
    match reply
    case Fails(error) => !error.unsupported
    case Answers(status) => attempted == ReconnectSession && Expected(o) != "" && status.address !in {"", Expected(o)}
  }

  /** The first attempt whose answer is taken or stops the restore decides; the others are passed over. */
  lemma {:induction false} ChainIsTheFirstDecisive(o: Options, methods: seq<Method>, replies: Method -> Reply, k: nat)
    requires k <= |methods|
    requires forall i | 0 <= i < k :: !Takes(o, methods[i], replies(methods[i])) && !Stops(o, methods[i], replies(methods[i]))
    requires k < |methods| ==> Takes(o, methods[k], replies(methods[k])) || Stops(o, methods[k], replies(methods[k]))
    ensures Chain(o, methods, replies) ==
      if k == |methods| then NoWallet
      else
        match replies(methods[k])
        case Fails(error) => Raised(error)
        case Answers(status) =>
          if Takes(o, methods[k], replies(methods[k])) then Restored(status.address, methods[k])
          else Raised(Error("unauthorized", false))
  {
    hide Expected;
    if k > 0 {
      var rest := methods[1..];
      assert forall i | 0 <= i < |rest| :: rest[i] == methods[i + 1];
      assert FallsThrough(o, methods[0], ResultOf(o, methods[0], replies(methods[0])));
      ChainIsTheFirstDecisive(o, rest, replies, k - 1);
    }
  }

  /** A restored address is the expected one unless none was expected or the latest authorization won. */
  lemma {:induction false} RestoredIsExpected(o: Options, methods: seq<Method>, replies: Method -> Reply)
    requires Chain(o, methods, replies).Restored?
    ensures var outcome := Chain(o, methods, replies);
      outcome.address != "" && outcome.via in methods
      && (outcome.address == Expected(o) || outcome.via == ReconnectLatest || Expected(o) == "")
  {
    hide Expected;
    if FallsThrough(o, methods[0], ResultOf(o, methods[0], replies(methods[0]))) {
      RestoredIsExpected(o, methods[1..], replies);
    }
  }

  /** A session that comes back with another address ends the restore: unlike any other mismatch it is an
      error, and neither of the other attempts is made. */
  lemma SessionMismatchStops(o: Options, replies: Method -> Reply)
    requires !Text.IsBlank(o.authCacheKey) && Expected(o) != "" && replies(ReconnectSession).Answers?
    requires replies(ReconnectSession).status.address !in {"", Expected(o)}
    ensures Chain(o, Attempts(o), replies) == Raised(UNAUTHORIZED)
  {
    hide Expected, Text.IsBlank;
    assert Attempts(o)[0] == ReconnectSession;
  }

  /** An answer with another address than the expected one makes the restore go on if and only if it is to the reconnect by
      address: the session attempt throws, and the latest authorization is taken. */
  lemma MismatchFallsThroughIff(o: Options, attempted: Method, status: Status)
    requires Expected(o) != "" && status.address !in {"", Expected(o)}
    ensures var result := ResultOf(o, attempted, Answers(status));
      && (FallsThrough(o, attempted, result) <==> attempted == ReconnectForPubkey)
      && (attempted == ReconnectSession ==> result == Threw(UNAUTHORIZED))
      && (attempted == ReconnectLatest ==> result == Found(status.address))
  {
    hide Expected;
  }

  /** What follows in the chain when the attempts before it have fallen through. */
  lemma {:induction false} MismatchDecides(o: Options, methods: seq<Method>, replies: Method -> Reply, k: nat)
    requires k < |methods| && Expected(o) != ""
    requires forall i | 0 <= i < k :: FallsThrough(o, methods[i], ResultOf(o, methods[i], replies(methods[i])))
    requires replies(methods[k]).Answers? && replies(methods[k]).status.address !in {"", Expected(o)}
    ensures Chain(o, methods, replies) ==
      match methods[k]
      case ReconnectSession => Raised(UNAUTHORIZED)
      case ReconnectForPubkey => Chain(o, methods[k + 1..], replies)
      case ReconnectLatest => Restored(replies(methods[k]).status.address, ReconnectLatest)
  {
    hide Expected;
    if k == 0 {
      MismatchFallsThroughIff(o, methods[0], replies(methods[0]).status);
    } else {
      var rest := methods[1..];
      assert forall i | 0 <= i < |rest| :: rest[i] == methods[i + 1];
      assert rest[k..] == methods[k + 1..];
      MismatchDecides(o, rest, replies, k - 1);
    }
  }

  // Where every attempt is answered, the restore ends without an error.
  ghost predicate NeverRaises(o: Options) {
    forall replies: Method -> Reply | forall m: Method :: replies(m).Answers? :: !Chain(o, Attempts(o), replies).Raised?
  }

  /** Answers alone can make the restore raise an error if and only if there is both a session key and an address to
      expect. */
  lemma NeverRaisesIff(o: Options)
    ensures NeverRaises(o) <==> Text.IsBlank(o.authCacheKey) || Expected(o) == ""
  {
    hide Expected, Text.IsBlank;
    if !Text.IsBlank(o.authCacheKey) && Expected(o) != "" {
      var replies := (m: Method) => Answers(Status(Expected(o) + "x", 0));
      assert replies(ReconnectSession).status.address != Expected(o) by {
        assert |Expected(o) + "x"| == |Expected(o)| + 1;
      }
      SessionMismatchStops(o, replies);
    } else {
      forall replies: Method -> Reply | forall m: Method :: replies(m).Answers?
        ensures !Chain(o, Attempts(o), replies).Raised?
      {
        AnsweredChain(o, Attempts(o), replies);
      }
    }
  }

  lemma {:induction false} AnsweredChain(o: Options, methods: seq<Method>, replies: Method -> Reply)
    requires forall m: Method :: replies(m).Answers?
    requires ReconnectSession in methods ==> Expected(o) == ""
    ensures !Chain(o, methods, replies).Raised?
  {
    hide Expected;
    if methods != [] {
      assert methods[0] in methods;
      AnsweredChain(o, methods[1..], replies);
    }
  }
}
