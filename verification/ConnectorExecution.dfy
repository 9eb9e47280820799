/** Preparing and signing a connector transaction (connectorPrepareRouteChain, fetchPreparedTransactionWithFallback
    and executeBrowserConnectorAction in apps/browser-demo/src/connectorExecution.ts). The endpoints' answers and
    the wallet are parameters; the effects of a call are listed in order. */
module ConnectorExecution {
  import Text
  import opened Wrappers

  datatype Source = LocalBridge | Cloud | Browser

  datatype Availability = Availability(bridgeActive: bool, cloudSessionMatchesWallet: bool)

  datatype Route = Bridge | BridgeStateless | CloudApproval | CloudStateless

  // A field that is missing or not a string is None.
  datatype Prepared = Prepared(transactionBase64: Option<string>, summary: Option<string>)

  datatype Reply = Answered(prepared: Prepared) | Failed(message: string)

  // Signing also broadcasts; the status lookup follows it.
  datatype Signing = Broadcast(txid: string) | WalletThrew(message: string)

  datatype Lookup = Known(txStatus: string) | LookupThrew(message: string)

  datatype Effect = Requested(route: Route) | Signed(transactionBase64: string, summary: string) | LookedUp(txid: string)

  // What is thrown; the last three carry the message of a route, of the wallet and of the lookup.
  datatype Failure = NotAConnector | CannotSign | MissingTransaction | MissingSummary
                   | PrepareFailed(message: string) | WalletFailed(message: string) | StatusFailed(message: string)

  datatype Outcome = Submitted(txid: string, txStatus: string) | Raised(failure: Failure)

  method ConnectorPrepareRouteChain(source: Source, availability: Availability) returns (routes: seq<Route>)
    ensures routes == RouteChain(source, availability)
  {
    routes := [];
    if source == LocalBridge {
      if availability.bridgeActive {
        routes := routes + [Bridge, BridgeStateless];
      }
      routes := routes + [CloudStateless];
      return;
    }
    if source == Cloud {
      if availability.cloudSessionMatchesWallet {
        routes := routes + [CloudApproval];
      }
      routes := routes + [CloudStateless];
      return;
    }
    if availability.bridgeActive {
      routes := routes + [BridgeStateless];
    }
    routes := routes + [CloudStateless];
  }

  function RouteChain(source: Source, availability: Availability): (routes: seq<Route>)
    ensures routes != [] && routes[|routes| - 1] == CloudStateless
  {
    match source
    case LocalBridge => if availability.bridgeActive then [Bridge, BridgeStateless, CloudStateless] else [CloudStateless]
    case Cloud => if availability.cloudSessionMatchesWallet then [CloudApproval, CloudStateless] else [CloudStateless]
    case Browser => if availability.bridgeActive then [BridgeStateless, CloudStateless] else [CloudStateless]
  }

  // The stored action before stateless routes, the local bridge before the cloud.
  function Preference(route: Route): nat {
    match route
    case Bridge => 0
    case BridgeStateless => 1
    case CloudApproval => 2
    case CloudStateless => 3
  }

  predicate IsOpen(source: Source, availability: Availability, route: Route) {
    match route
    case Bridge => source == LocalBridge && availability.bridgeActive
    case BridgeStateless => source != Cloud && availability.bridgeActive
    case CloudApproval => source == Cloud && availability.cloudSessionMatchesWallet
    case CloudStateless => true
  }

  /** The chain holds exactly the open routes, each once, by preference. */
  lemma ChainIsTheOpenRoutes(source: Source, availability: Availability)
    ensures forall route :: route in RouteChain(source, availability) <==> IsOpen(source, availability, route)
    ensures var routes := RouteChain(source, availability);
      forall i, j | 0 <= i < j < |routes| :: Preference(routes[i]) < Preference(routes[j])
  {
  }

  function Requests(routes: seq<Route>): seq<Effect> {
    seq(|routes|, i requires 0 <= i < |routes| => Requested(routes[i]))
  }

  // The first route that answers, or none.
  function FirstAnswer(routes: seq<Route>, replies: Route -> Reply): (k: nat)
    ensures k <= |routes|
    ensures k < |routes| ==> replies(routes[k]).Answered?
    ensures forall i | 0 <= i < k :: replies(routes[i]).Failed?
  {
    if routes == [] || replies(routes[0]).Answered? then 0 else 1 + FirstAnswer(routes[1..], replies)
  }

  // requireConnectorString lets a string through that is not blank.
  predicate Usable(value: Option<string>)
    ensures Usable(value) <==> value.Some? && exists c :: c in value.value && !Text.IsSpace(c)
  {
    assert value.Some? ==> (Text.IsBlank(value.value) <==> Text.AllSpace(value.value)) by {
      if value.Some? { Text.BlankIsSpace(value.value); }
    }
    value.Some? && !Text.IsBlank(value.value)
  }

  method FetchWithFallback(routes: seq<Route>, replies: Route -> Reply) returns (reply: Reply, effects: seq<Effect>)
    requires routes != []
    ensures var k := FirstAnswer(routes, replies);
      if k < |routes| then reply == replies(routes[k]) && effects == Requests(routes[..k + 1])
      else reply == replies(routes[|routes| - 1]) && effects == Requests(routes)
  {
    reply, effects := Failed("Connector prepare-transaction failed."), [];
    for i := 0 to |routes|
      invariant i <= FirstAnswer(routes, replies)
      invariant effects == Requests(routes[..i])
      invariant i > 0 ==> reply == replies(routes[i - 1])
    {
      effects := effects + [Requested(routes[i])];
      assert effects == Requests(routes[..i + 1]);
      reply := replies(routes[i]);
      if reply.Answered? {
        return;
      }
    }
    assert routes[..|routes|] == routes;
  }

  // What a usable answer leads to: the wallet's error, the lookup's, or the submitted transaction.
  function AfterSigning(signed: Signing, lookup: string -> Lookup): Outcome {
    if signed.WalletThrew? then Raised(WalletFailed(signed.message))
    else if lookup(signed.txid).LookupThrew? then Raised(StatusFailed(lookup(signed.txid).message))
    else Submitted(signed.txid, lookup(signed.txid).txStatus)
  }

  /** Requests go to the open routes in turn up to the first that answers. The wallet signs at most once, after them, and
      exactly the bytes of that answer; an answer without bytes or summary is an error, not a reason to go on. The
      status is looked up once the transaction is out, so an error of the lookup does not mean that nothing was signed. */
  method ExecuteBrowserConnectorAction(connectorKind: bool, canSign: bool, source: Source, availability: Availability,
                                       replies: Route -> Reply, sign: (string, string) -> Signing, lookup: string -> Lookup)
    returns (outcome: Outcome, effects: seq<Effect>)
    ensures !connectorKind ==> outcome == Raised(NotAConnector) && effects == []
    ensures connectorKind && !canSign ==> outcome == Raised(CannotSign) && effects == []
    ensures connectorKind && canSign ==>
      var routes := RouteChain(source, availability); var k := FirstAnswer(routes, replies);
      if k == |routes| then
        outcome == Raised(PrepareFailed(replies(CloudStateless).message)) && effects == Requests(routes)
      else
        var prepared, requests := replies(routes[k]).prepared, Requests(routes[..k + 1]);
        if !Usable(prepared.transactionBase64) then outcome == Raised(MissingTransaction) && effects == requests
        else if !Usable(prepared.summary) then outcome == Raised(MissingSummary) && effects == requests
        else
          var signed := sign(prepared.transactionBase64.value, prepared.summary.value);
          var signing := requests + [Signed(prepared.transactionBase64.value, prepared.summary.value)];
          && outcome == AfterSigning(signed, lookup)
          && effects == if signed.Broadcast? then signing + [LookedUp(signed.txid)] else signing
  {
    if !connectorKind {
      return Raised(NotAConnector), [];
    }
    if !canSign {
      return Raised(CannotSign), [];
    }
    hide Usable, RouteChain, FirstAnswer, Requests;
    var routes := ConnectorPrepareRouteChain(source, availability);
    var reply;
    reply, effects := FetchWithFallback(routes, replies);
    if reply.Failed? {
      return Raised(PrepareFailed(reply.message)), effects;
    }
    var prepared := reply.prepared;
    if !Usable(prepared.transactionBase64) {
      return Raised(MissingTransaction), effects;
    }
    if !Usable(prepared.summary) {
      return Raised(MissingSummary), effects;
    }
    var signed := sign(prepared.transactionBase64.value, prepared.summary.value);
    effects := effects + [Signed(prepared.transactionBase64.value, prepared.summary.value)];
    if signed.WalletThrew? {
      return Raised(WalletFailed(signed.message)), effects;
    }
    var status := lookup(signed.txid);
    effects := effects + [LookedUp(signed.txid)];
    if status.LookupThrew? {
      return Raised(StatusFailed(status.message)), effects;
    }
    return Submitted(signed.txid, status.txStatus), effects;
  }
}
