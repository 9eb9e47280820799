/** The desktop connect flow (reduceDesktopConnectFlow and previousStep in
    apps/browser-demo/src/desktopConnectFlow.ts). */
module DesktopConnectFlow {
  import opened Wrappers

  datatype Step = Idle | Method | Extension | Qr | Ledger | AwaitingBrowser

  datatype Wallet = Backpack | Jupiter | Phantom | Solflare

  datatype State = State(step: Step, extensionDiscovered: bool, selectedBrandId: Option<string>,
                         awaitingBrowserStartedAt: Option<int>, qrWallet: Option<Wallet>)

  datatype Choice = ByExtension | ByQr | ByLedger

  datatype Action =
    | StartMethod
    | PickMethod(choice: Choice)
    | MarkExtensionDiscovered
    | PickQrWallet(wallet: Option<Wallet>)
    | BeginAwaitingBrowser(brandId: Option<string>, startedAt: int)
    | Back
    | Reset

  function EmptyAt(step: Step): State {
    State(step, false, None, None, None)
  }

  const INITIAL := EmptyAt(Idle)

  function MethodStep(choice: Choice): Step {
    match choice
    case ByExtension => Extension
    case ByQr => Qr
    case ByLedger => Ledger
  }

  function PreviousStep(s: State): State {
    match s.step
    case Idle => s
    case Method => INITIAL
    case Extension | Ledger | AwaitingBrowser => EmptyAt(Method)
    case Qr => if s.qrWallet.Some? then s.(qrWallet := None, selectedBrandId := None) else EmptyAt(Method)
  }

  function Reduce(s: State, action: Action): State {
    match action
    case StartMethod => if s.step != Idle then s else EmptyAt(Method)
    case PickMethod(choice) => if s.step != Method then s else EmptyAt(MethodStep(choice))
    case MarkExtensionDiscovered => if s.step != Extension then s else s.(extensionDiscovered := true)
    case PickQrWallet(wallet) =>
      if s.step != Qr || s.qrWallet == wallet then s else s.(qrWallet := wallet, selectedBrandId := None)
    case BeginAwaitingBrowser(brandId, startedAt) => State(AwaitingBrowser, false, brandId, Some(startedAt), None)
    case Back => PreviousStep(s)
    case Reset => if s.step == Idle then s else INITIAL
  }

  function Run(actions: seq<Action>): State {
    if actions == [] then INITIAL else Reduce(Run(actions[..|actions| - 1]), actions[|actions| - 1])
  }

  function Backs(s: State, n: nat): State
    decreases n
  {
    if n == 0 then s else Backs(Reduce(s, Back), n - 1)
  }

  // Each field is set in its own step only.
  predicate Tidy(s: State) {
    && (s.extensionDiscovered ==> s.step == Extension)
    && (s.selectedBrandId.Some? ==> s.step == AwaitingBrowser)
    && (s.awaitingBrowserStartedAt.Some? <==> s.step == AwaitingBrowser)
    && (s.qrWallet.Some? ==> s.step == Qr)
  }

  function Depth(s: State): nat {
    match s.step
    case Idle => 0
    case Method => 1
    case Extension | Ledger | AwaitingBrowser => 2
    case Qr => if s.qrWallet.Some? then 3 else 2
  }

  // ---- The flow as a stack of screens --------------------------------------------------------------------

  // What the user has entered, outermost first; a scan replaces the extension screen by its result.
  datatype Screen = Methods | Chosen(choice: Choice) | Scanned | WalletQr(wallet: Wallet) | Waiting(brandId: Option<string>, startedAt: int)

  // Forward actions enter a screen from the one that offers it, Back leaves the last one, and waiting for the browser
  // replaces whatever is below the choice of a method.
  function Next(screens: seq<Screen>, action: Action): seq<Screen> {
    match action
    case StartMethod => if screens == [] then [Methods] else screens
    case PickMethod(choice) => if screens == [Methods] then [Methods, Chosen(choice)] else screens
    case MarkExtensionDiscovered => if screens == [Methods, Chosen(ByExtension)] then [Methods, Scanned] else screens
    case PickQrWallet(wallet) =>
      if [Methods, Chosen(ByQr)] <= screens then
        [Methods, Chosen(ByQr)] + (if wallet.Some? then [WalletQr(wallet.value)] else [])
      else screens
    case BeginAwaitingBrowser(brandId, startedAt) => [Methods, Waiting(brandId, startedAt)]
    case Back => if screens == [] then [] else screens[..|screens| - 1]
    case Reset => []
  }

  function Screens(actions: seq<Action>): seq<Screen> {
    if actions == [] then [] else Next(Screens(actions[..|actions| - 1]), actions[|actions| - 1])
  }

  // The state that shows these screens.
  predicate Shows(s: State, screens: seq<Screen>) {
    if screens == [] then s == State(Idle, false, None, None, None)
    else if screens == [Methods] then s == State(Method, false, None, None, None)
    else if |screens| == 2 && screens[0] == Methods then
      match screens[1]
      case Chosen(ByExtension) => s == State(Extension, false, None, None, None)
      case Chosen(ByQr) => s == State(Qr, false, None, None, None)
      case Chosen(ByLedger) => s == State(Ledger, false, None, None, None)
      case Scanned => s == State(Extension, true, None, None, None)
      case Waiting(brandId, startedAt) => s == State(AwaitingBrowser, false, brandId, Some(startedAt), None)
      case _ => false
    else
      && |screens| == 3 && screens[0] == Methods && screens[1] == Chosen(ByQr) && screens[2].WalletQr?
      && s == State(Qr, false, None, None, Some(screens[2].wallet))
  }

  lemma NextIsShown(s: State, screens: seq<Screen>, action: Action)
    requires Shows(s, screens)
    ensures Shows(Reduce(s, action), Next(screens, action))
  {
    if |screens| == 2 {
      assert screens == [screens[0], screens[1]] && screens[..1] == [screens[0]];
    } else if |screens| == 3 {
      assert screens == [screens[0], screens[1], screens[2]] && screens[..2] == [screens[0], screens[1]];
    }
  }

  /** The reducer is a stack of screens: after any actions the state shows exactly the screens that they have entered and
      not left. */
  lemma {:induction false} RunShowsItsScreens(actions: seq<Action>)
    ensures Shows(Run(actions), Screens(actions))
  {
    if actions != [] {
      RunShowsItsScreens(actions[..|actions| - 1]);
      NextIsShown(Run(actions[..|actions| - 1]), Screens(actions[..|actions| - 1]), actions[|actions| - 1]);
    }
  }

  lemma {:induction false} RunIsTidy(actions: seq<Action>)
    ensures Tidy(Run(actions))
  {
    if actions != [] {
      RunIsTidy(actions[..|actions| - 1]);
    }
  }

  lemma BackIsOneUp(s: State)
    requires Tidy(s)
    ensures Tidy(PreviousStep(s)) && Depth(PreviousStep(s)) == if s.step == Idle then 0 else Depth(s) - 1
    ensures s.step == Idle <==> s == INITIAL
  {
  }

  /** From any reachable state `back` leads to the initial state, after exactly as many presses as screens have been
      entered, and that is at most three. */
  lemma BackReachesIdle(actions: seq<Action>, n: nat)
    ensures |Screens(actions)| <= 3
    ensures Backs(Run(actions), n) == State(Idle, false, None, None, None) <==> n >= |Screens(actions)|
  {
    RunIsTidy(actions);
    RunShowsItsScreens(actions);
    BacksReachIdle(Run(actions), n);
    hide Run, Screens;
  }

  lemma {:induction false} BacksReachIdle(s: State, n: nat)
    requires Tidy(s)
    ensures Backs(s, n) == INITIAL <==> n >= Depth(s)
    decreases n
  {
    BackIsOneUp(s);
    if n > 0 {
      BacksReachIdle(PreviousStep(s), n - 1);
    }
  }
}
