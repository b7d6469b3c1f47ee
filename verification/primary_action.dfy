/**
 The primary button: which action a click takes, the label it shows, when it
 is disabled, and the PoH status label beside it.
 */
module PrimaryAction {
  import opened Wrappers
  import Text
  import Chain
  import opened Session
  import Mint
  import NetworkSwitch

  datatype Action = Connect | SwitchNetwork | OpenPohPortal | SubmitMint

  /** `handlePrimaryAction`: connect, else switch network, else send an
      unverified account to the PoH portal, else mint. */
  function Choose(s: Session): Action {
    if !Text.Truthy(s.address) then Connect
    else if !Chain.IsOnLinea(s.chainId) then SwitchNetwork
    else if s.poh == Some(false) then OpenPohPortal
    else SubmitMint
  }

  /** The label naming each action when nothing is in progress. */
  function ActionLabel(a: Action): string {
    match a
    case Connect => "Connect Wallet"
    case SwitchNetwork => "Switch to Linea"
    case OpenPohPortal => "Click here to verify POH"
    case SubmitMint => "Mint Tickets"
  }

  const CheckingPohLabel := "Checking PoH\U{2026}"
  const MintingLabel := "Minting..."

  /** `buttonLabel`: a PoH check in progress and a mint in flight replace the
      label once an account on Linea is present. */
  function ButtonLabel(s: Session): string {
    if !Text.Truthy(s.address) then "Connect Wallet"
    else if !Chain.IsOnLinea(s.chainId) then "Switch to Linea"
    else if s.checkingPoh then CheckingPohLabel
    else if s.poh == Some(false) then "Click here to verify POH"
    else if s.minting then MintingLabel
    else "Mint Tickets"
  }

  /** `isPrimaryDisabled`: disabled while anything is busy. */
  predicate PrimaryDisabled(s: Session) {
    s.minting || s.loadingData || s.checkingPoh
  }

  /** The label names the action a click takes, except while an account on
      Linea has a PoH check running, or a mint in flight with PoH not known
      to have failed; those two cases are exactly when the label shows the
      progress instead. */
  lemma LabelNamesAction(s: Session)
    ensures ButtonLabel(s) == ActionLabel(Choose(s)) <==>
      !(Text.Truthy(s.address) && Chain.IsOnLinea(s.chainId)
        && (s.checkingPoh || (s.poh != Some(false) && s.minting)))
    ensures !PrimaryDisabled(s) ==> ButtonLabel(s) == ActionLabel(Choose(s))
  {
    assert CheckingPohLabel[0] == 'C' && MintingLabel[0] == 'M' && MintingLabel[1] == 'i';
    assert "Connect Wallet"[1] == 'o' && "Mint Tickets"[1] == 'i';
  }

  /** A verdict of "not verified" never disables the button, so the portal
      stays reachable; whether the button is disabled depends on the busy
      flags alone. */
  lemma PohVerdictNeverDisables(s: Session, p: Option<bool>)
    ensures PrimaryDisabled(s.(poh := p)) == PrimaryDisabled(s)
    ensures Choose(s) == OpenPohPortal && !s.minting && !s.loadingData && !s.checkingPoh ==>
      !PrimaryDisabled(s)
  {
  }

  /** The action is the first of connect, switch, portal whose condition
      holds, and mint otherwise; a state ready to mint always chooses mint. */
  lemma ActionPriority(s: Session, hasWallet: bool)
    ensures Choose(s) == Connect <==> !Text.Truthy(s.address)
    ensures Choose(s) == SwitchNetwork <==> Text.Truthy(s.address) && !Chain.IsOnLinea(s.chainId)
    ensures Choose(s) == OpenPohPortal <==>
      Text.Truthy(s.address) && Chain.IsOnLinea(s.chainId) && s.poh == Some(false)
    ensures Mint.ReadyToMint(s, hasWallet) ==> Choose(s) == SubmitMint
  {
    Mint.FirstFailingGuardDecides(s, hasWallet);
  }

  /** What one click does, with the wallet's and the chain's replies given.
      Connecting goes through the wallet's account prompt, which is not part
      of this model. */
  datatype Effect =
    | Connecting
    | Switching(run: NetworkSwitch.SwitchRun)
    | PortalOpened
    | Minting(mint: Mint.MintRun)

  function Click(s: Session, hasWallet: bool, w: NetworkSwitch.WalletScript, c: Mint.ChainScript): Effect {
    match Choose(s)
    case Connect => Connecting
    case SwitchNetwork => Switching(NetworkSwitch.SwitchToLinea(hasWallet, s.address, w))
    case OpenPohPortal => PortalOpened
    case SubmitMint => Minting(Mint.HandleMint(s, hasWallet, c))
  }

  /** A click from an account known not to be verified opens the portal and
      never reaches the contract; a click that does reach `handleMint` has
      already passed the account, network and PoH-verdict guards, so only a
      missing wallet, price, quantity or pending PoH check can stop it. */
  lemma ClickRespectsGuards(s: Session, hasWallet: bool, w: NetworkSwitch.WalletScript, c: Mint.ChainScript)
    ensures Text.Truthy(s.address) && Chain.IsOnLinea(s.chainId) && s.poh == Some(false) ==>
      Click(s, hasWallet, w, c) == PortalOpened
    ensures Click(s, hasWallet, w, c).Minting? ==>
      var run := Click(s, hasWallet, w, c).mint;
      && Mint.FailingGuard(s, hasWallet) != Some(Mint.NoAddress)
      && Mint.FailingGuard(s, hasWallet) != Some(Mint.WrongNetwork)
      && Mint.FailingGuard(s, hasWallet) != Some(Mint.PohNotVerified)
      && (run.outcome.Blocked? ==>
            run.outcome.guard in {Mint.NoWallet, Mint.PriceNotLoaded, Mint.QuantityBelowOne, Mint.OverMaxPerTx, Mint.PohPending})
  {
    if Click(s, hasWallet, w, c).Minting? {
      Mint.BlockedBeforeAnyCall(s, hasWallet, c);
    }
  }

  /** The page starts by offering to connect, with the button enabled and no
      PoH status shown. */
  lemma InitialOffersConnect()
    ensures Choose(Initial) == Connect && ButtonLabel(Initial) == ActionLabel(Connect)
    ensures !PrimaryDisabled(Initial) && PohLabel(Initial) == ""
  {
  }

  /** After a disconnect the button offers to connect again. */
  lemma DisconnectOffersConnect(s: Session)
    ensures Choose(Disconnect(s)) == Connect
    ensures ButtonLabel(Disconnect(s)) == ActionLabel(Connect)
  {
  }

  const NotVerifiedLabel := "Not verified \U{2013} required to mint"

  /** The PoH status label. */
  function PohLabel(s: Session): string {
    if s.checkingPoh then "Checking..."
    else if s.poh == Some(true) then "Verified"
    else if Text.Truthy(s.address) then NotVerifiedLabel
    else ""
  }

  /** "Verified" is shown only for a finished check that verified, and a
      connected account shows "Not verified" whenever no check is running and
      it is not verified, including when the status is unknown after a failed
      check; a disconnected page shows nothing. */
  lemma PohLabelCases(s: Session)
    ensures PohLabel(s) == "Verified" <==> !s.checkingPoh && s.poh == Some(true)
    ensures PohLabel(s) == NotVerifiedLabel <==>
      !s.checkingPoh && s.poh != Some(true) && Text.Truthy(s.address)
    ensures PohLabel(s) == "" <==> !s.checkingPoh && s.poh != Some(true) && !Text.Truthy(s.address)
    ensures PohLabel(Disconnect(s)) == ""
  {
    assert NotVerifiedLabel[0] == 'N';
  }

  /** The status label and the button agree on a failed verdict: whenever the
      button sends the user to the portal and no check runs, the label reads
      "Not verified". The reverse does not hold: an unknown status also reads
      "Not verified" while the button offers to mint. */
  lemma PortalAgreesWithLabel(s: Session)
    ensures Choose(s) == OpenPohPortal && !s.checkingPoh ==> PohLabel(s) == NotVerifiedLabel
    ensures PohLabel(s) == "Verified" && Text.Truthy(s.address) && Chain.IsOnLinea(s.chainId) ==>
      Choose(s) == SubmitMint
  {
  }
}
