/**
 The page's session state and the synchronous effects of the events that
 change it: disconnecting, the wallet's `accountsChanged` and `chainChanged`
 notifications, and the Proof of Humanity (PoH) check.

 An async handler runs synchronously up to its first `await`; the effects
 modelled here for `loadContractData` and `checkPohStatus` started by an
 event are exactly that synchronous part (busy flags set, stale values
 cleared). Their completions are separate transitions.
 */
module Session {
  import opened Wrappers
  import Text

  /** The React state of the page that the decision logic reads.
      `poh` is the `boolean | null` verification tri-state: `Some(true)`
      verified, `Some(false)` not verified, `None` unknown. Amounts are in wei. */
  datatype Session = Session(
    address: Option<string>,
    chainId: Option<string>,
    mintPrice: Option<nat>,
    maxPerTx: nat,
    walletMints: nat,
    freeRemaining: Option<nat>,
    poh: Option<bool>,
    checkingPoh: bool,
    loadingData: bool,
    minting: bool,
    quantity: int,
    error: Option<string>,
    success: Option<string>,
    autoConnect: bool)

  /** The state the page starts in. */
  const Initial := Session(None, None, None, 0, 0, None, None, false, false, false, 1, None, None, true)

  const PohAdvisory := "Could not check Proof of Humanity."

  /** The price, the limit, the quantity and the in-flight flag: the parts of
      the state the wallet events and the PoH check never touch. */
  predicate SameMintSettings(a: Session, b: Session) {
    && a.mintPrice == b.mintPrice && a.maxPerTx == b.maxPerTx
    && a.minting == b.minting && a.quantity == b.quantity
  }

  /** `disconnectWallet`: forget the account and everything derived from it. */
  function Disconnect(s: Session): (r: Session)
    ensures !Text.Truthy(r.address) && r.chainId.None?
    ensures r.walletMints == 0 && r.freeRemaining.None? && r.poh.None? && !r.checkingPoh
    ensures r.error.None? && r.success.None? && !r.autoConnect
    ensures SameMintSettings(r, s) && r.loadingData == s.loadingData
  {
    s.(address := None, chainId := None, walletMints := 0, freeRemaining := None,
       poh := None, checkingPoh := false, error := None, success := None,
       autoConnect := false)
  }

  /** The synchronous part of `loadContractData` (provider present). */
  function BeginLoad(s: Session): Session {
    s.(loadingData := true, error := None)
  }

  const LoadErrorText := "Error loading contract data. Check network & contract."

  /** What the reads of `loadContractData` returned. `sale` is the price and
      the per-transaction limit, `None` when any of the six parallel contract
      reads failed. For an account, `walletMints` is its mint count and
      `freeRemaining` its free-mint preview, each `None` when that read
      failed; the preview is read only after the mint count. The maximum per
      wallet, the supply figures and the daily allowance it also reads are
      display values outside this model. */
  datatype LoadReply = LoadReply(sale: Option<(nat, nat)>, walletMints: Option<nat>, freeRemaining: Option<nat>)

  /** The completion of `loadContractData` for the account `address`: a failed
      contract read shows the load error and writes nothing; otherwise the
      price and the limit are stored, then the account's counters as far as
      their reads succeeded, whose failure is only logged. */
  function FinishLoad(s: Session, address: Option<string>, reply: LoadReply): Session {
    match reply.sale
    case None => s.(loadingData := false, error := Some(LoadErrorText))
    case Some((price, limit)) =>
      var t := s.(loadingData := false, mintPrice := Some(price), maxPerTx := limit);
      if Text.Truthy(address) && reply.walletMints.Some? then
        var u := t.(walletMints := reply.walletMints.value);
        if reply.freeRemaining.Some? then u.(freeRemaining := reply.freeRemaining) else u
      else t
  }

  /** One whole `loadContractData` for the current account, with a provider
      present: it ends not loading and clears the error. A failed contract
      read shows the load error and changes nothing else. A successful one
      stores the price and the limit, and for a connected account the mint
      count and, when that read also succeeded, the free-mint count; no
      other field changes. */
  function Load(s: Session, reply: LoadReply): (r: Session)
    ensures !r.loadingData
    ensures r.error.Some? <==> reply.sale.None?
    ensures reply.sale.None? ==> r == s.(loadingData := false, error := Some(LoadErrorText))
    ensures reply.sale.Some? ==>
      && r.mintPrice == Some(reply.sale.value.0) && r.maxPerTx == reply.sale.value.1
      && r.walletMints == (if Text.Truthy(s.address) && reply.walletMints.Some?
                           then reply.walletMints.value else s.walletMints)
      && r.freeRemaining == (if Text.Truthy(s.address) && reply.walletMints.Some? && reply.freeRemaining.Some?
                             then reply.freeRemaining else s.freeRemaining)
    ensures r == s.(loadingData := false, error := r.error, mintPrice := r.mintPrice,
                    maxPerTx := r.maxPerTx, walletMints := r.walletMints,
                    freeRemaining := r.freeRemaining)
  {
    FinishLoad(BeginLoad(s), s.address, reply)
  }

  /** The synchronous part of `checkPohStatus`: the status is unknown from the
      moment a check starts, so an earlier verdict is never read as current. */
  function BeginPohCheck(s: Session): Session {
    s.(checkingPoh := true, poh := None)
  }

  /** The wallet's `accountsChanged` notification. An empty list clears the
      account; otherwise the first account becomes current and a data load
      and a PoH check start for it. */
  function AccountsChanged(s: Session, accounts: seq<string>): (r: Session)
    ensures r.poh.None?
    ensures SameMintSettings(r, s) && r.chainId == s.chainId
    ensures r.success == s.success && r.autoConnect == s.autoConnect
    ensures accounts == [] ==>
      && r.address.None? && r.walletMints == 0 && r.freeRemaining.None?
      && r.error == s.error && r.checkingPoh == s.checkingPoh && r.loadingData == s.loadingData
    ensures accounts != [] ==>
      && r.address == Some(accounts[0]) && r.checkingPoh && r.loadingData && r.error.None?
      && r.walletMints == s.walletMints && r.freeRemaining == s.freeRemaining
  {
    if accounts == [] then
      s.(address := None, walletMints := 0, freeRemaining := None, poh := None)
    else
      BeginPohCheck(BeginLoad(s.(address := Some(accounts[0]))))
  }

  /** The wallet's `chainChanged` notification: the new id is stored, and with
      an account present a data load and a PoH check start. */
  function ChainChanged(s: Session, chainId: string): (r: Session)
    ensures r.chainId == Some(chainId) && r.address == s.address && SameMintSettings(r, s)
    ensures Text.Truthy(s.address) ==>
      && r.poh.None? && r.checkingPoh && r.loadingData && r.error.None?
      && r.walletMints == s.walletMints && r.freeRemaining == s.freeRemaining
      && r.success == s.success && r.autoConnect == s.autoConnect
    ensures !Text.Truthy(s.address) ==> r == s.(chainId := Some(chainId))
  {
    var t := s.(chainId := Some(chainId));
    if Text.Truthy(s.address) then BeginPohCheck(BeginLoad(t)) else t
  }

  /** What the PoH endpoint answered: an HTTP status with its body, or a
      transport failure (no response, or the body could not be read). */
  datatype PohReply = HttpReply(status: int, body: string) | TransportFailure

  /** `res.ok`: a status in 200..299. */
  predicate IsOk(reply: PohReply) {
    reply.HttpReply? && 200 <= reply.status <= 299
  }

  /** The completion of `checkPohStatus`. Only a body that trims to exactly
      "true" verifies; any other successful body rejects; a failure leaves the
      status unknown and raises the advisory unless an error is already shown. */
  function FinishPohCheck(s: Session, reply: PohReply): Session {
    if IsOk(reply) then
      s.(poh := Some(Text.Trim(reply.body) == "true"), checkingPoh := false)
    else
      s.(poh := None, error := Some(s.error.GetOr(PohAdvisory)), checkingPoh := false)
  }

  /** One whole PoH check, from its start to its completion. */
  function CheckPoh(s: Session, reply: PohReply): (r: Session)
    ensures r.poh == Some(true) <==> IsOk(reply) && Text.Trim(reply.body) == "true"
    ensures r.poh == Some(false) <==> IsOk(reply) && Text.Trim(reply.body) != "true"
    ensures r.poh.None? <==> !IsOk(reply)
    ensures !r.checkingPoh
    ensures IsOk(reply) || s.error.Some? ==> r.error == s.error
    ensures !IsOk(reply) && s.error.None? ==> r.error == Some(PohAdvisory)
    ensures r.address == s.address && r.chainId == s.chainId && r.success == s.success
    ensures SameMintSettings(r, s) && r.freeRemaining == s.freeRemaining
    ensures r == s.(poh := r.poh, checkingPoh := false, error := r.error)
  {
    FinishPohCheck(BeginPohCheck(s), reply)
  }

  /** A successful check verifies exactly when the body is "true" with any
      amount of surrounding whitespace, so "True", "1" or "true!" reject. */
  lemma VerifiedIffPaddedTrue(s: Session, status: int, body: string)
    requires 200 <= status <= 299
    ensures CheckPoh(s, HttpReply(status, body)).poh == Some(true) <==>
      exists a, b :: Text.PaddedAt(body, "true", a, b)
  {
    Text.TrimIsPadding(body, "true");
  }
}
