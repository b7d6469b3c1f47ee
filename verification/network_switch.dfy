/**
 `switchToLinea`: ask the wallet to switch to Linea; when the wallet does not
 know the chain (EIP-1193 error 4902) register it once and switch once more.
 The wallet is a script of replies, one per request the flow can make.
 */
module NetworkSwitch {
  import opened Wrappers
  import Text
  import opened Errors
  import Chain
  import JsParseInt
  import Session

  /** The chain id requested from the wallet: 59144 in hex. */
  const LineaHexChainId := "0xe708"

  /** The id requested from the wallet passes the page's own network gate. */
  lemma RequestedChainPasses()
    ensures Chain.IsOnLinea(Some(LineaHexChainId))
  {
    assert JsParseInt.DigitsValue("e708", 16) == Chain.LineaChainId by {
      assert "e708"[..3] == "e70" && "e70"[..2] == "e7" && "e7"[..1] == "e";
    }
    Chain.HexSpellingVerdict('x', "e708", "");
    assert ['0', 'x'] + "e708" + "" == LineaHexChainId;
  }

  const UnknownChainCode := 4902
  const UserRejectedCode := 4001

  /** A wallet request's result: a returned string or a thrown error's code. */
  datatype Reply = Returned(value: string) | Threw(code: Code)

  /** The wallet's replies, in the order the flow can ask for them. */
  datatype WalletScript = WalletScript(
    firstSwitch: Reply, firstChainId: Reply,
    addChain: Reply, secondSwitch: Reply, secondChainId: Reply)

  datatype Request = SwitchChain | AddChain | ReadChainId

  datatype SwitchOutcome =
    | NoWallet
    | Switched(chainId: string)
    | AddedAndSwitched(chainId: string)
    | AddFailed
    | SwitchRejected
    | SwitchFailed

  /** The outcome, the wallet requests made in order, and whether the sale
      data and PoH status were reloaded for the connected account. */
  datatype SwitchRun = SwitchRun(outcome: SwitchOutcome, requests: seq<Request>, reloaded: bool)

  /** The error the first `try` block ends with, if any: the switch request
      or the chain-id read that follows it. */
  function FirstAttemptError(w: WalletScript): Option<Code> {
    if w.firstSwitch.Threw? then Some(w.firstSwitch.code)
    else if w.firstChainId.Threw? then Some(w.firstChainId.code)
    else None
  }

  /** The inner `try` after error 4902: add the chain, switch, read the id. */
  function AddThenSwitch(w: WalletScript): (SwitchOutcome, seq<Request>) {
    if w.addChain.Threw? then (AddFailed, [AddChain])
    else if w.secondSwitch.Threw? then (AddFailed, [AddChain, SwitchChain])
    else if w.secondChainId.Threw? then (AddFailed, [AddChain, SwitchChain, ReadChainId])
    else (AddedAndSwitched(w.secondChainId.value), [AddChain, SwitchChain, ReadChainId])
  }

  function SwitchToLinea(hasWallet: bool, address: Option<string>, w: WalletScript): SwitchRun {
    if !hasWallet then SwitchRun(NoWallet, [], false)
    else
      var first := if w.firstSwitch.Threw? then [SwitchChain] else [SwitchChain, ReadChainId];
      match FirstAttemptError(w)
      case None => SwitchRun(Switched(w.firstChainId.value), first, Text.Truthy(address))
      case Some(code) =>
        if code == NumberCode(UnknownChainCode) then
          var (outcome, more) := AddThenSwitch(w);
          SwitchRun(outcome, first + more, outcome.AddedAndSwitched? && Text.Truthy(address))
        else if code == NumberCode(UserRejectedCode) then SwitchRun(SwitchRejected, first, false)
        else SwitchRun(SwitchFailed, first, false)
  }

  function Count(requests: seq<Request>, r: Request): nat {
    if requests == [] then 0
    else (if requests[0] == r then 1 else 0) + Count(requests[1..], r)
  }

  lemma CountAppend(a: seq<Request>, b: seq<Request>, r: Request)
    ensures Count(a + b, r) == Count(a, r) + Count(b, r)
  {
    if a != [] {
      assert (a + b)[1..] == a[1..] + b;
      CountAppend(a[1..], b, r);
    } else {
      assert a + b == b;
    }
  }

  lemma SmallCounts()
    ensures Count([SwitchChain], AddChain) == 0 && Count([SwitchChain], SwitchChain) == 1
    ensures Count([SwitchChain, ReadChainId], AddChain) == 0
    ensures Count([SwitchChain, ReadChainId], SwitchChain) == 1
    ensures Count([AddChain], AddChain) == 1 && Count([AddChain], SwitchChain) == 0
    ensures Count([AddChain, SwitchChain], AddChain) == 1
    ensures Count([AddChain, SwitchChain], SwitchChain) == 1
    ensures Count([AddChain, SwitchChain, ReadChainId], AddChain) == 1
    ensures Count([AddChain, SwitchChain, ReadChainId], SwitchChain) == 1
  {
    assert [SwitchChain, ReadChainId][1..] == [ReadChainId];
    assert [AddChain, SwitchChain][1..] == [SwitchChain];
    assert [AddChain, SwitchChain, ReadChainId][1..] == [SwitchChain, ReadChainId];
  }

  /** The request pattern: chain registration happens only after error 4902
      from the first attempt, at most once, and is always the third or second
      request; at most one switch follows it and no loop retries. */
  lemma RequestPattern(hasWallet: bool, address: Option<string>, w: WalletScript)
    ensures var run := SwitchToLinea(hasWallet, address, w);
      && Count(run.requests, AddChain) <= 1
      && Count(run.requests, SwitchChain) <= 2
      && |run.requests| <= 5
      && (AddChain in run.requests <==> hasWallet && FirstAttemptError(w) == Some(NumberCode(UnknownChainCode)))
      && (Count(run.requests, SwitchChain) == 2 <==> AddChain in run.requests && w.addChain.Returned?)
      && (!hasWallet <==> run.requests == [])
  {
    var run := SwitchToLinea(hasWallet, address, w);
    if hasWallet {
      var first := if w.firstSwitch.Threw? then [SwitchChain] else [SwitchChain, ReadChainId];
      SmallCounts();
      if FirstAttemptError(w) == Some(NumberCode(UnknownChainCode)) {
        var (outcome, more) := AddThenSwitch(w);
        CountAppend(first, more, AddChain);
        CountAppend(first, more, SwitchChain);
        assert run.requests == first + more;
        assert AddChain in more;
      } else {
        assert run.requests == first;
      }
    }
  }

  /** Which error ends the flow: a failure anywhere after registration reads
      "failed to add"; 4001 on the first attempt is a rejection; any other
      first-attempt error is a generic failure. The sale data and PoH status
      are reloaded exactly when the switch succeeded with an account present. */
  lemma OutcomeCases(hasWallet: bool, address: Option<string>, w: WalletScript)
    requires hasWallet
    ensures var run := SwitchToLinea(hasWallet, address, w);
      var err := FirstAttemptError(w);
      && (run.outcome.Switched? <==> err.None?)
      && (run.outcome.AddedAndSwitched? <==>
            (&& err == Some(NumberCode(UnknownChainCode))
             && w.addChain.Returned? && w.secondSwitch.Returned? && w.secondChainId.Returned?))
      && (run.outcome == AddFailed <==>
            (&& err == Some(NumberCode(UnknownChainCode))
             && (w.addChain.Threw? || w.secondSwitch.Threw? || w.secondChainId.Threw?)))
      && (run.outcome == SwitchRejected <==> err == Some(NumberCode(UserRejectedCode)))
      && (run.outcome == SwitchFailed <==>
            (&& err.Some?
             && err != Some(NumberCode(UnknownChainCode)) && err != Some(NumberCode(UserRejectedCode))))
      && (run.reloaded <==> (run.outcome.Switched? || run.outcome.AddedAndSwitched?) && Text.Truthy(address))
  {
  }

  const AddFailedText := "Failed to add Linea network to your wallet. Please add it manually."
  const RejectedText := "Network switch was rejected in your wallet."
  const SwitchFailedText := "Failed to switch network in MetaMask."

  /** The error banner each outcome leaves. */
  function ErrorText(outcome: SwitchOutcome): Option<string> {
    match outcome
    case NoWallet => Some("MetaMask not found.")
    case Switched(_) => None
    case AddedAndSwitched(_) => None
    case AddFailed => Some(AddFailedText)
    case SwitchRejected => Some(RejectedText)
    case SwitchFailed => Some(SwitchFailedText)
  }

  /** The success banner each outcome leaves. */
  function SuccessText(outcome: SwitchOutcome): Option<string> {
    match outcome
    case Switched(_) => Some("Switched to Linea network.")
    case AddedAndSwitched(_) => Some("Linea network added and switched in your wallet.")
    case _ => None
  }

  /** A switch leaves exactly one banner. "Failed to add" is shown exactly
      when registration was needed and any of its three requests failed;
      "rejected" exactly on 4001 from the first attempt; the generic failure
      exactly on any other first-attempt error. */
  lemma SwitchBanner(address: Option<string>, w: WalletScript)
    ensures var outcome := SwitchToLinea(true, address, w).outcome;
      var err := FirstAttemptError(w);
      && ErrorText(outcome).Some? != SuccessText(outcome).Some?
      && (ErrorText(outcome) == Some(AddFailedText) <==>
            (&& err == Some(NumberCode(UnknownChainCode))
             && (w.addChain.Threw? || w.secondSwitch.Threw? || w.secondChainId.Threw?)))
      && (ErrorText(outcome) == Some(RejectedText) <==> err == Some(NumberCode(UserRejectedCode)))
      && (ErrorText(outcome) == Some(SwitchFailedText) <==>
            (&& err.Some?
             && err != Some(NumberCode(UnknownChainCode)) && err != Some(NumberCode(UserRejectedCode))))
  {
    OutcomeCases(true, address, w);
    assert |AddFailedText| == 67 && |RejectedText| == 43 && |SwitchFailedText| == 37;
  }

  /** How the data reload that a successful switch awaits turns out: what
      the contract reads returned, and what the PoH service answered. */
  datatype Reload = Reload(load: Session.LoadReply, pohReply: Session.PohReply)

  predicate Succeeded(outcome: SwitchOutcome) {
    outcome.Switched? || outcome.AddedAndSwitched?
  }

  /** The state `switchToLinea` leaves. Without a wallet only the error is
      set. Otherwise both banners are cleared first; a successful switch
      stores the new chain id, awaits the data load and the PoH check for a
      connected account, and sets the success banner last; a failed one sets
      its error banner. */
  function SwitchEffect(s: Session.Session, hasWallet: bool, w: WalletScript, reload: Reload): Session.Session {
    var run := SwitchToLinea(hasWallet, s.address, w);
    if !hasWallet then s.(error := ErrorText(NoWallet))
    else
      var cleared := s.(error := None, success := None);
      if Succeeded(run.outcome) then
        var t := cleared.(chainId := Some(run.outcome.chainId));
        var loaded := if run.reloaded
          then Session.CheckPoh(Session.Load(t, reload.load), reload.pohReply)
          else t;
        loaded.(success := SuccessText(run.outcome))
      else cleared.(error := ErrorText(run.outcome))
  }

  /** The banners a switch leaves. A failed switch shows only its error. A
      successful one shows its success text, and also an error exactly when
      the awaited reload ran and the contract reads failed (the load error)
      or the PoH check failed (the PoH advisory); a reload whose reads
      succeeded leaves the price and the limit it read. Without a wallet the
      error is set and an earlier success banner stays. */
  lemma SwitchBanners(s: Session.Session, hasWallet: bool, w: WalletScript, reload: Reload)
    ensures var r := SwitchEffect(s, hasWallet, w, reload);
      var run := SwitchToLinea(hasWallet, s.address, w);
      && (!hasWallet ==> r.error == Some("MetaMask not found.") && r.success == s.success)
      && (hasWallet && !Succeeded(run.outcome) ==> r.error == ErrorText(run.outcome) && r.success.None?)
      && (hasWallet && Succeeded(run.outcome) ==>
            && r.success == SuccessText(run.outcome) && r.success.Some?
            && r.chainId == Some(run.outcome.chainId)
            && r.error == (if !run.reloaded then None
                           else if reload.load.sale.None? then Some(Session.LoadErrorText)
                           else if !Session.IsOk(reload.pohReply) then Some(Session.PohAdvisory)
                           else None))
      && (&& hasWallet && Succeeded(run.outcome) && run.reloaded && reload.load.sale.Some? ==>
            r.mintPrice == Some(reload.load.sale.value.0) && r.maxPerTx == reload.load.sale.value.1)
      && (r.error.Some? && r.success.Some? <==>
            || (!hasWallet && s.success.Some?)
            || (&& hasWallet && Succeeded(run.outcome) && run.reloaded
                && (reload.load.sale.None? || !Session.IsOk(reload.pohReply))))
  {
  }
}
