/**
 `handleMint`: the guards checked before anything touches the chain, then the
 free/paid split, the balance pre-check, the mint transaction and the
 classification of whatever it throws. The chain is a script of results.
 */
module Mint {
  import opened Wrappers
  import Text
  import Chain
  import Quota
  import JsParseInt
  import opened MintErrors
  import opened Session

  /** The reasons `handleMint` stops before submitting, in the order it checks them. */
  datatype Guard =
    | NoWallet | NoAddress | WrongNetwork | PriceNotLoaded
    | QuantityBelowOne | OverMaxPerTx | PohNotVerified | PohPending

  const GuardOrder: seq<Guard> :=
    [NoWallet, NoAddress, WrongNetwork, PriceNotLoaded, QuantityBelowOne, OverMaxPerTx, PohNotVerified, PohPending]

  /** Whether guard `g` stops a mint from session `s`. A loaded price is a
      BigNumber object, which is truthy even when it is zero. */
  predicate Fails(g: Guard, s: Session, hasWallet: bool) {
    match g
    case NoWallet => !hasWallet
    case NoAddress => !Text.Truthy(s.address)
    case WrongNetwork => !Chain.IsOnLinea(s.chainId)
    case PriceNotLoaded => s.mintPrice.None?
    case QuantityBelowOne => s.quantity < 1
    case OverMaxPerTx => s.maxPerTx > 0 && s.quantity > s.maxPerTx
    case PohNotVerified => s.poh == Some(false)
    case PohPending => s.poh.None?
  }

  /** The guard cascade at the top of `handleMint`. */
  function FailingGuard(s: Session, hasWallet: bool): Option<Guard> {
    if !hasWallet then Some(NoWallet)
    else if !Text.Truthy(s.address) then Some(NoAddress)
    else if !Chain.IsOnLinea(s.chainId) then Some(WrongNetwork)
    else if s.mintPrice.None? then Some(PriceNotLoaded)
    else if s.quantity < 1 then Some(QuantityBelowOne)
    else if s.maxPerTx > 0 && s.quantity > s.maxPerTx then Some(OverMaxPerTx)
    else if s.poh == Some(false) then Some(PohNotVerified)
    else if s.poh == None then Some(PohPending)
    else None
  }

  /** Every guard holds: the preconditions of a submission. */
  predicate ReadyToMint(s: Session, hasWallet: bool) {
    forall i :: 0 <= i < |GuardOrder| ==> !Fails(GuardOrder[i], s, hasWallet)
  }

  /** The cascade reports the first guard of `GuardOrder` that fails, and only
      that one; it reports none exactly when every guard holds, which means a
      wallet, an account, Linea, a price, a quantity in range and PoH verified. */
  lemma FirstFailingGuardDecides(s: Session, hasWallet: bool)
    ensures FailingGuard(s, hasWallet).None? <==> ReadyToMint(s, hasWallet)
    ensures ReadyToMint(s, hasWallet) ==>
      && hasWallet && Text.Truthy(s.address) && Chain.IsOnLinea(s.chainId) && s.mintPrice.Some?
      && 1 <= s.quantity && (s.maxPerTx > 0 ==> s.quantity <= s.maxPerTx) && s.poh == Some(true)
    ensures forall i :: 0 <= i < |GuardOrder| && FailingGuard(s, hasWallet) == Some(GuardOrder[i]) ==>
      Fails(GuardOrder[i], s, hasWallet) && forall j :: 0 <= j < i ==> !Fails(GuardOrder[j], s, hasWallet)
  {
    assert GuardOrder[0] == NoWallet && GuardOrder[1] == NoAddress && GuardOrder[2] == WrongNetwork;
    assert GuardOrder[3] == PriceNotLoaded && GuardOrder[4] == QuantityBelowOne;
    assert GuardOrder[5] == OverMaxPerTx && GuardOrder[6] == PohNotVerified && GuardOrder[7] == PohPending;
    if ReadyToMint(s, hasWallet) {
      assert !Fails(PohNotVerified, s, hasWallet) && !Fails(PohPending, s, hasWallet);
      assert s.poh.Some? && s.poh.value != false;
    }
  }

  function GuardMessage(g: Guard, maxPerTx: nat): string {
    match g
    case NoWallet => "MetaMask not found."
    case NoAddress => "Connect your wallet first."
    case WrongNetwork => "Please switch your wallet network to Linea"
    case PriceNotLoaded => "Mint price not loaded yet."
    case QuantityBelowOne => "Quantity must be at least 1."
    case OverMaxPerTx => "Max per transaction is " + JsParseInt.ToDigits(maxPerTx, 10) + "."
    case PohNotVerified => "You need to complete Proof of Humanity before minting."
    case PohPending => "Still checking your Proof of Humanity status. Please wait a moment and try again."
  }

  /** The length of a message and its last three characters. */
  function Tail(msg: string): (int, char, char, char)
    requires |msg| >= 3
  {
    (|msg|, msg[|msg| - 1], msg[|msg| - 2], msg[|msg| - 3])
  }

  /** A message whose tail no other guard message has: the tail determines
      the guard. */
  function GuardOfTail(msg: string): Option<Guard> {
    if |msg| < 3 then None
    else
      match Tail(msg)
      case (19, '.', 'd', 'n') => Some(NoWallet)
      case (26, '.', 't', 's') => Some(NoAddress)
      case (42, 'a', 'e', 'n') => Some(WrongNetwork)
      case (26, '.', 't', 'e') => Some(PriceNotLoaded)
      case (28, '.', '1', ' ') => Some(QuantityBelowOne)
      case (54, '.', 'g', 'n') => Some(PohNotVerified)
      case (81, '.', 'n', 'i') => Some(PohPending)
      case (_, '.', c, b) =>
        if '0' <= c <= '9' && (|msg| == 25 || '0' <= b <= '9') then Some(OverMaxPerTx) else None
      case _ => None
  }

  /** The per-transaction message is the fixed prefix, the limit in decimal
      and a full stop, so it ends in a digit and a full stop, and in two
      digits once the limit reaches 10. */
  lemma OverMaxTail(maxPerTx: nat)
    ensures GuardOfTail(GuardMessage(OverMaxPerTx, maxPerTx)) == Some(OverMaxPerTx)
  {
    var msg := GuardMessage(OverMaxPerTx, maxPerTx);
    var d := JsParseInt.ToDigits(maxPerTx, 10);
    assert |msg| == 24 + |d|;
    assert msg[|msg| - 1] == '.';
    assert msg[|msg| - 2] == d[|d| - 1];
    assert JsParseInt.IsDigit(d[|d| - 1], 10);
    if |d| >= 2 {
      assert msg[|msg| - 3] == d[|d| - 2];
      assert JsParseInt.IsDigit(d[|d| - 2], 10);
    }
  }

  /** The fixed messages end in tails that no other guard message has. */
  lemma ShortMessageTails(maxPerTx: nat)
    ensures GuardOfTail(GuardMessage(NoWallet, maxPerTx)) == Some(NoWallet)
    ensures GuardOfTail(GuardMessage(NoAddress, maxPerTx)) == Some(NoAddress)
    ensures GuardOfTail(GuardMessage(PriceNotLoaded, maxPerTx)) == Some(PriceNotLoaded)
    ensures GuardOfTail(GuardMessage(QuantityBelowOne, maxPerTx)) == Some(QuantityBelowOne)
  {
  }

  /** Likewise for the three longest fixed messages. */
  lemma LongMessageTails(maxPerTx: nat)
    ensures GuardOfTail(GuardMessage(WrongNetwork, maxPerTx)) == Some(WrongNetwork)
    ensures GuardOfTail(GuardMessage(PohNotVerified, maxPerTx)) == Some(PohNotVerified)
    ensures GuardOfTail(GuardMessage(PohPending, maxPerTx)) == Some(PohPending)
  {
  }

  /** The tail of each guard message names its guard. */
  lemma GuardMessageTail(g: Guard, maxPerTx: nat)
    ensures GuardOfTail(GuardMessage(g, maxPerTx)) == Some(g)
  {
    ShortMessageTails(maxPerTx);
    LongMessageTails(maxPerTx);
    OverMaxTail(maxPerTx);
  }

  /** Each guard has its own message: the message a blocked mint shows names
      the guard that stopped it. */
  lemma GuardMessageIdentifiesGuard(g: Guard, h: Guard, maxPerTx: nat)
    ensures GuardMessage(g, maxPerTx) == GuardMessage(h, maxPerTx) <==> g == h
  {
    GuardMessageTail(g, maxPerTx);
    GuardMessageTail(h, maxPerTx);
  }

  /** The result of a read from the chain: a value or a thrown error. */
  datatype Read = Value(n: nat) | ReadError(error: RawError)

  /** What the chain does when asked: the free-mint preview, the wallet
      balance, sending the mint transaction (`None`: accepted) and waiting
      for its receipt (`None`: confirmed). */
  datatype ChainScript = ChainScript(
    previewFree: Read, balance: Read, send: Option<RawError>, receipt: Option<RawError>)

  datatype Call = PreviewFreeMints | GetBalance | MintTickets(quantity: int, value: int) | WaitForReceipt | ReloadData

  datatype MintOutcome = Blocked(guard: Guard) | BalanceTooLow | Failed(failure: MintFailure) | Minted

  datatype MintRun = MintRun(outcome: MintOutcome, calls: seq<Call>)

  /** The free count known at submission, if the preview read (when one is
      needed) succeeded. */
  function FreeAtSubmission(s: Session, c: ChainScript): Option<nat> {
    match s.freeRemaining
    case Some(free) => Some(free)
    case None => if c.previewFree.Value? then Some(c.previewFree.n) else None
  }

  /** The free/paid split used at submission. */
  function SubmissionSplit(s: Session, c: ChainScript): Quota.Split
    requires FreeAtSubmission(s, c).Some?
  {
    Quota.SplitWith(s.quantity, FreeAtSubmission(s, c).value)
  }

  /** `handleMint` after its guards, given the free count to use. */
  function Submit(s: Session, free: nat, c: ChainScript, calls: seq<Call>): MintRun
    requires s.mintPrice.Some?
  {
    var split := Quota.SplitWith(s.quantity, free);
    var value := Quota.RequiredValue(s.mintPrice.value, split.paid);
    var checked := if split.paid > 0 then calls + [GetBalance] else calls;
    if split.paid > 0 && c.balance.ReadError? then MintRun(Failed(Classify(c.balance.error)), checked)
    else if split.paid > 0 && c.balance.n < value then MintRun(BalanceTooLow, checked)
    else
      var sent := checked + [MintTickets(s.quantity, value)];
      if c.send.Some? then MintRun(Failed(Classify(c.send.value)), sent)
      else if c.receipt.Some? then MintRun(Failed(Classify(c.receipt.value)), sent + [WaitForReceipt])
      else MintRun(Minted, sent + [WaitForReceipt, ReloadData])
  }

  function HandleMint(s: Session, hasWallet: bool, c: ChainScript): MintRun {
    match FailingGuard(s, hasWallet)
    case Some(g) => MintRun(Blocked(g), [])
    case None =>
      match s.freeRemaining
      case Some(free) => Submit(s, free, c, [])
      case None =>
        match c.previewFree
        case ReadError(e) => MintRun(Failed(Classify(e)), [PreviewFreeMints])
        case Value(free) => Submit(s, free, c, [PreviewFreeMints])
  }

  /** A guard that fails stops the mint with that guard's reason and no call
      to the chain; the chain is called only when every guard holds. */
  lemma BlockedBeforeAnyCall(s: Session, hasWallet: bool, c: ChainScript)
    ensures var run := HandleMint(s, hasWallet, c);
      && (run.outcome.Blocked? <==> !ReadyToMint(s, hasWallet))
      && (run.outcome.Blocked? ==> run.calls == [] && FailingGuard(s, hasWallet) == Some(run.outcome.guard))
      && (!run.outcome.Blocked? ==> run.calls != [])
  {
    FirstFailingGuardDecides(s, hasWallet);
  }

  /** The number of mint transactions among the calls. */
  function MintCount(calls: seq<Call>): nat {
    if calls == [] then 0
    else (if calls[0].MintTickets? then 1 else 0) + MintCount(calls[1..])
  }

  lemma MintCountAppend(a: seq<Call>, b: seq<Call>)
    ensures MintCount(a + b) == MintCount(a) + MintCount(b)
  {
    if a == [] {
      assert a + b == b;
    } else {
      assert (a + b)[1..] == a[1..] + b;
      MintCountAppend(a[1..], b);
    }
  }

  /** A submission sends one transaction exactly when nothing is paid or the
      balance covers the payment. */
  lemma SubmitMintCount(s: Session, free: nat, c: ChainScript, calls: seq<Call>)
    requires s.mintPrice.Some?
    ensures var paid := Quota.SplitWith(s.quantity, free).paid;
      var value := Quota.RequiredValue(s.mintPrice.value, paid);
      var covered := paid > 0 ==> c.balance.Value? && c.balance.n >= value;
      MintCount(Submit(s, free, c, calls).calls) == MintCount(calls) + (if covered then 1 else 0)
  {
    var run := Submit(s, free, c, calls);
    var split := Quota.SplitWith(s.quantity, free);
    var value := Quota.RequiredValue(s.mintPrice.value, split.paid);
    var checked := if split.paid > 0 then calls + [GetBalance] else calls;
    if split.paid > 0 {
      MintCountAppend(calls, [GetBalance]);
      assert MintCount([GetBalance]) == 0;
    }
    if split.paid > 0 && (c.balance.ReadError? || c.balance.n < value) {
      assert run.calls == checked;
    } else {
      var tx := MintTickets(s.quantity, value);
      var sent := checked + [tx];
      MintCountAppend(checked, [tx]);
      assert MintCount([tx]) == 1;
      if c.send.Some? {
        assert run.calls == sent;
      } else if c.receipt.Some? {
        assert run.calls == sent + [WaitForReceipt];
        MintCountAppend(sent, [WaitForReceipt]);
        assert MintCount([WaitForReceipt]) == 0;
      } else {
        assert run.calls == sent + [WaitForReceipt, ReloadData];
        MintCountAppend(sent, [WaitForReceipt, ReloadData]);
        assert MintCount([WaitForReceipt, ReloadData]) == 0 by {
          assert [WaitForReceipt, ReloadData][1..] == [ReloadData];
        }
      }
    }
  }

  /** Which calls a submission adds to those made before it: the balance
      read exactly when something is paid, and one transaction exactly when
      nothing is paid or the balance covers the payment. */
  lemma SubmitCalls(s: Session, free: nat, c: ChainScript, calls: seq<Call>)
    requires s.mintPrice.Some?
    ensures var run := Submit(s, free, c, calls);
      var paid := Quota.SplitWith(s.quantity, free).paid;
      var value := Quota.RequiredValue(s.mintPrice.value, paid);
      var covered := paid > 0 ==> c.balance.Value? && c.balance.n >= value;
      && (PreviewFreeMints in run.calls <==> PreviewFreeMints in calls)
      && (GetBalance in run.calls <==> GetBalance in calls || paid > 0)
      && MintCount(run.calls) == MintCount(calls) + (if covered then 1 else 0)
  {
    SubmitMintCount(s, free, c, calls);
  }

  /** How a submission ends: the transaction it sends is for the session's
      quantity and exactly price × paid; a balance below that payment stops
      it; it succeeds exactly when the payment is covered and the chain
      accepts and confirms the transaction, and then the data is reloaded. */
  lemma SubmitOutcome(s: Session, free: nat, c: ChainScript, calls: seq<Call>)
    requires s.mintPrice.Some?
    ensures var run := Submit(s, free, c, calls);
      var paid := Quota.SplitWith(s.quantity, free).paid;
      var value := Quota.RequiredValue(s.mintPrice.value, paid);
      var covered := paid > 0 ==> c.balance.Value? && c.balance.n >= value;
      && (forall q, v :: MintTickets(q, v) in run.calls ==>
            MintTickets(q, v) in calls || (q == s.quantity && v == value && covered))
      && (run.outcome == BalanceTooLow <==> paid > 0 && c.balance.Value? && c.balance.n < value)
      && (run.outcome == Minted <==> covered && c.send.None? && c.receipt.None?)
      && (run.outcome == Minted ==> run.calls[|run.calls| - 1] == ReloadData)
  {
  }

  /** Reaching submission: every guard held, PoH is verified, the quantity is
      the session's, the value is exactly price × paid for the split at
      submission, and when something is paid the balance was read and covers
      it. */
  lemma SubmissionImpliesPreconditions(s: Session, hasWallet: bool, c: ChainScript, q: int, v: int)
    requires MintTickets(q, v) in HandleMint(s, hasWallet, c).calls
    ensures ReadyToMint(s, hasWallet) && s.poh == Some(true)
    ensures q == s.quantity
    ensures FreeAtSubmission(s, c).Some?
    ensures var split := SubmissionSplit(s, c);
      && v == Quota.RequiredValue(s.mintPrice.value, split.paid)
      && (split.paid > 0 ==> c.balance.Value? && c.balance.n >= v)
      && (split.paid == 0 ==> v == 0)
  {
    FirstFailingGuardDecides(s, hasWallet);
    if FailingGuard(s, hasWallet).None? && FreeAtSubmission(s, c).Some? {
      var pre := if s.freeRemaining.None? then [PreviewFreeMints] else [];
      SubmitOutcome(s, FreeAtSubmission(s, c).value, c, pre);
    }
  }

  /** The free-mint preview is read only when no free count is cached, and a
      failed read ends the mint with that single call. */
  lemma PreviewOnlyWithoutCache(s: Session, hasWallet: bool, c: ChainScript)
    requires ReadyToMint(s, hasWallet)
    ensures var run := HandleMint(s, hasWallet, c);
      && (PreviewFreeMints in run.calls <==> s.freeRemaining.None?)
      && (FreeAtSubmission(s, c).None? ==>
            run.outcome == Failed(Classify(c.previewFree.error)) && run.calls == [PreviewFreeMints])
  {
    FirstFailingGuardDecides(s, hasWallet);
    assert FailingGuard(s, hasWallet).None?;
    if s.freeRemaining.Some? {
      SubmitCalls(s, s.freeRemaining.value, c, []);
    } else if c.previewFree.Value? {
      SubmitCalls(s, c.previewFree.n, c, [PreviewFreeMints]);
    }
  }

  /** The balance is read only when something must be paid; a balance below
      price × paid ends the mint with "You need more ETH" before any
      transaction; the mint succeeds exactly when the payment is covered and
      the chain accepts and confirms the transaction, and then reloads. */
  lemma BalanceGatesTransaction(s: Session, hasWallet: bool, c: ChainScript)
    requires ReadyToMint(s, hasWallet)
    ensures var run := HandleMint(s, hasWallet, c);
      var free := FreeAtSubmission(s, c);
      var paid := if free.Some? then Quota.SplitWith(s.quantity, free.value).paid else 0;
      var value := Quota.RequiredValue(s.mintPrice.GetOr(0), paid);
      && (GetBalance in run.calls <==> free.Some? && paid > 0)
      && (run.outcome == BalanceTooLow <==> free.Some? && paid > 0 && c.balance.Value? && c.balance.n < value)
      && (run.outcome == BalanceTooLow ==> MintCount(run.calls) == 0)
      && (run.outcome == Minted <==>
            (&& free.Some? && (paid > 0 ==> c.balance.Value? && c.balance.n >= value)
             && c.send.None? && c.receipt.None?))
      && (run.outcome == Minted ==> run.calls[|run.calls| - 1] == ReloadData)
  {
    FirstFailingGuardDecides(s, hasWallet);
    if FreeAtSubmission(s, c).Some? {
      var pre := if s.freeRemaining.None? then [PreviewFreeMints] else [];
      SubmitCalls(s, FreeAtSubmission(s, c).value, c, pre);
      SubmitOutcome(s, FreeAtSubmission(s, c).value, c, pre);
      assert MintCount(pre) == 0;
    }
  }

  /** A mint sends at most one transaction. */
  lemma SingleTransaction(s: Session, hasWallet: bool, c: ChainScript)
    ensures MintCount(HandleMint(s, hasWallet, c).calls) <= 1
  {
    if FailingGuard(s, hasWallet).None? && FreeAtSubmission(s, c).Some? {
      var pre := if s.freeRemaining.None? then [PreviewFreeMints] else [];
      SubmitCalls(s, FreeAtSubmission(s, c).value, c, pre);
      assert MintCount(pre) == 0;
    }
  }

  /** The error and success banners a finished mint leaves. The balance
      pre-check and a classified funds error show the same text. */
  function MintBanner(outcome: MintOutcome, maxPerTx: nat): (banner: (Option<string>, Option<string>))
    ensures outcome == BalanceTooLow ==> banner.0 == Some(FailureMessage(NeedMoreEth))
    ensures outcome.Minted? <==> banner.1.Some?
    ensures banner.0.Some? != banner.1.Some?
    ensures outcome.Blocked? ==> banner.0 == Some(GuardMessage(outcome.guard, maxPerTx))
    ensures outcome.Failed? ==> banner.0 == Some(FailureMessage(outcome.failure))
  {
    match outcome
    case Blocked(g) => (Some(GuardMessage(g, maxPerTx)), None)
    case BalanceTooLow => (Some("You need more ETH"), None)
    case Failed(k) => (Some(FailureMessage(k)), None)
    case Minted => (None, Some("Mint successful!"))
  }

  /** The state `handleMint` leaves. It clears both banners, writes the
      banner of its outcome, and after a successful mint awaits the data
      reload, whose failure adds the load error next to the success banner. */
  function MintEffect(s: Session, outcome: MintOutcome, load: LoadReply): Session {
    var banner := MintBanner(outcome, s.maxPerTx);
    var t := s.(error := banner.0, success := banner.1);
    if outcome.Minted? then Load(t, load) else t
  }

  /** A mint that did not succeed shows only its error and reloads nothing. A
      successful one shows "Mint successful!", and an error as well exactly
      when the reload that follows it failed; a reload whose reads succeeded
      leaves the price and the limit it read. */
  lemma MintBanners(s: Session, outcome: MintOutcome, load: LoadReply)
    ensures var r := MintEffect(s, outcome, load);
      && (!outcome.Minted? ==> r.error == MintBanner(outcome, s.maxPerTx).0 && r.error.Some? && r.success.None?)
      && (outcome.Minted? ==>
            && r.success == Some("Mint successful!")
            && r.error == (if load.sale.None? then Some(LoadErrorText) else None))
      && (r.error.Some? && r.success.Some? <==> outcome.Minted? && load.sale.None?)
      && (outcome.Minted? && load.sale.Some? ==>
            r.mintPrice == Some(load.sale.value.0) && r.maxPerTx == load.sale.value.1)
      && (!outcome.Minted? ==> r.mintPrice == s.mintPrice && r.walletMints == s.walletMints)
  {
  }

  /** A load whose contract reads succeeded leaves a price, so the "price not
      loaded" guard passes afterwards; a failed load changes no guard's
      verdict. */
  lemma LoadAndGuards(s: Session, reply: LoadReply, hasWallet: bool)
    ensures reply.sale.Some? ==> !Fails(PriceNotLoaded, Load(s, reply), hasWallet)
    ensures reply.sale.None? ==>
      forall g :: Fails(g, Load(s, reply), hasWallet) == Fails(g, s, hasWallet)
  {
  }
}
