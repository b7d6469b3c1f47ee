/**
 The quantity stepper: the "-" and "+" buttons and the number input. The
 input is capped by `maxPerTx || 2` (2 while the limit is not loaded); the
 "+" button is capped by `maxPerTx` only when it is loaded.
 */
module Stepper {
  import JsParseInt
  import Quota
  import opened Session
  import Mint

  /** A quantity the mint guards accept as far as the stepper is concerned. */
  predicate InRange(q: int, maxPerTx: nat) {
    1 <= q && (maxPerTx > 0 ==> q <= maxPerTx)
  }

  /** The "-" button is enabled above one and while no mint is in flight. */
  predicate CanDecrement(q: int, minting: bool) {
    q > 1 && !minting
  }

  /** The "+" button is enabled while no mint is in flight. */
  predicate CanIncrement(minting: bool) {
    !minting
  }

  /** "-": one less, never below one. */
  function Decrement(q: int): (r: int)
    ensures r >= 1
    ensures q > 1 ==> r == q - 1
    ensures q <= 1 ==> r == 1
  {
    if q - 1 >= 1 then q - 1 else 1
  }

  /** "+": one more, clamped to the per-transaction limit once it is known. */
  function Increment(q: int, maxPerTx: nat): (r: int)
    ensures maxPerTx == 0 ==> r == q + 1
    ensures maxPerTx > 0 ==> r <= maxPerTx && (r == q + 1 || r == maxPerTx)
    ensures maxPerTx > 0 && q < maxPerTx ==> r == q + 1
  {
    if maxPerTx != 0 then Quota.Min(q + 1, maxPerTx) else q + 1
  }

  /** The input's upper bound: the limit, or 2 while it reads as zero. */
  function InputCap(maxPerTx: nat): (cap: nat)
    ensures cap >= 1
    ensures maxPerTx > 0 ==> cap == maxPerTx
  {
    if maxPerTx != 0 then maxPerTx else 2
  }

  /** The input's `onChange`: an empty field reads as "1"; text that does not
      parse leaves the quantity alone; a number is clamped into [1, cap]. */
  function InputChange(q: int, raw: string, maxPerTx: nat): (r: int)
    ensures var parsed := JsParseInt.ParseInt(if raw == "" then "1" else raw, 10);
      && (parsed.None? ==> r == q)
      && (parsed.Some? ==> 1 <= r <= InputCap(maxPerTx))
      && (parsed.Some? && 1 <= parsed.value <= InputCap(maxPerTx) ==> r == parsed.value)
      && (parsed.Some? && parsed.value < 1 ==> r == 1)
      && (parsed.Some? && parsed.value > InputCap(maxPerTx) ==> r == InputCap(maxPerTx))
  {
    match JsParseInt.ParseInt(if raw == "" then "1" else raw, 10)
    case None => q
    case Some(v) =>
      var capped := Quota.Min(v, InputCap(maxPerTx));
      if capped >= 1 then capped else 1
  }

  /** Both buttons keep a quantity in range, and any number typed into the
      input brings it into range whatever it was before. */
  lemma StepsKeepRange(q: int, raw: string, maxPerTx: nat)
    requires InRange(q, maxPerTx)
    ensures InRange(Decrement(q), maxPerTx)
    ensures InRange(Increment(q, maxPerTx), maxPerTx)
    ensures InRange(InputChange(q, raw, maxPerTx), maxPerTx)
  {
  }

  /** Typing the decimal digits of an allowed quantity selects exactly it,
      and clearing the field selects one. */
  lemma TypedQuantitySelected(q: int, n: nat, maxPerTx: nat)
    requires 1 <= n <= InputCap(maxPerTx)
    ensures InputChange(q, JsParseInt.ToDigits(n, 10), maxPerTx) == n
    ensures InputChange(q, "", maxPerTx) == 1
  {
    JsParseInt.DecimalRoundTrip(n, []);
    assert JsParseInt.ToDigits(n, 10) + [] == JsParseInt.ToDigits(n, 10);
    JsParseInt.DecimalRoundTrip(1, []);
    assert JsParseInt.ToDigits(1, 10) + [] == JsParseInt.ToDigits(1, 10);
    assert JsParseInt.ToDigits(1, 10) == "1";
  }

  /** A quantity in range passes the two quantity guards of a mint. */
  lemma InRangePassesQuantityGuards(s: Session, hasWallet: bool)
    requires InRange(s.quantity, s.maxPerTx)
    ensures !Mint.Fails(Mint.QuantityBelowOne, s, hasWallet)
    ensures !Mint.Fails(Mint.OverMaxPerTx, s, hasWallet)
  {
  }

  /** Both buttons are frozen while a mint is in flight; an enabled "-"
      always lowers the quantity by one, and outside a mint "-" is disabled
      exactly when the quantity is already at the floor of one. */
  lemma ButtonsFollowState(q: int, minting: bool)
    ensures minting ==> !CanDecrement(q, minting) && !CanIncrement(minting)
    ensures CanDecrement(q, minting) ==> Decrement(q) == q - 1
    ensures !minting && q >= 1 ==> (CanDecrement(q, minting) <==> Decrement(q) < q)
  {
  }

  /** The page starts with quantity one, which is in range whatever limit
      loads later, and with "-" disabled. */
  lemma InitialQuantityInRange(maxPerTx: nat)
    ensures InRange(Initial.quantity, maxPerTx)
    ensures !CanDecrement(Initial.quantity, Initial.minting) && CanIncrement(Initial.minting)
  {
  }

  /** While the limit is not loaded the two ways of raising the quantity
      disagree: typing never goes above the input's cap of 2 unless the text
      does not parse and the quantity stays, while "+" adds one with no cap.
      So "+" alone takes the quantity past 2, and a smaller positive limit
      loaded afterwards makes the per-transaction guard stop the mint. */
  lemma UnloadedLimitGap(q: int, raw: string, s: Session, hasWallet: bool)
    ensures InputChange(q, raw, 0) == q || 1 <= InputChange(q, raw, 0) <= InputCap(0)
    ensures q <= InputCap(0) ==> InputChange(q, raw, 0) <= InputCap(0)
    ensures Increment(q, 0) == q + 1
    ensures q >= InputCap(0) ==> Increment(q, 0) > InputCap(0)
    ensures s.quantity == Increment(q, 0) && 0 < s.maxPerTx <= q ==>
      Mint.Fails(Mint.OverMaxPerTx, s, hasWallet) && !Mint.ReadyToMint(s, hasWallet)
  {
    if s.quantity == Increment(q, 0) && 0 < s.maxPerTx <= q {
      Mint.FirstFailingGuardDecides(s, hasWallet);
      assert Mint.GuardOrder[5] == Mint.OverMaxPerTx;
    }
  }
}
