/**
 The free/paid split of a requested quantity and the exact payment in wei.
 The page computes it twice: for display from the cached free-mint count
 (unknown counts as no free mints), and at submission from the cached count
 when there is one and from the on-chain `previewFreeMints` otherwise.
 */
module Quota {
  import opened Wrappers

  datatype Split = Split(free: int, paid: int)

  function Min(a: int, b: int): int {
    if a <= b then a else b
  }

  /** `free = Math.min(quantity, freeRemaining)`, `paid = quantity - free`. */
  function SplitWith(quantity: int, freeRemaining: nat): (s: Split)
    ensures s.free + s.paid == quantity
    ensures s.free <= quantity && s.free <= freeRemaining
    ensures s.free == quantity || s.free == freeRemaining
    ensures s.paid >= 0
    ensures quantity >= 0 ==> s.free >= 0 && s.paid <= quantity
    ensures s.paid == 0 <==> quantity <= freeRemaining
  {
    var free := Min(quantity, freeRemaining);
    Split(free, quantity - free)
  }

  /** The split shown next to the cost: an unknown free count is taken as zero. */
  function DisplaySplit(quantity: int, cachedFree: Option<nat>): (s: Split)
    ensures s.free + s.paid == quantity
    ensures cachedFree.None? ==> s.free == 0 && s.paid == quantity
    ensures cachedFree.Some? ==> s == SplitWith(quantity, cachedFree.value)
  {
    match cachedFree
    case None => Split(0, quantity)
    case Some(f) => SplitWith(quantity, f)
  }

  /** The free count used at submission: the cached one when known, the
      on-chain preview only when the cache is empty. */
  function SubmissionFree(cachedFree: Option<nat>, preview: nat): (f: nat)
    ensures cachedFree.Some? ==> f == cachedFree.value
    ensures cachedFree.None? ==> f == preview
  {
    cachedFree.GetOr(preview)
  }

  /** `mintPrice.mul(paid)`: BigNumber multiplication, exact in wei. */
  function RequiredValue(price: nat, paid: int): (v: int)
    ensures paid >= 0 ==> v >= 0
    ensures v == 0 <==> price == 0 || paid == 0
  {
    price * paid
  }

  /** The price of `units` mints added up one unit at a time. */
  function PayPerUnit(price: nat, units: nat): nat {
    if units == 0 then 0 else PayPerUnit(price, units - 1) + price
  }

  /** The payment is the price of every paid unit, with no rounding. */
  lemma {:induction false} RequiredValueIsPerUnitSum(price: nat, units: nat)
    ensures RequiredValue(price, units) == PayPerUnit(price, units)
  {
    if units > 0 {
      RequiredValueIsPerUnitSum(price, units - 1);
      assert price * units == price * (units - 1) + price;
    }
  }

  /** The free units are exactly the discount: paying for the paid units
      costs the full price of the quantity minus the price of the free ones. */
  lemma FreeUnitsAreTheDiscount(price: nat, quantity: int, freeRemaining: nat)
    ensures var s := SplitWith(quantity, freeRemaining);
      RequiredValue(price, s.paid) == price * quantity - price * s.free
  {
    var s := SplitWith(quantity, freeRemaining);
    assert price * quantity == price * (s.free + s.paid);
  }

  /** With a cached count the submission split ignores the on-chain preview
      and agrees with the displayed split. */
  lemma CachedCountDecidesSubmission(quantity: int, cached: nat, preview1: nat, preview2: nat)
    ensures SplitWith(quantity, SubmissionFree(Some(cached), preview1))
         == SplitWith(quantity, SubmissionFree(Some(cached), preview2))
         == DisplaySplit(quantity, Some(cached))
  {
  }

  /** The displayed payment never understates the one sent at submission. */
  lemma DisplayIsConservative(price: nat, quantity: int, cached: Option<nat>, preview: nat)
    requires quantity >= 0
    ensures RequiredValue(price, SplitWith(quantity, SubmissionFree(cached, preview)).paid)
         <= RequiredValue(price, DisplaySplit(quantity, cached).paid)
  {
    var submitted := SplitWith(quantity, SubmissionFree(cached, preview)).paid;
    var shown := DisplaySplit(quantity, cached).paid;
    assert submitted <= shown;
    MulMonotone(price, submitted, shown);
  }

  lemma MulMonotone(price: nat, a: int, b: int)
    requires a <= b
    ensures price * a <= price * b
  {
    assert price * b - price * a == price * (b - a);
  }
}
