/**
 The classifier that turns whatever a failed mint threw (a provider error,
 a contract revert, a plain value) into one of four user-facing messages.
 */
module MintErrors {
  import opened Wrappers
  import Text
  import opened Errors

  /** A thrown value. `Nullish` is `null`/`undefined`; otherwise each optional
      field is one of the properties the page inspects (`err.error.message`,
      `err.data.message`, `err.reason`, `err.message`), and `asString` is what
      `String(err)` returns for it. */
  datatype RawError =
    | Nullish
    | Thrown(code: Code, nestedMessage: Option<string>, dataMessage: Option<string>,
             reason: Option<string>, message: Option<string>, asString: string)

  datatype MintFailure = UserRejected | NeedMoreEth | MintCapReached | TransactionFailed

  const RejectedCode := "ACTION_REJECTED"
  const FundsMarkers: seq<string> := ["insufficient funds", "insufficient eth"]
  const CapMarkers: seq<string> := ["24h", "24 hours", "daily", "mint cap"]

  ghost predicate NoneTruthyBefore(candidates: seq<Option<string>>, i: int)
    requires 0 <= i <= |candidates|
  {
    forall j :: 0 <= j < i ==> !Text.Truthy(candidates[j])
  }

  /** `c0 || c1 || … || fallback` over strings: the first non-empty candidate,
      or the fallback when every candidate is missing or empty. */
  function FirstNonEmpty(candidates: seq<Option<string>>, fallback: string): (r: string)
    ensures NoneTruthyBefore(candidates, |candidates|) ==> r == fallback
    ensures !NoneTruthyBefore(candidates, |candidates|) ==>
      exists i :: 0 <= i < |candidates| && NoneTruthyBefore(candidates, i)
        && Text.Truthy(candidates[i]) && candidates[i].value == r
  {
    if candidates == [] then fallback
    else if Text.Truthy(candidates[0]) then
      assert NoneTruthyBefore(candidates, 0);
      candidates[0].value
    else
      var r := FirstNonEmpty(candidates[1..], fallback);
      assert forall i :: 0 <= i < |candidates| - 1 ==>
        NoneTruthyBefore(candidates[1..], i) ==> NoneTruthyBefore(candidates, i + 1);
      assert NoneTruthyBefore(candidates[1..], |candidates| - 1) ==> NoneTruthyBefore(candidates, |candidates|);
      r
  }

  /** The message text the classifier looks at, before lower-casing. */
  function RawMessage(e: RawError): string {
    match e
    case Nullish => ""
    case Thrown(_, nested, data, reason, message, asString) =>
      FirstNonEmpty([nested, data, reason, message], asString)
  }

  predicate IsRejection(e: RawError) {
    e.Thrown? && e.code == TextCode(RejectedCode)
  }

  predicate MentionsAny(text: string, markers: seq<string>) {
    exists m :: m in markers && Text.Contains(text, m)
  }

  /** The catch block of `handleMint`. */
  function Classify(e: RawError): (k: MintFailure)
    ensures IsRejection(e) ==> k == UserRejected
  {
    if IsRejection(e) then UserRejected
    else
      var lower := Text.ToLower(RawMessage(e));
      if MentionsAny(lower, FundsMarkers) then NeedMoreEth
      else if MentionsAny(lower, CapMarkers) then MintCapReached
      else TransactionFailed
  }

  /** Some marker occurs somewhere in `text`. */
  ghost predicate Occurs(text: string, markers: seq<string>) {
    exists m, i :: m in markers && Text.OccursAt(text, m, i)
  }

  /** The classification, stated through marker occurrences: a rejection code
      wins over any text; otherwise a funds marker anywhere in the lower-cased
      message wins over the cap markers, which win over the generic failure. */
  lemma ClassifyByMarkers(e: RawError)
    ensures var lower := Text.ToLower(RawMessage(e));
      && (Classify(e) == UserRejected <==> IsRejection(e))
      && (Classify(e) == NeedMoreEth <==> !IsRejection(e) && Occurs(lower, FundsMarkers))
      && (Classify(e) == MintCapReached <==>
            !IsRejection(e) && !Occurs(lower, FundsMarkers) && Occurs(lower, CapMarkers))
      && (Classify(e) == TransactionFailed <==>
            !IsRejection(e) && !Occurs(lower, FundsMarkers) && !Occurs(lower, CapMarkers))
  {
    var lower := Text.ToLower(RawMessage(e));
    ContainsAnyIff(lower, FundsMarkers);
    ContainsAnyIff(lower, CapMarkers);
  }

  /** Scanning for each marker finds one exactly when one occurs. */
  lemma ContainsAnyIff(text: string, markers: seq<string>)
    ensures (exists m :: m in markers && Text.Contains(text, m)) <==> Occurs(text, markers)
  {
    forall m | m in markers {
      Text.ContainsIff(text, m);
    }
  }

  /** The message shown for each class. */
  function FailureMessage(k: MintFailure): string {
    match k
    case UserRejected => "Transaction rejected in wallet."
    case NeedMoreEth => "You need more ETH"
    case MintCapReached => "Mint cap reached, come back tomorrow."
    case TransactionFailed => "Mint transaction failed. Check console for details."
  }
}
