# Linea ticket mint page — decision logic in Dafny

The page is a single React component (`app/page.tsx`). It connects a browser
wallet and checks that the wallet is on Linea mainnet (chain id 59144). It
asks a Proof of Humanity (PoH) service whether the account is verified. It
then lets the user mint tickets from a contract. Part of each mint is free
and part is paid.

This project models the decisions the page takes and proves what they
guarantee. The React state becomes the `Session` record. Each handler
becomes a pure function of that record and of the replies of the outside
world. The wallet's replies, the chain's replies and the PoH service's
answer are all inputs to those functions.

| file | module | what it models |
|---|---|---|
| `wrappers.dfy` | `Wrappers` | `Option` for `T \| null`, with `??` as `GetOr` |
| `text.dfy` | `Text` | JavaScript truthiness of strings, `trim`, ASCII `toLowerCase`, `includes` |
| `parse_int.dfy` | `JsParseInt` | `parseInt(s, radix)`: whitespace, sign, `0x` stripping, longest digit prefix, NaN |
| `chain.dfy` | `Chain` | the chain-id normalisation and the Linea gate |
| `session.dfy` | `Session` | the page state; disconnect, `accountsChanged`, `chainChanged`, the PoH check |
| `network_switch.dfy` | `NetworkSwitch` | `switchToLinea` with the 4902 add-chain fallback |
| `quota.dfy` | `Quota` | the free/paid split and the payment, for display and at submission |
| `errors.dfy` | `Errors` | the `code` property of a thrown value |
| `mint_errors.dfy` | `MintErrors` | the classifier for errors thrown by a mint |
| `mint.dfy` | `Mint` | `handleMint`: the guard cascade, the preview, the balance pre-check and the transaction |
| `primary_action.dfy` | `PrimaryAction` | the primary button's action, its label and disabled state, and the PoH label |
| `stepper.dfy` | `Stepper` | the quantity buttons and the quantity input |

The code is followed where comments in it say otherwise. The comment above
the submission split says that free mints are re-checked on chain right
before a mint. The code uses the cached free-mint count whenever it is not
`null`, and reads `previewFreeMints` only when the cache is empty. The model
does the same (`Quota.SubmissionFree`, `Mint.PreviewOnlyWithoutCache`).

Other behaviours of the code that the model keeps as written:

- A non-empty `accountsChanged` keeps the previous account's free-mint count
  (`Session.AccountsChanged`).
- The `catch` of `switchToLinea` also covers the `eth_chainId` read that
  follows a switch. An error 4902 from that read therefore also leads to
  registering the chain (`NetworkSwitch.FirstAttemptError`).
- A loaded mint price of zero still passes the "price loaded" guard. A
  `BigNumber` is an object, and objects are truthy in JavaScript.
- While `maxPerTx` is not loaded, the "+" button is not capped but the input
  is capped at 2 (`Stepper.UnloadedLimitGap`).

## Model

| member | source | states |
|---|---|---|
| Chain.DecimalSpellingVerdict | app/page.tsx:63-72 | Any non-empty run of decimal digits, leading zeros included, followed by text that cannot continue it, normalises to the value of the digits. |
| Chain.HexSpellingVerdict | app/page.tsx:63-72 | "0x" or "0X" followed by any non-empty run of hex digits, in either case and with leading zeros, and then text that cannot continue it, normalises to the value of the hex digits. |
| Chain.AnySpellingsAgree | app/page.tsx:63-72 | A decimal spelling and a hex spelling with the same value get the same verdict, and each passes the gate exactly when that value is 59144. |
| Chain.SpellingsAgree | app/page.tsx:63-72 | The canonical decimal, "0x" and "0X" spellings of any number pass the gate exactly when the number is 59144. Trailing text that cannot continue the number does not change the verdict. |
| Chain.UpperCaseHexPasses | app/page.tsx:63-72 | "0xE708" passes the gate. |
| Chain.ZeroPaddedHexPasses | app/page.tsx:63-72 | "0x0e708" passes the gate. |
| Chain.ZeroPaddedDecimalPasses | app/page.tsx:63-72 | "059144" passes the gate. |
| Chain.AbsentNeverPasses | app/page.tsx:63-72 | A missing or empty chain id never passes the gate. |
| NetworkSwitch.RequestedChainPasses | app/page.tsx:166-170 | The id the page asks the wallet to switch to, "0xe708", passes the gate. |
| JsParseInt.DigitPrefix | app/page.tsx:67-69 | The digits `parseInt` reads are the longest prefix made of digits of the radix. |
| JsParseInt.DigitsValueOfToDigits | app/page.tsx:67-69 | Reading back the digits of any number in any radix from 2 to 36 gives the number. |
| JsParseInt.DecimalDigitsRead | app/page.tsx:69 | `parseInt(d + rest, 10)` is the value of any non-empty decimal digit string `d` when `rest` does not start with a decimal digit. |
| JsParseInt.HexDigitsRead | app/page.tsx:67 | `parseInt("0x" + d + rest, 16)`, for both cases of the x, is the value of any non-empty hex digit string `d` when `rest` does not start with a hex digit. |
| JsParseInt.DecimalRoundTrip | app/page.tsx:69 | `parseInt(digits + rest, 10)` is the number when `rest` does not start with a decimal digit. |
| JsParseInt.HexRoundTrip | app/page.tsx:67 | `parseInt("0x" + hexDigits + rest, 16)` is the number, for both cases of the x, when `rest` does not start with a hex digit. |
| Text.TrimIsPadding | app/page.tsx:88 | A string trims to a word that has no whitespace at its ends exactly when the string is that word padded with whitespace. |
| Text.ToLower | app/page.tsx:394 | Lower-casing keeps the length and maps each character on its own. |
| Text.ContainsIff | app/page.tsx:396-406 | The left-to-right scan finds a needle exactly when the needle occurs at some position. |
| Session.Disconnect | app/page.tsx:138-150 | Disconnecting clears the account, the chain, the counters, the PoH state and both banners, and turns auto-connect off. The price, the limit, the quantity and the loading flag are unchanged. |
| Session.AccountsChanged | app/page.tsx:450-462 | An empty list clears the account, its mint count, its free-mint count and its PoH status. A non-empty list selects the first account, clears the error and starts a load and a PoH check. The earlier mint and free-mint counts are kept. The chain, the success banner and auto-connect never change. |
| Session.ChainChanged | app/page.tsx:464-470 | The new chain id is stored. With an account present a load and a PoH check start and the error is cleared, while the counters, the success banner and auto-connect are kept. Without an account nothing else changes. |
| Session.CheckPoh | app/page.tsx:78-98 | PoH is verified exactly when the reply is OK and its body trims to "true". It is not verified when the reply is OK with any other body, and unknown when the reply fails. A failure shows the advisory only if no error is already shown. The check always ends not running, and nothing else in the state changes. |
| Session.Load | app/page.tsx:241-290 | A data load ends not loading and clears the error. When a contract read fails it shows the load error and writes nothing else. When the reads succeed it stores the price and the limit. For a connected account it also stores the mint count, and the free-mint count when that read also succeeded. A failed account read is only logged. No other field changes. |
| Session.VerifiedIffPaddedTrue | app/page.tsx:88-89 | For a successful reply, PoH is verified exactly when the body is "true" surrounded by any whitespace. |
| NetworkSwitch.RequestPattern | app/page.tsx:156-234 | The chain is registered at most once, and only after error 4902 on the first attempt. There are at most two switch requests and at most five requests in all. A second switch happens exactly when the registration returned. Without a wallet no request is made. |
| NetworkSwitch.OutcomeCases | app/page.tsx:156-234 | Each outcome holds exactly under its condition: switched, added then switched, failed to add, rejected (4001) and other failure. The data is reloaded exactly when a switch succeeded and an account is present. |
| NetworkSwitch.SwitchBanner | app/page.tsx:182-233 | Of the banners `switchToLinea` itself writes after clearing both, exactly one is set. "Failed to add" is shown exactly when the chain had to be registered and one of the three follow-up requests failed. "Rejected" is shown exactly on 4001 from the first attempt. The generic failure is shown exactly on any other first-attempt error. |
| NetworkSwitch.SwitchBanners | app/page.tsx:156-233 | The state a switch leaves, with the awaited load (page.tsx:241-290) and PoH check (page.tsx:78-98). A failed switch shows only its error. A successful one stores the new chain id and shows its success text; it also shows an error exactly when the reload ran and the contract reads failed (the load error) or the PoH reply failed (the PoH advisory). A reload whose reads succeeded leaves the price and limit it read. Without a wallet the error is set and an earlier success banner stays. |
| Quota.SplitWith | app/page.tsx:349-357 | Free and paid add up to the quantity. Free is at most the quantity and at most the remaining free mints, and equals one of them. Paid is never negative, and is zero exactly when the free mints cover the quantity. |
| Quota.DisplaySplit | app/page.tsx:517-526 | The shown split counts an unknown free-mint count as zero free mints. With a known count it is the submission split. |
| Quota.SubmissionFree | app/page.tsx:348-355 | The submission uses the cached free-mint count when there is one, and the on-chain preview only otherwise. |
| Quota.RequiredValue | app/page.tsx:358 | The payment is never negative, and is zero exactly when the price or the paid count is zero. |
| Quota.RequiredValueIsPerUnitSum | app/page.tsx:358 | The payment is the price of each paid unit added up, with no rounding. |
| Quota.FreeUnitsAreTheDiscount | app/page.tsx:349-358 | The payment is the full price of the quantity minus the price of the free units. |
| Quota.CachedCountDecidesSubmission | app/page.tsx:348-358 | With a cached count the on-chain preview does not affect the submission split, and that split equals the displayed one. |
| Quota.DisplayIsConservative | app/page.tsx:517-526 | The displayed payment is never below the payment sent at submission. |
| MintErrors.FirstNonEmpty | app/page.tsx:387-392 | The message inspected is the first candidate that is present and non-empty. It is the fallback when there is none. |
| MintErrors.Classify | app/page.tsx:379-385 | The rejection code wins over any message text. |
| MintErrors.ClassifyByMarkers | app/page.tsx:379-412 | The error is classed as rejected exactly on the rejection code. Otherwise a funds marker anywhere in the lower-cased message means "need more ETH", else a cap marker means "cap reached", else the mint failed. Each class is stated as an if-and-only-if. |
| MintErrors.ContainsAnyIff | app/page.tsx:396-406 | Some marker is found by the scan exactly when some marker occurs in the text. |
| Mint.FirstFailingGuardDecides | app/page.tsx:296-333 | The cascade reports the first failing guard in the order the code checks them, and none exactly when all guards hold. All guards holding means a wallet, an account, Linea, a price, a quantity between 1 and the limit, and PoH verified. |
| Mint.BlockedBeforeAnyCall | app/page.tsx:296-333 | A failing guard stops the mint with its reason and no chain call. A mint that passes the guards calls the chain. |
| Mint.SubmitMintCount | app/page.tsx:361-372 | A submission adds one transaction exactly when nothing is paid or the balance covers the payment. |
| Mint.SubmitCalls | app/page.tsx:357-372 | The balance is read exactly when something is paid. One transaction is added exactly when nothing is paid or the balance covers the payment. |
| Mint.SubmitOutcome | app/page.tsx:357-377 | The transaction is for the session's quantity and exactly price × paid. A low balance stops the mint. It succeeds exactly when the payment is covered and the chain accepts and confirms, and then it reloads. |
| Mint.SubmissionImpliesPreconditions | app/page.tsx:296-372 | A sent transaction implies that every guard held and PoH is verified. It carries the session's quantity and exactly price × paid, and when something is paid the balance covered it. |
| Mint.PreviewOnlyWithoutCache | app/page.tsx:348-355 | The on-chain preview is read exactly when no free-mint count is cached. A failed read ends the mint after that one call. |
| Mint.BalanceGatesTransaction | app/page.tsx:357-378 | The balance is read exactly when something is paid. A short balance ends the mint with no transaction. Success is exactly a covered payment that the chain accepts and confirms, followed by a reload. |
| Mint.SingleTransaction | app/page.tsx:370-372 | A mint sends at most one transaction. |
| Mint.MintBanner | app/page.tsx:296-412 | A blocked mint shows its guard's message and a failed one its class's message. A low balance shows the same text as a classified funds error. Of the banners `handleMint` itself writes after clearing both, the success banner appears exactly on a successful mint, and exactly one is set. |
| Mint.MintBanners | app/page.tsx:296-378 | The banners left once the awaited reload after a successful mint (page.tsx:378) has finished. A mint that did not succeed shows only its error. A successful one shows "Mint successful!", and also the load error exactly when that reload failed. A reload whose reads succeeded leaves the price and limit it read. A mint that did not succeed reloads nothing. |
| Mint.LoadAndGuards | app/page.tsx:241-290 | After a load whose contract reads succeeded, the "price not loaded" guard (page.tsx:312-315) passes. A failed load changes no guard's verdict. |
| Mint.OverMaxTail | app/page.tsx:321 | The per-transaction message ends in a digit and a full stop, and in two digits and a full stop once the limit reaches 10. |
| Mint.GuardMessageTail | app/page.tsx:300-328 | The last three characters and the length of each guard message name its guard. |
| Mint.GuardMessageIdentifiesGuard | app/page.tsx:300-328 | Two guards show the same message exactly when they are the same guard, for any loaded limit. |
| PrimaryAction.ActionPriority | app/page.tsx:423-441 | A click connects without an account. Otherwise it switches network off Linea. Otherwise it opens the portal when PoH failed, and otherwise it mints. A session ready to mint always mints. |
| PrimaryAction.ClickRespectsGuards | app/page.tsx:423-441 | An unverified account on Linea opens the portal and never reaches the contract. A click that mints is never stopped by the account, network or PoH-verdict guards. |
| PrimaryAction.LabelNamesAction | app/page.tsx:528-538 | For an account on Linea, the label names the action exactly except while a PoH check runs, or while a mint is in flight and PoH has not failed; a mint in flight with PoH failed still shows the portal label. An enabled button always names its action. |
| PrimaryAction.PohVerdictNeverDisables | app/page.tsx:537-538 | Whether the button is disabled does not depend on the PoH verdict. |
| PrimaryAction.DisconnectOffersConnect | app/page.tsx:528-530 | After a disconnect the button connects and says so. |
| PrimaryAction.PohLabelCases | app/page.tsx:540-553 | "Verified" is shown exactly for a finished check that verified. "Not verified" is shown exactly for a connected account with no check running and no verification, even when the status is unknown. Nothing is shown without an account. |
| PrimaryAction.PortalAgreesWithLabel | app/page.tsx:540-553 | When the button leads to the portal and no PoH check is running, the label reads "Not verified". A "Verified" label for an account on Linea comes with a mint action. |
| PrimaryAction.InitialOffersConnect | app/page.tsx:34-59 | The page starts by offering to connect, with the button enabled and no PoH status shown. |
| Stepper.Decrement | app/page.tsx:672-675 | "-" gives one less, never below one. |
| Stepper.Increment | app/page.tsx:689-696 | "+" gives one more. Once the limit is loaded it is capped at the limit. |
| Stepper.InputChange | app/page.tsx:683-687 | Text that does not parse leaves the quantity unchanged. A parsed number is clamped to between 1 and the cap, and a number already in that range is kept. |
| Stepper.StepsKeepRange | app/page.tsx:672-696 | Both buttons keep the quantity between 1 and a loaded limit. Typing any number brings it into that range. |
| Stepper.TypedQuantitySelected | app/page.tsx:683-687 | Typing the digits of an allowed quantity selects it. Clearing the field selects 1. |
| Stepper.InRangePassesQuantityGuards | app/page.tsx:316-323 | A quantity in range passes both quantity guards of a mint. |
| Stepper.ButtonsFollowState | app/page.tsx:672-696 | Both buttons are disabled during a mint. An enabled "-" lowers the quantity by exactly one, and outside a mint "-" is disabled exactly at the floor of one. |
| Stepper.InitialQuantityInRange | app/page.tsx:45 | The starting quantity of one is in range for any limit, with "-" disabled and "+" enabled. |
| Stepper.UnloadedLimitGap | app/page.tsx:678-696 | While the limit is not loaded, typing never raises the quantity above 2 unless it was already higher, but "+" adds one with no cap, so "+" takes 2 to 3. A quantity reached by "+" then fails the per-transaction guard, and the mint is not ready, once a smaller positive limit loads. |

## Left out

- The outside world is given as inputs: `window.ethereum` and its replies (`WalletScript`, `hasWallet`), the contract and provider calls (`ChainScript`), `fetch` of the PoH service (`PohReply`), and `tx.wait()`.
- `connectWallet` is left out: the account prompt and its error texts. A click without an account is modelled only as the `Connecting` effect.
- Session.Load: the maximum per wallet, the supply figures and the daily allowance it also reads are display values, so they are not modelled. `toNumber` throwing on a limit or count above 2^53 is not modelled either. The early return without a provider is not modelled, because every caller of `Load` has one.
- Races between overlapping async handlers are left out, for example a late PoH reply for an account that has since changed. Each handler runs to completion on the state it started from.
- The listener lifecycle of the `useEffect` (subscribe and unsubscribe) is left out. So are its auto-connect `eth_accounts` read and its `eth_chainId` read, which runs again on every address change, so the chain id that `Session.Disconnect` clears is filled in again right after.
- `formatEther`, `toNumber` on `BigNumber` values, and the free-mint text are display or conversion details, so they are left out.
- The "max 8 total" text, the `maxSupply || 15000` fallback and the supply figures are display details, so they are left out.
- Console logging and the PoH portal URL are left out.
- The `isMinting` flag's set and clear around `handleMint` are left out; the flag is an input of the button logic.
- Text.ToLower: lowers ASCII letters only, character by character. `toLowerCase` also lowers non-ASCII letters, and two of them become ASCII text: U+0130 lowers to "i" followed by U+0307, and U+212A (the Kelvin sign) lowers to "k". No marker the classifier looks for contains "k", and none ends in "i" (so none can end just before an inserted U+0307), so the classification is the same either way.
- JsParseInt.DecimalRoundTrip: states the value exactly, but JavaScript parses to a double. Values above 2^53 round in JavaScript, and no such value can equal 59144 or fit the quantity cap.
- JsParseInt.HexRoundTrip: same rounding caveat as the decimal round trip.
- JsParseInt.DecimalDigitsRead: states the exact value of any digit run, but JavaScript rounds values above 2^53 to a double. The verdict at the Linea gate is unaffected, since no rounded value equals 59144.
- JsParseInt.HexDigitsRead: same 2^53 rounding caveat as the decimal digit read.
- Chain.DecimalSpellingVerdict: the normalised id is stated exactly, so above 2^53 it is the exact value rather than JavaScript's rounded one. The gate verdict is the same, since 59144 is far below 2^53.
- Chain.HexSpellingVerdict: same 2^53 rounding caveat as the decimal spelling.
- MintErrors.Classify: takes `String(err)` as a given field of the thrown value (`asString`), since its text depends on the value's runtime type.
