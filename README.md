# Circle page decision engine and indexer-lag banner, in Dafny

This project models the decision logic of a mini-app for a rotating-savings circle, whose state
is mirrored off-chain from a TON smart contract. The circle page (`CirclePage.tsx`) takes a
snapshot of the circle and of the caller's member record, plus the current time, and decides:

- the status label;
- the money figures: pot, required collateral and missing collateral;
- the amounts pre-filled in the two deposit fields;
- the ordered list of navigational calls to action;
- whether the connected wallet is the member's bound wallet;
- whether the three on-chain "liveness" triggers may be offered: run debit, finalize auction,
  terminate for default.

The indexer-lag banner (`IndexerLagBanner.tsx`) classifies the mirrored data as fresh, warning or
critical from the last successful and last attempted indexing times and the last indexer error.
It also produces the banner's title, age text and shortened error text.

Modules:

- `Wrappers` (`wrappers.dfy`): `Option`.
- `JsSemantics` (`js_semantics.dfy`): the JavaScript behaviour the core relies on:
  - the ECMAScript white-space set, `trim` and `trimStart`;
  - StringToBigInt, which `BigInt(string)` applies (ECMA-262 section 7.1.14);
  - `BigInt(number)`;
  - the decimal text of an integer in a template literal;
  - timestamp fields as `Date.parse` sees them (`TimeField`).
- `CirclePage` (`circle_page.dfy`): the circle page's logic. The suggestion effect is modelled
  as the class `DepositForm`: two mutable text fields and the method `ApplySuggestions`. The
  `ctas` builder is the method `BuildCtas`, which pushes onto a local list as the source does.
- `IndexerLag` (`indexer_lag.dfy`): `safeShort`, `secondsAgo`, `fmtAgo` and the staleness
  decision.

Modelling choices:

- **Time is a parameter.** Wherever the source reads `Date.now()`, the model takes `nowMs`
  (milliseconds). The gates take `nowSec`, the whole seconds from the page's 1 Hz ticker. The
  CTA builder reads its own clock (line 117) and takes `nowMs`. That clock is read only when the
  `ctas` memo recomputes, and the memo depends on `[circle, circleId, member]` alone (line 139).
  So `nowMs` is the time of the last recomputation, not the current time: "Go to Auction" stays
  listed after the reveal end until the next snapshot refresh.
- **Timestamp fields** are `TimeField = Unset | Set(parsedMs: Option<int>)`:
  - `Unset` is a falsy field: null, undefined or "".
  - `Set(None)` is a non-empty text that `Date.parse` turns into NaN.
  - `Set(Some(ms))` carries the parsed milliseconds.

  The distinction matters. The debit and termination gates test the raw commit-end field for
  truthiness, so an unparseable commit-end still blocks them. The CTA builder tests the parsed
  seconds.
- **Zero reads as absent.** `TruthySeconds` gives the seconds of a truthy
  `Math.floor(Date.parse(x) / 1000)`. NaN, a missing field and second 0 are all falsy there,
  exactly as in the source.
- **Division.** `Math.floor` of a division by a positive constant is Dafny's `/`. BigInt `/`
  truncates toward zero, which `TruncDiv` writes out.
- **Unknown values.** A value of unknown type (the member balances) is a `JsValue`. A
  JavaScript number is either integral or not (`JsNumber`).
- **Plain definitions.** `NumberToBigInt` is `BigInt(number)` (CirclePage.tsx:33),
  `IsOnchainJoined` the join-status test (CirclePage.tsx:112) and `Deposits` the on-chain
  deposit sum (CirclePage.tsx:113). Their properties are stated through `ToBigIntSafe` and
  `BuildCtas`.
- **Foreign functions are parameters.** `formatUsdt` and `Address.parse` are function-valued
  parameters. `Address.equals` is equality of the parsed `TonAddress` (workchain and hash).

Behaviour of the code worth knowing:

- A deadline in second 0 counts as missing (`ZeroDueSecondDisablesDebit`).
- The debit and termination gates test the raw commit-end field, so an unparseable commit-end
  also blocks them.
- `hasError` trims the error text. `TrimEmptyIff` and `CleanEmptyIff` together show this agrees
  with testing the collapsed text.

## Model

| member | source | states |
|---|---|---|
| `CirclePage.DisplayStatus` | miniapp/src/pages/CirclePage.tsx:26-28 | the label differs from the status text exactly for "EmergencyStop", which becomes "Emergency Stop" |
| `CirclePage.ParseStatus` | miniapp/src/pages/CirclePage.tsx:110 | the status read from text gives that text back, and is `Other` exactly when the text is none of the six known names; the result is a `KnownStatus`, whose `Other` never carries a known name |
| `CirclePage.ToBigIntSafe` | miniapp/src/pages/CirclePage.tsx:30-39 | a bigint is returned unchanged; an integral number is its value; a blank string, a string BigInt rejects, a non-integral number and any other kind of value all give 0 |
| `CirclePage.ToBigIntSafeOfDecimal` | miniapp/src/pages/CirclePage.tsx:34 | a balance sent as the decimal text of an integer, with any surrounding white space, is read back as that integer |
| `JsSemantics.StringToBigInt` | miniapp/src/pages/CirclePage.tsx:34 | white space alone is 0; a text accepted as a number has only digits, radix letters and signs once trimmed |
| `JsSemantics.ParseIntegerLiteral` | miniapp/src/pages/CirclePage.tsx:34 | an accepted literal has only digits, radix letters and signs, a sign only at the front, and a value of at most 0 when it starts with "-" |
| `JsSemantics.StringToBigIntRejectsNonLiteral` | miniapp/src/pages/CirclePage.tsx:34 | a text holding any other character between its white-space padding is rejected, so `toBigIntSafe` falls back to 0 |
| `JsSemantics.SignedRadixLiteralRejected` | miniapp/src/pages/CirclePage.tsx:34 | a 0x/0o/0b literal with a sign in front is rejected |
| `JsSemantics.ParseDigits` | miniapp/src/pages/CirclePage.tsx:34 | a digit string is accepted exactly when it is non-empty and every character is a digit of the radix |
| `JsSemantics.StringToBigIntOfDecimal` | miniapp/src/pages/CirclePage.tsx:34 | `BigInt` reads the decimal text of every integer back, whatever white space pads it |
| `JsSemantics.ParseDecimalRoundTrip` | miniapp/src/pages/CirclePage.tsx:34 | parsing the decimal digits of a natural number gives that number |
| `JsSemantics.Trim` | miniapp/src/components/mc/IndexerLagBanner.tsx:35 | the result is a middle slice of the input; everything cut off is white space; the result neither starts nor ends with white space |
| `JsSemantics.TrimEmptyIff` | miniapp/src/pages/CirclePage.tsx:34 | trimming gives the empty string exactly when the input is white space only |
| `JsSemantics.TrimPadded` | miniapp/src/pages/CirclePage.tsx:34 | text padded with white space trims back to the text, when its own ends are not white space |
| `JsSemantics.NatToDecimal` | miniapp/src/components/mc/IndexerLagBanner.tsx:23-26 | the text of a number in a template literal is a non-empty run of decimal digits with no leading zero |
| `CirclePage.PotUnits` | miniapp/src/pages/CirclePage.tsx:91 | the pot is 0 without a circle and non-negative when members and contribution are |
| `CirclePage.TruncDiv` | miniapp/src/pages/CirclePage.tsx:92 | BigInt division: the quotient is truncated toward zero, with bounds on both sides for either sign |
| `CirclePage.CollateralRequiredUnits` | miniapp/src/pages/CirclePage.tsx:90-92 | the requirement is 0 without a circle; otherwise it is the rate in basis points applied to the whole pot and truncated toward zero: `r * 10000 <= pot * bps < r * 10000 + 10000` for a non-negative product, `r * 10000 - 10000 < pot * bps <= r * 10000` for a negative one |
| `CirclePage.CollateralRequiredBounds` | miniapp/src/pages/CirclePage.tsx:90-92 | with non-negative inputs the requirement is non-negative, and at a rate of at most 10000 bps it never exceeds the pot |
| `CirclePage.RequiredMonotoneInMembers` | miniapp/src/pages/CirclePage.tsx:91-92 | more members never lower the requirement |
| `CirclePage.RequiredMonotoneInContribution` | miniapp/src/pages/CirclePage.tsx:90-92 | a larger contribution never lowers the requirement |
| `CirclePage.RequiredMonotoneInRate` | miniapp/src/pages/CirclePage.tsx:92 | a higher collateral rate never lowers the requirement |
| `CirclePage.TruncDivMonotone` | miniapp/src/pages/CirclePage.tsx:92 | truncating division by a positive divisor is monotone on non-negative dividends |
| `CirclePage.MissingCollateralUnits` | miniapp/src/pages/CirclePage.tsx:93 | the shortfall is never negative; it is 0 exactly when the member's coerced collateral reaches the requirement, and otherwise it is their difference |
| `CirclePage.SuggestedCollateralUnits` | miniapp/src/pages/CirclePage.tsx:98 | the suggestion is the shortfall when there is one; with no shortfall the full requirement is suggested again; depositing it brings the collateral up to the requirement; it never exceeds the requirement for non-negative holdings |
| `CirclePage.SuggestField` | miniapp/src/pages/CirclePage.tsx:97-103 | a field the user has edited away from "0" is never overwritten; a field at "0" takes any suggestion other than "0" |
| `CirclePage.SuggestFieldIdempotent` | miniapp/src/pages/CirclePage.tsx:95-105 | running the suggestion again with the same inputs changes nothing |
| `CirclePage.NoSuggestionWhenNothingRequired` | miniapp/src/pages/CirclePage.tsx:97-99 | when nothing is required, and the formatter writes 0 as "0", the collateral field stays "0" |
| `CirclePage.DepositForm.constructor` | miniapp/src/pages/CirclePage.tsx:55-56 | both deposit fields start at "0" |
| `CirclePage.DepositForm.ApplySuggestions` | miniapp/src/pages/CirclePage.tsx:95-105 | without a circle nothing changes; otherwise each field becomes `SuggestField` of its old text and the formatted suggestion (the collateral suggestion, or the contribution for prefund) |
| `CirclePage.TruthySeconds` | miniapp/src/pages/CirclePage.tsx:152-154 | a truthy deadline is a set, parsed, non-zero second that floors the parsed milliseconds; any parsed time outside the first second of 1970 is truthy |
| `CirclePage.AuctionOpen` | miniapp/src/pages/CirclePage.tsx:115-118 | open exactly when both window ends are set, parse, and lie outside second 0 of 1970, and the reveal end is at least one whole second after the start of the current second |
| `CirclePage.BuildCtas` | miniapp/src/pages/CirclePage.tsx:107-139 | Recruiting: one entry, "Join Circle" if not on-chain joined, else "Exit & Refund" or "Exit Circle" by deposits. Active: "Withdraw Now" iff withdrawable > 0, followed by "Go to Auction" iff a commit/reveal window is open. Completed, Terminated, EmergencyStop: exactly "Withdraw All". Locked or unknown: empty. Every entry has its route |
| `CirclePage.WalletMatchesMember` | miniapp/src/pages/CirclePage.tsx:141-150 | fails open: a mismatch is reported exactly when both addresses are present, both parse, and the parsed addresses differ |
| `CirclePage.WalletMatchesSameAddress` | miniapp/src/pages/CirclePage.tsx:146 | two texts that parse to the same address match |
| `CirclePage.CanRunDebit` | miniapp/src/pages/CirclePage.tsx:152-167 | offered only with a contract address, `dueAt <= now < graceEnd` on truthy seconds, phase 0 or unknown, and no commit-end field |
| `CirclePage.CanFinalizeAuction` | miniapp/src/pages/CirclePage.tsx:169-176 | offered only with a contract address, `now >= revealEnd`, phase 1, 2 or unknown, and status exactly Active |
| `CirclePage.CanTerminateDefault` | miniapp/src/pages/CirclePage.tsx:178-186 | offered only with a contract address, `now >= graceEnd`, no commit-end field, phase 3, 0 or unknown, and status Locked or Active |
| `CirclePage.GatesOpenWhenConditionsHold` | miniapp/src/pages/CirclePage.tsx:157-186 | the converse: each gate is offered once all of its conditions hold |
| `CirclePage.DebitExcludesTerminate` | miniapp/src/pages/CirclePage.tsx:163-164 | debit and termination for default are never offered for the same snapshot and time |
| `CirclePage.UnknownPhaseIsPermissive` | miniapp/src/pages/CirclePage.tsx:155-186 | whatever a gate allows for some reported phase, it also allows when the phase is unknown |
| `CirclePage.ZeroDueSecondDisablesDebit` | miniapp/src/pages/CirclePage.tsx:152-159 | a due time inside second 0 of 1970 counts as missing, so debit is not offered |
| `CirclePage.ParseStatusName` | miniapp/src/pages/CirclePage.tsx:110 | every status the backend can send reads back as itself |
| `IndexerLag.CollapseSpace` | miniapp/src/components/mc/IndexerLagBanner.tsx:8 | after replacing white-space runs, the only white space left is single plain spaces, and the result starts with a space exactly when the input starts with white space |
| `IndexerLag.CollapseConcat` | miniapp/src/components/mc/IndexerLagBanner.tsx:8 | collapsing a text cut after a non-space character is collapsing the two pieces and joining them |
| `IndexerLag.CollapseSpaceRun` | miniapp/src/components/mc/IndexerLagBanner.tsx:8 | a white-space run between two non-space characters becomes exactly one space in that place |
| `IndexerLag.CollapseKeepsContent` | miniapp/src/components/mc/IndexerLagBanner.tsx:8 | collapsing keeps every non-space character, in order |
| `IndexerLag.Clean` | miniapp/src/components/mc/IndexerLagBanner.tsx:8 | the collapsed, trimmed text is single-spaced, has no space at either end, and has the input's non-space characters, in order |
| `IndexerLag.CleanEmptyIff` | miniapp/src/components/mc/IndexerLagBanner.tsx:8 | the collapsed, trimmed text is empty exactly when the input is white space only |
| `IndexerLag.CleanIdempotent` | miniapp/src/components/mc/IndexerLagBanner.tsx:8 | cleaning twice is the same as cleaning once |
| `IndexerLag.SliceTo` | miniapp/src/components/mc/IndexerLagBanner.tsx:10 | `slice(0, end)` is a prefix: of length `end` when that fits, the whole text past the end, and `end` characters short of the whole for a negative `end` |
| `IndexerLag.SafeShort` | miniapp/src/components/mc/IndexerLagBanner.tsx:7-11 | at most `maxLen` characters; the cleaned text unchanged when it fits, otherwise its first `maxLen - 1` characters and "…" |
| `IndexerLag.SafeShortEmptyIff` | miniapp/src/components/mc/IndexerLagBanner.tsx:7-11 | the short text is empty exactly when the input is white space only |
| `IndexerLag.TruncatedIsClean` | miniapp/src/components/mc/IndexerLagBanner.tsx:10 | a clean text cut short and marked with "…" is still clean |
| `IndexerLag.SafeShortIdempotent` | miniapp/src/components/mc/IndexerLagBanner.tsx:7-11 | shortening a shortened text changes nothing |
| `IndexerLag.SecondsAgo` | miniapp/src/components/mc/IndexerLagBanner.tsx:13-18 | None exactly for an unset or unparseable field; otherwise a non-negative count of whole seconds that floors the elapsed time, clamped at 0 |
| `IndexerLag.FmtAgo` | miniapp/src/components/mc/IndexerLagBanner.tsx:20-27 | "Ns ago" below 60 s, "Mm ago" below 3600 s, otherwise "Hh Mm ago" with the hours and the minutes past the hour; negative input reads as 0 |
| `IndexerLag.FmtAgoAccurate` | miniapp/src/components/mc/IndexerLagBanner.tsx:20-27 | the text shown names a minute count, or an hour count of at least 1 and a minute count below 60, that falls short of the age by less than a minute |
| `IndexerLag.HasError` | miniapp/src/components/mc/IndexerLagBanner.tsx:35 | an error exactly when there is an error text with a character that is not white space |
| `IndexerLag.IsStale` | miniapp/src/components/mc/IndexerLagBanner.tsx:38-41 | with a parsed last-success time, stale exactly from 300 000 ms of age; without one, stale exactly when there is an error |
| `IndexerLag.IsCritical` | miniapp/src/components/mc/IndexerLagBanner.tsx:39-44 | with a parsed last-success time, critical exactly from 900 000 ms of age; without one, critical exactly when there is an error; whatever is critical is also stale |
| `IndexerLag.AgeText` | miniapp/src/components/mc/IndexerLagBanner.tsx:47 | the last-success age is preferred, then the last-attempt age, then "Sync status unknown" |
| `IndexerLag.ErrTextNotEmpty` | miniapp/src/components/mc/IndexerLagBanner.tsx:35-48 | an error that is not blank still has text after shortening |
| `IndexerLag.IndexerLagBanner` | miniapp/src/components/mc/IndexerLagBanner.tsx:29-48 | no banner without a circle; shown exactly when stale; critical as computed; title "Chain sync delayed" exactly when critical, else "Sync delayed"; error text exactly when there is an error, non-empty and at most 120 characters |
| `IndexerLag.LevelOf` | miniapp/src/components/mc/IndexerLagBanner.tsx:31-44 | fresh exactly when there is no circle or it is not stale; critical exactly when the circle is critical |
| `IndexerLag.LevelByLastSuccess` | miniapp/src/components/mc/IndexerLagBanner.tsx:33-44 | with a last-success time: fresh below 300 000 ms of age, a warning up to 900 000 ms, critical from there |
| `IndexerLag.LevelWithoutLastSuccess` | miniapp/src/components/mc/IndexerLagBanner.tsx:35-44 | without a last-success age: critical when there is an error, otherwise fresh |

## Left out

- Rendering (JSX, layout, styling) of the page and of the banner: presentation, not logic.
- Loading the snapshot, attaching a contract, deposit intents, sending transactions, and the
  `busy`/`error` state: asynchronous network and wallet I/O.
- The 1 Hz ticker: the time is a parameter instead.
- The payload builders and `formatUsdt`: their source is not part of this model. `formatUsdt`
  is a parameter, and the fixed-point decimal codec is not modelled.
- The internals of `Address.parse`, `Address.equals` and `Date.parse`: foreign code.
  `Address.parse` is a parameter, and `Date.parse` results arrive inside `TimeField`.
- Floating point. Timestamps are mathematical integers and `Number.isFinite` always holds for a
  parsed time. A JavaScript number is integral or not, with no further detail.
- `CirclePage.ToBigIntSafe`: does not model `BigInt` of a number beyond "integral or not";
  precision loss of large doubles is a floating-point concern.
- `BigInt(circle.contribution_units)` and the other circle money fields are taken as integers.
  The source converts them without a guard, so a malformed value there would throw during
  rendering. That failure is not modelled.
- `String(member.join_status)` of a non-string value: the join status is an optional string.
- `IndexerLag.SafeShort`: lengths and slices count Unicode scalar values. JavaScript counts
  UTF-16 code units, so text outside the Basic Multilingual Plane can be cut at a different
  place.
- `JsSemantics.NatToDecimal`: numbers of 10^21 and above, which JavaScript prints in exponent
  notation, are not modelled. Second counts never reach them.
