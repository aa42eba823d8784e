/** The decision logic of the circle page: how a mirrored circle and member snapshot, plus the
    current time, turn into a status label, money figures, suggested deposit amounts, the list of
    navigational calls to action, the wallet-binding check and the three on-chain trigger gates. */
module CirclePage {
  import opened Wrappers
  import opened JsSemantics

  // ---------------------------------------------------------------- data model

  /** The circle status as the backend reports it; any other text is `Other`. */
  datatype Status = Recruiting | Locked | Active | Completed | Terminated | EmergencyStop | Other(name: string)

  predicate IsKnownStatusName(s: string) {
    s == "Recruiting" || s == "Locked" || s == "Active" || s == "Completed"
    || s == "Terminated" || s == "EmergencyStop"
  }

  /** A status as it can come from the backend: `Other` only carries a name that is none of
      the six statuses. */
  type KnownStatus = st: Status | st.Other? ==> !IsKnownStatusName(st.name) witness Recruiting

  /** `String(circle.status)`. */
  function StatusName(st: Status): string {
    match st
    case Recruiting => "Recruiting"
    case Locked => "Locked"
    case Active => "Active"
    case Completed => "Completed"
    case Terminated => "Terminated"
    case EmergencyStop => "EmergencyStop"
    case Other(n) => n
  }

  /** Reads the backend's status text; the source compares that text with `===`. */
  function ParseStatus(raw: string): (st: KnownStatus)
    ensures StatusName(st) == raw
    ensures st.Other? <==> !IsKnownStatusName(raw)
  {
    if raw == "Recruiting" then Recruiting
    else if raw == "Locked" then Locked
    else if raw == "Active" then Active
    else if raw == "Completed" then Completed
    else if raw == "Terminated" then Terminated
    else if raw == "EmergencyStop" then EmergencyStop
    else Other(raw)
  }

  /** Every status that can come from the backend's text reads back as itself. */
  lemma ParseStatusName(st: KnownStatus)
    ensures ParseStatus(StatusName(st)) == st
  {
  }

  /** A mirrored circle. The money fields are the integers `BigInt` makes of them; every
      timestamp is a `TimeField`; the phase is absent until the contract has been queried. */
  datatype Circle = Circle(
    status: KnownStatus,
    contractAddress: Option<string>,
    nMembers: int,
    contributionUnits: int,
    collateralRateBps: int,
    onchainPhase: Option<int>,
    dueAt: TimeField,
    graceEndAt: TimeField,
    revealEndAt: TimeField,
    commitEndAt: TimeField)

  /** The caller's member record; the balances arrive as values of unknown type. */
  datatype Member = Member(
    joinStatus: Option<string>,
    walletAddress: Option<string>,
    collateral: JsValue,
    prefund: JsValue,
    withdrawable: JsValue)

  /** A call to action: a label and the route it links to. */
  datatype Cta = Cta(caption: string, target: string)

  /** A parsed TON address (what `Address.parse` yields): a workchain and the account hash. */
  datatype TonAddress = TonAddress(workChain: int, hash: seq<bv8>)

  /** Truthiness of an optional string: null, undefined and "" are all falsy. */
  predicate Truthy(s: Option<string>) {
    s.Some? && s.value != ""
  }

  // ---------------------------------------------------------------- status label and coercion

  /** `displayStatus`: only the emergency stop gets a two-word label. */
  function DisplayStatus(status: string): (r: string)
    ensures r == status <==> status != "EmergencyStop"
    ensures r != status ==> r == "Emergency Stop"
  {
    if status == "EmergencyStop" then "Emergency Stop" else status
  }

  /** `toBigIntSafe`: any value to an integer, 0 whenever conversion is impossible or throws. */
  function ToBigIntSafe(v: JsValue): (r: int)
    ensures v.JsBigInt? ==> r == v.big
    ensures v.JsNum? ==> r == NumberToBigInt(v.num).GetOr(0)
    ensures v.JsString? && AllSpace(v.str) ==> r == 0
    ensures v.JsString? && StringToBigInt(v.str).None? ==> r == 0
    ensures v.JsString? && !AllSpace(v.str) && StringToBigInt(v.str).Some? ==> r == StringToBigInt(v.str).value
    ensures v.JsOther? ==> r == 0
  {
    match v
    case JsBigInt(b) => b
    case JsNum(x) => NumberToBigInt(x).GetOr(0)
    case JsString(s) =>
      TrimEmptyIff(s);
      if Trim(s) != "" then StringToBigInt(s).GetOr(0) else 0
    case JsOther => 0
  }

  /** A balance sent as decimal text, padded or not, is read back exactly. */
  lemma ToBigIntSafeOfDecimal(i: int, pre: string, post: string)
    requires AllSpace(pre) && AllSpace(post)
    ensures ToBigIntSafe(JsString(pre + IntToDecimal(i) + post)) == i
  {
    StringToBigIntOfDecimal(i, pre, post);
  }

  function MemberCollateral(member: Option<Member>): JsValue {
    if member.Some? then member.value.collateral else JsOther
  }

  function MemberPrefund(member: Option<Member>): JsValue {
    if member.Some? then member.value.prefund else JsOther
  }

  function MemberWithdrawable(member: Option<Member>): JsValue {
    if member.Some? then member.value.withdrawable else JsOther
  }

  // ---------------------------------------------------------------- finance

  /** BigInt division: the quotient truncated toward zero (Dafny's `/` is Euclidean). */
  function TruncDiv(a: int, b: int): (q: int)
    requires b > 0
    ensures 0 <= a ==> 0 <= q && q * b <= a < q * b + b
    ensures a < 0 ==> q <= 0 && q * b - b < a <= q * b
  {
    if a >= 0 then a / b else -((-a) / b)
  }

  lemma MulNonNegative(x: int, y: int)
    requires x >= 0 && y >= 0
    ensures x * y >= 0
  {
  }

  lemma MulMonotone(x: int, y: int, k: int)
    requires x <= y && k >= 0
    ensures x * k <= y * k
  {
    MulNonNegative(y - x, k);
    assert y * k - x * k == (y - x) * k;
  }

  lemma TruncDivMonotone(a1: int, a2: int, b: int)
    requires b > 0 && 0 <= a1 <= a2
    ensures TruncDiv(a1, b) <= TruncDiv(a2, b)
  {
    var q1, q2 := TruncDiv(a1, b), TruncDiv(a2, b);
    if q1 > q2 {
      MulMonotone(q2 + 1, q1, b);
      assert false;
    }
  }

  function ContributionUnits(circle: Option<Circle>): int {
    if circle.Some? then circle.value.contributionUnits else 0
  }

  /** `potUnits`: members times contribution. */
  function PotUnits(circle: Option<Circle>): (r: int)
    ensures circle.None? ==> r == 0
    ensures circle.Some? && circle.value.nMembers >= 0 && circle.value.contributionUnits >= 0 ==> r >= 0
  {
    if circle.Some? then circle.value.nMembers * circle.value.contributionUnits else 0
  }

  /** `collateralRequiredUnits`: the collateral rate (in basis points) applied to the whole pot,
      truncated toward zero: never rounded up. */
  function CollateralRequiredUnits(circle: Option<Circle>): (r: int)
    ensures circle.None? ==> r == 0
    ensures circle.Some? && PotUnits(circle) * circle.value.collateralRateBps >= 0 ==>
      0 <= r && r * 10000 <= PotUnits(circle) * circle.value.collateralRateBps < r * 10000 + 10000
    ensures circle.Some? && PotUnits(circle) * circle.value.collateralRateBps < 0 ==>
      r <= 0 && r * 10000 - 10000 < PotUnits(circle) * circle.value.collateralRateBps <= r * 10000
  {
    if circle.Some? then TruncDiv(PotUnits(circle) * circle.value.collateralRateBps, 10000) else 0
  }

  /** With non-negative inputs the requirement is non-negative, and at a rate of at most 100%
      it never exceeds the pot. */
  lemma CollateralRequiredBounds(c: Circle)
    requires c.nMembers >= 0 && c.contributionUnits >= 0 && c.collateralRateBps >= 0
    ensures 0 <= CollateralRequiredUnits(Some(c))
    ensures c.collateralRateBps <= 10000 ==> CollateralRequiredUnits(Some(c)) <= PotUnits(Some(c))
  {
    var pot := PotUnits(Some(c));
    var r := CollateralRequiredUnits(Some(c));
    MulNonNegative(pot, c.collateralRateBps);
    if c.collateralRateBps <= 10000 && r > pot {
      MulMonotone(c.collateralRateBps, 10000, pot);
      MulMonotone(pot + 1, r, 10000);
      assert false;
    }
  }

  lemma RequiredMonotoneInMembers(c: Circle, n: int)
    requires 0 <= c.nMembers <= n && c.contributionUnits >= 0 && c.collateralRateBps >= 0
    ensures CollateralRequiredUnits(Some(c)) <= CollateralRequiredUnits(Some(c.(nMembers := n)))
  {
    var d := c.(nMembers := n);
    assert c.nMembers * c.contributionUnits <= n * c.contributionUnits;
    assert PotUnits(Some(c)) * c.collateralRateBps <= PotUnits(Some(d)) * c.collateralRateBps;
    assert PotUnits(Some(c)) * c.collateralRateBps >= 0;
    TruncDivMonotone(PotUnits(Some(c)) * c.collateralRateBps, PotUnits(Some(d)) * c.collateralRateBps, 10000);
  }

  lemma RequiredMonotoneInContribution(c: Circle, u: int)
    requires c.nMembers >= 0 && 0 <= c.contributionUnits <= u && c.collateralRateBps >= 0
    ensures CollateralRequiredUnits(Some(c)) <= CollateralRequiredUnits(Some(c.(contributionUnits := u)))
  {
    var d := c.(contributionUnits := u);
    assert c.nMembers * c.contributionUnits <= c.nMembers * u;
    assert PotUnits(Some(c)) * c.collateralRateBps <= PotUnits(Some(d)) * c.collateralRateBps;
    assert PotUnits(Some(c)) * c.collateralRateBps >= 0;
    TruncDivMonotone(PotUnits(Some(c)) * c.collateralRateBps, PotUnits(Some(d)) * c.collateralRateBps, 10000);
  }

  lemma RequiredMonotoneInRate(c: Circle, bps: int)
    requires c.nMembers >= 0 && c.contributionUnits >= 0 && 0 <= c.collateralRateBps <= bps
    ensures CollateralRequiredUnits(Some(c)) <= CollateralRequiredUnits(Some(c.(collateralRateBps := bps)))
  {
    var pot := PotUnits(Some(c));
    assert pot >= 0;
    assert pot * c.collateralRateBps <= pot * bps;
    assert pot * c.collateralRateBps >= 0;
    TruncDivMonotone(pot * c.collateralRateBps, pot * bps, 10000);
  }

  /** `missingCollateralUnits`: how far the member's collateral falls short of the requirement. */
  function MissingCollateralUnits(circle: Option<Circle>, member: Option<Member>): (r: int)
    ensures r >= 0
    ensures r == 0 <==> ToBigIntSafe(MemberCollateral(member)) >= CollateralRequiredUnits(circle)
    ensures r > 0 ==> r == CollateralRequiredUnits(circle) - ToBigIntSafe(MemberCollateral(member))
  {
    var required := CollateralRequiredUnits(circle);
    var held := ToBigIntSafe(MemberCollateral(member));
    if required > held then required - held else 0
  }

  // ---------------------------------------------------------------- suggested deposits

  /** The amount the collateral field is pre-filled with: the shortfall when there is one,
      otherwise the full requirement. */
  function SuggestedCollateralUnits(circle: Option<Circle>, member: Option<Member>): (r: int)
    ensures MissingCollateralUnits(circle, member) > 0 ==> r == MissingCollateralUnits(circle, member)
    ensures MissingCollateralUnits(circle, member) == 0 ==> r == CollateralRequiredUnits(circle)
    ensures CollateralRequiredUnits(circle) >= 0 ==>
      ToBigIntSafe(MemberCollateral(member)) + r >= CollateralRequiredUnits(circle)
    ensures ToBigIntSafe(MemberCollateral(member)) >= 0 ==> r <= CollateralRequiredUnits(circle)
  {
    var missing := MissingCollateralUnits(circle, member);
    if missing > 0 then missing else CollateralRequiredUnits(circle)
  }

  /** One field of the suggestion effect: a field still at its initial "0" takes a suggestion
      other than "0"; a field the user has edited keeps its text. */
  function SuggestField(current: string, suggested: string): (r: string)
    ensures current != "0" ==> r == current
    ensures current == "0" ==> r == (if suggested != "0" then suggested else "0")
  {
    if current == "0" && suggested != "0" then suggested else current
  }

  /** The effect re-runs on every change of its inputs; running it again changes nothing. */
  lemma SuggestFieldIdempotent(current: string, suggested: string)
    ensures SuggestField(SuggestField(current, suggested), suggested) == SuggestField(current, suggested)
  {
  }

  /** The two deposit input fields of the page, which the suggestion effect pre-fills. */
  class DepositForm {
    var collateralUsdt: string
    var prefundUsdt: string

    constructor ()
      ensures collateralUsdt == "0" && prefundUsdt == "0"
    {
      collateralUsdt := "0";
      prefundUsdt := "0";
    }

    /** The suggestion effect; `formatUsdt` turns minor units into the decimal text of the
        field. Without a circle nothing changes. */
    method ApplySuggestions(circle: Option<Circle>, member: Option<Member>, formatUsdt: int -> string)
      modifies this
      ensures circle.None? ==> collateralUsdt == old(collateralUsdt) && prefundUsdt == old(prefundUsdt)
      ensures circle.Some? ==>
        collateralUsdt == SuggestField(old(collateralUsdt), formatUsdt(SuggestedCollateralUnits(circle, member)))
      ensures circle.Some? ==>
        prefundUsdt == SuggestField(old(prefundUsdt), formatUsdt(ContributionUnits(circle)))
    {
      if circle.None? {
        return;
      }
      if collateralUsdt == "0" {
        var suggested := if MissingCollateralUnits(circle, member) > 0
          then formatUsdt(MissingCollateralUnits(circle, member))
          else formatUsdt(CollateralRequiredUnits(circle));
        if suggested != "0" {
          collateralUsdt := suggested;
        }
      }
      if prefundUsdt == "0" {
        var suggested := formatUsdt(ContributionUnits(circle));
        if suggested != "0" {
          prefundUsdt := suggested;
        }
      }
    }
  }

  /** When nothing is required and nothing is missing, the collateral field stays at "0"
      (given that the formatter writes zero as "0"). */
  lemma NoSuggestionWhenNothingRequired(circle: Option<Circle>, member: Option<Member>, formatUsdt: int -> string)
    requires formatUsdt(0) == "0"
    requires CollateralRequiredUnits(circle) == 0 && ToBigIntSafe(MemberCollateral(member)) >= 0
    ensures SuggestField("0", formatUsdt(SuggestedCollateralUnits(circle, member))) == "0"
  {
  }

  // ---------------------------------------------------------------- calls to action

  /** `x ? Math.floor(Date.parse(x) / 1000) : null` (or `: 0`), read for truthiness: the whole
      seconds of a parsed, non-zero timestamp; None for an unset field, a NaN parse and for
      second 0, which JavaScript also treats as false. */
  function TruthySeconds(f: TimeField): (r: Option<int>)
    ensures r.Some? ==> f.Set? && f.parsedMs.Some? && r.value != 0
    ensures r.Some? ==> r.value * 1000 <= f.parsedMs.value < r.value * 1000 + 1000
    ensures f.Set? && f.parsedMs.Some? && !(0 <= f.parsedMs.value < 1000) ==> r.Some?
  {
    match f
    case Set(Some(ms)) => if ms / 1000 != 0 then Some(ms / 1000) else None
    case _ => None
  }

  /** `isOnchainJoined`: the member record says "onchain_joined"; no record means not joined. */
  predicate IsOnchainJoined(member: Option<Member>) {
    member.Some? && member.value.joinStatus == Some("onchain_joined")
  }

  /** Collateral plus prefund of an on-chain member; 0 for anyone else. */
  function Deposits(member: Option<Member>): int {
    if IsOnchainJoined(member)
    then ToBigIntSafe(MemberCollateral(member)) + ToBigIntSafe(MemberPrefund(member))
    else 0
  }

  /** An auction window is open: commit end and reveal end both truthy and the reveal not over. */
  function AuctionOpen(c: Circle, nowSec: int): (r: bool)
    ensures r <==>
      c.commitEndAt.Set? && c.commitEndAt.parsedMs.Some? && !(0 <= c.commitEndAt.parsedMs.value < 1000)
      && c.revealEndAt.Set? && c.revealEndAt.parsedMs.Some? && !(0 <= c.revealEndAt.parsedMs.value < 1000)
      && (nowSec + 1) * 1000 <= c.revealEndAt.parsedMs.value
  {
    var commitEnd := TruthySeconds(c.commitEndAt);
    var revealEnd := TruthySeconds(c.revealEndAt);
    commitEnd.Some? && revealEnd.Some? && nowSec < revealEnd.value
  }

  function Route(circleId: string, action: string): string {
    "/circle/" + circleId + "/" + action
  }

  function Labels(ctas: seq<Cta>): (r: seq<string>)
    ensures |r| == |ctas|
    ensures forall i :: 0 <= i < |ctas| ==> r[i] == ctas[i].caption
  {
    if ctas == [] then [] else [ctas[0].caption] + Labels(ctas[1..])
  }

  /** The `ctas` memo: the navigational actions offered for the circle's status, in order.
      `nowMs` is the wall clock read when the memo was last recomputed, which happens when the
      circle, the circle id or the member record changes, not on every tick. */
  method BuildCtas(circle: Option<Circle>, circleId: string, member: Option<Member>, nowMs: int)
    returns (out: seq<Cta>)
    ensures circle.None? ==> out == []
    ensures circle.Some? && circle.value.status == Recruiting ==>
      |out| == 1 && out[0].target == Route(circleId, if IsOnchainJoined(member) then "withdraw" else "join")
      && out[0].caption == (if !IsOnchainJoined(member) then "Join Circle"
                          else if Deposits(member) > 0 then "Exit & Refund" else "Exit Circle")
    ensures circle.Some? && circle.value.status == Active ==>
      Labels(out) == (if ToBigIntSafe(MemberWithdrawable(member)) > 0 then ["Withdraw Now"] else [])
                     + (if AuctionOpen(circle.value, nowMs / 1000) then ["Go to Auction"] else [])
    ensures circle.Some? && circle.value.status == Active ==>
      forall i :: 0 <= i < |out| ==>
        out[i].target == Route(circleId, if out[i].caption == "Withdraw Now" then "withdraw" else "auction")
    ensures circle.Some? && circle.value.status in {Completed, Terminated, EmergencyStop} ==>
      out == [Cta("Withdraw All", Route(circleId, "withdraw"))]
    ensures circle.Some? && (circle.value.status == Locked || circle.value.status.Other?) ==> out == []
  {
    out := [];
    if circle.None? {
      return;
    }
    var c := circle.value;
    var withdrawable := ToBigIntSafe(MemberWithdrawable(member));
    var isOnchainJoined := IsOnchainJoined(member);
    var deposits := if isOnchainJoined
      then ToBigIntSafe(MemberCollateral(member)) + ToBigIntSafe(MemberPrefund(member)) else 0;
    var commitEnd := TruthySeconds(c.commitEndAt);
    var revealEnd := TruthySeconds(c.revealEndAt);
    var now := nowMs / 1000;
    var auctionOpen := commitEnd.Some? && revealEnd.Some? && now < revealEnd.value;

    if c.status == Recruiting {
      if !isOnchainJoined {
        out := out + [Cta("Join Circle", Route(circleId, "join"))];
      }
      if isOnchainJoined {
        out := out + [Cta(if deposits > 0 then "Exit & Refund" else "Exit Circle", Route(circleId, "withdraw"))];
      }
      return;
    }
    if c.status == Active {
      if withdrawable > 0 {
        out := out + [Cta("Withdraw Now", Route(circleId, "withdraw"))];
      }
      if auctionOpen {
        out := out + [Cta("Go to Auction", Route(circleId, "auction"))];
      }
      return;
    }
    if c.status == Completed || c.status == Terminated || c.status == EmergencyStop {
      out := out + [Cta("Withdraw All", Route(circleId, "withdraw"))];
      return;
    }
    // Locked and unknown statuses offer no actions.
  }

  // ---------------------------------------------------------------- wallet binding

  /** `walletMatchesMember`: fails open. A mismatch is reported only when both addresses are
      present, both parse, and the parsed addresses differ. */
  function WalletMatchesMember(connected: Option<string>, bound: Option<string>,
                               parse: string -> Option<TonAddress>): (r: bool)
    ensures !r <==> Truthy(connected) && Truthy(bound)
                    && parse(connected.value).Some? && parse(bound.value).Some?
                    && parse(connected.value).value != parse(bound.value).value
  {
    if !Truthy(connected) || !Truthy(bound) then true
    else
      match (parse(connected.value), parse(bound.value))
      case (Some(a), Some(b)) => a == b
      case _ => true
  }

  /** Two texts of the same address (its raw and its user-friendly form, say) match. */
  lemma WalletMatchesSameAddress(connected: string, bound: string, parse: string -> Option<TonAddress>)
    requires parse(connected).Some? && parse(connected) == parse(bound)
    ensures WalletMatchesMember(Some(connected), Some(bound), parse)
  {
  }

  // ---------------------------------------------------------------- on-chain trigger gates

  predicate HasContract(c: Circle) {
    Truthy(c.contractAddress)
  }

  /** `canRunDebit`: inside the debit window `[dueAt, graceEnd)`, phase 0 or unknown, and no
      auction commit window recorded. */
  function CanRunDebit(circle: Option<Circle>, nowSec: int): (r: bool)
    ensures r ==> circle.Some? && HasContract(circle.value)
    ensures r ==> var c := circle.value;
      TruthySeconds(c.dueAt).Some? && TruthySeconds(c.graceEndAt).Some?
      && TruthySeconds(c.dueAt).value <= nowSec < TruthySeconds(c.graceEndAt).value
    ensures r ==> circle.value.onchainPhase in {None, Some(0)}
    ensures r ==> circle.value.commitEndAt.Unset?
  {
    if circle.None? then false
    else
      var c := circle.value;
      var dueAtSec := TruthySeconds(c.dueAt);
      var graceEndSec := TruthySeconds(c.graceEndAt);
      HasContract(c) && dueAtSec.Some? && graceEndSec.Some?
      && nowSec >= dueAtSec.value && nowSec < graceEndSec.value
      && (c.onchainPhase == Some(0) || c.onchainPhase.None?)
      && c.commitEndAt.Unset?
  }

  /** `canFinalizeAuction`: the reveal is over, phase 1, 2 or unknown, and the circle is Active. */
  function CanFinalizeAuction(circle: Option<Circle>, nowSec: int): (r: bool)
    ensures r ==> circle.Some? && HasContract(circle.value)
    ensures r ==> TruthySeconds(circle.value.revealEndAt).Some?
                  && nowSec >= TruthySeconds(circle.value.revealEndAt).value
    ensures r ==> circle.value.onchainPhase in {None, Some(1), Some(2)}
    ensures r ==> circle.value.status == Active
  {
    if circle.None? then false
    else
      var c := circle.value;
      var revealEndSec := TruthySeconds(c.revealEndAt);
      HasContract(c) && revealEndSec.Some? && nowSec >= revealEndSec.value
      && (c.onchainPhase == Some(1) || c.onchainPhase == Some(2) || c.onchainPhase.None?)
      && c.status == Active
  }

  /** `canTerminateDefault`: the grace period is over, no commit window recorded, phase 3, 0 or
      unknown, and the circle is Locked or Active. */
  function CanTerminateDefault(circle: Option<Circle>, nowSec: int): (r: bool)
    ensures r ==> circle.Some? && HasContract(circle.value)
    ensures r ==> TruthySeconds(circle.value.graceEndAt).Some?
                  && nowSec >= TruthySeconds(circle.value.graceEndAt).value
    ensures r ==> circle.value.commitEndAt.Unset?
    ensures r ==> circle.value.onchainPhase in {None, Some(0), Some(3)}
    ensures r ==> circle.value.status in {Locked, Active}
  {
    if circle.None? then false
    else
      var c := circle.value;
      var graceEndSec := TruthySeconds(c.graceEndAt);
      HasContract(c) && graceEndSec.Some? && nowSec >= graceEndSec.value
      && c.commitEndAt.Unset?
      && (c.onchainPhase == Some(3) || c.onchainPhase == Some(0) || c.onchainPhase.None?)
      && (c.status == Locked || c.status == Active)
  }

  /** The converse of the three gates' contracts: each gate opens once all its conditions hold. */
  lemma GatesOpenWhenConditionsHold(c: Circle, nowSec: int)
    ensures HasContract(c) && TruthySeconds(c.dueAt).Some? && TruthySeconds(c.graceEndAt).Some?
      && TruthySeconds(c.dueAt).value <= nowSec < TruthySeconds(c.graceEndAt).value
      && c.onchainPhase in {None, Some(0)} && c.commitEndAt.Unset?
      ==> CanRunDebit(Some(c), nowSec)
    ensures HasContract(c) && TruthySeconds(c.revealEndAt).Some? && nowSec >= TruthySeconds(c.revealEndAt).value
      && c.onchainPhase in {None, Some(1), Some(2)} && c.status == Active
      ==> CanFinalizeAuction(Some(c), nowSec)
    ensures HasContract(c) && TruthySeconds(c.graceEndAt).Some? && nowSec >= TruthySeconds(c.graceEndAt).value
      && c.commitEndAt.Unset? && c.onchainPhase in {None, Some(0), Some(3)} && c.status in {Locked, Active}
      ==> CanTerminateDefault(Some(c), nowSec)
  {
  }

  /** Debit and termination for default are never offered together: one needs the clock before
      the grace end, the other at or after it. */
  lemma DebitExcludesTerminate(circle: Option<Circle>, nowSec: int)
    ensures !(CanRunDebit(circle, nowSec) && CanTerminateDefault(circle, nowSec))
  {
  }

  /** Fail open on an unknown phase: whatever a gate allows for some reported phase, it also
      allows when the phase is not known. */
  lemma UnknownPhaseIsPermissive(c: Circle, p: int, nowSec: int)
    ensures CanRunDebit(Some(c.(onchainPhase := Some(p))), nowSec) ==> CanRunDebit(Some(c.(onchainPhase := None)), nowSec)
    ensures CanFinalizeAuction(Some(c.(onchainPhase := Some(p))), nowSec) ==> CanFinalizeAuction(Some(c.(onchainPhase := None)), nowSec)
    ensures CanTerminateDefault(Some(c.(onchainPhase := Some(p))), nowSec) ==> CanTerminateDefault(Some(c.(onchainPhase := None)), nowSec)
  {
  }

  /** A due timestamp in the first second of 1970 floors to 0, which the debit gate reads as
      absent, so debit is never offered for it. */
  lemma ZeroDueSecondDisablesDebit(c: Circle, ms: int, nowSec: int)
    requires c.dueAt == Set(Some(ms)) && 0 <= ms < 1000
    ensures !CanRunDebit(Some(c), nowSec)
  {
  }
}
