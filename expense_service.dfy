/**
  The expense service's two pure helpers: the equal-split calculator that turns
  an amount and a participant list into split rows, and the guard checks an
  expense request must pass before it is stored.
*/
module ExpenseService {
  import opened Js
  import opened Ledger
  import opened SettlementService

  // ---------------------------------------------------------------------------
  // calculateSplits
  // ---------------------------------------------------------------------------

  /** Whether `splitType` selects the equal split; a missing argument defaults
      to "EQUAL". */
  predicate IsEqualSplit(splitType: Option<string>) {
    splitType == None || splitType == Some("EQUAL")
  }

  /** Every participant, in the given order, owing the same rounded share. */
  function EqualSplits(totalAmount: Cents, participantIds: seq<UserId>): seq<Split>
    requires participantIds != []
  {
    seq(|participantIds|, k requires 0 <= k < |participantIds| =>
      Split(participantIds[k], DivRound(totalAmount, |participantIds|)))
  }

  /** `calculateSplits(totalAmount, participantIds, splitType)`: with the equal
      split, one row per participant, in order, each for the total divided by
      the number of participants and rounded to the cent; with any other split
      type, no rows at all. */
  method CalculateSplits(totalAmount: Cents, participantIds: seq<UserId>, splitType: Option<string>)
    returns (splits: seq<Split>)
    ensures IsEqualSplit(splitType) ==> |splits| == |participantIds|
    ensures IsEqualSplit(splitType) ==> forall k | 0 <= k < |splits| ::
      splits[k].userId == participantIds[k] && splits[k].amount == DivRound(totalAmount, |participantIds|)
    ensures IsEqualSplit(splitType) && participantIds != [] ==> splits == EqualSplits(totalAmount, participantIds)
    ensures !IsEqualSplit(splitType) ==> splits == []
  {
    splits := [];
    if IsEqualSplit(splitType) {
      // With no participants the quotient is never used.
      var amountPerPerson := if |participantIds| > 0 then DivRound(totalAmount, |participantIds|) else 0;
      for k := 0 to |participantIds|
        invariant |splits| == k
        invariant forall m | 0 <= m < k :: splits[m] == Split(participantIds[m], amountPerPerson)
      {
        splits := splits + [Split(participantIds[k], amountPerPerson)];
      }
    }
  }

  /** Rows that all carry the same amount add up to that amount times their count. */
  lemma {:induction false} UniformTotal(splits: seq<Split>, a: Cents)
    requires forall k | 0 <= k < |splits| :: splits[k].amount == a
    ensures SplitTotal(splits) == |splits| * a
  {
    if splits != [] {
      var init := splits[..|splits| - 1];
      assert forall k | 0 <= k < |init| :: init[k] == splits[k];
      UniformTotal(init, a);
    }
  }

  /** The equal shares add up to the total to within half a cent per
      participant, and to the total exactly when the participants divide it
      evenly, in both directions; the expense they make up is then fully
      split. */
  lemma EqualSplitsTotal(payer: UserId, totalAmount: Cents, participantIds: seq<UserId>)
    requires participantIds != []
    ensures var n := |participantIds|; var d := SplitTotal(EqualSplits(totalAmount, participantIds)) - totalAmount;
      -n <= 2 * d <= n
    ensures totalAmount % |participantIds| == 0 ==>
      SplitTotal(EqualSplits(totalAmount, participantIds)) == totalAmount
      && FullySplit([Expense(payer, totalAmount, EqualSplits(totalAmount, participantIds))])
    ensures SplitTotal(EqualSplits(totalAmount, participantIds)) == totalAmount ==>
      totalAmount % |participantIds| == 0
  {
    var n := |participantIds|;
    UniformTotal(EqualSplits(totalAmount, participantIds), DivRound(totalAmount, n));
    DivRoundBounds(totalAmount, n);
    if totalAmount % n == 0 {
      DivRoundExact(totalAmount, n);
    }
    if SplitTotal(EqualSplits(totalAmount, participantIds)) == totalAmount {
      ExactShareDivides(totalAmount, n, DivRound(totalAmount, n));
    }
  }

  /** A total that is a whole multiple of `n` leaves no remainder. */
  lemma ExactShareDivides(total: Cents, n: nat, r: Cents)
    requires n > 0 && n * r == total
    ensures total % n == 0
  {
    var q, m := total / n, total % n;
    assert q * n + m == total;
    Distribute(r, q, n);
    assert (r - q) * n == m;
    if r - q != 0 {
      MultipleIsFar(r - q, n);
    }
  }

  // ---------------------------------------------------------------------------
  // validateExpenseData
  // ---------------------------------------------------------------------------

  /** The amount field as `!amount || amount <= 0` sees it: its truthiness,
      and the number it converts to when compared with 0, `None` standing for
      `NaN` (a non-numeric string, `undefined`, a plain object). */
  datatype AmountField = AmountField(truthy: bool, asNumber: Option<real>)

  /** A plain number sent as the amount: falsy exactly when it is 0. */
  function NumberAmount(x: real): AmountField {
    AmountField(x != 0.0, Some(x))
  }

  /** The fields of an expense request body, each as the request sent it. */
  datatype ExpenseData = ExpenseData(
    description: JsValue,
    amount: AmountField,
    groupId: JsValue,
    participantIds: JsValue)

  /** How a call ends: `true` is returned, an `Error` with the message is
      thrown, or, for a truthy description that is not a string, calling
      `trim` on it throws a `TypeError`. */
  datatype Outcome = ReturnsTrue | Throws(message: string) | ThrowsTypeError

  const DescriptionRequired := "Description is required"
  const AmountNotPositive := "Amount must be greater than 0"
  const GroupIdRequired := "Group ID is required"
  const ParticipantRequired := "At least one participant is required"

  predicate DescriptionPresent(data: ExpenseData) {
    data.description.Str? && Trim(data.description.s) != ""
  }

  /** The amount is truthy and does not compare `<= 0`; a comparison with
      `NaN` is false, so an amount that converts to no number passes. */
  predicate AmountAccepted(data: ExpenseData) {
    data.amount.truthy && !(data.amount.asNumber.Some? && data.amount.asNumber.value <= 0.0)
  }

  /** The participant list is truthy and its `length` is not 0; a string has
      a length of one or more once it is truthy, and any other value has none,
      so only an empty array fails beyond the falsy values. */
  predicate ParticipantsPresent(data: ExpenseData) {
    Truthy(data.participantIds) && data.participantIds != Arr(0)
  }

  /** `validateExpenseData(data)`: the description, the amount, the group id
      and the participants are checked in that order, and the first check that
      fails decides what is thrown. */
  function ValidateExpenseData(data: ExpenseData): (r: Outcome)
    ensures r == ReturnsTrue <==>
      DescriptionPresent(data) && AmountAccepted(data) && Truthy(data.groupId) && ParticipantsPresent(data)
    ensures r == ThrowsTypeError <==> Truthy(data.description) && !data.description.Str?
    ensures !Truthy(data.description) || (data.description.Str? && !DescriptionPresent(data))
      ==> r == Throws(DescriptionRequired)
    ensures DescriptionPresent(data) && !AmountAccepted(data) ==> r == Throws(AmountNotPositive)
    ensures DescriptionPresent(data) && AmountAccepted(data) && !Truthy(data.groupId) ==> r == Throws(GroupIdRequired)
    ensures DescriptionPresent(data) && AmountAccepted(data) && Truthy(data.groupId) && !ParticipantsPresent(data)
      ==> r == Throws(ParticipantRequired)
  {
    if !Truthy(data.description) then Throws(DescriptionRequired)
    else if !data.description.Str? then ThrowsTypeError
    else if Trim(data.description.s) == "" then Throws(DescriptionRequired)
    else if !data.amount.truthy || (data.amount.asNumber.Some? && data.amount.asNumber.value <= 0.0) then
      Throws(AmountNotPositive)
    else if !Truthy(data.groupId) then Throws(GroupIdRequired)
    else if !Truthy(data.participantIds) || JsLength(data.participantIds) == Some(0) then Throws(ParticipantRequired)
    else ReturnsTrue
  }

  /** `v.length` of a truthy value: code units of a string, the size of an
      array, and `undefined` (`None`) for anything else. */
  function JsLength(v: JsValue): (n: Option<nat>)
    ensures v.Str? ==> n == Some(Length(v.s))
    ensures v.Arr? ==> n == Some(v.length)
    ensures v.Undefined? || v.Other? ==> n == None
  {
    match v
    case Str(s) => Some(Length(s))
    case Arr(k) => Some(k)
    case _ => None
  }

  /** With a plain number as the amount, the amount check passes exactly when
      the number is positive. */
  lemma NumericAmount(data: ExpenseData, x: real)
    requires data.amount == NumberAmount(x)
    ensures AmountAccepted(data) <==> x > 0.0
  {
  }

  /** An amount that converts to no number but is truthy, such as the string
      "abc", gets past the amount check, and with the other fields in order the
      call returns true. */
  lemma NonNumericAmountAccepted(description: string, groupId: JsValue, participantIds: JsValue)
    requires Trim(description) != "" && Truthy(groupId) && ParticipantsPresent(ExpenseData(Str(description), AmountField(true, None), groupId, participantIds))
    ensures ValidateExpenseData(ExpenseData(Str(description), AmountField(true, None), groupId, participantIds)) == ReturnsTrue
  {
  }

  /** A description of blanks alone is rejected however good the rest is. */
  lemma BlankDescriptionRejected(data: ExpenseData)
    requires data.description.Str? && forall k | 0 <= k < |data.description.s| :: IsSpace(data.description.s[k])
    ensures ValidateExpenseData(data) == Throws(DescriptionRequired)
  {
    TrimBlank(data.description.s);
  }
}
