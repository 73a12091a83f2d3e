# Group expense splitting: balances, debt simplification and request validation

This project models the computational core of a group expense-sharing
application: members of a group record expenses, each paid by one member and
split among several, and the server works out who owes whom and proposes a
short list of payments that settles the group. Around that core sit the
request validators, the equal-split calculator, the expense guard, the central
error-to-response mapping and two client-side helpers.

Modules, one per source file, plus two shared ones:

- `Js` (`js.dfy`): the JavaScript notions the rest leans on. `Option`, loosely
  typed request fields as `JsValue` (missing, string, array with its length,
  or another value of which only its truthiness matters), the ECMAScript
  whitespace class, `trim`, `length` in UTF-16 code units, `indexOf` and
  `lastIndexOf`.
- `Ledger` (`ledger.dfy`): money. Backend amounts are whole cents (`Cents`),
  the 0.01 tolerance is `Epsilon == 1`, and `toFixed(2)` after a division is
  `DivRound`, rounding half away from zero.
- `SettlementService` (`settlement_service.dfy`) and `SettlementProperties`
  (`settlement_properties.dfy`): `calculateBalances` as a method over a map
  it updates entry by entry, and `simplifyDebts` as a method that partitions
  the balances, sorts creditors and debtors in place in arrays (a stable
  insertion sort, as `Array.prototype.sort` is stable) and walks the two
  arrays with two cursors, mutating the amounts as the source does. Each is
  proved equal to a recursive specification (`Net`, `Simplified`), and the
  second module proves what that specification guarantees: conservation,
  who pays whom, how many payments, and when everybody ends at zero.
- `ExpenseService` (`expense_service.dfy`): `calculateSplits` and
  `validateExpenseData`.
- `Validator` (`validator.dfy`): every validator of the backend, including
  `parseInt` as `validateGroupId` uses it and the regular expressions as
  explicit languages with matchers proved equal to them.
- `Helpers` (`helpers.dfy`): the client's `calculateBalance` (over `real`,
  as the page does its arithmetic in floating point without rounding) and
  `isValidEmail`.
- `ErrorHandler` (`error_handler.dfy`): the error-to-status mapping as a
  priority-ordered table, the response body, `notFoundHandler` and the
  defaults of `AppError`.

The iteration order of `Object.entries(balances)` is an input of the model:
`simplifyDebts` takes the balances as a sequence of `(user, balance)` pairs,
and `EntriesOf` ties such a sequence to the map that `calculateBalances`
returns. Timestamps, the database and the process environment are
parameters (`nodeEnv`) or are left out.

Behaviour of the code worth knowing:

- `calculateBalances` reads expenses only; settlements already recorded do
  not enter the balances.
- A proposed payment can be exactly 0.01: the loop moves on from a party once
  less than 0.01 remains, so every payment is at least 0.01
  (`SettlePayments`, `SimplifiedPayments`).
- Applying the proposed payments does not always bring every balance to
  within 0.01 of zero. Balances of exactly ±0.01 are dropped by the partition,
  so a group whose balances add up to zero can leave a debtor with nobody to
  pay (`DustStrandsDebtor`: two members at +0.01, one at -0.02, no payment at
  all). Every balance ends at zero when no balance is exactly ±0.01 and the
  expenses are fully split (`SimplifiedDrains`, `GroupSettlesUp`).
- At registration, a password of six or more blanks passes the password rule
  but is rejected by the required-field check, which trims.
- `validateExpenseData` compares the amount with `<= 0`, which is false for a
  value that converts to `NaN`, so a truthy non-numeric amount such as the
  string "abc" is accepted (`NonNumericAmountAccepted`).
- At login, once the required-field check has passed, the separate password
  check fires only for an empty array (`PresentPasswordMissing`).

## Model

| member | source | states |
|---|---|---|
| SettlementService.CalculateBalances | backend/src/services/settlementService.js:2-26 | The balance map has an entry for exactly the payers and split members of the expenses, and each entry is what that member paid minus the shares they owe; no expenses give an empty map. |
| SettlementService.ApplyExpense | backend/src/services/settlementService.js:5-23 | One expense credits its payer with the amount and debits each split member with their split; every other balance is unchanged and the payer and split members gain an entry. |
| SettlementService.Adjust | backend/src/services/settlementService.js:9-14 | A missing entry starts at zero before the change is added; only that member's balance moves and no other entry is created. |
| SettlementService.NetAppend | backend/src/services/settlementService.js:5-23 | Each expense adds its effect independently: a member's balance over two expense lists in turn is the sum of their balances over each. |
| SettlementService.SumNetIsUnsplit | backend/src/services/settlementService.js:2-26 | Over all members, the balances add up to the part of the expenses not covered by splits, so to zero when every expense is fully split. |
| SettlementService.SortDescCorrect | backend/src/services/settlementService.js:45-46 | The order used for creditors and debtors is descending by amount and a permutation of its input. |
| SettlementService.SortDescending | backend/src/services/settlementService.js:45-46 | The in-place sort leaves the array holding the descending, stable ordering of its old contents. |
| SettlementService.InsertLast | backend/src/services/settlementService.js:45-46 | One insertion step puts the element after the sorted prefix in its place after every element at least as large, leaving the rest of the array alone. |
| SettlementService.SimplifyDebts | backend/src/services/settlementService.js:29-71 | The payments produced are those of the specification `Simplified`: partition at ±0.01, sort both sides descending, then match greedily. |
| SettlementService.Walk | backend/src/services/settlementService.js:51-68 | The two-cursor loop over the mutated arrays yields exactly the payments of the recursive greedy matching `Settle` of the arrays' initial contents. |
| SettlementService.Step | backend/src/services/settlementService.js:52-67 | One iteration pays the smaller of the current creditor's and debtor's amounts from debtor to creditor, lowers both, moves each cursor past a party left with less than 0.01, and always advances at least one cursor. |
| SettlementService.MinimizeTransactions | backend/src/services/settlementService.js:74-78 | Gives the same payments as debt simplification. |
| SettlementProperties.SettleLength | backend/src/services/settlementService.js:51-68 | The greedy matching makes at most one payment per creditor plus one per debtor, and none exactly when one side is empty. |
| SettlementProperties.SettlePayments | backend/src/services/settlementService.js:55-61 | Every payment is at least 0.01 and goes from a listed debtor to a listed creditor. |
| SettlementProperties.SettleConserves | backend/src/services/settlementService.js:55-67 | For every member, what they receive plus what is left owed to them is their creditor amount, and what they pay plus what they still owe is their debtor amount. |
| SettlementProperties.LeftoverOneSided | backend/src/services/settlementService.js:51-68 | When the loop stops, one side is exhausted, and the difference of the totals is unchanged. |
| SettlementProperties.SettleDrains | backend/src/services/settlementService.js:51-68 | When creditors and debtors hold equal totals, nothing is left on either side. |
| SettlementProperties.SortDescAmounts | backend/src/services/settlementService.js:45-46 | Sorting keeps the total and every member's amount. |
| SettlementProperties.SortDescStable | backend/src/services/settlementService.js:45-46 | The sort is stable: for every amount, the parties holding it appear in the same order as before sorting. |
| SettlementProperties.SortDescParties | backend/src/services/settlementService.js:45-46 | Sorting keeps the number of parties, who they are, and whether all of them hold at least 0.01. |
| SettlementProperties.PartitionSum | backend/src/services/settlementService.js:36-42 | The balances add up to the creditor total minus the debtor total plus the dropped balances of ±0.01, which vanish when none is exactly ±0.01. |
| SettlementProperties.PartitionOutstanding | backend/src/services/settlementService.js:36-42 | Every creditor and debtor holds at least 0.01, and together they are no more than the entries. |
| SettlementProperties.NoCreditors | backend/src/services/settlementService.js:36-42 | There are no creditors exactly when no balance exceeds 0.01. |
| SettlementProperties.NoDebtors | backend/src/services/settlementService.js:36-42 | There are no debtors exactly when no balance is below -0.01. |
| SettlementProperties.PartitionAmounts | backend/src/services/settlementService.js:36-42 | A member is a creditor for their balance exactly when it exceeds 0.01, and a debtor for its magnitude exactly when it is below -0.01. |
| SettlementProperties.SimplifiedLength | backend/src/services/settlementService.js:29-71 | No more payments than members with a balance beyond ±0.01, hence no more than members. |
| SettlementProperties.SimplifiedEmpty | backend/src/services/settlementService.js:29-71 | No payment at all exactly when nobody is owed more than 0.01 or nobody owes more than 0.01. |
| SettlementProperties.SimplifiedPayments | backend/src/services/settlementService.js:29-71 | Each payment is at least 0.01 and goes from a member whose balance is below -0.01 to a different member whose balance is above 0.01. |
| SettlementProperties.SimplifiedSettles | backend/src/services/settlementService.js:29-71 | For every member, net receipts equal their balance, less a dropped ±0.01 balance and what the loop left unmatched. |
| SettlementProperties.SimplifiedDrains | backend/src/services/settlementService.js:29-71 | With balances adding to zero and none exactly ±0.01, nothing is left unmatched and every member's net receipts equal their balance. |
| SettlementProperties.DustStrandsDebtor | backend/src/services/settlementService.js:36-42 | Balances +0.01, +0.01, -0.02 add up to zero, yet no payment is proposed and the debtor keeps owing 0.02. |
| SettlementProperties.DustLeavesDebt | backend/src/services/settlementService.js:36-68 | Balances +0.01, +0.02, -0.03 give the single payment 0.02 and leave 0.01 owed. |
| SettlementProperties.BalancesAddUp | backend/src/services/settlementService.js:2-26 | The balances listed by `Object.entries` add up to the unsplit part of the expenses, so to zero when all are fully split. |
| SettlementProperties.BalanceOfIsNet | backend/src/services/settlementService.js:2-26 | Reading a member's balance from the listed entries gives their net position over the expenses, zero when they are not listed. |
| SettlementProperties.GroupSettlesUp | backend/src/services/settlementService.js:2-78 | For fully split expenses with no balance of exactly ±0.01, making the proposed payments brings every member to zero. |
| Ledger.DivRoundBounds | backend/src/services/expenseService.js:10-15 | Rounding the quotient to the cent is off by at most half a cent per participant, rounding half away from zero. |
| Ledger.DivRoundExact | backend/src/services/expenseService.js:10-15 | When the participants divide the total evenly, the rounded share times their number is the total. |
| ExpenseService.CalculateSplits | backend/src/services/expenseService.js:2-23 | With the equal split (the default), one row per participant in order, each the rounded equal share; any other split type gives no rows. |
| ExpenseService.EqualSplitsTotal | backend/src/services/expenseService.js:9-17 | The equal shares add up to the total within half a cent per participant, and exactly to the total if and only if the participants divide it evenly, in which case the expense is fully split. |
| ExpenseService.ValidateExpenseData | backend/src/services/expenseService.js:26-46 | Returns true exactly when the description is a non-blank string, the amount is truthy and does not convert to a number <= 0, the group id is truthy and the participant list is truthy and not of length 0; otherwise the first failing check, in that order, decides the error, and a non-string description throws a `TypeError`. |
| ExpenseService.NumericAmount | backend/src/services/expenseService.js:33-35 | With a plain number as the amount, the amount check passes exactly when the number is positive. |
| ExpenseService.NonNumericAmountAccepted | backend/src/services/expenseService.js:33-45 | A truthy amount that converts to no number passes the amount check, and with a non-blank description, a truthy group id and participants present the call returns true. |
| ExpenseService.BlankDescriptionRejected | backend/src/services/expenseService.js:29-31 | A description of blanks alone is rejected with "Description is required". |
| Js.TrimBlank | backend/src/utils/validator.js:93 | A string trims to nothing exactly when every character is whitespace. |
| Js.TrimIdempotent | backend/src/utils/validator.js:58 | Trimming twice is trimming once. |
| Validator.MatchesEmailCorrect | backend/src/utils/validator.js:7-11 | The matcher accepts exactly the strings of the e-mail pattern. |
| Validator.ValidateEmailCorrect | backend/src/utils/validator.js:6-12 | An e-mail is valid exactly when it is a string whose trimmed text is in the e-mail pattern. |
| Validator.EmailIgnoresSurroundingBlanks | backend/src/utils/validator.js:6-12 | Surrounding whitespace does not change the verdict. |
| Validator.ValidatePasswordCorrect | backend/src/utils/validator.js:19-46 | A password is valid exactly when it is a string of 6 to 128 UTF-16 code units; missing, too short and too long give their messages in that order. |
| Validator.ValidateNameCorrect | backend/src/utils/validator.js:53-82 | A name is valid exactly when its trimmed text has 2 to 50 code units, all letters, whitespace, apostrophes or hyphens; each failure gives its message in check order. |
| Validator.NameJudgedTrimmed | backend/src/utils/validator.js:58-81 | A name and its trimmed text get the same verdict, and the same message unless it trims to nothing. |
| Validator.ValidateRequired | backend/src/utils/validator.js:89-99 | One "<field> is required" message per blank field, in field order. |
| Validator.RequiredErrorsNone | backend/src/utils/validator.js:89-99 | No message exactly when no field is blank. |
| Validator.RequiredErrorsName | backend/src/utils/validator.js:89-99 | Every message names a blank field, and there are no more messages than fields. |
| Validator.ValidateRegistration | backend/src/utils/validator.js:138-169 | Blank fields give their required messages alone; otherwise the name, e-mail and password messages in that order; valid exactly when all three rules pass and the password is not blank. |
| Validator.RuleErrors | backend/src/utils/validator.js:149-163 | The rule messages are the name's, the e-mail's and the password's in that order, and none exactly when all three pass. |
| Validator.BlankFailsRegistration | backend/src/utils/validator.js:138-169 | A blank name or a blank e-mail also fails its own rule. |
| Validator.PresentPasswordMissing | backend/src/utils/validator.js:192-194 | After the required-field check, the login password check fires only for an empty array. |
| Validator.ValidateLogin | backend/src/utils/validator.js:176-200 | Blank fields give their required messages alone; otherwise an invalid e-mail and an empty-array password give their messages in that order; valid exactly when the e-mail is valid and the password present. |
| Validator.ValidateGroupName | backend/src/utils/validator.js:207-233 | A group name is valid exactly when its trimmed text has 3 to 100 code units; missing, blank, too short and too long give their messages in that order. |
| Validator.ValidateGroupCreation | backend/src/utils/validator.js:240-254 | The report is valid exactly when the group name is, and carries the group-name message otherwise. |
| Validator.ValidateGroupId | backend/src/utils/validator.js:261-277 | Valid exactly when `parseInt` gives a positive integer, which becomes the value; non-numbers and non-positive numbers get their own messages and a null value. |
| Validator.ParseIntDigits | backend/src/utils/validator.js:262 | `parseInt` of a string of decimal digits is its decimal value. |
| Validator.GroupIdRoundTrip | backend/src/utils/validator.js:261-277 | The decimal spelling of any positive integer is a valid group id whose value is that integer. |
| Validator.ValidateAmount | backend/src/utils/validator.js:106-131 | An amount is valid exactly when it is a number in (0, 1000000000] with at most two decimal places; not-a-number, non-positive and too large give their messages. |
| Helpers.CalculateBalance | frontend/src/utils/helpers.js:30-41 | The loop's result is the balance specification: what the member paid minus an equal share of each expense they take part in, zero for no expenses. |
| Helpers.BalanceAppend | frontend/src/utils/helpers.js:30-41 | The balance over two lists of expenses is the sum of their balances. |
| Helpers.UnrelatedExpense | frontend/src/utils/helpers.js:33-38 | An expense the member neither paid nor takes part in leaves their balance unchanged. |
| Helpers.PayerAndParticipant | frontend/src/utils/helpers.js:33-38 | A payer who also takes part is credited the amount less their own share, never negative for a non-negative amount. |
| Helpers.IsValidEmailCorrect | frontend/src/utils/helpers.js:24-27 | The check accepts exactly the strings of the loose e-mail pattern. |
| ErrorHandler.ClassifyIsTable | backend/src/middleware/errorHandler.js:22-49 | The chain of tests is the rule table read top to bottom: the first matching rule decides, and the error's own status (else 500) and message (else "Internal server error") apply when none matches. |
| ErrorHandler.RecognisedIsClientError | backend/src/middleware/errorHandler.js:26-49 | Any recognised error is answered with a 4xx status. |
| ErrorHandler.NameBeatsCode | backend/src/middleware/errorHandler.js:26-41 | An error name test earlier in the chain wins over a later database code test. |
| ErrorHandler.HandleError | backend/src/middleware/errorHandler.js:11-72 | The response carries the classified status and message, `success: false`, debug details exactly in development, and the error list when there is one. |
| ErrorHandler.NotFoundIs404 | backend/src/middleware/errorHandler.js:78-82 | An unknown route is answered 404 with "Route not found - " and the URL. |
| ErrorHandler.AppErrorAnswer | backend/src/middleware/errorHandler.js:98-106 | An application error is answered with its status (500 when none or 0), its message (or the default when empty) and its error list. |

## Left out

- Floating-point arithmetic in the backend: amounts are whole cents, so the drift of IEEE doubles in `calculateBalances` and the greedy loop is not modelled; the client helpers use exact reals.
- ValidateAmount: `parseFloat` and the count of decimal places are taken as inputs (`None` for `NaN`), not computed from the text; `parseFloat` can also return ±Infinity (for the text "Infinity"), which a `real` cannot hold, so the rejection of +Infinity as too large and of -Infinity as not positive is not modelled.
- ParseInt: values beyond 2^53, where `parseInt` loses precision, are modelled exactly.
- IsSpace: a Dafny `string` holds Unicode scalar values, so a lone surrogate, which JavaScript strings may contain and which neither `trim` nor `\s` treats as whitespace, cannot occur in the model.
- HandleError: the console logging, the Express request and response objects and the `config` module are left out; the environment is the `nodeEnv` parameter, and elements of `err.errors` are strings.
- HandleError: a `statusCode` or `status` that is not a number is not modelled.
- `asyncHandler` is not part of this model: it only forwards a rejected promise to the next middleware.
- `calculateSplit`, `formatCurrency` and `formatDate` of the client helpers are display formatting, not part of this model.
- Controllers, routes, the database layer and authentication are not part of this model.
- CalculateSplits: the participants are a list; a non-array value, on which the source's `forEach` throws a `TypeError`, is not modelled.
- PasswordMissing: a value that is neither a string nor an array is judged by its truthiness alone; an object's own `length` property, which `password.length < 1` at login and `participantIds.length === 0` in `validateExpenseData` would read, is not modelled.
- ValidateExpenseData: the amount is given by its truthiness and the number it converts to, not as the value sent; BigInt amounts are not modelled.
