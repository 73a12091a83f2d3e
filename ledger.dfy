/**
  The money records shared by the expense and settlement services. Amounts are
  whole cents (an expense amount and every split share is a currency value with
  two decimal places), so the 0.01 threshold of the services is one cent.
*/
module Ledger {

  /** User ids are opaque: the services only compare them for equality. */
  type UserId = string

  /** A signed amount of money in cents. */
  type Cents = int

  /** The 0.01 tolerance of the settlement service, in cents. */
  const Epsilon: Cents := 1

  /** One participant's share of an expense (an `ExpenseSplit` row). */
  datatype Split = Split(userId: UserId, amount: Cents)

  /** An expense with its splits, as the settlement service receives it. */
  datatype Expense = Expense(paidById: UserId, amount: Cents, splits: seq<Split>)

  /** `parseFloat((total / n).toFixed(2))` with `total` in cents: the whole number
      of cents nearest to total / n, halves rounded away from zero. */
  function DivRound(total: Cents, n: nat): Cents
    requires n > 0
  {
    if total >= 0 then (2 * total + n) / (2 * n)
    else -((n - 2 * total) / (2 * n))
  }

  /** The rounded share is within half a cent of total / n, has the sign of
      the total, and a tie (r * n - total == n / 2) is rounded away from zero. */
  lemma DivRoundBounds(total: Cents, n: nat)
    requires n > 0
    ensures var r := DivRound(total, n);
      && (total >= 0 ==> 0 <= r && -(n as int) < 2 * (r * n - total) <= n)
      && (total < 0 ==> r <= 0 && -(n as int) <= 2 * (r * n - total) < n)
  {
    if total >= 0 {
      RoundedQuotient(2 * total + n, n);
    } else {
      RoundedQuotient(n - 2 * total, n);
    }
  }

  /** q = a / (2n) satisfies 2qn <= a < 2qn + 2n. */
  lemma RoundedQuotient(a: int, n: int)
    requires a >= 0 && n > 0
    ensures var q := a / (2 * n); 0 <= q && 2 * (q * n) <= a < 2 * (q * n) + 2 * n
  {
    var q := a / (2 * n);
    DivisionBounds(a, 2 * n);
    assert q * (2 * n) == 2 * (q * n);
  }

  lemma DivisionBounds(a: int, d: int)
    requires a >= 0 && d > 0
    ensures 0 <= a / d && (a / d) * d <= a < (a / d) * d + d
  {
  }

  /** When n divides the total, the rounded shares add back up to it exactly. */
  lemma {:induction false} DivRoundExact(total: Cents, n: nat)
    requires n > 0 && total % n == 0
    ensures DivRound(total, n) * n == total
  {
    var r := DivRound(total, n);
    DivRoundBounds(total, n);
    var q := total / n;
    assert total == q * n;
    var k := r - q;
    Distribute(r, q, n);
    SmallMultipleIsZero(k, n);
  }

  /** The only multiple of n within half of n of zero is zero. */
  lemma SmallMultipleIsZero(k: int, n: int)
    requires n > 0 && -n <= 2 * (k * n) <= n
    ensures k == 0
  {
    if k != 0 {
      MultipleIsFar(k, n);
    }
  }

  lemma Distribute(a: int, b: int, n: int)
    ensures a * n - b * n == (a - b) * n
  {
  }

  lemma MultipleIsFar(k: int, n: int)
    requires k != 0 && n > 0
    ensures k * n >= n || k * n <= -n
  {
    if k > 0 {
      PositiveMultiple(k, n);
    } else {
      PositiveMultiple(-k, n);
      assert k * n == -((-k) * n);
    }
  }

  lemma {:induction false} PositiveMultiple(k: int, n: int)
    requires k > 0 && n > 0
    ensures k * n >= n
    decreases k
  {
    if k > 1 {
      PositiveMultiple(k - 1, n);
      assert k * n == (k - 1) * n + n;
    }
  }
}
