/**
  The client-side helpers: one member's balance over the expenses the page
  holds, and the loose e-mail check of the sign-up form.
*/
module Helpers {
  import opened Js

  // ---------------------------------------------------------------------------
  // calculateBalance
  // ---------------------------------------------------------------------------

  /** An expense as the page holds it: who paid, how much, and who takes part. */
  datatype ClientExpense = ClientExpense(paidBy: string, amount: real, participants: seq<string>)

  /** What one expense does to `userId`'s balance: the full amount when they
      paid it, less an equal share when they take part. */
  function Effect(e: ClientExpense, userId: string): real {
    (if e.paidBy == userId then e.amount else 0.0)
    - (if userId in e.participants then e.amount / (|e.participants| as real) else 0.0)
  }

  /** `userId`'s balance over the expenses. */
  function Balance(expenses: seq<ClientExpense>, userId: string): real {
    if expenses == [] then 0.0
    else Balance(expenses[..|expenses| - 1], userId) + Effect(expenses[|expenses| - 1], userId)
  }

  /** `calculateBalance(expenses, userId)`: starts from zero and adds the
      effect of each expense in turn. */
  method CalculateBalance(expenses: seq<ClientExpense>, userId: string) returns (balance: real)
    ensures balance == Balance(expenses, userId)
    ensures expenses == [] ==> balance == 0.0
  {
    balance := 0.0;
    for k := 0 to |expenses|
      invariant balance == Balance(expenses[..k], userId)
    {
      assert expenses[..k + 1][..k] == expenses[..k];
      var expense := expenses[k];
      if expense.paidBy == userId {
        balance := balance + expense.amount;
      }
      if userId in expense.participants {
        balance := balance - expense.amount / (|expense.participants| as real);
      }
    }
    assert expenses[..|expenses|] == expenses;
  }

  /** The balance over two lists of expenses is the sum of the balances. */
  lemma {:induction false} BalanceAppend(a: seq<ClientExpense>, b: seq<ClientExpense>, userId: string)
    ensures Balance(a + b, userId) == Balance(a, userId) + Balance(b, userId)
  {
    if b == [] {
      assert a + b == a;
    } else {
      var init := b[..|b| - 1];
      assert (a + b)[..|a + b| - 1] == a + init;
      BalanceAppend(a, init, userId);
    }
  }

  /** An expense the member neither paid nor takes part in changes nothing. */
  lemma UnrelatedExpense(expenses: seq<ClientExpense>, e: ClientExpense, userId: string)
    requires e.paidBy != userId && userId !in e.participants
    ensures Balance(expenses + [e], userId) == Balance(expenses, userId)
  {
    assert (expenses + [e])[..|expenses|] == expenses;
  }

  /** A member who pays an expense split among `n` people including
      themselves comes out ahead by the other `n - 1` shares. */
  lemma PayerAndParticipant(e: ClientExpense, userId: string)
    requires e.paidBy == userId && userId in e.participants
    ensures Effect(e, userId) == e.amount - e.amount / (|e.participants| as real)
    ensures e.amount >= 0.0 ==> Effect(e, userId) >= 0.0
  {
    var n := |e.participants| as real;
    assert n >= 1.0;
    if e.amount >= 0.0 {
      var share := e.amount / n;
      assert share * n == e.amount;
      assert share >= 0.0;
      assert share * (n - 1.0) >= 0.0;
      assert share * n == share + share * (n - 1.0);
    }
  }

  // ---------------------------------------------------------------------------
  // isValidEmail
  // ---------------------------------------------------------------------------

  /** `s` matches `^[^\s@]+@[^\s@]+\.[^\s@]+$` with the `@` at `a` and the
      dot at `p`: no character is whitespace, and the only `@` is at `a`. */
  predicate LooseEmailAt(s: string, a: int, p: int) {
    && 0 < a && a + 1 < p && p + 1 < |s|
    && s[p] == '.'
    && forall k | 0 <= k < |s| :: !IsSpace(s[k]) && (s[k] == '@' <==> k == a)
  }

  /** The language of the pattern: some way of cutting `s` matches it. */
  ghost predicate LooseEmailPattern(s: string) {
    exists a, p :: LooseEmailAt(s, a, p)
  }

  /** `isValidEmail(email)`: no whitespace, a single `@` that is not the first
      character, and after it a dot that is neither right after the `@` nor
      the last character. */
  function IsValidEmail(email: string): bool {
    && (forall k | 0 <= k < |email| :: !IsSpace(email[k]))
    && match IndexOf(email, '@')
      case None => false
      case Some(a) =>
        && 0 < a && a + 2 < |email|
        && '@' !in email[a + 1..]
        && IndexOf(email[a + 2..|email| - 1], '.').Some?
  }

  /** The check accepts exactly the language of the pattern. */
  lemma IsValidEmailCorrect(email: string)
    ensures IsValidEmail(email) <==> LooseEmailPattern(email)
  {
    if IsValidEmail(email) {
      var a := IndexOf(email, '@').value;
      var q := IndexOf(email[a + 2..|email| - 1], '.').value;
      var p := a + 2 + q;
      assert email[p] == email[a + 2..|email| - 1][q];
      forall k | 0 <= k < |email| ensures email[k] == '@' <==> k == a {
        if k < a {
          assert email[..a][k] == email[k];
        } else if k > a {
          assert email[a + 1..][k - a - 1] == email[k];
        }
      }
      assert LooseEmailAt(email, a, p);
    }
    if LooseEmailPattern(email) {
      var a, p :| LooseEmailAt(email, a, p);
      assert email[a] in email;
      var a' := IndexOf(email, '@').value;
      assert a' == a;
      var rest := email[a + 1..];
      assert '@' !in rest by {
        forall k | 0 <= k < |rest| ensures rest[k] != '@' {
          assert rest[k] == email[a + 1 + k];
        }
      }
      assert email[a + 2..|email| - 1][p - a - 2] == '.';
    }
  }
}
