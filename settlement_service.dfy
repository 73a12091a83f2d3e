/**
  The balance engine of the settlement service: `calculateBalances` folds a
  group's expenses into a net balance per member, and `simplifyDebts` (and
  `minimizeTransactions`, which delegates to it) turns the balances into
  debtor-to-creditor payments by a greedy two-pointer walk over the creditors
  and the debtors, each sorted by decreasing amount.
*/
module SettlementService {
  import opened Ledger

  // ---------------------------------------------------------------------------
  // calculateBalances: the specification of a member's net balance
  // ---------------------------------------------------------------------------

  /** The total of `u`'s shares among `splits`. */
  function Share(splits: seq<Split>, u: UserId): Cents {
    if splits == [] then 0
    else
      var last := splits[|splits| - 1];
      Share(splits[..|splits| - 1], u) + (if last.userId == u then last.amount else 0)
  }

  /** What one expense does to `u`'s balance: credit for paying, debit for each share. */
  function Effect(e: Expense, u: UserId): Cents {
    (if e.paidById == u then e.amount else 0) - Share(e.splits, u)
  }

  /** `u`'s net balance over a list of expenses. */
  function Net(expenses: seq<Expense>, u: UserId): Cents {
    if expenses == [] then 0
    else Net(expenses[..|expenses| - 1], u) + Effect(expenses[|expenses| - 1], u)
  }

  function SplitUsers(splits: seq<Split>): set<UserId> {
    if splits == [] then {}
    else SplitUsers(splits[..|splits| - 1]) + {splits[|splits| - 1].userId}
  }

  /** The members an expense list mentions, as payer or as split user. */
  function Involved(expenses: seq<Expense>): set<UserId> {
    if expenses == [] then {}
    else
      var e := expenses[|expenses| - 1];
      Involved(expenses[..|expenses| - 1]) + {e.paidById} + SplitUsers(e.splits)
  }

  /** The balance a map records for `u`, a missing entry reading as zero. */
  function BalanceIn(balances: map<UserId, Cents>, u: UserId): Cents {
    if u in balances then balances[u] else 0
  }

  /** `calculateBalances(expenses)`: one entry per member the expenses mention,
      holding that member's net balance; an empty list gives an empty map. */
  method CalculateBalances(expenses: seq<Expense>) returns (balances: map<UserId, Cents>)
    ensures balances.Keys == Involved(expenses)
    ensures forall u | u in balances :: balances[u] == Net(expenses, u)
    ensures expenses == [] ==> balances == map[]
  {
    balances := map[];
    for k := 0 to |expenses|
      invariant balances.Keys == Involved(expenses[..k])
      invariant forall u | u in balances :: balances[u] == Net(expenses[..k], u)
    {
      forall u | u !in balances ensures Net(expenses[..k], u) == 0 {
        NetOutside(expenses[..k], u);
      }
      balances := ApplyExpense(balances, expenses[k]);
      ExpensesStep(expenses, k);
    }
    assert expenses[..|expenses|] == expenses;
  }

  /** The body of the `expenses.forEach` callback: the payer is credited the
      amount and each split's user is debited the split's amount; a member who
      both pays and takes part gets both adjustments, every member the expense
      does not mention keeps its entry, and the members it mentions get one. */
  method ApplyExpense(before: map<UserId, Cents>, e: Expense) returns (balances: map<UserId, Cents>)
    ensures balances.Keys == before.Keys + {e.paidById} + SplitUsers(e.splits)
    ensures forall u | u in balances :: balances[u] == BalanceIn(before, u) + Effect(e, u)
  {
    balances := Adjust(before, e.paidById, e.amount);
    for m := 0 to |e.splits|
      invariant balances.Keys == before.Keys + {e.paidById} + SplitUsers(e.splits[..m])
      invariant forall u | u in balances ::
        balances[u] == BalanceIn(before, u) + (if u == e.paidById then e.amount else 0) - Share(e.splits[..m], u)
    {
      var split := e.splits[m];
      SplitsStep(e.splits, m);
      if split.userId !in balances {
        ShareOutside(e.splits[..m], split.userId);
      }
      balances := Adjust(balances, split.userId, -split.amount);
    }
    assert e.splits[..|e.splits|] == e.splits;
  }

  /** `if (!balances[u]) balances[u] = 0; balances[u] += delta;`: the entry of
      `u` is created at zero when missing and moved by `delta`; no other entry
      changes. */
  method Adjust(before: map<UserId, Cents>, u: UserId, delta: Cents) returns (balances: map<UserId, Cents>)
    ensures balances.Keys == before.Keys + {u}
    ensures forall v | v in balances :: balances[v] == BalanceIn(before, v) + (if v == u then delta else 0)
  {
    balances := before;
    if u !in balances || balances[u] == 0 {
      balances := balances[u := 0];
    }
    balances := balances[u := balances[u] + delta];
  }

  lemma SplitsStep(splits: seq<Split>, m: nat)
    requires m < |splits|
    ensures SplitUsers(splits[..m + 1]) == SplitUsers(splits[..m]) + {splits[m].userId}
    ensures forall u :: Share(splits[..m + 1], u) == Share(splits[..m], u) + (if splits[m].userId == u then splits[m].amount else 0)
  {
    assert splits[..m + 1][..m] == splits[..m];
  }

  lemma ExpensesStep(expenses: seq<Expense>, k: nat)
    requires k < |expenses|
    ensures Involved(expenses[..k + 1]) == Involved(expenses[..k]) + {expenses[k].paidById} + SplitUsers(expenses[k].splits)
    ensures forall u :: Net(expenses[..k + 1], u) == Net(expenses[..k], u) + Effect(expenses[k], u)
  {
    assert expenses[..k + 1][..k] == expenses[..k];
    assert expenses[k].splits[..|expenses[k].splits|] == expenses[k].splits;
  }

  // ---------------------------------------------------------------------------
  // Properties of the net balance
  // ---------------------------------------------------------------------------

  /** A member who holds no share of the splits has no share debited. */
  lemma {:induction false} ShareOutside(splits: seq<Split>, u: UserId)
    requires u !in SplitUsers(splits)
    ensures Share(splits, u) == 0
  {
    if splits != [] {
      ShareOutside(splits[..|splits| - 1], u);
    }
  }

  /** A member the expenses never mention keeps a zero balance. */
  lemma {:induction false} NetOutside(expenses: seq<Expense>, u: UserId)
    requires u !in Involved(expenses)
    ensures Net(expenses, u) == 0
  {
    if expenses != [] {
      NetOutside(expenses[..|expenses| - 1], u);
      ShareOutside(expenses[|expenses| - 1].splits, u);
    }
  }

  /** The balance over two expense lists one after the other is the sum of the
      balances over each. */
  lemma {:induction false} NetAppend(a: seq<Expense>, b: seq<Expense>, u: UserId)
    ensures Net(a + b, u) == Net(a, u) + Net(b, u)
  {
    if b == [] {
      assert a + b == a;
    } else {
      assert (a + b)[..|a + b| - 1] == a + b[..|b| - 1];
      NetAppend(a, b[..|b| - 1], u);
    }
  }

  // ---------------------------------------------------------------------------
  // Conservation: the balances add up to what the expenses leave unsplit
  // ---------------------------------------------------------------------------

  function SplitTotal(splits: seq<Split>): Cents {
    if splits == [] then 0 else SplitTotal(splits[..|splits| - 1]) + splits[|splits| - 1].amount
  }

  /** What the expenses leave unaccounted for: each amount minus its splits. */
  function Unsplit(expenses: seq<Expense>): Cents {
    if expenses == [] then 0
    else
      var e := expenses[|expenses| - 1];
      Unsplit(expenses[..|expenses| - 1]) + (e.amount - SplitTotal(e.splits))
  }

  /** The splits of every expense add up to its amount. */
  predicate FullySplit(expenses: seq<Expense>) {
    forall k | 0 <= k < |expenses| :: SplitTotal(expenses[k].splits) == expenses[k].amount
  }

  predicate DistinctIds(ids: seq<UserId>) {
    forall a, b | 0 <= a < b < |ids| :: ids[a] != ids[b]
  }

  /** The sum of the balances of the listed members. */
  function SumNet(expenses: seq<Expense>, ids: seq<UserId>): Cents {
    if ids == [] then 0 else Net(expenses, ids[0]) + SumNet(expenses, ids[1..])
  }

  function SumShare(splits: seq<Split>, ids: seq<UserId>): Cents {
    if ids == [] then 0 else Share(splits, ids[0]) + SumShare(splits, ids[1..])
  }

  /** `a` counted once for every occurrence of `u` in `ids`. */
  function Indicator(ids: seq<UserId>, u: UserId, a: Cents): Cents {
    if ids == [] then 0 else (if ids[0] == u then a else 0) + Indicator(ids[1..], u, a)
  }

  lemma {:induction false} IndicatorAbsent(ids: seq<UserId>, u: UserId, a: Cents)
    requires u !in ids
    ensures Indicator(ids, u, a) == 0
  {
    if ids != [] {
      IndicatorAbsent(ids[1..], u, a);
    }
  }

  lemma {:induction false} IndicatorOnce(ids: seq<UserId>, u: UserId, a: Cents)
    requires DistinctIds(ids) && u in ids
    ensures Indicator(ids, u, a) == a
  {
    if ids[0] == u {
      assert u !in ids[1..] by {
        forall b | 0 <= b < |ids[1..]| ensures ids[1..][b] != u {
          assert ids[1..][b] == ids[b + 1];
        }
      }
      IndicatorAbsent(ids[1..], u, a);
    } else {
      IndicatorOnce(ids[1..], u, a);
    }
  }

  lemma {:induction false} SumShareSnoc(splits: seq<Split>, ids: seq<UserId>)
    requires splits != []
    ensures SumShare(splits, ids) == SumShare(splits[..|splits| - 1], ids)
      + Indicator(ids, splits[|splits| - 1].userId, splits[|splits| - 1].amount)
  {
    if ids != [] {
      SumShareSnoc(splits, ids[1..]);
    }
  }

  /** Over a list of distinct members that includes every split user, the
      debited shares add up to the split total. */
  lemma {:induction false} SumShareTotal(splits: seq<Split>, ids: seq<UserId>)
    requires DistinctIds(ids) && SplitUsers(splits) <= set u | u in ids
    ensures SumShare(splits, ids) == SplitTotal(splits)
  {
    if splits == [] {
      SumShareEmpty(ids);
    } else {
      var last := splits[|splits| - 1];
      SumShareSnoc(splits, ids);
      SumShareTotal(splits[..|splits| - 1], ids);
      IndicatorOnce(ids, last.userId, last.amount);
    }
  }

  lemma {:induction false} SumShareEmpty(ids: seq<UserId>)
    ensures SumShare([], ids) == 0
  {
    if ids != [] {
      SumShareEmpty(ids[1..]);
    }
  }

  lemma {:induction false} SumNetSnoc(expenses: seq<Expense>, ids: seq<UserId>)
    requires expenses != []
    ensures SumNet(expenses, ids) == SumNet(expenses[..|expenses| - 1], ids)
      + Indicator(ids, expenses[|expenses| - 1].paidById, expenses[|expenses| - 1].amount)
      - SumShare(expenses[|expenses| - 1].splits, ids)
  {
    if ids != [] {
      SumNetSnoc(expenses, ids[1..]);
    }
  }

  lemma {:induction false} SumNetEmpty(ids: seq<UserId>)
    ensures SumNet([], ids) == 0
  {
    if ids != [] {
      SumNetEmpty(ids[1..]);
    }
  }

  /** Summed over any list of distinct members that covers everyone the
      expenses mention, the balances add up to what the expenses leave unsplit:
      zero when every expense is fully split. */
  lemma {:induction false} SumNetIsUnsplit(expenses: seq<Expense>, ids: seq<UserId>)
    requires DistinctIds(ids) && Involved(expenses) <= set u | u in ids
    ensures SumNet(expenses, ids) == Unsplit(expenses)
    ensures FullySplit(expenses) ==> SumNet(expenses, ids) == 0
  {
    if expenses == [] {
      SumNetEmpty(ids);
    } else {
      var init := expenses[..|expenses| - 1];
      var e := expenses[|expenses| - 1];
      SumNetSnoc(expenses, ids);
      SumNetIsUnsplit(init, ids);
      IndicatorOnce(ids, e.paidById, e.amount);
      SumShareTotal(e.splits, ids);
      if FullySplit(expenses) {
        assert FullySplit(init) by {
          forall k | 0 <= k < |init| ensures SplitTotal(init[k].splits) == init[k].amount {
            assert init[k] == expenses[k];
          }
        }
        assert SplitTotal(e.splits) == e.amount;
      }
    }
  }

  // ---------------------------------------------------------------------------
  // simplifyDebts: creditors, debtors and their ordering
  // ---------------------------------------------------------------------------

  /** A creditor or debtor with the amount still to receive or to pay. */
  datatype Party = Party(userId: UserId, amount: Cents)

  /** A suggested payment from a debtor to a creditor. */
  datatype Transfer = Transfer(from: UserId, to: UserId, amount: Cents)

  /** The members whose balance exceeds 0.01, in the order of the entries. */
  function Creditors(entries: seq<(UserId, Cents)>): seq<Party> {
    if entries == [] then []
    else
      var (u, b) := entries[|entries| - 1];
      Creditors(entries[..|entries| - 1]) + (if b > Epsilon then [Party(u, b)] else [])
  }

  /** The members whose balance is below -0.01, with what they owe, in the
      order of the entries. */
  function Debtors(entries: seq<(UserId, Cents)>): seq<Party> {
    if entries == [] then []
    else
      var (u, b) := entries[|entries| - 1];
      Debtors(entries[..|entries| - 1]) + (if b < -Epsilon then [Party(u, -b)] else [])
  }

  predicate Descending(ps: seq<Party>) {
    forall a, b | 0 <= a < b < |ps| :: ps[a].amount >= ps[b].amount
  }

  /** Inserts `x` into a descending list after every party whose amount is at
      least as large, so that parties with equal amounts keep their order. */
  function InsertDesc(t: seq<Party>, x: Party): seq<Party> {
    if t == [] || t[|t| - 1].amount >= x.amount then t + [x]
    else InsertDesc(t[..|t| - 1], x) + [t[|t| - 1]]
  }

  /** `ps.sort((a, b) => b.amount - a.amount)` with a stable sort: by
      decreasing amount, parties with equal amounts in their original order. */
  function SortDesc(ps: seq<Party>): seq<Party> {
    if ps == [] then [] else InsertDesc(SortDesc(ps[..|ps| - 1]), ps[|ps| - 1])
  }

  lemma {:induction false} InsertDescPermutes(t: seq<Party>, x: Party)
    ensures multiset(InsertDesc(t, x)) == multiset(t) + multiset{x}
  {
    if t != [] && t[|t| - 1].amount < x.amount {
      InsertDescPermutes(t[..|t| - 1], x);
      assert t == t[..|t| - 1] + [t[|t| - 1]];
    }
  }

  lemma {:induction false} InsertDescSorted(t: seq<Party>, x: Party)
    requires Descending(t)
    ensures Descending(InsertDesc(t, x))
  {
    if t != [] && t[|t| - 1].amount < x.amount {
      var init := t[..|t| - 1];
      InsertDescSorted(init, x);
      InsertDescPermutes(init, x);
      var r := InsertDesc(init, x);
      forall a | 0 <= a < |r| ensures r[a].amount >= t[|t| - 1].amount {
        assert r[a] in multiset(init) + multiset{x};
        if r[a] != x {
          assert r[a] in init;
        }
      }
    }
  }

  /** The sort returns a descending permutation of its input. */
  lemma SortDescCorrect(ps: seq<Party>)
    ensures Descending(SortDesc(ps))
    ensures multiset(SortDesc(ps)) == multiset(ps)
  {
    SortDescSorted(ps);
    SortDescPermutes(ps);
  }

  lemma {:induction false} SortDescSorted(ps: seq<Party>)
    ensures Descending(SortDesc(ps))
  {
    if ps != [] {
      SortDescSorted(ps[..|ps| - 1]);
      InsertDescSorted(SortDesc(ps[..|ps| - 1]), ps[|ps| - 1]);
    }
  }

  lemma {:induction false} SortDescPermutes(ps: seq<Party>)
    ensures multiset(SortDesc(ps)) == multiset(ps)
  {
    if ps != [] {
      var init := ps[..|ps| - 1];
      SortDescPermutes(init);
      InsertDescPermutes(SortDesc(init), ps[|ps| - 1]);
      assert ps == init + [ps[|ps| - 1]];
    }
  }

  /** The in-place sort of the creditor and debtor arrays: an insertion sort
      that shifts only strictly smaller amounts, hence stable. */
  method SortDescending(a: array<Party>)
    modifies a
    ensures a[..] == SortDesc(old(a[..]))
  {
    for i := 0 to a.Length
      invariant a[..i] == SortDesc(old(a[..i]))
      invariant a[i..] == old(a[i..])
    {
      assert old(a[..i + 1])[..i] == old(a[..i]);
      assert a[i] == old(a[..i + 1])[i];
      assert a[i + 1..] == old(a[i + 1..]) by {
        assert a[i + 1..] == a[i..][1..] && old(a[i + 1..]) == old(a[i..])[1..];
      }
      ghost var rest := a[i + 1..];
      InsertLast(a, i);
      assert a[i + 1..] == rest;
    }
    assert a[..a.Length] == a[..];
    assert old(a[..a.Length]) == old(a[..]);
  }

  /** Moves `a[i]` back into the sorted prefix `a[..i]`. */
  method InsertLast(a: array<Party>, i: nat)
    requires i < a.Length
    modifies a
    ensures a[..i + 1] == InsertDesc(old(a[..i]), old(a[i]))
    ensures a[i + 1..] == old(a[i + 1..])
  {
    ghost var t := a[..i];
    var x := a[i];
    var j := i;
    while j > 0 && a[j - 1].amount < x.amount
      invariant 0 <= j <= i
      invariant a[..j] == t[..j] && a[j + 1..i + 1] == t[j..]
      invariant InsertDesc(t, x) == InsertDesc(t[..j], x) + t[j..]
      invariant a[i + 1..] == old(a[i + 1..])
    {
      ShiftUp(a, i, j, t);
      InsertDescShift(t, j, x);
      j := j - 1;
    }
    a[j] := x;
    InsertDescStop(t, j, x);
    assert a[..i + 1] == t[..j] + [x] + t[j..];
  }

  /** One step of the insertion: `a[j] = a[j - 1]`, which widens the gap
      before the moved parties by one place. */
  method ShiftUp(a: array<Party>, i: nat, j: nat, ghost t: seq<Party>)
    requires 0 < j <= i < a.Length && |t| == i
    requires a[..j] == t[..j] && a[j + 1..i + 1] == t[j..]
    modifies a
    ensures a[..j - 1] == t[..j - 1] && a[j..i + 1] == t[j - 1..]
    ensures a[i + 1..] == old(a[i + 1..])
  {
    assert a[j - 1] == t[j - 1];
    a[j] := a[j - 1];
    assert a[..j - 1] == t[..j - 1];
    assert a[j..i + 1] == [t[j - 1]] + t[j..];
  }

  lemma InsertDescShift(t: seq<Party>, j: nat, x: Party)
    requires 0 < j <= |t| && t[j - 1].amount < x.amount
    ensures InsertDesc(t[..j], x) + t[j..] == InsertDesc(t[..j - 1], x) + t[j - 1..]
  {
    assert t[..j][..j - 1] == t[..j - 1];
  }

  lemma InsertDescStop(t: seq<Party>, j: nat, x: Party)
    requires j <= |t| && (j == 0 || t[j - 1].amount >= x.amount)
    ensures InsertDesc(t[..j], x) == t[..j] + [x]
  {
  }

  // ---------------------------------------------------------------------------
  // simplifyDebts: the greedy walk
  // ---------------------------------------------------------------------------

  function Min(a: Cents, b: Cents): Cents {
    if a <= b then a else b
  }

  /** The head party after `m` has been settled with it: dropped once what it
      has left is below 0.01, otherwise kept with the reduced amount. */
  function Advance(ps: seq<Party>, m: Cents): seq<Party>
    requires ps != []
  {
    var rest := ps[0].amount - m;
    if rest < Epsilon then ps[1..] else [ps[0].(amount := rest)] + ps[1..]
  }

  /** The payments the two-pointer walk records for the creditors `cs` and the
      debtors `ds`: the current debtor pays the current creditor the smaller of
      their two amounts, and the walk stops when either list runs out. */
  function Settle(cs: seq<Party>, ds: seq<Party>): seq<Transfer>
    decreases |cs| + |ds|
  {
    if cs == [] || ds == [] then []
    else
      var m := Min(cs[0].amount, ds[0].amount);
      [Transfer(ds[0].userId, cs[0].userId, m)] + Settle(Advance(cs, m), Advance(ds, m))
  }

  /** The creditors and debtors the walk leaves unsettled. */
  function Leftover(cs: seq<Party>, ds: seq<Party>): (seq<Party>, seq<Party>)
    decreases |cs| + |ds|
  {
    if cs == [] || ds == [] then (cs, ds)
    else
      var m := Min(cs[0].amount, ds[0].amount);
      Leftover(Advance(cs, m), Advance(ds, m))
  }

  /** What `simplifyDebts` returns for the entries of a balance map. */
  function Simplified(entries: seq<(UserId, Cents)>): seq<Transfer> {
    Settle(SortDesc(Creditors(entries)), SortDesc(Debtors(entries)))
  }

  /** `simplifyDebts(balances)`, with `Object.entries(balances)` given as
      `entries`: partitions the members into creditors and debtors, sorts each
      by decreasing amount in place, then walks both arrays with two pointers. */
  method SimplifyDebts(entries: seq<(UserId, Cents)>) returns (settlements: seq<Transfer>)
    ensures settlements == Simplified(entries)
  {
    var creditors: seq<Party> := [];
    var debtors: seq<Party> := [];
    for k := 0 to |entries|
      invariant creditors == Creditors(entries[..k])
      invariant debtors == Debtors(entries[..k])
    {
      assert entries[..k + 1][..k] == entries[..k];
      var (userId, balance) := entries[k];
      if balance > Epsilon {
        creditors := creditors + [Party(userId, balance)];
      } else if balance < -Epsilon {
        debtors := debtors + [Party(userId, -balance)];
      }
    }
    assert entries[..|entries|] == entries;

    var cs := new Party[|creditors|](k requires 0 <= k < |creditors| => creditors[k]);
    var ds := new Party[|debtors|](k requires 0 <= k < |debtors| => debtors[k]);
    assert cs[..] == creditors;
    assert ds[..] == debtors;
    SortDescending(cs);
    SortDescending(ds);
    settlements := Walk(cs, ds);
  }

  /** The two-pointer loop of `simplifyDebts`: at each step the current debtor
      pays the current creditor the smaller of their amounts, both amounts are
      reduced in place, and each pointer moves on once its party has less than
      0.01 left. */
  method Walk(cs: array<Party>, ds: array<Party>) returns (settlements: seq<Transfer>)
    requires cs != ds
    modifies cs, ds
    ensures settlements == Settle(old(cs[..]), old(ds[..]))
  {
    settlements := [];
    var i, j := 0, 0;
    ghost var all := Settle(cs[..], ds[..]);
    assert cs[0..] == cs[..] && ds[0..] == ds[..];
    while i < cs.Length && j < ds.Length
      invariant 0 <= i <= cs.Length && 0 <= j <= ds.Length
      invariant settlements + Settle(cs[i..], ds[j..]) == all
      decreases cs.Length - i + ds.Length - j
    {
      ghost var cRest, dRest := cs[i..], ds[j..];
      assert cRest[0] == cs[i] && dRest[0] == ds[j];
      var payment;
      payment, i, j := Step(cs, ds, i, j);
      SettleStep(cRest, dRest, payment, cs[i..], ds[j..]);
      settlements := settlements + [payment];
    }
  }

  /** One round of the loop: the payment, the amounts reduced in place, and
      the pointers moved past the parties that are spent. */
  method Step(cs: array<Party>, ds: array<Party>, i: nat, j: nat) returns (payment: Transfer, i': nat, j': nat)
    requires cs != ds && i < cs.Length && j < ds.Length
    modifies cs, ds
    ensures i <= i' <= cs.Length && j <= j' <= ds.Length && (i < i' || j < j')
    ensures var m := Min(old(cs[i]).amount, old(ds[j]).amount);
      && payment == Transfer(old(ds[j]).userId, old(cs[i]).userId, m)
      && cs[i'..] == Advance(old(cs[i..]), m)
      && ds[j'..] == Advance(old(ds[j..]), m)
    ensures var m := Min(old(cs[i]).amount, old(ds[j]).amount);
      && cs[i] == old(cs[i]).(amount := old(cs[i]).amount - m)
      && ds[j] == old(ds[j]).(amount := old(ds[j]).amount - m)
    ensures cs[..i] == old(cs[..i]) && ds[..j] == old(ds[..j])
  {
    var creditor := cs[i];
    var debtor := ds[j];
    var settleAmount := Min(creditor.amount, debtor.amount);
    payment := Transfer(debtor.userId, creditor.userId, settleAmount);
    creditor := creditor.(amount := creditor.amount - settleAmount);
    debtor := debtor.(amount := debtor.amount - settleAmount);
    cs[i] := creditor;
    ds[j] := debtor;
    AdvanceInPlace(old(cs[..]), cs[..], i, settleAmount);
    AdvanceInPlace(old(ds[..]), ds[..], j, settleAmount);
    assert old(cs[..])[i..] == old(cs[i..]) && old(ds[..])[j..] == old(ds[j..]);
    i', j' := i, j;
    if creditor.amount < Epsilon {
      i' := i + 1;
    }
    if debtor.amount < Epsilon {
      j' := j + 1;
    }
  }

  /** One round of the loop is one step of `Settle`. */
  lemma SettleStep(cs: seq<Party>, ds: seq<Party>, payment: Transfer, cs': seq<Party>, ds': seq<Party>)
    requires cs != [] && ds != []
    requires var m := Min(cs[0].amount, ds[0].amount);
      && payment == Transfer(ds[0].userId, cs[0].userId, m)
      && cs' == Advance(cs, m) && ds' == Advance(ds, m)
    ensures Settle(cs, ds) == [payment] + Settle(cs', ds')
  {
    SettleUnfold(cs, ds);
  }

  lemma SettleUnfold(cs: seq<Party>, ds: seq<Party>)
    requires cs != [] && ds != []
    ensures var m := Min(cs[0].amount, ds[0].amount);
      Settle(cs, ds) == [Transfer(ds[0].userId, cs[0].userId, m)] + Settle(Advance(cs, m), Advance(ds, m))
  {
  }

  /** Reducing the party at index `i` in place and moving past it when it is
      spent is `Advance` on the slice that starts at `i`. */
  lemma AdvanceInPlace(before: seq<Party>, after: seq<Party>, i: nat, m: Cents)
    requires i < |before|
    requires after == before[i := before[i].(amount := before[i].amount - m)]
    ensures after[i].amount < Epsilon ==> Advance(before[i..], m) == after[i + 1..]
    ensures after[i].amount >= Epsilon ==> Advance(before[i..], m) == after[i..]
  {
    assert before[i..][1..] == after[i + 1..];
    assert after[i..] == [after[i]] + after[i + 1..];
  }

  /** `minimizeTransactions` delegates to `simplifyDebts`. */
  method MinimizeTransactions(entries: seq<(UserId, Cents)>) returns (settlements: seq<Transfer>)
    ensures settlements == Simplified(entries)
  {
    settlements := SimplifyDebts(entries);
  }
}
