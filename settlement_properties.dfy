/**
  What the payments `simplifyDebts` suggests achieve: how many there are, who
  pays whom, how much of each balance they settle, and when they settle all of
  it. The walk is studied through `Settle` and `Leftover`, the functions the
  imperative `Walk` is proved against.
*/
module SettlementProperties {
  import opened Ledger
  import opened SettlementService

  // ---------------------------------------------------------------------------
  // Measures over parties and payments
  // ---------------------------------------------------------------------------

  function Ids(ps: seq<Party>): set<UserId> {
    set p | p in ps :: p.userId
  }

  lemma IdsAppend(a: seq<Party>, b: seq<Party>)
    ensures Ids(a + b) == Ids(a) + Ids(b)
  {
    forall u | u in Ids(a + b) ensures u in Ids(a) + Ids(b) {
      var p :| p in a + b && p.userId == u;
      if p in a {
        assert u in Ids(a);
      } else {
        assert u in Ids(b);
      }
    }
    forall u | u in Ids(a) + Ids(b) ensures u in Ids(a + b) {
      if u in Ids(a) {
        var p :| p in a && p.userId == u;
        assert p in a + b;
      } else {
        var p :| p in b && p.userId == u;
        assert p in a + b;
      }
    }
  }

  /** Every party still has at least 0.01 to receive or to pay. */
  predicate Outstanding(ps: seq<Party>) {
    forall p | p in ps :: p.amount >= Epsilon
  }

  function Total(ps: seq<Party>): Cents {
    if ps == [] then 0 else ps[0].amount + Total(ps[1..])
  }

  /** What the parties listed under `u` have to receive or to pay. */
  function AmountOf(ps: seq<Party>, u: UserId): Cents {
    if ps == [] then 0 else (if ps[0].userId == u then ps[0].amount else 0) + AmountOf(ps[1..], u)
  }

  /** What `u` receives from the payments. */
  function Received(ts: seq<Transfer>, u: UserId): Cents {
    if ts == [] then 0 else (if ts[0].to == u then ts[0].amount else 0) + Received(ts[1..], u)
  }

  /** What `u` pays out in the payments. */
  function Paid(ts: seq<Transfer>, u: UserId): Cents {
    if ts == [] then 0 else (if ts[0].from == u then ts[0].amount else 0) + Paid(ts[1..], u)
  }

  lemma {:induction false} TotalAppend(a: seq<Party>, b: seq<Party>)
    ensures Total(a + b) == Total(a) + Total(b)
  {
    if a != [] {
      assert (a + b)[1..] == a[1..] + b;
      TotalAppend(a[1..], b);
    } else {
      assert a + b == b;
    }
  }

  lemma {:induction false} AmountOfAppend(a: seq<Party>, b: seq<Party>, u: UserId)
    ensures AmountOf(a + b, u) == AmountOf(a, u) + AmountOf(b, u)
  {
    if a != [] {
      assert (a + b)[1..] == a[1..] + b;
      AmountOfAppend(a[1..], b, u);
    } else {
      assert a + b == b;
    }
  }

  /** Outstanding parties add up to a positive total unless there are none. */
  lemma {:induction false} OutstandingTotal(ps: seq<Party>)
    requires Outstanding(ps)
    ensures Total(ps) >= |ps|
  {
    if ps != [] {
      assert ps[0] in ps;
      assert Outstanding(ps[1..]) by {
        forall p | p in ps[1..] ensures p.amount >= Epsilon {
          assert p in ps;
        }
      }
      OutstandingTotal(ps[1..]);
    }
  }

  // ---------------------------------------------------------------------------
  // One round of the walk
  // ---------------------------------------------------------------------------

  /** Settling `m`, at most what the head party has, takes exactly `m` off the
      list: a party is dropped only once nothing is left, since amounts are
      whole cents. */
  lemma AdvanceTakes(ps: seq<Party>, m: Cents, u: UserId)
    requires ps != [] && 0 <= m <= ps[0].amount
    ensures Total(Advance(ps, m)) == Total(ps) - m
    ensures AmountOf(Advance(ps, m), u) == AmountOf(ps, u) - (if ps[0].userId == u then m else 0)
    ensures Ids(Advance(ps, m)) <= Ids(ps)
    ensures Outstanding(ps) ==> Outstanding(Advance(ps, m))
    ensures m == ps[0].amount ==> Advance(ps, m) == ps[1..]
  {
    var rest := ps[0].amount - m;
    if rest >= Epsilon {
      var q := ps[0].(amount := rest);
      assert ([q] + ps[1..])[1..] == ps[1..];
    }
    forall p | p in Advance(ps, m) ensures p.userId in Ids(ps) {
      if p !in ps[1..] {
        assert p.userId == ps[0].userId;
      }
    }
  }

  // ---------------------------------------------------------------------------
  // The whole walk
  // ---------------------------------------------------------------------------

  /** Every round settles at least one party, so there are at most as many
      payments as parties, and none at all exactly when one side is empty. */
  lemma {:induction false} SettleLength(cs: seq<Party>, ds: seq<Party>)
    ensures |Settle(cs, ds)| <= |cs| + |ds|
    ensures Settle(cs, ds) == [] <==> cs == [] || ds == []
    decreases |cs| + |ds|
  {
    if cs != [] && ds != [] {
      var m := Min(cs[0].amount, ds[0].amount);
      SettleLength(Advance(cs, m), Advance(ds, m));
    }
  }

  /** Between outstanding parties, every payment is of at least 0.01 and goes
      from one of the debtors to one of the creditors. */
  lemma {:induction false} SettlePayments(cs: seq<Party>, ds: seq<Party>)
    requires Outstanding(cs) && Outstanding(ds)
    ensures forall t | t in Settle(cs, ds) :: t.amount >= Epsilon && t.from in Ids(ds) && t.to in Ids(cs)
    decreases |cs| + |ds|
  {
    if cs != [] && ds != [] {
      var m := Min(cs[0].amount, ds[0].amount);
      assert cs[0] in cs && ds[0] in ds;
      AdvanceTakes(cs, m, cs[0].userId);
      AdvanceTakes(ds, m, ds[0].userId);
      SettlePayments(Advance(cs, m), Advance(ds, m));
    }
  }

  /** Each creditor receives what it was owed less what is left of it at the
      end, and each debtor pays what it owed less what is left of it. */
  lemma {:induction false} SettleConserves(cs: seq<Party>, ds: seq<Party>, u: UserId)
    requires forall p | p in cs :: p.amount >= 0
    requires forall p | p in ds :: p.amount >= 0
    ensures Received(Settle(cs, ds), u) + AmountOf(Leftover(cs, ds).0, u) == AmountOf(cs, u)
    ensures Paid(Settle(cs, ds), u) + AmountOf(Leftover(cs, ds).1, u) == AmountOf(ds, u)
    decreases |cs| + |ds|
  {
    if cs != [] && ds != [] {
      var m := Min(cs[0].amount, ds[0].amount);
      assert cs[0] in cs && ds[0] in ds;
      AdvanceTakes(cs, m, u);
      AdvanceTakes(ds, m, u);
      NonNegativeAdvance(cs, m);
      NonNegativeAdvance(ds, m);
      SettleConserves(Advance(cs, m), Advance(ds, m), u);
    }
  }

  lemma NonNegativeAdvance(ps: seq<Party>, m: Cents)
    requires ps != [] && 0 <= m <= ps[0].amount
    requires forall p | p in ps :: p.amount >= 0
    ensures forall p | p in Advance(ps, m) :: p.amount >= 0
  {
    forall p | p in Advance(ps, m) ensures p.amount >= 0 {
      if p !in ps[1..] {
        assert p.amount == ps[0].amount - m;
      }
    }
  }

  /** The walk stops when one side runs out; the other keeps what the first
      was short of, and outstanding parties stay outstanding. */
  lemma {:induction false} LeftoverOneSided(cs: seq<Party>, ds: seq<Party>)
    requires forall p | p in cs :: p.amount >= 0
    requires forall p | p in ds :: p.amount >= 0
    ensures Leftover(cs, ds).0 == [] || Leftover(cs, ds).1 == []
    ensures Total(Leftover(cs, ds).0) - Total(Leftover(cs, ds).1) == Total(cs) - Total(ds)
    ensures Outstanding(cs) && Outstanding(ds) ==> Outstanding(Leftover(cs, ds).0) && Outstanding(Leftover(cs, ds).1)
    decreases |cs| + |ds|
  {
    if cs != [] && ds != [] {
      var m := Min(cs[0].amount, ds[0].amount);
      assert cs[0] in cs && ds[0] in ds;
      AdvanceTakes(cs, m, cs[0].userId);
      AdvanceTakes(ds, m, ds[0].userId);
      NonNegativeAdvance(cs, m);
      NonNegativeAdvance(ds, m);
      LeftoverOneSided(Advance(cs, m), Advance(ds, m));
    }
  }

  /** When what the creditors are owed equals what the debtors owe, the walk
      settles every party in full. */
  lemma SettleDrains(cs: seq<Party>, ds: seq<Party>)
    requires Outstanding(cs) && Outstanding(ds) && Total(cs) == Total(ds)
    ensures Leftover(cs, ds) == ([], [])
  {
    LeftoverOneSided(cs, ds);
    var (lc, ld) := Leftover(cs, ds);
    OutstandingTotal(lc);
    OutstandingTotal(ld);
  }

  // ---------------------------------------------------------------------------
  // Sorting changes the order only
  // ---------------------------------------------------------------------------

  lemma {:induction false} InsertDescAmounts(t: seq<Party>, x: Party, u: UserId)
    ensures Total(InsertDesc(t, x)) == Total(t) + x.amount
    ensures AmountOf(InsertDesc(t, x), u) == AmountOf(t, u) + AmountOf([x], u)
  {
    if t == [] || t[|t| - 1].amount >= x.amount {
      TotalAppend(t, [x]);
      AmountOfAppend(t, [x], u);
    } else {
      var init, last := t[..|t| - 1], t[|t| - 1];
      InsertDescAmounts(init, x, u);
      TotalAppend(InsertDesc(init, x), [last]);
      AmountOfAppend(InsertDesc(init, x), [last], u);
      assert t == init + [last];
      TotalAppend(init, [last]);
      AmountOfAppend(init, [last], u);
    }
  }

  /** The sort keeps every party with its amount: the same totals per member
      and overall. */
  lemma {:induction false} SortDescAmounts(ps: seq<Party>, u: UserId)
    ensures Total(SortDesc(ps)) == Total(ps)
    ensures AmountOf(SortDesc(ps), u) == AmountOf(ps, u)
  {
    if ps != [] {
      var init, last := ps[..|ps| - 1], ps[|ps| - 1];
      SortDescAmounts(init, u);
      InsertDescAmounts(SortDesc(init), last, u);
      assert ps == init + [last];
      TotalAppend(init, [last]);
      AmountOfAppend(init, [last], u);
    }
  }

  /** The parties holding exactly `a`, in the order of `ps`. */
  function WithAmount(ps: seq<Party>, a: Cents): seq<Party> {
    if ps == [] then []
    else WithAmount(ps[..|ps| - 1], a) + (if ps[|ps| - 1].amount == a then [ps[|ps| - 1]] else [])
  }

  lemma {:induction false} WithAmountAppend(s: seq<Party>, t: seq<Party>, a: Cents)
    ensures WithAmount(s + t, a) == WithAmount(s, a) + WithAmount(t, a)
  {
    if t == [] {
      assert s + t == s;
    } else {
      assert (s + t)[..|s + t| - 1] == s + t[..|t| - 1];
      WithAmountAppend(s, t[..|t| - 1], a);
    }
  }

  /** Inserting `x` puts it after every party with the same amount. */
  lemma {:induction false} InsertDescStable(t: seq<Party>, x: Party, a: Cents)
    ensures WithAmount(InsertDesc(t, x), a) == WithAmount(t, a) + (if x.amount == a then [x] else [])
  {
    if t == [] || t[|t| - 1].amount >= x.amount {
      WithAmountAppend(t, [x], a);
      assert [x][..0] == [];
    } else {
      var init, last := t[..|t| - 1], t[|t| - 1];
      assert t == init + [last];
      InsertDescStable(init, x, a);
      WithAmountAppend(InsertDesc(init, x), [last], a);
      WithAmountAppend(init, [last], a);
      assert [last][..0] == [];
    }
  }

  /** The sort is stable: the parties holding any one amount keep the order
      they had, so among creditors (or debtors) owed the same, the one listed
      first is matched first. */
  lemma {:induction false} SortDescStable(ps: seq<Party>, a: Cents)
    ensures WithAmount(SortDesc(ps), a) == WithAmount(ps, a)
  {
    if ps != [] {
      var init, last := ps[..|ps| - 1], ps[|ps| - 1];
      SortDescStable(init, a);
      InsertDescStable(SortDesc(init), last, a);
    }
  }

  /** The sort keeps the same parties, hence the same ids. */
  lemma SortDescParties(ps: seq<Party>)
    ensures |SortDesc(ps)| == |ps|
    ensures Ids(SortDesc(ps)) == Ids(ps)
    ensures Outstanding(SortDesc(ps)) <==> Outstanding(ps)
  {
    SortDescCorrect(ps);
    var s := SortDesc(ps);
    assert |s| == |multiset(s)|;
    assert forall p :: p in s <==> p in ps by {
      forall p ensures p in s <==> p in ps {
        assert p in s <==> p in multiset(s);
      }
    }
  }

  // ---------------------------------------------------------------------------
  // The partition into creditors and debtors
  // ---------------------------------------------------------------------------

  /** The sum of the balances. */
  function SumBalances(entries: seq<(UserId, Cents)>): Cents {
    if entries == [] then 0 else SumBalances(entries[..|entries| - 1]) + entries[|entries| - 1].1
  }

  /** The sum of the balances within 0.01 of zero, which the partition drops. */
  function Dust(entries: seq<(UserId, Cents)>): Cents {
    if entries == [] then 0
    else
      var b := entries[|entries| - 1].1;
      Dust(entries[..|entries| - 1]) + (if -Epsilon <= b <= Epsilon then b else 0)
  }

  /** Every balance is either zero or more than 0.01 away from it. */
  predicate NoDust(entries: seq<(UserId, Cents)>) {
    forall k | 0 <= k < |entries| :: entries[k].1 == 0 || entries[k].1 > Epsilon || entries[k].1 < -Epsilon
  }

  /** The entries of an object have distinct keys. */
  predicate DistinctKeys(entries: seq<(UserId, Cents)>) {
    forall a, b | 0 <= a < b < |entries| :: entries[a].0 != entries[b].0
  }

  /** The balance the entries record for `u`, zero when it has none. */
  function BalanceOf(entries: seq<(UserId, Cents)>, u: UserId): Cents {
    if entries == [] then 0
    else if entries[|entries| - 1].0 == u then entries[|entries| - 1].1
    else BalanceOf(entries[..|entries| - 1], u)
  }

  /** The balances add up to what the creditors are owed, less what the
      debtors owe, plus the dust. */
  lemma {:induction false} PartitionSum(entries: seq<(UserId, Cents)>)
    ensures SumBalances(entries) == Total(Creditors(entries)) - Total(Debtors(entries)) + Dust(entries)
    ensures NoDust(entries) ==> Dust(entries) == 0
  {
    if entries != [] {
      var init := entries[..|entries| - 1];
      var (u, b) := entries[|entries| - 1];
      PartitionSum(init);
      NoDustInit(entries);
      var c := if b > Epsilon then [Party(u, b)] else [];
      var d := if b < -Epsilon then [Party(u, -b)] else [];
      TotalAppend(Creditors(init), c);
      TotalAppend(Debtors(init), d);
    }
  }

  lemma NoDustInit(entries: seq<(UserId, Cents)>)
    requires entries != []
    ensures NoDust(entries) ==> NoDust(entries[..|entries| - 1])
  {
    var init := entries[..|entries| - 1];
    forall k | 0 <= k < |init| ensures init[k] == entries[k] { }
  }

  /** Creditors and debtors are outstanding, and there are no more of them
      than entries. */
  lemma {:induction false} PartitionOutstanding(entries: seq<(UserId, Cents)>)
    ensures Outstanding(Creditors(entries)) && Outstanding(Debtors(entries))
    ensures |Creditors(entries)| + |Debtors(entries)| <= |entries|
  {
    if entries != [] {
      PartitionOutstanding(entries[..|entries| - 1]);
    }
  }

  /** There are no creditors exactly when no balance exceeds 0.01. */
  lemma {:induction false} NoCreditors(entries: seq<(UserId, Cents)>)
    ensures Creditors(entries) == [] <==> forall k | 0 <= k < |entries| :: entries[k].1 <= Epsilon
  {
    if entries != [] {
      var init := entries[..|entries| - 1];
      NoCreditors(init);
      if forall k | 0 <= k < |entries| :: entries[k].1 <= Epsilon {
        assert forall k | 0 <= k < |init| :: init[k].1 <= Epsilon by {
          forall k | 0 <= k < |init| ensures init[k].1 <= Epsilon {
            assert init[k] == entries[k];
          }
        }
        assert entries[|entries| - 1].1 <= Epsilon;
      }
    }
  }

  /** There are no debtors exactly when no balance is below -0.01. */
  lemma {:induction false} NoDebtors(entries: seq<(UserId, Cents)>)
    ensures Debtors(entries) == [] <==> forall k | 0 <= k < |entries| :: entries[k].1 >= -Epsilon
  {
    if entries != [] {
      var init := entries[..|entries| - 1];
      NoDebtors(init);
      if forall k | 0 <= k < |entries| :: entries[k].1 >= -Epsilon {
        assert forall k | 0 <= k < |init| :: init[k].1 >= -Epsilon by {
          forall k | 0 <= k < |init| ensures init[k].1 >= -Epsilon {
            assert init[k] == entries[k];
          }
        }
        assert entries[|entries| - 1].1 >= -Epsilon;
      }
    }
  }

  /** A member without an entry has no balance and is neither creditor nor debtor. */
  lemma {:induction false} KeyAbsent(entries: seq<(UserId, Cents)>, u: UserId)
    requires forall k | 0 <= k < |entries| :: entries[k].0 != u
    ensures BalanceOf(entries, u) == 0
    ensures AmountOf(Creditors(entries), u) == 0 && AmountOf(Debtors(entries), u) == 0
    ensures u !in Ids(Creditors(entries)) && u !in Ids(Debtors(entries))
  {
    if entries != [] {
      var init := entries[..|entries| - 1];
      var (v, b) := entries[|entries| - 1];
      KeyAbsent(init, u);
      AmountOfAppend(Creditors(init), if b > Epsilon then [Party(v, b)] else [], u);
      AmountOfAppend(Debtors(init), if b < -Epsilon then [Party(v, -b)] else [], u);
    }
  }

  /** Dropping the last entry keeps the keys distinct, and the dropped key
      occurs nowhere else. */
  lemma DistinctKeysInit(init: seq<(UserId, Cents)>, last: (UserId, Cents))
    requires DistinctKeys(init + [last])
    ensures DistinctKeys(init)
    ensures forall k | 0 <= k < |init| :: init[k].0 != last.0
  {
    var entries := init + [last];
    forall a, a' | 0 <= a < a' < |init| ensures init[a].0 != init[a'].0 {
      assert init[a] == entries[a] && init[a'] == entries[a'];
    }
    forall k | 0 <= k < |init| ensures init[k].0 != last.0 {
      assert init[k] == entries[k] && last == entries[|init|];
    }
  }

  /** With distinct keys, a member is a creditor for exactly its balance when
      that exceeds 0.01. */
  lemma {:induction false} CreditorAmount(entries: seq<(UserId, Cents)>, u: UserId)
    requires DistinctKeys(entries)
    ensures var b := BalanceOf(entries, u);
      && AmountOf(Creditors(entries), u) == (if b > Epsilon then b else 0)
      && (u in Ids(Creditors(entries)) <==> b > Epsilon)
  {
    if entries != [] {
      var init := entries[..|entries| - 1];
      var (v, b) := entries[|entries| - 1];
      var c := if b > Epsilon then [Party(v, b)] else [];
      assert Creditors(entries) == Creditors(init) + c;
      assert entries == init + [(v, b)];
      DistinctKeysInit(init, (v, b));
      AmountOfAppend(Creditors(init), c, u);
      IdsAppend(Creditors(init), c);
      if v == u {
        KeyAbsent(init, u);
      } else {
        CreditorAmount(init, u);
      }
    }
  }

  /** With distinct keys, a member is a debtor for exactly its debt when the
      balance is below -0.01. */
  lemma {:induction false} DebtorAmount(entries: seq<(UserId, Cents)>, u: UserId)
    requires DistinctKeys(entries)
    ensures var b := BalanceOf(entries, u);
      && AmountOf(Debtors(entries), u) == (if b < -Epsilon then -b else 0)
      && (u in Ids(Debtors(entries)) <==> b < -Epsilon)
  {
    if entries != [] {
      var init := entries[..|entries| - 1];
      var (v, b) := entries[|entries| - 1];
      var d := if b < -Epsilon then [Party(v, -b)] else [];
      assert Debtors(entries) == Debtors(init) + d;
      assert entries == init + [(v, b)];
      DistinctKeysInit(init, (v, b));
      AmountOfAppend(Debtors(init), d, u);
      IdsAppend(Debtors(init), d);
      if v == u {
        KeyAbsent(init, u);
      } else {
        DebtorAmount(init, u);
      }
    }
  }

  /** Both sides of the partition at once. */
  lemma PartitionAmounts(entries: seq<(UserId, Cents)>, u: UserId)
    requires DistinctKeys(entries)
    ensures var b := BalanceOf(entries, u);
      && AmountOf(Creditors(entries), u) == (if b > Epsilon then b else 0)
      && AmountOf(Debtors(entries), u) == (if b < -Epsilon then -b else 0)
      && (u in Ids(Creditors(entries)) <==> b > Epsilon)
      && (u in Ids(Debtors(entries)) <==> b < -Epsilon)
  {
    CreditorAmount(entries, u);
    DebtorAmount(entries, u);
  }

  // ---------------------------------------------------------------------------
  // What simplifyDebts returns
  // ---------------------------------------------------------------------------

  /** The sorted creditors and debtors the walk starts from. */
  function SortedCreditors(entries: seq<(UserId, Cents)>): seq<Party> {
    SortDesc(Creditors(entries))
  }

  function SortedDebtors(entries: seq<(UserId, Cents)>): seq<Party> {
    SortDesc(Debtors(entries))
  }

  /** There are at most as many payments as members. */
  lemma SimplifiedLength(entries: seq<(UserId, Cents)>)
    ensures |Simplified(entries)| <= |SortedCreditors(entries)| + |SortedDebtors(entries)| <= |entries|
  {
    SettleLength(SortedCreditors(entries), SortedDebtors(entries));
    SortDescParties(Creditors(entries));
    SortDescParties(Debtors(entries));
    PartitionOutstanding(entries);
  }

  /** No payment is suggested exactly when nobody is owed more than 0.01 or
      nobody owes more than 0.01; in particular when everybody is settled up. */
  lemma SimplifiedEmpty(entries: seq<(UserId, Cents)>)
    ensures Simplified(entries) == [] <==>
      (forall k | 0 <= k < |entries| :: entries[k].1 <= Epsilon) || (forall k | 0 <= k < |entries| :: entries[k].1 >= -Epsilon)
  {
    SettleLength(SortedCreditors(entries), SortedDebtors(entries));
    SortDescParties(Creditors(entries));
    SortDescParties(Debtors(entries));
    NoCreditors(entries);
    NoDebtors(entries);
  }

  /** Every payment is of at least 0.01, from a member whose balance is below
      -0.01 to a member whose balance exceeds 0.01, hence never to oneself. */
  lemma SimplifiedPayments(entries: seq<(UserId, Cents)>)
    requires DistinctKeys(entries)
    ensures forall t | t in Simplified(entries) ::
      && t.amount >= Epsilon
      && BalanceOf(entries, t.from) < -Epsilon
      && BalanceOf(entries, t.to) > Epsilon
      && t.from != t.to
  {
    var cs, ds := SortedCreditors(entries), SortedDebtors(entries);
    PartitionOutstanding(entries);
    SortDescParties(Creditors(entries));
    SortDescParties(Debtors(entries));
    SettlePayments(cs, ds);
    forall t | t in Simplified(entries)
      ensures BalanceOf(entries, t.from) < -Epsilon && BalanceOf(entries, t.to) > Epsilon
    {
      PartitionAmounts(entries, t.from);
      PartitionAmounts(entries, t.to);
    }
  }

  /** What each member ends up with once the suggested payments are made:
      its balance, less the dust it was ignored for, less what is left of it
      as a creditor, plus what is left of it as a debtor. */
  lemma SimplifiedSettles(entries: seq<(UserId, Cents)>, u: UserId)
    requires DistinctKeys(entries)
    ensures var b := BalanceOf(entries, u);
      var left := Leftover(SortedCreditors(entries), SortedDebtors(entries));
      Received(Simplified(entries), u) - Paid(Simplified(entries), u)
        == b - (if -Epsilon <= b <= Epsilon then b else 0) - AmountOf(left.0, u) + AmountOf(left.1, u)
  {
    var cs, ds := SortedCreditors(entries), SortedDebtors(entries);
    PartitionOutstanding(entries);
    SortDescParties(Creditors(entries));
    SortDescParties(Debtors(entries));
    SortDescAmounts(Creditors(entries), u);
    SortDescAmounts(Debtors(entries), u);
    PartitionAmounts(entries, u);
    SettleConserves(cs, ds, u);
  }

  /** When the balances add up to zero and none lies within 0.01 of zero
      without being zero, the payments settle every balance exactly. */
  lemma SimplifiedDrains(entries: seq<(UserId, Cents)>, u: UserId)
    requires DistinctKeys(entries) && NoDust(entries) && SumBalances(entries) == 0
    ensures Leftover(SortedCreditors(entries), SortedDebtors(entries)) == ([], [])
    ensures Received(Simplified(entries), u) - Paid(Simplified(entries), u) == BalanceOf(entries, u)
  {
    var cs, ds := SortedCreditors(entries), SortedDebtors(entries);
    PartitionSum(entries);
    PartitionOutstanding(entries);
    SortDescParties(Creditors(entries));
    SortDescParties(Debtors(entries));
    SortDescAmounts(Creditors(entries), u);
    SortDescAmounts(Debtors(entries), u);
    SettleDrains(cs, ds);
    SimplifiedSettles(entries, u);
    NoDustBalance(entries, u);
  }

  lemma {:induction false} NoDustBalance(entries: seq<(UserId, Cents)>, u: UserId)
    requires NoDust(entries)
    ensures var b := BalanceOf(entries, u); b == 0 || b > Epsilon || b < -Epsilon
  {
    if entries != [] {
      var init := entries[..|entries| - 1];
      assert NoDust(init) by {
        forall k | 0 <= k < |init| ensures init[k] == entries[k] { }
      }
      NoDustBalance(init, u);
    }
  }

  /** A balance of 0.01 is dropped by the partition, so balances that add up to
      zero can still leave a debtor owing: here c keeps 0.01 to pay. */
  lemma DustLeavesDebt()
    ensures var entries := [("a", 1), ("b", 2), ("c", -3)];
      && SumBalances(entries) == 0
      && Simplified(entries) == [Transfer("c", "b", 2)]
      && Leftover(SortedCreditors(entries), SortedDebtors(entries)) == ([], [Party("c", 1)])
  {
    DustPartition();
    assert SortDesc([Party("b", 2)]) == [Party("b", 2)];
    assert SortDesc([Party("c", 3)]) == [Party("c", 3)];
    assert Advance([Party("b", 2)], 2) == [];
    assert Advance([Party("c", 3)], 2) == [Party("c", 1)];
  }

  /** With two members at 0.01 and nobody else owed, a debtor of 0.02 gets no
      transfer at all and stays more than 0.01 in debt. */
  lemma DustStrandsDebtor()
    ensures var entries := [("a", 1), ("b", 1), ("c", -2)];
      && SumBalances(entries) == 0
      && Simplified(entries) == []
      && Leftover(SortedCreditors(entries), SortedDebtors(entries)) == ([], [Party("c", 2)])
  {
    var e1: seq<(UserId, Cents)> := [("a", 1)];
    var e2 := e1 + [("b", 1)];
    var entries := e2 + [("c", -2)];
    assert e1[..0] == [] && e2[..1] == e1 && entries[..2] == e2;
    assert entries == [("a", 1), ("b", 1), ("c", -2)];
    assert Creditors(e1) == [] && Creditors(e2) == [] && Creditors(entries) == [];
    assert Debtors(e1) == [] && Debtors(e2) == [] && Debtors(entries) == [Party("c", 2)];
    assert SortDesc([Party("c", 2)]) == [Party("c", 2)];
  }

  lemma DustPartition()
    ensures var entries := [("a", 1), ("b", 2), ("c", -3)];
      && SumBalances(entries) == 0
      && Creditors(entries) == [Party("b", 2)] && Debtors(entries) == [Party("c", 3)]
  {
    var e1: seq<(UserId, Cents)> := [("a", 1)];
    var e2 := e1 + [("b", 2)];
    var entries := e2 + [("c", -3)];
    assert e1[..0] == [] && e2[..1] == e1 && entries[..2] == e2;
    assert entries == [("a", 1), ("b", 2), ("c", -3)];
  }

  // ---------------------------------------------------------------------------
  // simplifyDebts after calculateBalances
  // ---------------------------------------------------------------------------

  /** `entries` lists the balance map, each member once. */
  predicate EntriesOf(entries: seq<(UserId, Cents)>, balances: map<UserId, Cents>) {
    && DistinctKeys(entries)
    && (forall k | 0 <= k < |entries| :: entries[k].0 in balances && entries[k].1 == balances[entries[k].0])
    && (forall u | u in balances :: exists k | 0 <= k < |entries| :: entries[k].0 == u)
  }

  function KeyList(entries: seq<(UserId, Cents)>): (ids: seq<UserId>)
    ensures |ids| == |entries| && forall k | 0 <= k < |entries| :: ids[k] == entries[k].0
  {
    if entries == [] then [] else KeyList(entries[..|entries| - 1]) + [entries[|entries| - 1].0]
  }

  lemma {:induction false} SumNetSnocIds(expenses: seq<Expense>, ids: seq<UserId>, u: UserId)
    ensures SumNet(expenses, ids + [u]) == SumNet(expenses, ids) + Net(expenses, u)
  {
    if ids == [] {
      assert ids + [u] == [u];
    } else {
      assert (ids + [u])[1..] == ids[1..] + [u];
      SumNetSnocIds(expenses, ids[1..], u);
    }
  }

  lemma {:induction false} SumBalancesIsSumNet(expenses: seq<Expense>, entries: seq<(UserId, Cents)>)
    requires forall k | 0 <= k < |entries| :: entries[k].1 == Net(expenses, entries[k].0)
    ensures SumBalances(entries) == SumNet(expenses, KeyList(entries))
  {
    if entries == [] {
    } else {
      var init := entries[..|entries| - 1];
      assert forall k | 0 <= k < |init| :: init[k] == entries[k];
      SumBalancesIsSumNet(expenses, init);
      SumNetSnocIds(expenses, KeyList(init), entries[|entries| - 1].0);
    }
  }

  /** Listed in any order, the balances `calculateBalances` computes add up to
      what the expenses leave unsplit: zero when every expense is fully split. */
  lemma BalancesAddUp(expenses: seq<Expense>, balances: map<UserId, Cents>, entries: seq<(UserId, Cents)>)
    requires balances.Keys == Involved(expenses)
    requires forall u | u in balances :: balances[u] == Net(expenses, u)
    requires EntriesOf(entries, balances)
    ensures SumBalances(entries) == Unsplit(expenses)
    ensures FullySplit(expenses) ==> SumBalances(entries) == 0
  {
    var ids := KeyList(entries);
    SumBalancesIsSumNet(expenses, entries);
    assert DistinctIds(ids);
    assert Involved(expenses) <= set u | u in ids by {
      forall u | u in Involved(expenses) ensures u in ids {
        var k :| 0 <= k < |entries| && entries[k].0 == u;
        assert ids[k] == u;
      }
    }
    SumNetIsUnsplit(expenses, ids);
  }

  /** The balance `entries` records for a member is its net balance over the
      expenses, members the expenses do not mention included. */
  lemma BalanceOfIsNet(expenses: seq<Expense>, balances: map<UserId, Cents>, entries: seq<(UserId, Cents)>, u: UserId)
    requires balances.Keys == Involved(expenses)
    requires forall v | v in balances :: balances[v] == Net(expenses, v)
    requires EntriesOf(entries, balances)
    ensures BalanceOf(entries, u) == Net(expenses, u)
  {
    if forall k | 0 <= k < |entries| :: entries[k].0 != u {
      KeyAbsent(entries, u);
      NetOutside(expenses, u);
    } else {
      LookupListed(entries, u);
    }
  }

  lemma {:induction false} LookupListed(entries: seq<(UserId, Cents)>, u: UserId)
    requires DistinctKeys(entries)
    requires exists k | 0 <= k < |entries| :: entries[k].0 == u
    ensures exists k | 0 <= k < |entries| :: entries[k].0 == u && entries[k].1 == BalanceOf(entries, u)
  {
    var n := |entries| - 1;
    if entries[n].0 != u {
      var init := entries[..n];
      var k :| 0 <= k < |entries| && entries[k].0 == u;
      assert k < n && init[k] == entries[k];
      assert DistinctKeys(init) by {
        forall a, b | 0 <= a < b < |init| ensures init[a].0 != init[b].0 {
          assert init[a] == entries[a] && init[b] == entries[b];
        }
      }
      LookupListed(init, u);
      var k' :| 0 <= k' < |init| && init[k'].0 == u && init[k'].1 == BalanceOf(init, u);
      assert entries[k'] == init[k'];
    }
  }

  /** The guarantee of the settlement screen: when every expense is split in
      full and no balance lies within 0.01 of zero without being zero, making
      the suggested payments leaves every member of the group at exactly zero. */
  lemma GroupSettlesUp(expenses: seq<Expense>, balances: map<UserId, Cents>, entries: seq<(UserId, Cents)>, u: UserId)
    requires balances.Keys == Involved(expenses)
    requires forall v | v in balances :: balances[v] == Net(expenses, v)
    requires EntriesOf(entries, balances)
    requires FullySplit(expenses) && NoDust(entries)
    ensures Net(expenses, u) - Received(Simplified(entries), u) + Paid(Simplified(entries), u) == 0
  {
    BalancesAddUp(expenses, balances, entries);
    SimplifiedDrains(entries, u);
    BalanceOfIsNet(expenses, balances, entries, u);
  }
}
