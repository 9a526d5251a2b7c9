/**
 Withdraw at statement granularity. The summing SELECT ... FOR UPDATE locks the rows it
 returns; each currency is then paid by a separate predicate UPDATE. Between the SELECT and an
 UPDATE other transactions may commit: new earnings, reversals of rows that are not locked, and
 payouts to other users. A second withdrawal of the same user waits for the row locks, which
 `ConcurrentWithdrawals.OneWithdrawalPerUser` proves from the locks themselves.
 */
module WithdrawInterleaving {
  import opened AffiliateLedger

  datatype Interference =
    | NewEarning(e: Earning)
    | ReverseRow(id: nat)
    | PayOther(other: UserId, currency: string)

  /** One foreign commit, as far as the locks of `user`'s withdrawal and the schema allow it. */
  function Disturb(es: seq<Earning>, user: UserId, locked: set<nat>, f: Interference): seq<Earning> {
    match f
    case NewEarning(e) => if e.status == Approved then InsertOnce(es, e) else es
    case ReverseRow(id) =>
      if id < |es| && id !in locked && es[id].status == Approved then es[id := es[id].(status := Reversed)] else es
    case PayOther(other, currency) => if other == user then es else MarkPaid(es, other, currency)
  }

  function DisturbAll(es: seq<Earning>, user: UserId, locked: set<nat>, fs: seq<Interference>): seq<Earning>
    decreases |fs|
  {
    if fs == [] then es else DisturbAll(Disturb(es, user, locked, fs[0]), user, locked, fs[1..])
  }

  /** The rows returned, and locked, by the summing query. */
  function Collected(es: seq<Earning>, user: UserId): set<nat> {
    set i | 0 <= i < |es| && Payable(es[i], user)
  }

  /** The alternative UPDATE that names the collected ids. */
  function MarkCollected(es: seq<Earning>, ids: set<nat>, currency: string): seq<Earning> {
    seq(|es|, i requires 0 <= i < |es| =>
      if i in ids && es[i].status == Approved && es[i].currency == currency then es[i].(status := Paid) else es[i])
  }

  /** The table after paying `order`, with `gaps[k]` committing before the k-th UPDATE. */
  function PayInterleaved(es: seq<Earning>, user: UserId, ids: set<nat>, order: seq<string>,
                          gaps: seq<seq<Interference>>, byIds: bool): seq<Earning>
    requires |gaps| == |order|
    decreases |order|
  {
    if order == [] then es
    else
      var seen := DisturbAll(es, user, ids, gaps[0]);
      var marked := if byIds then MarkCollected(seen, ids, order[0]) else MarkPaid(seen, user, order[0]);
      PayInterleaved(marked, user, ids, order[1..], gaps[1..], byIds)
  }

  /** The table the UPDATE for `order[k]` finds. */
  function TableAt(es: seq<Earning>, user: UserId, ids: set<nat>, order: seq<string>,
                   gaps: seq<seq<Interference>>, byIds: bool, k: nat): seq<Earning>
    requires |gaps| == |order| && k < |order|
    decreases |order|
  {
    var seen := DisturbAll(es, user, ids, gaps[0]);
    if k == 0 then seen
    else
      var marked := if byIds then MarkCollected(seen, ids, order[0]) else MarkPaid(seen, user, order[0]);
      TableAt(marked, user, ids, order[1..], gaps[1..], byIds, k - 1)
  }

  function PaidTo(user: UserId, currency: string): Earning -> bool {
    (e: Earning) => e.status == Paid && Beneficiary(e) == user && e.currency == currency
  }

  /** What the user received in one currency according to the earnings table. */
  function Received(es: seq<Earning>, user: UserId, currency: string): real {
    Total(es, PaidTo(user, currency))
  }

  /** `es` is a later version of `es0`: the rows collected by the query are still approved
      unless their currency was paid, and no older row has become payable. */
  ghost predicate Tracks(es0: seq<Earning>, es: seq<Earning>, user: UserId, paid: set<string>) {
    && |es0| <= |es|
    && (forall i :: 0 <= i < |es0| ==>
          && es[i] == es0[i].(status := es[i].status)
          && (Payable(es0[i], user) ==> es[i].status == if es0[i].currency in paid then Paid else Approved)
          && (!Payable(es0[i], user) ==> !Payable(es[i], user)))
  }

  // ----- Sums -----

  lemma {:induction false} TotalSplits(a: seq<Earning>, b: seq<Earning>, keep: Earning -> bool)
    ensures Total(a + b, keep) == Total(a, keep) + Total(b, keep)
    decreases |b|
  {
    if b == [] {
      assert a + b == a;
    } else {
      assert (a + b)[..|a + b| - 1] == a + b[..|b| - 1];
      TotalSplits(a, b[..|b| - 1], keep);
    }
  }

  lemma {:induction false} SameSelection(a: seq<Earning>, b: seq<Earning>, keep: Earning -> bool)
    requires |a| == |b|
    requires forall i :: 0 <= i < |a| ==> keep(a[i]) == keep(b[i]) && a[i].amount == b[i].amount
    ensures Total(a, keep) == Total(b, keep)
  {
    if a != [] {
      SameSelection(a[..|a| - 1], b[..|b| - 1], keep);
    }
  }

  lemma {:induction false} MarkMovesToReceived(es: seq<Earning>, user: UserId, currency: string, c: string)
    ensures Received(MarkPaid(es, user, currency), user, c) ==
            Received(es, user, c) + if c == currency then Owed(es, user, currency) else 0.0
  {
    if es != [] {
      MarkDropsLast(es, user, currency);
      MarkMovesToReceived(es[..|es| - 1], user, currency, c);
    }
  }

  // ----- Interference leaves the collected rows alone -----

  lemma {:induction false} DisturbKeepsRows(es0: seq<Earning>, es: seq<Earning>, user: UserId, paid: set<string>,
                                            f: Interference)
    requires Tracks(es0, es, user, paid)
    ensures Tracks(es0, Disturb(es, user, Collected(es0, user), f), user, paid)
  {
    var fs := Disturb(es, user, Collected(es0, user), f);
    forall i | 0 <= i < |es0|
      ensures && fs[i] == es0[i].(status := fs[i].status)
              && (Payable(es0[i], user) ==> fs[i].status == es[i].status)
              && (!Payable(es0[i], user) ==> !Payable(fs[i], user))
    {
      assert Payable(es0[i], user) ==> i in Collected(es0, user);
    }
  }

  lemma {:induction false} DisturbKeepsReceived(es: seq<Earning>, user: UserId, locked: set<nat>, f: Interference,
                                                c: string)
    ensures Received(Disturb(es, user, locked, f), user, c) == Received(es, user, c)
  {
    var fs := Disturb(es, user, locked, f);
    if |fs| > |es| {
      assert fs[..|es|] == es;
    } else {
      SameSelection(fs, es, PaidTo(user, c));
    }
  }

  lemma {:induction false} DisturbKeepsTracks(es0: seq<Earning>, es: seq<Earning>, user: UserId, paid: set<string>,
                                              f: Interference)
    requires Tracks(es0, es, user, paid)
    ensures var fs := Disturb(es, user, Collected(es0, user), f);
            Tracks(es0, fs, user, paid) && forall c :: Received(fs, user, c) == Received(es, user, c)
  {
    DisturbKeepsRows(es0, es, user, paid, f);
    forall c ensures Received(Disturb(es, user, Collected(es0, user), f), user, c) == Received(es, user, c) {
      DisturbKeepsReceived(es, user, Collected(es0, user), f, c);
    }
  }

  lemma {:induction false} DisturbAllKeepsTracks(es0: seq<Earning>, es: seq<Earning>, user: UserId,
                                                 paid: set<string>, fs: seq<Interference>)
    requires Tracks(es0, es, user, paid)
    ensures var gs := DisturbAll(es, user, Collected(es0, user), fs);
            Tracks(es0, gs, user, paid) && forall c :: Received(gs, user, c) == Received(es, user, c)
    decreases |fs|
  {
    if fs != [] {
      DisturbKeepsTracks(es0, es, user, paid, fs[0]);
      DisturbAllKeepsTracks(es0, Disturb(es, user, Collected(es0, user), fs[0]), user, paid, fs[1..]);
    }
  }

  /** What the UPDATE finds payable is what the query summed plus what committed since. */
  lemma {:induction false} OwedSplitsAtQuery(es0: seq<Earning>, es: seq<Earning>, user: UserId, paid: set<string>,
                                             c: string)
    requires Tracks(es0, es, user, paid) && c !in paid
    ensures Owed(es, user, c) == Owed(es0, user, c) + Owed(es[|es0|..], user, c)
  {
    assert es == es[..|es0|] + es[|es0|..];
    TotalSplits(es[..|es0|], es[|es0|..], PayableIn(user, c));
    SameSelection(es[..|es0|], es0, PayableIn(user, c));
  }

  // ----- The predicate UPDATE of the source -----

  lemma {:induction false} MarkKeepsTracks(es0: seq<Earning>, es: seq<Earning>, user: UserId, paid: set<string>,
                                           currency: string)
    requires Tracks(es0, es, user, paid)
    ensures Tracks(es0, MarkPaid(es, user, currency), user, paid + {currency})
  {
  }

  lemma {:induction false} GapFrom(es0: seq<Earning>, es: seq<Earning>, user: UserId, paid: set<string>,
                                   order: seq<string>, gaps: seq<seq<Interference>>, c: string)
    requires |gaps| == |order| && Tracks(es0, es, user, paid)
    requires CurrencyOrder.Distinct(order) && forall k :: 0 <= k < |order| ==> order[k] !in paid
    ensures var ids := Collected(es0, user);
            var final := PayInterleaved(es, user, ids, order, gaps, false);
            && (c !in order ==> Received(final, user, c) == Received(es, user, c))
            && (forall k :: 0 <= k < |order| && order[k] == c ==>
                  var seen := TableAt(es, user, ids, order, gaps, false, k);
                  && |es0| <= |seen|
                  && Received(final, user, c) - Received(es, user, c) ==
                     Owed(es0, user, c) + Owed(seen[|es0|..], user, c))
    decreases |order|
  {
    if order != [] {
      var ids := Collected(es0, user);
      var seen := DisturbAll(es, user, ids, gaps[0]);
      DisturbAllKeepsTracks(es0, es, user, paid, gaps[0]);
      var marked := MarkPaid(seen, user, order[0]);
      MarkKeepsTracks(es0, seen, user, paid, order[0]);
      MarkMovesToReceived(seen, user, order[0], c);
      OwedSplitsAtQuery(es0, seen, user, paid, order[0]);
      GapFrom(es0, marked, user, paid + {order[0]}, order[1..], gaps[1..], c);
      assert forall k :: 1 <= k < |order| ==> order[k] == order[1..][k - 1];
    }
  }

  /** The gap between what a withdrawal marks as paid to the user and what it credits: in a
      currency being paid it is exactly the total of the user's earnings that committed between
      the summing query and that currency's UPDATE and were still approved; in any other
      currency nothing is marked. */
  lemma {:induction false} WithdrawGap(es0: seq<Earning>, user: UserId, order: seq<string>,
                                       gaps: seq<seq<Interference>>, k: nat)
    requires PayoutOrder(es0, user, order) && |gaps| == |order| && k < |order|
    ensures var ids := Collected(es0, user);
            var final := PayInterleaved(es0, user, ids, order, gaps, false);
            var seen := TableAt(es0, user, ids, order, gaps, false, k);
            var credited := Owed(es0, user, order[k]);
            && |es0| <= |seen|
            && Received(final, user, order[k]) - Received(es0, user, order[k]) - credited ==
               Owed(seen[|es0|..], user, order[k])
    ensures forall c :: c !in order ==>
              Received(PayInterleaved(es0, user, Collected(es0, user), order, gaps, false), user, c) ==
              Received(es0, user, c)
  {
    forall c ensures
      c !in order ==>
        Received(PayInterleaved(es0, user, Collected(es0, user), order, gaps, false), user, c) ==
        Received(es0, user, c)
    {
      GapFrom(es0, es0, user, {}, order, gaps, c);
    }
    GapFrom(es0, es0, user, {}, order, gaps, order[k]);
  }

  /** With positive amounts the gap is zero exactly when no such earning committed in time. */
  lemma {:induction false} GapIsZeroExactly(es0: seq<Earning>, user: UserId, order: seq<string>,
                                            gaps: seq<seq<Interference>>, k: nat)
    requires PayoutOrder(es0, user, order) && |gaps| == |order| && k < |order|
    requires var seen := TableAt(es0, user, Collected(es0, user), order, gaps, false, k);
             forall i :: 0 <= i < |seen| ==> seen[i].amount > 0.0
    ensures var ids := Collected(es0, user);
            var final := PayInterleaved(es0, user, ids, order, gaps, false);
            var seen := TableAt(es0, user, ids, order, gaps, false, k);
            Received(final, user, order[k]) - Received(es0, user, order[k]) == Owed(es0, user, order[k]) <==>
            forall i :: |es0| <= i < |seen| && Payable(seen[i], user) ==> seen[i].currency != order[k]
  {
    WithdrawGap(es0, user, order, gaps, k);
    var seen := TableAt(es0, user, Collected(es0, user), order, gaps, false, k);
    var late := seen[|es0|..];
    PositiveMeansOwed(late, user, order[k]);
    if forall i :: |es0| <= i < |seen| && Payable(seen[i], user) ==> seen[i].currency != order[k] {
      NothingOwed(late, user, order[k]);
    } else {
      var i :| |es0| <= i < |seen| && Payable(seen[i], user) && seen[i].currency == order[k];
      assert late[i - |es0|] == seen[i];
      assert HasPayableIn(late, user, order[k]);
    }
  }

  /** Losses occur: whatever is being paid, one earning of a fresh invoice that commits right
      after the query is marked as paid and its whole amount is never credited. */
  lemma {:induction false} LateEarningIsLost(es0: seq<Earning>, user: UserId, order: seq<string>,
                                             gaps: seq<seq<Interference>>, e: Earning)
    requires PayoutOrder(es0, user, order) && order != [] && |gaps| == |order| && gaps[0] == [NewEarning(e)]
    requires Payable(e, user) && e.currency == order[0] && e.amount > 0.0 && !HasEarning(es0, e.invoice, e.kind)
    ensures var final := PayInterleaved(es0, user, Collected(es0, user), order, gaps, false);
            Received(final, user, order[0]) - Received(es0, user, order[0]) == Owed(es0, user, order[0]) + e.amount
  {
    var ids := Collected(es0, user);
    var seen := TableAt(es0, user, ids, order, gaps, false, 0);
    WithdrawGap(es0, user, order, gaps, 0);
    assert DisturbAll(es0, user, ids, gaps[0]) == es0 + [e];
    assert seen == es0 + [e] && seen[|es0|..] == [e];
    assert Owed([e][..0], user, order[0]) == 0.0;
  }

  // ----- The variant that updates the collected ids -----

  lemma {:induction false} MarkCollectedKeepsTracks(es0: seq<Earning>, es: seq<Earning>, user: UserId,
                                                    paid: set<string>, currency: string)
    requires Tracks(es0, es, user, paid)
    ensures Tracks(es0, MarkCollected(es, Collected(es0, user), currency), user, paid + {currency})
  {
  }

  lemma {:induction false} CollectedPrefix(es0: seq<Earning>, es: seq<Earning>, user: UserId, paid: set<string>,
                                           currency: string)
    requires Tracks(es0, es, user, paid)
    ensures MarkCollected(es, Collected(es0, user), currency)[..|es0|] == MarkPaid(es[..|es0|], user, currency)
  {
    forall i | 0 <= i < |es0|
      ensures MarkCollected(es, Collected(es0, user), currency)[i] == MarkPaid(es[..|es0|], user, currency)[i]
    {
      assert i in Collected(es0, user) <==> Payable(es0[i], user);
    }
  }

  lemma {:induction false} MarkCollectedPaysCollected(es0: seq<Earning>, es: seq<Earning>, user: UserId,
                                                      paid: set<string>, currency: string, c: string)
    requires Tracks(es0, es, user, paid) && currency !in paid
    ensures Received(MarkCollected(es, Collected(es0, user), currency), user, c) ==
            Received(es, user, c) + if c == currency then Owed(es0, user, currency) else 0.0
  {
    var n := |es0|;
    var marked := MarkCollected(es, Collected(es0, user), currency);
    assert es == es[..n] + es[n..] && marked == marked[..n] + marked[n..] && marked[n..] == es[n..];
    TotalSplits(es[..n], es[n..], PaidTo(user, c));
    TotalSplits(marked[..n], marked[n..], PaidTo(user, c));
    CollectedPrefix(es0, es, user, paid, currency);
    MarkMovesToReceived(es[..n], user, currency, c);
    SameSelection(es[..n], es0, PayableIn(user, currency));
  }

  /** Updating only the collected ids pays exactly what was credited, whatever commits in
      between. */
  lemma {:induction false} NoGapByIdsFrom(es0: seq<Earning>, es: seq<Earning>, user: UserId, paid: set<string>,
                                          order: seq<string>, gaps: seq<seq<Interference>>, c: string)
    requires |gaps| == |order| && Tracks(es0, es, user, paid)
    requires CurrencyOrder.Distinct(order) && forall k :: 0 <= k < |order| ==> order[k] !in paid
    ensures Received(PayInterleaved(es, user, Collected(es0, user), order, gaps, true), user, c) ==
            Received(es, user, c) + if c in order then Owed(es0, user, c) else 0.0
    decreases |order|
  {
    if order != [] {
      var ids := Collected(es0, user);
      var seen := DisturbAll(es, user, ids, gaps[0]);
      DisturbAllKeepsTracks(es0, es, user, paid, gaps[0]);
      MarkCollectedPaysCollected(es0, seen, user, paid, order[0], c);
      MarkCollectedKeepsTracks(es0, seen, user, paid, order[0]);
      NoGapByIdsFrom(es0, MarkCollected(seen, ids, order[0]), user, paid + {order[0]}, order[1..], gaps[1..], c);
      assert c in order <==> c == order[0] || c in order[1..];
    }
  }

  lemma {:induction false} NoGapByIds(es0: seq<Earning>, user: UserId, order: seq<string>,
                                      gaps: seq<seq<Interference>>, c: string)
    requires PayoutOrder(es0, user, order) && |gaps| == |order| && c in order
    ensures Received(PayInterleaved(es0, user, Collected(es0, user), order, gaps, true), user, c) -
            Received(es0, user, c) == Owed(es0, user, c)
  {
    NoGapByIdsFrom(es0, es0, user, {}, order, gaps, c);
  }

  /** What other transactions may commit meanwhile, read off the rows: an approved earning of an
      invoice and kind not seen yet, the reversal of an approved row that is not locked, and the
      payout of the rows due to another user. */
  lemma {:induction false} DisturbExactly(es: seq<Earning>, user: UserId, locked: set<nat>, e: Earning, id: nat,
                                          other: UserId, c: string)
    ensures Disturb(es, user, locked, NewEarning(e)) ==
            if e.status == Approved && forall i :: 0 <= i < |es| ==> es[i].invoice != e.invoice || es[i].kind != e.kind
            then es + [e] else es
    ensures var fs := Disturb(es, user, locked, ReverseRow(id));
            |fs| == |es| && forall i :: 0 <= i < |es| ==>
              fs[i] == if i == id && i !in locked && es[i].status == Approved then es[i].(status := Reversed) else es[i]
    ensures var fs := Disturb(es, user, locked, PayOther(other, c));
            |fs| == |es| && forall i :: 0 <= i < |es| ==>
              fs[i] == if other != user && DueTo(es[i], other) && es[i].currency == c
                       then es[i].(status := Paid) else es[i]
  {
    PayableIsDue(es, other);
  }

  /** A late earning that is reversed before the UPDATE is not lost. */
  lemma {:induction false} ReversedInTimeIsNotLost(es0: seq<Earning>, user: UserId, order: seq<string>,
                                                   gaps: seq<seq<Interference>>, e: Earning)
    requires PayoutOrder(es0, user, order) && order != [] && |gaps| == |order|
    requires gaps[0] == [NewEarning(e), ReverseRow(|es0|)]
    requires Payable(e, user) && e.currency == order[0] && !HasEarning(es0, e.invoice, e.kind)
    ensures var final := PayInterleaved(es0, user, Collected(es0, user), order, gaps, false);
            Received(final, user, order[0]) - Received(es0, user, order[0]) == Owed(es0, user, order[0])
  {
    var ids := Collected(es0, user);
    var late := e.(status := Reversed);
    var seen := TableAt(es0, user, ids, order, gaps, false, 0);
    WithdrawGap(es0, user, order, gaps, 0);
    assert Disturb(es0, user, ids, gaps[0][0]) == es0 + [e];
    assert Disturb(es0 + [e], user, ids, gaps[0][1]) == es0 + [late];
    assert gaps[0][1..] == [ReverseRow(|es0|)] && gaps[0][1..][1..] == [];
    assert DisturbAll(es0 + [e], user, ids, gaps[0][1..]) == es0 + [late];
    assert seen == es0 + [late] && seen[|es0|..] == [late];
    assert Owed([late][..0], user, order[0]) == 0.0;
  }
}
