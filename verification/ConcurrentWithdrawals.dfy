/**
 Any number of withdrawals by any users, interleaved by statement with accruals, reversals and
 each other. Row locks are state: the summing SELECT ... FOR UPDATE and each UPDATE lock the
 rows they touch until their transaction ends, a statement that needs a locked row waits, and
 the effects of a transaction become visible when it commits. `byIds` selects the variant whose
 UPDATE names the collected ids.
 */
module ConcurrentWithdrawals {
  import opened AffiliateLedger

  type TxnId = nat

  datatype Credit = Credit(currency: string, amount: real)

  /** A withdrawal past its query. `snap` is the number of rows its query could see, `snaps` the
      number its UPDATE of each currency could see; `todo` holds the currencies not paid yet;
      `marked` and `credits` are its uncommitted effects. */
  datatype Txn = Txn(
    user: UserId,
    snap: nat,
    collected: set<nat>,
    totals: map<string, real>,
    todo: set<string>,
    snaps: map<string, nat>,
    marked: set<nat>,
    credits: seq<Credit>)

  datatype Payout = Payout(
    user: UserId,
    snap: nat,
    snaps: map<string, nat>,
    collected: set<nat>,
    marked: set<nat>,
    credits: seq<Credit>)

  /** `log` holds the committed withdrawals. */
  datatype State = State(rows: seq<Earning>, txns: map<TxnId, Txn>, log: seq<Payout>)

  /** `snap` of a statement is its snapshot: it may be older than the moment the last lock is
      granted. */
  datatype Event =
    | Earn(e: Earning)
    | Reverse(id: nat)
    | Query(t: TxnId, user: UserId, snap: nat)
    | Pay(t: TxnId, currency: string, snap: nat)
    | Commit(t: TxnId)
    | Abort(t: TxnId)

  const INITIAL := State.State([], map[], [])

  function Held(x: Txn): set<nat> {
    x.collected + x.marked
  }

  /** No other transaction holds a lock on these rows. */
  predicate Free(s: State, me: TxnId, ids: set<nat>) {
    forall t :: t in s.txns && t != me ==> Held(s.txns[t]) !! ids
  }

  /** The total of the rows of one currency among `ids`. */
  function SumIds(es: seq<Earning>, ids: set<nat>, c: string): real {
    if es == [] then 0.0
    else
      var n := |es| - 1;
      SumIds(es[..n], ids, c) + if n in ids && es[n].currency == c then es[n].amount else 0.0
  }

  function CreditSum(credits: seq<Credit>, c: string): real {
    if credits == [] then 0.0
    else
      var last := credits[|credits| - 1];
      CreditSum(credits[..|credits| - 1], c) + if last.currency == c then last.amount else 0.0
  }

  function PayableBelow(es: seq<Earning>, user: UserId, n: nat): set<nat> {
    set i | 0 <= i < |es| && i < n && Payable(es[i], user)
  }

  function InCurrency(es: seq<Earning>, ids: set<nat>, c: string): set<nat> {
    set i | i in ids && i < |es| && es[i].currency == c
  }

  function CurrenciesOf(es: seq<Earning>, ids: set<nat>): set<string> {
    set i | i in ids && i < |es| :: es[i].currency
  }

  function EarnRow(s: State, e: Earning): State {
    if e.status == Approved && e.amount > 0.0 then s.(rows := InsertOnce(s.rows, e)) else s
  }

  function ReverseRow(s: State, id: nat): State {
    if id < |s.rows| && s.rows[id].status == Approved && (forall t :: t in s.txns ==> id !in Held(s.txns[t]))
    then s.(rows := s.rows[id := s.rows[id].(status := Reversed)])
    else s
  }

  function QueryRows(s: State, t: TxnId, user: UserId, snap: nat): State {
    var ids := PayableBelow(s.rows, user, snap);
    if t in s.txns || snap > |s.rows| || ids == {} || !Free(s, t, ids) then s
    else
      var currencies := CurrenciesOf(s.rows, ids);
      var totals := map c | c in currencies :: SumIds(s.rows, ids, c);
      s.(txns := s.txns[t := Txn(user, snap, ids, totals, currencies, map[], {}, [])])
  }

  /** The rows an UPDATE hits. */
  function Hit(byIds: bool, rows: seq<Earning>, x: Txn, c: string, snap: nat): set<nat> {
    InCurrency(rows, if byIds then x.collected else PayableBelow(rows, x.user, snap), c)
  }

  function Paying(x: Txn, c: string, snap: nat, hit: set<nat>): Txn
    requires c in x.totals
  {
    x.(todo := x.todo - {c}, snaps := x.snaps[c := snap], marked := x.marked + hit,
       credits := x.credits + [Credit(c, x.totals[c])])
  }

  /** Credit the collected total and mark rows; a refused credit or an UPDATE without effect
      rolls the transaction back. */
  function PayCurrencyOf(byIds: bool, s: State, t: TxnId, c: string, snap: nat): State
    requires t in s.txns
  {
    var x := s.txns[t];
    var hit := Hit(byIds, s.rows, x, c, snap);
    if c !in x.todo || c !in x.totals || !(x.snap <= snap <= |s.rows|) || !Free(s, t, hit) then s
    else if x.totals[c] <= 0.0 || hit == {} then s.(txns := s.txns - {t})
    else s.(txns := s.txns[t := Paying(x, c, snap, hit)])
  }

  function MarkRows(es: seq<Earning>, ids: set<nat>): seq<Earning> {
    seq(|es|, i requires 0 <= i < |es| => if i in ids then es[i].(status := Paid) else es[i])
  }

  function PayoutOf(x: Txn): Payout {
    Payout(x.user, x.snap, x.snaps, x.collected, x.marked, x.credits)
  }

  function CommitTxn(s: State, t: TxnId): State
    requires t in s.txns
  {
    var x := s.txns[t];
    if x.todo != {} then s
    else State.State(MarkRows(s.rows, x.marked), s.txns - {t}, s.log + [PayoutOf(x)])
  }

  function Step(byIds: bool, s: State, ev: Event): State {
    match ev
    case Earn(e) => EarnRow(s, e)
    case Reverse(id) => ReverseRow(s, id)
    case Query(t, user, snap) => QueryRows(s, t, user, snap)
    case Pay(t, c, snap) => if t in s.txns then PayCurrencyOf(byIds, s, t, c, snap) else s
    case Commit(t) => if t in s.txns then CommitTxn(s, t) else s
    case Abort(t) => s.(txns := s.txns - {t})
  }

  function Run(byIds: bool, s: State, events: seq<Event>): State
    decreases |events|
  {
    if events == [] then s else Run(byIds, Step(byIds, s, events[0]), events[1..])
  }

  // ----- Sums over ids -----

  lemma {:induction false} SumIdsEvolve(es: seq<Earning>, fs: seq<Earning>, ids: set<nat>, c: string)
    requires Evolves(es, fs) && forall i :: i in ids ==> i < |es|
    ensures SumIds(fs, ids, c) == SumIds(es, ids, c)
    decreases |fs|
  {
    if |fs| > |es| {
      SumIdsEvolve(es, fs[..|fs| - 1], ids, c);
    } else if es != [] {
      SumIdsAgree(es, fs, ids, ids, c);
    }
  }

  /** Sums agree when the selected rows of the currency do. */
  lemma {:induction false} SumIdsAgree(es: seq<Earning>, fs: seq<Earning>, a: set<nat>, b: set<nat>, c: string)
    requires |es| == |fs|
    requires forall i :: 0 <= i < |es| ==> fs[i].currency == es[i].currency && fs[i].amount == es[i].amount
    requires forall i: nat :: i < |es| && es[i].currency == c ==> (i in a <==> i in b)
    ensures SumIds(es, a, c) == SumIds(fs, b, c)
  {
    if es != [] {
      SumIdsAgree(es[..|es| - 1], fs[..|es| - 1], a, b, c);
    }
  }

  lemma {:induction false} SumIdsUnion(es: seq<Earning>, a: set<nat>, b: set<nat>, c: string)
    requires a !! b
    ensures SumIds(es, a + b, c) == SumIds(es, a, c) + SumIds(es, b, c)
  {
    if es != [] {
      SumIdsUnion(es[..|es| - 1], a, b, c);
    }
  }

  lemma {:induction false} SumIdsOfNone(es: seq<Earning>, c: string)
    ensures SumIds(es, {}, c) == 0.0
  {
    if es != [] {
      SumIdsOfNone(es[..|es| - 1], c);
    }
  }

  lemma {:induction false} SumIdsWithout(es: seq<Earning>, ids: set<nat>, c: string)
    requires forall i :: i in ids && i < |es| ==> es[i].currency != c
    ensures SumIds(es, ids, c) == 0.0
  {
    SumIdsOfNone(es, c);
    SumIdsAgree(es, es, ids, {}, c);
  }

  /** With positive amounts a sum is never negative, and zero exactly when it selects nothing. */
  lemma {:induction false} SumIdsIsZeroExactly(es: seq<Earning>, ids: set<nat>, c: string)
    requires forall i :: 0 <= i < |es| ==> es[i].amount > 0.0
    ensures SumIds(es, ids, c) >= 0.0
    ensures SumIds(es, ids, c) == 0.0 <==> forall i: nat :: i < |es| && i in ids ==> es[i].currency != c
  {
    if es != [] {
      var n := |es| - 1;
      SumIdsIsZeroExactly(es[..n], ids, c);
      if i: nat :| i < n && i in ids && es[i].currency == c {
        assert es[..n][i] == es[i];
      }
    }
  }

  function PaidRows(es: seq<Earning>): set<nat> {
    set i | 0 <= i < |es| && es[i].status == Paid
  }

  lemma {:induction false} PaidTotalIsSum(es: seq<Earning>, ids: set<nat>, c: string)
    requires forall i: nat :: i < |es| ==> (i in ids <==> es[i].status == Paid)
    ensures Total(es, PaidIn(c)) == SumIds(es, ids, c)
  {
    if es != [] {
      PaidTotalIsSum(es[..|es| - 1], ids, c);
    }
  }

  // ----- The inductive invariant -----

  /** An open withdrawal holds all rows of its user that its query saw, still approved; its
      uncommitted credits are the sums of the collected rows of the currencies it has paid. */
  ghost predicate TxnOk(byIds: bool, rows: seq<Earning>, x: Txn) {
    && x.snap <= |rows| && x.collected != {}
    && (forall i :: i in Held(x) ==> i < |rows| && Payable(rows[i], x.user))
    && (forall i :: i in x.collected ==> i < x.snap)
    && (forall i: nat :: i < x.snap && Payable(rows[i], x.user) ==> i in x.collected)
    && (byIds ==> x.marked <= x.collected)
    && PaidPart(rows, x)
    && SumsOk(rows, x)
    && SnapsOk(byIds, rows, PayoutOf(x))
  }

  /** The rows marked so far are those of the currencies paid so far. */
  ghost predicate PaidPart(rows: seq<Earning>, x: Txn) {
    && x.todo <= x.totals.Keys && x.snaps.Keys == x.totals.Keys - x.todo
    && (forall c :: c in x.totals ==> exists i :: i in x.collected && i < |rows| && rows[i].currency == c)
    && (forall i :: i in x.marked && i < |rows| ==> rows[i].currency !in x.todo)
    && (forall i :: i in x.collected && i < |rows| ==>
          rows[i].currency in x.totals && (rows[i].currency !in x.todo ==> i in x.marked))
  }

  ghost predicate SumsOk(rows: seq<Earning>, x: Txn) {
    && (forall c :: c in x.totals ==> x.totals[c] == SumIds(rows, x.collected, c))
    && (forall c :: CreditSum(x.credits, c) == if c in x.totals && c !in x.todo then x.totals[c] else 0.0)
  }

  /** Row `i` is the user's, in a currency paid, and below that currency's UPDATE snapshot. */
  predicate InReach(rows: seq<Earning>, p: Payout, i: nat) {
    && i < |rows| && Beneficiary(rows[i]) == p.user
    && rows[i].currency in p.snaps && i < p.snaps[rows[i].currency]
  }

  /** Marked rows are in reach of their UPDATE, and the predicate UPDATE leaves no other row in
      its reach approved; above the query's snapshot such a row has been reversed. */
  ghost predicate SnapsOk(byIds: bool, rows: seq<Earning>, p: Payout) {
    && (forall c :: c in p.snaps ==> p.snap <= p.snaps[c] <= |rows|)
    && (forall i :: i in p.marked ==> InReach(rows, p, i))
    && (!byIds ==> forall i: nat :: InReach(rows, p, i) && i !in p.marked ==>
          rows[i].status != Approved && (i >= p.snap ==> rows[i].status == Reversed))
  }

  ghost predicate PayoutOk(byIds: bool, rows: seq<Earning>, p: Payout) {
    && p.collected <= p.marked
    && (byIds ==> p.marked == p.collected)
    && SnapsOk(byIds, rows, p)
    && (forall i :: i in p.marked ==> (i in p.collected <==> i < p.snap))
    && (forall c :: CreditSum(p.credits, c) == SumIds(rows, p.collected, c))
  }

  function AllMarked(log: seq<Payout>): set<nat> {
    if log == [] then {} else AllMarked(log[..|log| - 1]) + log[|log| - 1].marked
  }

  /** No row is marked by two committed withdrawals. */
  predicate MarkedOnce(log: seq<Payout>) {
    forall k, l :: 0 <= k < l < |log| ==> log[k].marked !! log[l].marked
  }

  predicate LocksDisjoint(txns: map<TxnId, Txn>) {
    forall t, u | t in txns && u in txns && t != u :: Held(txns[t]) !! Held(txns[u])
  }

  ghost predicate TxnsOk(byIds: bool, rows: seq<Earning>, txns: map<TxnId, Txn>) {
    LocksDisjoint(txns) && forall t :: t in txns ==> TxnOk(byIds, rows, txns[t])
  }

  ghost predicate LogOk(byIds: bool, rows: seq<Earning>, log: seq<Payout>) {
    && (forall k :: 0 <= k < |log| ==> PayoutOk(byIds, rows, log[k]))
    && MarkedOnce(log)
    && AllMarked(log) == PaidRows(rows)
  }

  predicate AmountsPositive(rows: seq<Earning>) {
    forall i :: 0 <= i < |rows| ==> rows[i].amount > 0.0
  }

  ghost predicate Inv(byIds: bool, s: State) {
    AmountsPositive(s.rows) && TxnsOk(byIds, s.rows, s.txns) && LogOk(byIds, s.rows, s.log)
  }

  // ----- Every step keeps it -----

  /** What a pass has swept stays swept: rows never become approved again. */
  lemma {:induction false} SnapsSurvive(byIds: bool, es: seq<Earning>, fs: seq<Earning>, p: Payout)
    requires SnapsOk(byIds, es, p) && Evolves(es, fs)
    ensures SnapsOk(byIds, fs, p)
  {
    forall i: nat ensures InReach(fs, p, i) <==> InReach(es, p, i) {}
  }

  /** A transaction's obligations survive any change that leaves its locked rows alone. */
  lemma {:induction false} TxnSurvives(byIds: bool, es: seq<Earning>, fs: seq<Earning>, x: Txn)
    requires TxnOk(byIds, es, x) && Evolves(es, fs) && forall i :: i in Held(x) ==> fs[i] == es[i]
    ensures TxnOk(byIds, fs, x)
  {
    SnapsSurvive(byIds, es, fs, PayoutOf(x));
    forall c | c in x.totals ensures x.totals[c] == SumIds(fs, x.collected, c) {
      SumIdsEvolve(es, fs, x.collected, c);
    }
  }

  lemma {:induction false} PayoutSurvives(byIds: bool, es: seq<Earning>, fs: seq<Earning>, p: Payout)
    requires PayoutOk(byIds, es, p) && Evolves(es, fs)
    ensures PayoutOk(byIds, fs, p)
  {
    SnapsSurvive(byIds, es, fs, p);
    forall c ensures CreditSum(p.credits, c) == SumIds(fs, p.collected, c) {
      SumIdsEvolve(es, fs, p.collected, c);
    }
  }

  /** A change of rows that touches no lock. */
  ghost predicate OutsideLocks(txns: map<TxnId, Txn>, es: seq<Earning>, fs: seq<Earning>) {
    forall t, i :: t in txns && i in Held(txns[t]) ==> i < |es| && i < |fs| && fs[i] == es[i]
  }

  ghost predicate LocksInRange(txns: map<TxnId, Txn>, n: nat) {
    forall t, i :: t in txns && i in Held(txns[t]) ==> i < n
  }

  /** A change of rows alone, outside all locks and not to 'paid', keeps the invariant. */
  lemma {:induction false} RowsChangeKeepsInv(byIds: bool, s: State, fs: seq<Earning>)
    requires Inv(byIds, s) && Evolves(s.rows, fs) && PaidRows(fs) == PaidRows(s.rows) && AmountsPositive(fs)
    requires OutsideLocks(s.txns, s.rows, fs)
    ensures Inv(byIds, s.(rows := fs))
  {
    forall t | t in s.txns ensures TxnOk(byIds, fs, s.txns[t]) {
      TxnSurvives(byIds, s.rows, fs, s.txns[t]);
    }
    forall k | 0 <= k < |s.log| ensures PayoutOk(byIds, fs, s.log[k]) {
      PayoutSurvives(byIds, s.rows, fs, s.log[k]);
    }
  }

  lemma {:induction false} HeldRowsExist(byIds: bool, s: State)
    requires Inv(byIds, s)
    ensures LocksInRange(s.txns, |s.rows|)
  {
    forall t, i | t in s.txns && i in Held(s.txns[t]) ensures i < |s.rows| {
      assert TxnOk(byIds, s.rows, s.txns[t]);
    }
  }

  lemma {:induction false} InsertIsHarmless(rows: seq<Earning>, txns: map<TxnId, Txn>, e: Earning)
    requires e.status == Approved && e.amount > 0.0 && AmountsPositive(rows) && LocksInRange(txns, |rows|)
    ensures var fs := InsertOnce(rows, e);
            && Evolves(rows, fs) && PaidRows(fs) == PaidRows(rows) && AmountsPositive(fs)
            && OutsideLocks(txns, rows, fs)
  {
  }

  lemma {:induction false} EarnKeepsInv(byIds: bool, s: State, e: Earning)
    requires Inv(byIds, s)
    ensures Inv(byIds, EarnRow(s, e))
  {
    if e.status == Approved && e.amount > 0.0 {
      HeldRowsExist(byIds, s);
      InsertIsHarmless(s.rows, s.txns, e);
      RowsChangeKeepsInv(byIds, s, InsertOnce(s.rows, e));
    }
  }

  lemma {:induction false} ReversalIsHarmless(rows: seq<Earning>, txns: map<TxnId, Txn>, id: nat)
    requires id < |rows| && rows[id].status == Approved && AmountsPositive(rows) && LocksInRange(txns, |rows|)
    requires forall t :: t in txns ==> id !in Held(txns[t])
    ensures var fs := rows[id := rows[id].(status := Reversed)];
            && Evolves(rows, fs) && PaidRows(fs) == PaidRows(rows) && AmountsPositive(fs)
            && OutsideLocks(txns, rows, fs)
  {
  }

  lemma {:induction false} ReverseKeepsInv(byIds: bool, s: State, id: nat)
    requires Inv(byIds, s)
    ensures Inv(byIds, ReverseRow(s, id))
  {
    var t := ReverseRow(s, id);
    if t != s {
      HeldRowsExist(byIds, s);
      ReversalIsHarmless(s.rows, s.txns, id);
      RowsChangeKeepsInv(byIds, s, s.rows[id := s.rows[id].(status := Reversed)]);
    }
  }

  /** A transaction may begin, or grow, as long as the rows it locks now are free. */
  lemma {:induction false} LocksStayDisjoint(s: State, t: TxnId, y: Txn, ids: set<nat>)
    requires LocksDisjoint(s.txns) && Free(s, t, ids)
    requires Held(y) == if t in s.txns then Held(s.txns[t]) + ids else ids
    ensures LocksDisjoint(s.txns[t := y])
  {
  }

  lemma {:induction false} TxnReplaced(byIds: bool, s: State, t: TxnId, y: Txn)
    requires Inv(byIds, s) && TxnOk(byIds, s.rows, y) && LocksDisjoint(s.txns[t := y])
    ensures Inv(byIds, s.(txns := s.txns[t := y]))
  {
  }

  /** What a query returns is what the invariant asks of a withdrawal that has paid nothing. */
  lemma {:induction false} QueriedIsOk(byIds: bool, rows: seq<Earning>, user: UserId, snap: nat, x: Txn)
    requires snap <= |rows| && PayableBelow(rows, user, snap) != {}
    requires x.user == user && x.snap == snap && x.collected == PayableBelow(rows, user, snap)
    requires x.totals.Keys == x.todo == CurrenciesOf(rows, x.collected)
    requires x.snaps == map[] && x.marked == {} && x.credits == []
    requires forall c :: c in x.totals ==> x.totals[c] == SumIds(rows, x.collected, c)
    ensures TxnOk(byIds, rows, x) && Held(x) == x.collected
  {
    assert PaidPart(rows, x);
  }

  lemma {:induction false} QueryKeepsInv(byIds: bool, s: State, t: TxnId, user: UserId, snap: nat)
    requires Inv(byIds, s)
    ensures Inv(byIds, QueryRows(s, t, user, snap))
  {
    var ids := PayableBelow(s.rows, user, snap);
    if t !in s.txns && snap <= |s.rows| && ids != {} && Free(s, t, ids) {
      var x := QueryRows(s, t, user, snap).txns[t];
      QueriedIsOk(byIds, s.rows, user, snap, x);
      LocksStayDisjoint(s, t, x, ids);
      TxnReplaced(byIds, s, t, x);
    }
  }

  /** A committed withdrawal of the same user has marked nothing above this one's query in a
      currency it still has to pay: its UPDATE would have hit the rows collected here as well. */
  lemma {:induction false} OtherPaidElsewhere(rows: seq<Earning>, x: Txn, q: Payout, c: string, i: nat)
    requires TxnOk(false, rows, x) && SnapsOk(false, rows, q) && q.user == x.user
    requires forall j :: j in q.marked && j < |rows| ==> rows[j].status == Paid
    requires c in x.todo && i in q.marked && x.snap <= i < |rows|
    ensures rows[i].currency != c
  {
    var j :| j in x.collected && j < |rows| && rows[j].currency == c;
    assert j in Held(x);
    assert InReach(rows, q, i);
    if rows[i].currency == c {
      assert InReach(rows, q, j);
      assert false;
    }
  }

  lemma {:induction false} MarkedArePaid(byIds: bool, s: State, k: nat)
    requires LogOk(byIds, s.rows, s.log) && k < |s.log|
    ensures forall j :: j in s.log[k].marked ==> j < |s.rows| && s.rows[j].status == Paid
  {
    MarkedAreAll(s.log, k);
    assert forall j :: j in s.log[k].marked ==> j in PaidRows(s.rows);
  }

  lemma {:induction false} PaidByWhom(byIds: bool, s: State, i: nat) returns (q: Payout)
    requires LogOk(byIds, s.rows, s.log) && i < |s.rows| && s.rows[i].status == Paid
    ensures i in q.marked && q.user == Beneficiary(s.rows[i]) && SnapsOk(byIds, s.rows, q)
    ensures forall j :: j in q.marked ==> j < |s.rows| && s.rows[j].status == Paid
  {
    assert i in PaidRows(s.rows);
    var k := MarkedBy(s.log, i);
    q := s.log[k];
    assert PayoutOk(byIds, s.rows, q);
    assert InReach(s.rows, q, i);
    MarkedArePaid(byIds, s, k);
  }

  lemma {:induction false} NothingPaidAbove(s: State, t: TxnId, c: string, i: nat)
    requires LogOk(false, s.rows, s.log) && t in s.txns && TxnOk(false, s.rows, s.txns[t])
    requires c in s.txns[t].todo && s.txns[t].snap <= i < |s.rows|
    requires Beneficiary(s.rows[i]) == s.txns[t].user && s.rows[i].currency == c
    ensures s.rows[i].status != Paid
  {
    if s.rows[i].status == Paid {
      var q := PaidByWhom(false, s, i);
      OtherPaidElsewhere(s.rows, s.txns[t], q, c, i);
    }
  }

  lemma {:induction false} MarkedBy(log: seq<Payout>, i: nat) returns (k: nat)
    requires i in AllMarked(log)
    ensures k < |log| && i in log[k].marked
  {
    k := |log| - 1;
    if i !in log[k].marked {
      k := MarkedBy(log[..k], i);
    }
  }

  /** The UPDATE hits everything in its reach that is still approved. */
  lemma {:induction false} PayingKeepsSnaps(byIds: bool, rows: seq<Earning>, x: Txn, c: string, snap: nat)
    requires TxnOk(byIds, rows, x) && c in x.todo && x.snap <= snap <= |rows|
    requires !byIds ==> forall i :: x.snap <= i < snap && Beneficiary(rows[i]) == x.user && rows[i].currency == c ==>
                          rows[i].status != Paid
    ensures SnapsOk(byIds, rows, PayoutOf(Paying(x, c, snap, Hit(byIds, rows, x, c, snap))))
  {
    var hit := Hit(byIds, rows, x, c, snap);
    var p, q := PayoutOf(x), PayoutOf(Paying(x, c, snap, hit));
    forall i | i in q.marked ensures InReach(rows, q, i) {
      if i in x.marked {
        assert InReach(rows, p, i);
      } else {
        assert i in x.collected ==> i in Held(x);
      }
    }
    if !byIds {
      forall i: nat | InReach(rows, q, i) && i !in q.marked
        ensures rows[i].status != Approved && (i >= q.snap ==> rows[i].status == Reversed)
      {
        if rows[i].currency != c {
          assert InReach(rows, p, i);
        }
      }
    }
  }

  lemma {:induction false} PayingKeepsSums(rows: seq<Earning>, x: Txn, c: string, snap: nat, hit: set<nat>)
    requires SumsOk(rows, x) && c in x.todo && x.todo <= x.totals.Keys
    ensures SumsOk(rows, Paying(x, c, snap, hit))
  {
    var y := Paying(x, c, snap, hit);
    assert y.credits[..|x.credits|] == x.credits;
    forall d ensures CreditSum(y.credits, d) == if d in y.totals && d !in y.todo then y.totals[d] else 0.0 {
      assert CreditSum(y.credits, d) == CreditSum(x.credits, d) + if c == d then x.totals[c] else 0.0;
    }
  }

  /** The UPDATE hits every collected row of its currency. */
  lemma {:induction false} PayingKeepsPart(byIds: bool, rows: seq<Earning>, x: Txn, c: string, snap: nat)
    requires TxnOk(byIds, rows, x) && c in x.todo && x.snap <= snap
    ensures PaidPart(rows, Paying(x, c, snap, Hit(byIds, rows, x, c, snap)))
  {
    var hit := Hit(byIds, rows, x, c, snap);
    forall i | i in x.collected && i < |rows| && rows[i].currency == c ensures i in hit {
      assert i in Held(x);
    }
  }

  /** Paying one currency marks all collected rows of it and credits their sum. */
  lemma {:induction false} PayingKeepsTxn(byIds: bool, rows: seq<Earning>, x: Txn, c: string, snap: nat)
    requires TxnOk(byIds, rows, x) && c in x.todo && x.snap <= snap <= |rows|
    requires SnapsOk(byIds, rows, PayoutOf(Paying(x, c, snap, Hit(byIds, rows, x, c, snap))))
    ensures TxnOk(byIds, rows, Paying(x, c, snap, Hit(byIds, rows, x, c, snap)))
  {
    var hit := Hit(byIds, rows, x, c, snap);
    PayingKeepsSums(rows, x, c, snap, hit);
    PayingKeepsPart(byIds, rows, x, c, snap);
    var y := Paying(x, c, snap, hit);
    forall i | i in Held(y) ensures i < |rows| && Payable(rows[i], y.user) {
      assert i in Held(x) || i in hit;
      assert i in x.collected ==> i in Held(x);
    }
  }

  lemma {:induction false} DropKeepsInv(byIds: bool, s: State, t: TxnId)
    requires Inv(byIds, s)
    ensures Inv(byIds, s.(txns := s.txns - {t}))
  {
  }

  lemma {:induction false} PayingIsOk(byIds: bool, s: State, t: TxnId, c: string, snap: nat)
    requires LogOk(byIds, s.rows, s.log) && t in s.txns && TxnOk(byIds, s.rows, s.txns[t])
    requires c in s.txns[t].todo && c in s.txns[t].totals && s.txns[t].snap <= snap <= |s.rows|
    ensures TxnOk(byIds, s.rows, Paying(s.txns[t], c, snap, Hit(byIds, s.rows, s.txns[t], c, snap)))
  {
    var rows, x := s.rows, s.txns[t];
    if !byIds {
      forall i | x.snap <= i < snap && Beneficiary(rows[i]) == x.user && rows[i].currency == c
        ensures rows[i].status != Paid
      {
        NothingPaidAbove(s, t, c, i);
      }
    }
    PayingKeepsSnaps(byIds, rows, x, c, snap);
    PayingKeepsTxn(byIds, rows, x, c, snap);
  }

  lemma {:induction false} PayingLocks(s: State, t: TxnId, c: string, snap: nat, hit: set<nat>)
    requires LocksDisjoint(s.txns) && t in s.txns && c in s.txns[t].totals && Free(s, t, hit)
    ensures LocksDisjoint(s.txns[t := Paying(s.txns[t], c, snap, hit)])
  {
    LocksStayDisjoint(s, t, Paying(s.txns[t], c, snap, hit), hit);
  }

  /** What an UPDATE may do to its transaction: wait, roll back, or go on. */
  lemma {:induction false} PayCases(byIds: bool, s: State, t: TxnId, c: string, snap: nat)
    requires t in s.txns
    ensures var u, x := PayCurrencyOf(byIds, s, t, c, snap), s.txns[t];
            var hit := Hit(byIds, s.rows, x, c, snap);
            || u == s
            || u == s.(txns := s.txns - {t})
            || (&& c in x.todo && c in x.totals && x.snap <= snap <= |s.rows| && Free(s, t, hit)
                && u == s.(txns := s.txns[t := Paying(x, c, snap, hit)]))
  {
  }

  lemma {:induction false} PayKeepsInv(byIds: bool, s: State, t: TxnId, c: string, snap: nat)
    requires Inv(byIds, s) && t in s.txns
    ensures Inv(byIds, PayCurrencyOf(byIds, s, t, c, snap))
  {
    var u, x := PayCurrencyOf(byIds, s, t, c, snap), s.txns[t];
    PayCases(byIds, s, t, c, snap);
    if u == s.(txns := s.txns - {t}) {
      DropKeepsInv(byIds, s, t);
    } else if u != s {
      var hit := Hit(byIds, s.rows, x, c, snap);
      PayingIsOk(byIds, s, t, c, snap);
      PayingLocks(s, t, c, snap, hit);
      TxnReplaced(byIds, s, t, Paying(x, c, snap, hit));
    }
  }

  /** A withdrawal that has paid all its currencies has credited all it collected. */
  lemma {:induction false} FinishedTxn(byIds: bool, rows: seq<Earning>, x: Txn)
    requires TxnOk(byIds, rows, x) && x.todo == {}
    ensures PayoutOk(byIds, rows, PayoutOf(x))
  {
    forall c ensures CreditSum(x.credits, c) == SumIds(rows, x.collected, c) {
      if c !in x.totals {
        SumIdsWithout(rows, x.collected, c);
      }
    }
    forall i | i in x.collected ensures i in x.marked {
      assert i in Held(x);
    }
    forall i | i in x.marked ensures i in x.collected <==> i < x.snap {
      assert i in Held(x);
    }
  }

  lemma {:induction false} MarkedAreAll(log: seq<Payout>, k: nat)
    requires k < |log|
    ensures log[k].marked <= AllMarked(log)
    decreases |log|
  {
    if k < |log| - 1 {
      MarkedAreAll(log[..|log| - 1], k);
    }
  }

  /** A commit turns approved rows to 'paid' and leaves the others alone. */
  lemma {:induction false} MarkEvolves(rows: seq<Earning>, ids: set<nat>)
    requires forall i :: i in ids ==> i < |rows| && rows[i].status == Approved
    ensures Evolves(rows, MarkRows(rows, ids))
    ensures ids !! PaidRows(rows) && PaidRows(MarkRows(rows, ids)) == PaidRows(rows) + ids
  {
  }

  lemma {:induction false} CommitLeavesOther(byIds: bool, rows: seq<Earning>, x: Txn, y: Txn)
    requires TxnOk(byIds, rows, y) && Held(x) !! Held(y) && Evolves(rows, MarkRows(rows, x.marked))
    ensures TxnOk(byIds, MarkRows(rows, x.marked), y)
  {
    forall i | i in Held(y) ensures MarkRows(rows, x.marked)[i] == rows[i] {
      assert i !in Held(x);
    }
    TxnSurvives(byIds, rows, MarkRows(rows, x.marked), y);
  }

  lemma {:induction false} LogGrows(log: seq<Payout>, p: Payout)
    requires MarkedOnce(log) && AllMarked(log) !! p.marked
    ensures MarkedOnce(log + [p]) && AllMarked(log + [p]) == AllMarked(log) + p.marked
  {
    var after := log + [p];
    assert after[..|log|] == log;
    forall k, l | 0 <= k < l < |after| ensures after[k].marked !! after[l].marked {
      if l == |log| {
        MarkedAreAll(log, k);
      }
    }
  }

  lemma {:induction false} CommitKeepsTxns(byIds: bool, rows: seq<Earning>, txns: map<TxnId, Txn>, t: TxnId)
    requires TxnsOk(byIds, rows, txns) && t in txns && Evolves(rows, MarkRows(rows, txns[t].marked))
    ensures TxnsOk(byIds, MarkRows(rows, txns[t].marked), txns - {t})
  {
    forall v | v in txns && v != t ensures TxnOk(byIds, MarkRows(rows, txns[t].marked), txns[v]) {
      CommitLeavesOther(byIds, rows, txns[t], txns[v]);
    }
  }

  lemma {:induction false} CommitKeepsLog(byIds: bool, rows: seq<Earning>, log: seq<Payout>, p: Payout)
    requires LogOk(byIds, rows, log) && PayoutOk(byIds, rows, p)
    requires forall i :: i in p.marked ==> i < |rows| && rows[i].status == Approved
    ensures LogOk(byIds, MarkRows(rows, p.marked), log + [p])
  {
    MarkEvolves(rows, p.marked);
    LogGrows(log, p);
    var after := log + [p];
    forall k | 0 <= k < |after| ensures PayoutOk(byIds, MarkRows(rows, p.marked), after[k]) {
      PayoutSurvives(byIds, rows, MarkRows(rows, p.marked), after[k]);
    }
  }

  lemma {:induction false} CommitKeepsInv(byIds: bool, s: State, t: TxnId)
    requires Inv(byIds, s) && t in s.txns && s.txns[t].todo == {}
    ensures Inv(byIds, CommitTxn(s, t))
  {
    var x := s.txns[t];
    forall i | i in x.marked ensures i < |s.rows| && s.rows[i].status == Approved {
      assert TxnOk(byIds, s.rows, x) && i in Held(x);
    }
    MarkEvolves(s.rows, x.marked);
    FinishedTxn(byIds, s.rows, x);
    CommitKeepsTxns(byIds, s.rows, s.txns, t);
    CommitKeepsLog(byIds, s.rows, s.log, PayoutOf(x));
  }

  lemma {:induction false} StepKeepsInv(byIds: bool, s: State, ev: Event)
    requires Inv(byIds, s)
    ensures Inv(byIds, Step(byIds, s, ev))
  {
    match ev
    case Earn(e) => EarnKeepsInv(byIds, s, e);
    case Reverse(id) => ReverseKeepsInv(byIds, s, id);
    case Query(t, user, snap) => QueryKeepsInv(byIds, s, t, user, snap);
    case Pay(t, c, snap) =>
      if t in s.txns {
        PayKeepsInv(byIds, s, t, c, snap);
      }
    case Commit(t) =>
      if t in s.txns && s.txns[t].todo == {} {
        CommitKeepsInv(byIds, s, t);
      }
    case Abort(t) => DropKeepsInv(byIds, s, t);
  }

  lemma {:induction false} RunKeepsInv(byIds: bool, s: State, events: seq<Event>)
    requires Inv(byIds, s)
    ensures Inv(byIds, Run(byIds, s, events))
    decreases |events|
  {
    if events != [] {
      StepKeepsInv(byIds, s, events[0]);
      RunKeepsInv(byIds, Step(byIds, s, events[0]), events[1..]);
    }
  }

  // ----- What holds of every interleaving -----

  /** Of two open withdrawals of one user the one with the older snapshot would share its rows. */
  lemma {:induction false} SharedRow(byIds: bool, rows: seq<Earning>, x: Txn, y: Txn) returns (i: nat)
    requires TxnOk(byIds, rows, x) && TxnOk(byIds, rows, y) && x.user == y.user && x.snap <= y.snap
    ensures i in Held(x) && i in Held(y)
  {
    i :| i in x.collected;
    assert i in Held(x);
    assert Payable(rows[i], y.user);
  }

  /** The row locks serialise the withdrawals of one user: two are never past their queries. */
  lemma {:induction false} OneWithdrawalPerUser(byIds: bool, events: seq<Event>, t: TxnId, u: TxnId)
    requires var s := Run(byIds, INITIAL, events);
             t in s.txns && u in s.txns && s.txns[t].user == s.txns[u].user
    ensures t == u
  {
    RunKeepsInv(byIds, INITIAL, events);
    var s := Run(byIds, INITIAL, events);
    var x, y := s.txns[t], s.txns[u];
    var i;
    if x.snap <= y.snap {
      i := SharedRow(byIds, s.rows, x, y);
    } else {
      i := SharedRow(byIds, s.rows, y, x);
    }
    assert t != u ==> Held(x) !! Held(y);
  }

  /** What the committed withdrawals credited, and the late rows they marked without credit. */
  function LogCredits(log: seq<Payout>, c: string): real {
    if log == [] then 0.0
    else LogCredits(log[..|log| - 1], c) + CreditSum(log[|log| - 1].credits, c)
  }

  function Late(p: Payout): set<nat> {
    p.marked - p.collected
  }

  function LogLate(rows: seq<Earning>, log: seq<Payout>, c: string): real {
    if log == [] then 0.0
    else LogLate(rows, log[..|log| - 1], c) + SumIds(rows, Late(log[|log| - 1]), c)
  }

  lemma {:induction false} LogBalances(byIds: bool, rows: seq<Earning>, log: seq<Payout>, c: string)
    requires MarkedOnce(log) && forall k :: 0 <= k < |log| ==> PayoutOk(byIds, rows, log[k])
    ensures SumIds(rows, AllMarked(log), c) == LogCredits(log, c) + LogLate(rows, log, c)
  {
    if log == [] {
      SumIdsOfNone(rows, c);
    } else {
      var n := |log| - 1;
      var prev, p := log[..n], log[n];
      LogBalances(byIds, rows, prev, c);
      assert PayoutOk(byIds, rows, p);
      AllMarkedMisses(prev, p.marked);
      SumIdsUnion(rows, AllMarked(prev), p.marked, c);
      SumIdsUnion(rows, p.collected, Late(p), c);
      assert p.collected + Late(p) == p.marked;
    }
  }

  lemma {:induction false} AllMarkedMisses(log: seq<Payout>, ids: set<nat>)
    requires forall k :: 0 <= k < |log| ==> log[k].marked !! ids
    ensures AllMarked(log) !! ids
  {
    if log != [] {
      AllMarkedMisses(log[..|log| - 1], ids);
    }
  }

  lemma {:induction false} LateCameAfterQuery(byIds: bool, rows: seq<Earning>, p: Payout, i: nat)
    requires PayoutOk(byIds, rows, p) && i in Late(p)
    ensures p.snap <= i < |rows| && Beneficiary(rows[i]) == p.user
  {
    assert InReach(rows, p, i);
  }

  lemma {:induction false} PaidMinusCreditedIn(byIds: bool, s: State, c: string)
    requires Inv(byIds, s)
    ensures Total(s.rows, PaidIn(c)) - LogCredits(s.log, c) == LogLate(s.rows, s.log, c)
  {
    LogBalances(byIds, s.rows, s.log, c);
    PaidTotalIsSum(s.rows, AllMarked(s.log), c);
  }

  /** Over every interleaving and for every currency: what is marked as paid exceeds what was
      credited by exactly the rows that committed withdrawals marked without having collected
      them; those rows committed after the withdrawal's query and belong to its user; and no row
      is paid by two withdrawals. */
  lemma {:induction false} PaidMinusCredited(byIds: bool, events: seq<Event>, c: string)
    ensures var s := Run(byIds, INITIAL, events);
            && Total(s.rows, PaidIn(c)) - LogCredits(s.log, c) == LogLate(s.rows, s.log, c)
            && MarkedOnce(s.log) && AllMarked(s.log) == PaidRows(s.rows)
            && forall k, i :: 0 <= k < |s.log| && i in Late(s.log[k]) ==>
                 s.log[k].snap <= i < |s.rows| && Beneficiary(s.rows[i]) == s.log[k].user
  {
    RunKeepsInv(byIds, INITIAL, events);
    var s := Run(byIds, INITIAL, events);
    PaidMinusCreditedIn(byIds, s, c);
    forall k, i | 0 <= k < |s.log| && i in Late(s.log[k])
      ensures s.log[k].snap <= i < |s.rows| && Beneficiary(s.rows[i]) == s.log[k].user
    {
      LateCameAfterQuery(byIds, s.rows, s.log[k], i);
    }
  }

  ghost predicate SomeLate(rows: seq<Earning>, log: seq<Payout>, c: string) {
    exists k, i :: 0 <= k < |log| && i in Late(log[k]) && i < |rows| && rows[i].currency == c
  }

  lemma {:induction false} LogLateIsZeroExactly(rows: seq<Earning>, log: seq<Payout>, c: string)
    requires forall i :: 0 <= i < |rows| ==> rows[i].amount > 0.0
    ensures LogLate(rows, log, c) >= 0.0
    ensures LogLate(rows, log, c) == 0.0 <==> !SomeLate(rows, log, c)
  {
    if log != [] {
      var n := |log| - 1;
      LogLateIsZeroExactly(rows, log[..n], c);
      SumIdsIsZeroExactly(rows, Late(log[n]), c);
      if SomeLate(rows, log[..n], c) {
        var k, i :| 0 <= k < n && i in Late(log[..n][k]) && i < |rows| && rows[i].currency == c;
        assert i in Late(log[k]);
      }
      if SomeLate(rows, log, c) {
        var k, i :| 0 <= k < |log| && i in Late(log[k]) && i < |rows| && rows[i].currency == c;
        assert k < n ==> i in Late(log[..n][k]);
      }
    }
  }

  /** Row `i` was overtaken by the committed withdrawal `p`: it is its user's, lies between the
      snapshot of the query and that of the UPDATE of its currency, and was not reversed before
      the UPDATE. Nothing here speaks of what `p` collected or marked. */
  predicate Overtaken(rows: seq<Earning>, p: Payout, i: nat) {
    InReach(rows, p, i) && i >= p.snap && rows[i].status != Reversed
  }

  /** The rows the source's predicate UPDATE marks without credit are exactly the overtaken ones,
      in every interleaving. */
  lemma {:induction false} LateExactly(events: seq<Event>, k: nat, i: nat)
    requires k < |Run(false, INITIAL, events).log|
    ensures var s := Run(false, INITIAL, events); i in Late(s.log[k]) <==> Overtaken(s.rows, s.log[k], i)
  {
    RunKeepsInv(false, INITIAL, events);
    var s := Run(false, INITIAL, events);
    assert PayoutOk(false, s.rows, s.log[k]);
    MarkedAreAll(s.log, k);
    assert i in s.log[k].marked ==> i in PaidRows(s.rows);
  }

  ghost predicate SomeOvertaken(rows: seq<Earning>, log: seq<Payout>, c: string) {
    exists k, i: nat :: 0 <= k < |log| && Overtaken(rows, log[k], i) && rows[i].currency == c
  }

  lemma {:induction false} SomeLateExactly(events: seq<Event>, c: string)
    ensures var s := Run(false, INITIAL, events); SomeLate(s.rows, s.log, c) <==> SomeOvertaken(s.rows, s.log, c)
  {
    var s := Run(false, INITIAL, events);
    if k, i :| 0 <= k < |s.log| && i in Late(s.log[k]) && i < |s.rows| && s.rows[i].currency == c {
      LateExactly(events, k, i);
    }
    if k, i: nat :| 0 <= k < |s.log| && Overtaken(s.rows, s.log[k], i) && s.rows[i].currency == c {
      LateExactly(events, k, i);
    }
  }

  /** Credits never exceed what is marked as paid, and equal it in a currency exactly when no
      withdrawal marked a late row of that currency; for the source's predicate UPDATE that is,
      when no withdrawal overtook an earning of its user in that currency. */
  lemma {:induction false} ConservedExactly(byIds: bool, events: seq<Event>, c: string)
    ensures var s := Run(byIds, INITIAL, events);
            && LogCredits(s.log, c) <= Total(s.rows, PaidIn(c))
            && (LogCredits(s.log, c) == Total(s.rows, PaidIn(c)) <==> !SomeLate(s.rows, s.log, c))
            && (!byIds ==> (LogCredits(s.log, c) == Total(s.rows, PaidIn(c)) <==> !SomeOvertaken(s.rows, s.log, c)))
  {
    RunKeepsInv(byIds, INITIAL, events);
    PaidMinusCredited(byIds, events, c);
    var s := Run(byIds, INITIAL, events);
    LogLateIsZeroExactly(s.rows, s.log, c);
    if !byIds {
      SomeLateExactly(events, c);
    }
  }

  /** The variant that updates the collected ids conserves money in every interleaving. */
  lemma {:induction false} ByIdsConserves(events: seq<Event>, c: string)
    ensures var s := Run(true, INITIAL, events); LogCredits(s.log, c) == Total(s.rows, PaidIn(c))
  {
    RunKeepsInv(true, INITIAL, events);
    ConservedExactly(true, events, c);
    var s := Run(true, INITIAL, events);
    forall k | 0 <= k < |s.log| ensures Late(s.log[k]) == {} {
      assert PayoutOk(true, s.rows, s.log[k]);
    }
  }

  lemma {:induction false} RunFirst(byIds: bool, s: State, ev: Event, rest: seq<Event>)
    ensures Run(byIds, s, [ev] + rest) == Run(byIds, Step(byIds, s, ev), rest)
  {
    assert ([ev] + rest)[1..] == rest;
  }

  /** A withdrawal that has queried its one row `a`. */
  function Queried(a: Earning): Txn {
    Txn(Beneficiary(a), 1, {0}, map[a.currency := a.amount], {a.currency}, map[], {}, [])
  }

  lemma {:induction false} QueryOne(a: Earning)
    requires a.status == Approved && a.amount > 0.0
    ensures Step(false, INITIAL, Earn(a)) == State.State([a], map[], [])
    ensures Step(false, State.State([a], map[], []), Query(0, Beneficiary(a), 1)) ==
            State.State([a], map[0 := Queried(a)], [])
  {
    assert PayableBelow([a], Beneficiary(a), 1) == {0} && CurrenciesOf([a], {0}) == {a.currency};
    assert SumIds([a], {0}, a.currency) == a.amount by { assert [a][..0] == []; }
    var u := QueryRows(State.State([a], map[], []), 0, Beneficiary(a), 1);
    assert u.txns[0].totals == map[a.currency := a.amount];
  }

  lemma {:induction false} PayBoth(a: Earning, b: Earning)
    requires a.status == Approved && b.status == Approved && a.amount > 0.0 && b.amount > 0.0
    requires a.invoice != b.invoice && a.currency == b.currency && Beneficiary(a) == Beneficiary(b)
    ensures Step(false, State.State([a], map[0 := Queried(a)], []), Earn(b)) ==
            State.State([a, b], map[0 := Queried(a)], [])
    ensures Step(false, State.State([a, b], map[0 := Queried(a)], []), Pay(0, a.currency, 2)) ==
            State.State([a, b], map[0 := Paying(Queried(a), a.currency, 2, {0, 1})], [])
  {
    assert PayableBelow([a, b], Beneficiary(a), 2) == {0, 1};
    assert Hit(false, [a, b], Queried(a), a.currency, 2) == {0, 1};
  }

  lemma {:induction false} CommitBoth(a: Earning, b: Earning)
    ensures Step(false, State.State([a, b], map[0 := Paying(Queried(a), a.currency, 2, {0, 1})], []), Commit(0)) ==
            State.State([a.(status := Paid), b.(status := Paid)], map[],
                        [Payout(Beneficiary(a), 1, map[a.currency := 2], {0}, {0, 1}, [Credit(a.currency, a.amount)])])
  {
    var x := Paying(Queried(a), a.currency, 2, {0, 1});
    assert x.todo == {} && x.marked == {0, 1};
    assert x.snaps == map[a.currency := 2] && x.credits == [Credit(a.currency, a.amount)];
    assert MarkRows([a, b], {0, 1}) == [a.(status := Paid), b.(status := Paid)];
  }

  lemma {:induction false} LossAmounts(rows: seq<Earning>, credits: seq<Credit>, c: string)
    requires |rows| == 2 && |credits| == 1 && credits[0].currency == c
    requires forall i :: 0 <= i < 2 ==> rows[i].status == Paid && rows[i].currency == c
    ensures Total(rows, PaidIn(c)) == rows[0].amount + rows[1].amount
    ensures CreditSum(credits, c) == credits[0].amount
  {
    assert rows[..1][..0] == [] && rows[..1][0] == rows[0];
    assert Total(rows[..1], PaidIn(c)) == rows[0].amount;
    assert credits[..0] == [];
  }

  /** The source's variant does lose money: a second earning that commits during a withdrawal is
      marked as paid and never credited. */
  lemma {:induction false} LossOccurs(a: Earning, b: Earning) returns (events: seq<Event>)
    requires a.status == Approved && b.status == Approved && a.amount > 0.0 && b.amount > 0.0
    requires a.invoice != b.invoice && a.currency == b.currency && Beneficiary(a) == Beneficiary(b)
    ensures var s := Run(false, INITIAL, events);
            && s.rows == [a.(status := Paid), b.(status := Paid)]
            && Total(s.rows, PaidIn(a.currency)) == a.amount + b.amount
            && LogCredits(s.log, a.currency) == a.amount
  {
    var user, c := Beneficiary(a), a.currency;
    QueryOne(a);
    PayBoth(a, b);
    CommitBoth(a, b);
    var s1 := Step(false, INITIAL, Earn(a));
    var s2 := Step(false, s1, Query(0, user, 1));
    var s3 := Step(false, s2, Earn(b));
    var s4 := Step(false, s3, Pay(0, c, 2));
    var s5 := Step(false, s4, Commit(0));
    var e5 := [Commit(0)] + [];
    var e4 := [Pay(0, c, 2)] + e5;
    var e3 := [Earn(b)] + e4;
    var e2 := [Query(0, user, 1)] + e3;
    events := [Earn(a)] + e2;
    RunFirst(false, s4, Commit(0), []);
    RunFirst(false, s3, Pay(0, c, 2), e5);
    RunFirst(false, s2, Earn(b), e4);
    RunFirst(false, s1, Query(0, user, 1), e3);
    RunFirst(false, INITIAL, Earn(a), e2);
    assert Run(false, INITIAL, events) == s5;
    LossAmounts(s5.rows, s5.log[0].credits, c);
    assert s5.log[..0] == [];
  }

  // ----- What the single statements do -----

  /** An earning is reversed exactly when it is approved and no open withdrawal holds it. */
  lemma {:induction false} ReverseExactly(byIds: bool, s: State, id: nat)
    ensures var u := Step(byIds, s, Reverse(id));
            && u.txns == s.txns && u.log == s.log && |u.rows| == |s.rows|
            && forall i :: 0 <= i < |s.rows| ==>
                 u.rows[i] == if i == id && s.rows[i].status == Approved &&
                                 (forall t :: t in s.txns ==> i !in s.txns[t].collected && i !in s.txns[t].marked)
                              then s.rows[i].(status := Reversed) else s.rows[i]
  {
    if id < |s.rows| {
      forall t | t in s.txns
        ensures id !in Held(s.txns[t]) <==> id !in s.txns[t].collected && id !in s.txns[t].marked
      {
      }
    }
  }

  /** A rolled back withdrawal leaves no trace: its locks are gone and nothing was paid. */
  lemma {:induction false} AbortExactly(byIds: bool, s: State, t: TxnId)
    ensures var u := Step(byIds, s, Abort(t));
            && u.rows == s.rows && u.log == s.log && u.txns.Keys == s.txns.Keys - {t}
            && forall v :: v in u.txns ==> u.txns[v] == s.txns[v]
  {
  }

  /** A query collects exactly the rows due to the user that its snapshot shows, once nobody else
      holds one of them, and remembers their total per currency; it writes nothing. */
  lemma {:induction false} QueryExactly(byIds: bool, s: State, t: TxnId, user: UserId, snap: nat)
    requires t !in s.txns && snap <= |s.rows|
    ensures var u := Step(byIds, s, Query(t, user, snap));
            var due := set i | 0 <= i < snap && DueTo(s.rows[i], user);
            && u.rows == s.rows && u.log == s.log
            && (t in u.txns <==> due != {} && forall v :: v in s.txns ==> Held(s.txns[v]) !! due)
            && (t !in u.txns ==> u == s)
            && (t in u.txns ==>
                  && u.txns == s.txns[t := u.txns[t]]
                  && u.txns[t].user == user && u.txns[t].snap == snap && u.txns[t].collected == due
                  && u.txns[t].marked == {} && u.txns[t].credits == []
                  && (forall i :: i in due ==> s.rows[i].currency in u.txns[t].todo))
  {
    PayableIsDue(s.rows, user);
    assert PayableBelow(s.rows, user, snap) == set i | 0 <= i < snap && DueTo(s.rows[i], user);
  }

  // ----- A withdrawal that nobody disturbs -----

  function PayEvents(t: TxnId, order: seq<string>, snap: nat): seq<Event> {
    seq(|order|, k requires 0 <= k < |order| => Pay(t, order[k], snap))
  }

  ghost predicate Enumerates(order: seq<string>, currencies: set<string>) {
    CurrencyOrder.Distinct(order) && forall c :: c in order <==> c in currencies
  }

  function DueCurrencies(rows: seq<Earning>, user: UserId): set<string> {
    set i | 0 <= i < |rows| && DueTo(rows[i], user) :: rows[i].currency
  }

  /** One open withdrawal and no other. */
  function Alone(rows: seq<Earning>, log: seq<Payout>, t: TxnId, x: Txn): State {
    State.State(rows, map[t := x], log)
  }

  /** An UPDATE of a currency still to pay finds the collected rows of it, and their total is
      positive. */
  lemma {:induction false} PayFindsRows(rows: seq<Earning>, x: Txn, c: string)
    requires TxnOk(false, rows, x) && AmountsPositive(rows) && c in x.todo
    ensures c in x.totals && x.totals[c] > 0.0 && x.snap <= |rows| && Hit(false, rows, x, c, |rows|) != {}
  {
    var i :| i in x.collected && i < |rows| && rows[i].currency == c;
    assert i in Held(x);
    assert i in Hit(false, rows, x, c, |rows|);
    SumIdsIsZeroExactly(rows, x.collected, c);
  }

  /** Alone, such an UPDATE goes through. */
  lemma {:induction false} PayGoesThrough(rows: seq<Earning>, log: seq<Payout>, t: TxnId, x: Txn, c: string)
    requires c in x.todo && c in x.totals && x.totals[c] > 0.0 && x.snap <= |rows|
    requires Hit(false, rows, x, c, |rows|) != {}
    ensures Step(false, Alone(rows, log, t, x), Pay(t, c, |rows|)) ==
            Alone(rows, log, t, Paying(x, c, |rows|, Hit(false, rows, x, c, |rows|)))
  {
  }

  lemma {:induction false} PaysAll(rows: seq<Earning>, log: seq<Payout>, t: TxnId, x: Txn, order: seq<string>)
    returns (y: Txn)
    requires AmountsPositive(rows) && LogOk(false, rows, log) && TxnOk(false, rows, x) && Enumerates(order, x.todo)
    ensures Run(false, Alone(rows, log, t, x), PayEvents(t, order, |rows|)) == Alone(rows, log, t, y)
    ensures TxnOk(false, rows, y) && y.todo == {} && y.user == x.user && y.snap == x.snap
    decreases |order|
  {
    EnumeratesRest(order, x.todo);
    if order == [] {
      y := x;
    } else {
      var c, rest := order[0], order[1..];
      var next := PayOnce(rows, log, t, x, c);
      y := PaysAll(rows, log, t, next, rest);
      PayEventsFirst(t, order, |rows|);
      RunFirst(false, Alone(rows, log, t, x), Pay(t, c, |rows|), PayEvents(t, rest, |rows|));
    }
  }

  lemma {:induction false} EnumeratesRest(order: seq<string>, todo: set<string>)
    requires Enumerates(order, todo)
    ensures order == [] ==> todo == {}
    ensures order != [] ==> order[0] in todo && Enumerates(order[1..], todo - {order[0]})
  {
    if order == [] {
      assert forall c :: c in todo ==> c in order;
    } else {
      assert order == [order[0]] + order[1..] && order[0] !in order[1..];
    }
  }

  lemma {:induction false} PayEventsFirst(t: TxnId, order: seq<string>, snap: nat)
    requires order != []
    ensures PayEvents(t, order, snap) == [Pay(t, order[0], snap)] + PayEvents(t, order[1..], snap)
  {
  }

  lemma {:induction false} PayOnce(rows: seq<Earning>, log: seq<Payout>, t: TxnId, x: Txn, c: string)
    returns (next: Txn)
    requires AmountsPositive(rows) && LogOk(false, rows, log) && TxnOk(false, rows, x) && c in x.todo
    ensures Step(false, Alone(rows, log, t, x), Pay(t, c, |rows|)) == Alone(rows, log, t, next)
    ensures TxnOk(false, rows, next) && next.todo == x.todo - {c} && next.user == x.user && next.snap == x.snap
  {
    PayFindsRows(rows, x, c);
    PayGoesThrough(rows, log, t, x, c);
    PayingIsOk(false, Alone(rows, log, t, x), t, c, |rows|);
    next := Paying(x, c, |rows|, Hit(false, rows, x, c, |rows|));
  }

  lemma {:induction false} SumIsTurned(before: seq<Earning>, after: seq<Earning>, ids: set<nat>, c: string)
    requires |before| == |after|
    requires forall i: nat :: i < |before| ==>
               after[i] == if i in ids then before[i].(status := Paid) else before[i]
    requires forall i :: i in ids && i < |before| ==> before[i].status != Paid
    ensures TurnedPaid(before, after, c) == SumIds(before, ids, c)
  {
    if before != [] {
      var n := |before| - 1;
      SumIsTurned(before[..n], after[..n], ids, c);
    }
  }

  /** Only the rows due are marked, and all of them. */
  lemma {:induction false} FinishedMarksDue(rows: seq<Earning>, y: Txn)
    requires TxnOk(false, rows, y) && y.todo == {} && y.snap == |rows|
    ensures forall i: nat :: i < |rows| ==> (i in y.marked <==> DueTo(rows[i], y.user))
    ensures y.marked == y.collected
  {
    PayableIsDue(rows, y.user);
    assert forall i :: i in y.marked ==> i in Held(y);
    assert forall i :: i in y.collected ==> i in Held(y);
  }

  lemma {:induction false} CommitAlone(rows: seq<Earning>, log: seq<Payout>, t: TxnId, y: Txn)
    requires y.todo == {}
    ensures Run(false, Alone(rows, log, t, y), [Commit(t)]) ==
            State.State(MarkRows(rows, y.marked), map[], log + [PayoutOf(y)])
  {
    var w := Alone(rows, log, t, y);
    assert [Commit(t)][1..] == [];
    assert Run(false, w, [Commit(t)]) == Step(false, w, Commit(t));
    assert map[t := y] - {t} == map[];
  }

  /** What the committed withdrawal has paid and credited. */
  lemma {:induction false} FinishedPaysDue(rows: seq<Earning>, y: Txn)
    requires TxnOk(false, rows, y) && y.todo == {} && y.snap == |rows|
    ensures var after := MarkRows(rows, y.marked);
            && (forall i :: 0 <= i < |rows| ==>
                  after[i] == if DueTo(rows[i], y.user) then rows[i].(status := Paid) else rows[i])
            && (forall c :: CreditSum(y.credits, c) == TurnedPaid(rows, after, c))
  {
    FinishedMarksDue(rows, y);
    FinishedTxn(false, rows, y);
    forall c ensures CreditSum(y.credits, c) == TurnedPaid(rows, MarkRows(rows, y.marked), c) {
      SumIsTurned(rows, MarkRows(rows, y.marked), y.marked, c);
    }
  }

  lemma {:induction false} QueryAlone(s: State, t: TxnId, user: UserId) returns (x: Txn)
    requires Inv(false, s) && s.txns == map[]
    requires exists i :: 0 <= i < |s.rows| && DueTo(s.rows[i], user)
    ensures Step(false, s, Query(t, user, |s.rows|)) == Alone(s.rows, s.log, t, x)
    ensures TxnOk(false, s.rows, x) && x.user == user && x.snap == |s.rows|
    ensures x.todo == DueCurrencies(s.rows, user)
  {
    var n := |s.rows|;
    QueryExactly(false, s, t, user, n);
    var due := set k | 0 <= k < n && DueTo(s.rows[k], user);
    assert due != {} by {
      var i :| 0 <= i < n && DueTo(s.rows[i], user);
      assert i in due;
    }
    x := Step(false, s, Query(t, user, n)).txns[t];
    QueryTodo(s, t, user);
    StepKeepsInv(false, s, Query(t, user, n));
  }

  lemma {:induction false} UndisturbedRun(s: State, t: TxnId, user: UserId, order: seq<string>) returns (y: Txn)
    requires Inv(false, s) && s.txns == map[] && Enumerates(order, DueCurrencies(s.rows, user))
    requires exists i :: 0 <= i < |s.rows| && DueTo(s.rows[i], user)
    ensures Run(false, s, [Query(t, user, |s.rows|)] + (PayEvents(t, order, |s.rows|) + [Commit(t)])) ==
            State.State(MarkRows(s.rows, y.marked), map[], s.log + [PayoutOf(y)])
    ensures TxnOk(false, s.rows, y) && y.todo == {} && y.user == user && y.snap == |s.rows|
  {
    var n := |s.rows|;
    var x := QueryAlone(s, t, user);
    y := PaysAll(s.rows, s.log, t, x, order);
    RunFirst(false, s, Query(t, user, n), PayEvents(t, order, n) + [Commit(t)]);
    RunAppend(false, Alone(s.rows, s.log, t, x), PayEvents(t, order, n), [Commit(t)]);
    CommitAlone(s.rows, s.log, t, y);
  }

  /** Statement by statement and undisturbed, a withdrawal does what the atomic one does: exactly
      the rows due to the user turn paid, and each currency is credited with their total. */
  lemma {:induction false} UndisturbedIsAtomic(s: State, t: TxnId, user: UserId, order: seq<string>)
    requires Inv(false, s) && s.txns == map[] && Enumerates(order, DueCurrencies(s.rows, user))
    requires exists i :: 0 <= i < |s.rows| && DueTo(s.rows[i], user)
    ensures var n := |s.rows|;
            var u := Run(false, s, [Query(t, user, n)] + (PayEvents(t, order, n) + [Commit(t)]));
            && u.txns == map[] && |u.rows| == n && |u.log| == |s.log| + 1
            && (forall i :: 0 <= i < n ==>
                  u.rows[i] == if DueTo(s.rows[i], user) then s.rows[i].(status := Paid) else s.rows[i])
            && (forall c :: CreditSum(u.log[|s.log|].credits, c) == TurnedPaid(s.rows, u.rows, c))
  {
    var y := UndisturbedRun(s, t, user, order);
    FinishedPaysDue(s.rows, y);
  }

  lemma {:induction false} QueryTodo(s: State, t: TxnId, user: UserId)
    requires t !in s.txns && t in Step(false, s, Query(t, user, |s.rows|)).txns
    ensures Step(false, s, Query(t, user, |s.rows|)).txns[t].todo ==
            DueCurrencies(s.rows, user)
  {
    PayableIsDue(s.rows, user);
    var ids := PayableBelow(s.rows, user, |s.rows|);
    assert forall i :: 0 <= i < |s.rows| ==> (i in ids <==> DueTo(s.rows[i], user));
  }

  lemma {:induction false} RunAppend(byIds: bool, s: State, first: seq<Event>, second: seq<Event>)
    ensures Run(byIds, s, first + second) == Run(byIds, Run(byIds, s, first), second)
    decreases |first|
  {
    if first == [] {
      assert first + second == second;
    } else {
      assert (first + second)[1..] == first[1..] + second;
      RunAppend(byIds, Step(byIds, s, first[0]), first[1..], second);
    }
  }
}
