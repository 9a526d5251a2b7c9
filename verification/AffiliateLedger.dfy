/**
 The affiliate ledger: accrual on settled invoices, withdrawal to organization wallets,
 reversal by administrators. The earnings table is append-only, so a row's position is its id.
 */
module AffiliateLedger {
  import opened Prelude
  import opened Commission
  import opened CurrencyOrder
  import opened Wallet

  type UserId = nat
  type InvoiceId = nat

  datatype Kind = ReferrerCommission | RefereeBonus
  datatype Status = Approved | Paid | Reversed

  datatype Earning = Earning(
    referrer: UserId,
    referee: UserId,
    invoice: InvoiceId,
    base: real,
    amount: real,
    bonus: real,
    currency: string,
    status: Status,
    kind: Kind)

  datatype Settings = Settings(percent: real, bonusPercent: real, minTotal: real, enabled: bool)

  datatype State = State(settings: Option<Settings>, earnings: seq<Earning>, books: Books)

  /** What accrual reads: invoices, organization creators, users. */
  datatype Invoice = Invoice(org: OrgId, currency: string, subtotal: real, discount: real, status: string)
  datatype User = User(referredBy: Option<UserId>, deleted: bool)
  datatype World = World(
    invoices: map<InvoiceId, Invoice>,
    creators: map<OrgId, Option<UserId>>,
    users: map<UserId, User>)

  datatype Reply = Done | NotFound | InvalidState | Invalid | QueryError

  const PAYOUT := "affiliate_payout"

  // ----- Accrual -----

  predicate HasEarning(es: seq<Earning>, invoice: InvoiceId, kind: Kind) {
    exists i :: 0 <= i < |es| && es[i].invoice == invoice && es[i].kind == kind
  }

  /** INSERT ... ON CONFLICT (invoice_id, earning_type) DO NOTHING. */
  function InsertOnce(es: seq<Earning>, e: Earning): seq<Earning> {
    if HasEarning(es, e.invoice, e.kind) then es else es + [e]
  }

  function Accrue(s: State, w: World, invoice: InvoiceId): (State, Reply) {
    if s.settings.None? then (s, Done)
    else if invoice !in w.invoices then (s, NotFound)
    else
      var cfg, inv := s.settings.value, w.invoices[invoice];
      var base := inv.subtotal - inv.discount;
      if inv.status != "paid" || !Eligible(cfg.enabled, base, cfg.minTotal) then (s, Done)
      else if inv.org !in w.creators || w.creators[inv.org].None? then (s, Done)
      else
        var payer := w.creators[inv.org].value;
        if payer !in w.users || w.users[payer].deleted then (s, QueryError)
        else
          var referrer := w.users[payer].referredBy;
          if referrer.None? || referrer.value == payer then (s, Done)
          else (s.(earnings := Accrued(s.earnings, cfg, inv, invoice, referrer.value, payer)), Done)
  }

  function CommissionRow(cfg: Settings, inv: Invoice, invoice: InvoiceId, referrer: UserId, payer: UserId): Earning {
    var base := inv.subtotal - inv.discount;
    Earning(referrer, payer, invoice, base, ComputeCommission(base, cfg.percent), 0.0, inv.currency,
            Approved, ReferrerCommission)
  }

  function BonusRow(cfg: Settings, inv: Invoice, invoice: InvoiceId, referrer: UserId, payer: UserId): Earning {
    var base := inv.subtotal - inv.discount;
    var bonus := ComputeCommission(base, cfg.bonusPercent);
    Earning(referrer, payer, invoice, base, bonus, bonus, inv.currency, Approved, RefereeBonus)
  }

  /** The two inserts; a zero commission suppresses the referee bonus as well. */
  function Accrued(es: seq<Earning>, cfg: Settings, inv: Invoice, invoice: InvoiceId,
                   referrer: UserId, payer: UserId): seq<Earning>
  {
    var commission := CommissionRow(cfg, inv, invoice, referrer, payer);
    if commission.amount <= 0.0 then es
    else
      var first := InsertOnce(es, commission);
      var bonus := BonusRow(cfg, inv, invoice, referrer, payer);
      if cfg.bonusPercent > 0.0 && bonus.amount > 0.0 then InsertOnce(first, bonus) else first
  }

  /** The rows an accrual that changed something has inserted, or would have. */
  lemma {:induction false} AccrualRows(s: State, w: World, invoice: InvoiceId) returns (e: Earning, b: Earning)
    requires Accrue(s, w, invoice).0 != s
    ensures RightfulRow(s, w, invoice, e) && e.kind == ReferrerCommission
    ensures b.kind == RefereeBonus && b.invoice == invoice
    ensures var first := InsertOnce(s.earnings, e);
            var es := Accrue(s, w, invoice).0.earnings;
            es == first || (RightfulRow(s, w, invoice, b) && es == InsertOnce(first, b))
  {
    var cfg, inv := s.settings.value, w.invoices[invoice];
    var payer := w.creators[inv.org].value;
    var referrer := w.users[payer].referredBy.value;
    e, b := CommissionRow(cfg, inv, invoice, referrer, payer), BonusRow(cfg, inv, invoice, referrer, payer);
  }

  /** Accruing the same invoice again with nothing else changed leaves the state equal. */
  lemma {:induction false} AccrualIsIdempotent(s: State, w: World, invoice: InvoiceId)
    ensures Accrue(Accrue(s, w, invoice).0, w, invoice) == Accrue(s, w, invoice)
  {
    if Accrue(s, w, invoice).0 != s {
      var cfg, inv := s.settings.value, w.invoices[invoice];
      var payer := w.creators[inv.org].value;
      var referrer := w.users[payer].referredBy.value;
      var e, b := CommissionRow(cfg, inv, invoice, referrer, payer), BonusRow(cfg, inv, invoice, referrer, payer);
      InsertedIsPresent(s.earnings, e);
      InsertedIsPresent(InsertOnce(s.earnings, e), b);
    }
  }

  lemma {:induction false} InsertedIsPresent(es: seq<Earning>, e: Earning)
    ensures HasEarning(InsertOnce(es, e), e.invoice, e.kind)
    ensures forall k, inv :: HasEarning(es, inv, k) ==> HasEarning(InsertOnce(es, e), inv, k)
  {
    var after := InsertOnce(es, e);
    assert after != es ==> after[|es|] == e;
    forall k, inv | HasEarning(es, inv, k) ensures HasEarning(after, inv, k) {
      var i :| 0 <= i < |es| && es[i].invoice == inv && es[i].kind == k;
      assert after[i] == es[i];
    }
  }

  /** Row `e` is what invoice `invoice` owes under the settings, to the right party. */
  predicate RightfulRow(s: State, w: World, invoice: InvoiceId, e: Earning) {
    && s.settings.Some? && s.settings.value.enabled
    && invoice in w.invoices && w.invoices[invoice].status == "paid"
    && e.invoice == invoice && e.currency == w.invoices[invoice].currency
    && e.base == w.invoices[invoice].subtotal - w.invoices[invoice].discount >= s.settings.value.minTotal
    && w.invoices[invoice].org in w.creators && w.creators[w.invoices[invoice].org] == Some(e.referee)
    && e.referee in w.users && w.users[e.referee].referredBy == Some(e.referrer)
    && e.referrer != e.referee
    && e.status == Approved
    && e.amount ==
       ComputeCommission(e.base,
                         if e.kind == ReferrerCommission then s.settings.value.percent
                         else s.settings.value.bonusPercent)
    && e.amount > 0.0
    && e.bonus == (if e.kind == RefereeBonus then e.amount else 0.0)
  }

  /** What an insert under the unique index adds. */
  predicate Extends(es: seq<Earning>, fs: seq<Earning>, s: State, w: World, invoice: InvoiceId) {
    && es <= fs
    && forall i :: |es| <= i < |fs| ==>
         && RightfulRow(s, w, invoice, fs[i])
         && !HasEarning(es, invoice, fs[i].kind)
         && (fs[i].kind == RefereeBonus ==> HasEarning(fs[..i], invoice, ReferrerCommission))
  }

  lemma {:induction false} InsertExtends(es: seq<Earning>, s: State, w: World, invoice: InvoiceId, e: Earning)
    requires RightfulRow(s, w, invoice, e)
    requires e.kind == RefereeBonus ==> HasEarning(es, invoice, ReferrerCommission)
    ensures Extends(es, InsertOnce(es, e), s, w, invoice) && |InsertOnce(es, e)| <= |es| + 1
  {
    var fs := InsertOnce(es, e);
    assert fs[..|es|] == es;
  }

  lemma {:induction false} ExtendsTwice(es: seq<Earning>, fs: seq<Earning>, gs: seq<Earning>,
                                        s: State, w: World, invoice: InvoiceId)
    requires Extends(es, fs, s, w, invoice) && Extends(fs, gs, s, w, invoice)
    ensures Extends(es, gs, s, w, invoice)
  {
    forall i | |es| <= i < |gs|
      ensures RightfulRow(s, w, invoice, gs[i]) && !HasEarning(es, invoice, gs[i].kind)
      ensures gs[i].kind == RefereeBonus ==> HasEarning(gs[..i], invoice, ReferrerCommission)
    {
      if i < |fs| {
        assert gs[i] == fs[i] && gs[..i] == fs[..i];
      } else {
        if HasEarning(es, invoice, gs[i].kind) {
          StillPresent(es, fs, invoice, gs[i].kind);
        }
      }
    }
  }

  lemma {:induction false} StillPresent(es: seq<Earning>, fs: seq<Earning>, invoice: InvoiceId, kind: Kind)
    requires es <= fs && HasEarning(es, invoice, kind)
    ensures HasEarning(fs, invoice, kind)
  {
    var i :| 0 <= i < |es| && es[i].invoice == invoice && es[i].kind == kind;
    assert fs[i] == es[i];
  }

  /** An accrual keeps all rows and adds only rows the invoice owes: the commission at most once,
      and the referee's bonus only in the presence of a commission of the same invoice. */
  lemma {:induction false} AccrualAddsRightfulRows(s: State, w: World, invoice: InvoiceId)
    ensures var es := Accrue(s, w, invoice).0.earnings;
            Extends(s.earnings, es, s, w, invoice) && |es| <= |s.earnings| + 2
  {
    if Accrue(s, w, invoice).0 != s {
      var e, b := AccrualRows(s, w, invoice);
      var first := InsertOnce(s.earnings, e);
      InsertExtends(s.earnings, s, w, invoice, e);
      InsertedIsPresent(s.earnings, e);
      if Accrue(s, w, invoice).0.earnings != first {
        InsertExtends(first, s, w, invoice, b);
        ExtendsTwice(s.earnings, first, InsertOnce(first, b), s, w, invoice);
      }
    }
  }

  /** An eligible invoice with a referrer and a positive commission has its commission row after
      the accrual. */
  lemma {:induction false} AccrualIsComplete(s: State, w: World, invoice: InvoiceId, e: Earning)
    requires RightfulRow(s, w, invoice, e) && !w.users[e.referee].deleted
    requires e.kind == RefereeBonus ==> ComputeCommission(e.base, s.settings.value.percent) > 0.0
    ensures HasEarning(Accrue(s, w, invoice).0.earnings, invoice, e.kind)
    ensures HasEarning(s.earnings, invoice, e.kind) || e in Accrue(s, w, invoice).0.earnings
  {
    var cfg, inv := s.settings.value, w.invoices[invoice];
    var c := CommissionRow(cfg, inv, invoice, e.referrer, e.referee);
    var b := BonusRow(cfg, inv, invoice, e.referrer, e.referee);
    assert e == c || e == b;
    InsertedIsPresent(s.earnings, c);
    InsertedIsPresent(InsertOnce(s.earnings, c), b);
  }

  /** The payer of an invoice: the creator of its organization, when the invoice counts at all. */
  predicate Pays(s: State, w: World, invoice: InvoiceId, payer: UserId) {
    && s.settings.Some? && s.settings.value.enabled && invoice in w.invoices
    && var inv := w.invoices[invoice];
    && inv.status == "paid" && inv.subtotal - inv.discount >= s.settings.value.minTotal
    && inv.org in w.creators && w.creators[inv.org] == Some(payer)
  }

  /** The replies by case: a missing invoice is reported only while the program is configured, and
      an unreadable payer only for an invoice that counts; every other accrual succeeds. */
  lemma {:induction false} AccrualReplies(s: State, w: World, invoice: InvoiceId)
    ensures var reply := Accrue(s, w, invoice).1;
            && (reply == NotFound <==> s.settings.Some? && invoice !in w.invoices)
            && (reply == QueryError <==>
                exists payer :: Pays(s, w, invoice, payer) && (payer !in w.users || w.users[payer].deleted))
            && reply in {Done, NotFound, QueryError}
            && (reply != Done ==> Accrue(s, w, invoice).0 == s)
  {
    if Accrue(s, w, invoice).1 == QueryError {
      assert Pays(s, w, invoice, w.creators[w.invoices[invoice].org].value);
    }
  }

  // ----- Reversal and settings -----

  function ReverseEarning(s: State, id: nat): (State, Reply) {
    if id >= |s.earnings| then (s, NotFound)
    else if s.earnings[id].status != Approved then (s, InvalidState)
    else (s.(earnings := s.earnings[id := s.earnings[id].(status := Reversed)]), Done)
  }

  /** Reversal succeeds exactly on an approved row, and then changes that row's status alone;
      a row that exists but is settled is refused, and nothing else changes. */
  lemma {:induction false} ReversalExactly(s: State, id: nat)
    ensures var (t, reply) := ReverseEarning(s, id);
            && (reply == Done <==> id < |s.earnings| && s.earnings[id].status == Approved)
            && (reply == NotFound <==> id >= |s.earnings|)
            && t.settings == s.settings && t.books == s.books && |t.earnings| == |s.earnings|
            && (forall i :: 0 <= i < |s.earnings| && (i != id || reply != Done) ==> t.earnings[i] == s.earnings[i])
            && (reply == Done ==> t.earnings[id] == s.earnings[id].(status := Reversed))
  {
  }

  datatype SettingsInput = SettingsInput(
    percent: Option<real>,
    bonusPercent: Option<real>,
    minTotal: Option<real>,
    enabled: Option<bool>)

  /** A change is refused exactly for a percentage outside 0 to 100 or a negative minimum, and then
      changes nothing; otherwise each field takes its input, or keeps its value, or starts from
      the table's default, and nothing else changes. */
  lemma {:induction false} SettingsChangeExactly(s: State, input: SettingsInput)
    ensures var (t, reply) := ChangeSettings(s, input);
            var outside := (x: Option<real>) => x.Some? && (x.value < 0.0 || x.value > 100.0);
            && t.earnings == s.earnings && t.books == s.books
            && (reply == Invalid <==> outside(input.percent) || outside(input.bonusPercent) ||
                                      (input.minTotal.Some? && input.minTotal.value < 0.0))
            && (reply == Invalid || reply == Done)
            && (reply == Invalid ==> t == s)
            && (reply == Done ==>
                  && t.settings.Some?
                  && (input.percent.Some? ==> t.settings.value.percent == input.percent.value)
                  && (input.bonusPercent.Some? ==> t.settings.value.bonusPercent == input.bonusPercent.value)
                  && (input.minTotal.Some? ==> t.settings.value.minTotal == input.minTotal.value)
                  && (input.enabled.Some? ==> t.settings.value.enabled == input.enabled.value)
                  && (input.percent.None? ==>
                        t.settings.value.percent == if s.settings.Some? then s.settings.value.percent else 5.0)
                  && (input.bonusPercent.None? ==>
                        t.settings.value.bonusPercent ==
                        if s.settings.Some? then s.settings.value.bonusPercent else 0.0)
                  && (input.minTotal.None? ==>
                        t.settings.value.minTotal == if s.settings.Some? then s.settings.value.minTotal else 0.0)
                  && (input.enabled.None? ==>
                        t.settings.value.enabled == (s.settings.Some? ==> s.settings.value.enabled)))
  {
  }

  function Coalesce<T>(input: Option<T>, current: T): T {
    if input.Some? then input.value else current
  }

  function ChangeSettings(s: State, input: SettingsInput): (State, Reply) {
    if (input.percent.Some? && !(0.0 <= input.percent.value <= 100.0)) ||
       (input.bonusPercent.Some? && !(0.0 <= input.bonusPercent.value <= 100.0)) ||
       (input.minTotal.Some? && input.minTotal.value < 0.0)
    then (s, Invalid)
    else
      var cfg := if s.settings.Some? then s.settings.value else Settings(5.0, 0.0, 0.0, true);
      (s.(settings := Some(Settings(Coalesce(input.percent, cfg.percent),
                                    Coalesce(input.bonusPercent, cfg.bonusPercent),
                                    Coalesce(input.minTotal, cfg.minTotal),
                                    Coalesce(input.enabled, cfg.enabled)))), Done)
  }

  // ----- Withdrawal -----

  /** Who is paid for an earning. */
  function Beneficiary(e: Earning): UserId {
    if e.kind == ReferrerCommission then e.referrer else e.referee
  }

  predicate Payable(e: Earning, user: UserId) {
    e.status == Approved && Beneficiary(e) == user
  }

  /** Sum of the amounts of the rows selected by `keep`. */
  function Total(es: seq<Earning>, keep: Earning -> bool): real {
    if es == [] then 0.0
    else
      var last := es[|es| - 1];
      Total(es[..|es| - 1], keep) + if keep(last) then last.amount else 0.0
  }

  function PayableIn(user: UserId, currency: string): Earning -> bool {
    (e: Earning) => Payable(e, user) && e.currency == currency
  }

  function PaidIn(currency: string): Earning -> bool {
    (e: Earning) => e.status == Paid && e.currency == currency
  }

  function Owed(es: seq<Earning>, user: UserId, currency: string): real {
    Total(es, PayableIn(user, currency))
  }

  /** UPDATE ... SET status='paid' WHERE status='approved' AND currency AND beneficiary. */
  function MarkPaid(es: seq<Earning>, user: UserId, currency: string): seq<Earning> {
    seq(|es|, i requires 0 <= i < |es| =>
      if Payable(es[i], user) && es[i].currency == currency then es[i].(status := Paid) else es[i])
  }

  function CreditPayout(b: Books, id: WalletId, amount: real): Outcome {
    ApplyTransaction(EnsureWallet(b, id), id, "credit", amount, PAYOUT, "")
  }

  lemma {:induction false} CreditAcceptedIffPositive(b: Books, id: WalletId, amount: real)
    ensures CreditPayout(b, id, amount).Applied? <==> amount > 0.0
  {
  }

  /** One currency of a withdrawal; None when the wallet rejects the credit. */
  function PayCurrency(s: State, user: UserId, org: OrgId, currency: string): Option<State> {
    var id := WalletId(org, currency);
    var r := CreditPayout(s.books, id, Owed(s.earnings, user, currency));
    if r.Applied? then Some(State(s.settings, MarkPaid(s.earnings, user, currency), r.books)) else None
  }

  function PayAll(s: State, user: UserId, org: OrgId, order: seq<string>): Option<State>
    decreases |order|
  {
    if order == [] then Some(s)
    else
      var next := PayCurrency(s, user, org, order[0]);
      if next.None? then None else PayAll(next.value, user, org, order[1..])
  }

  /** `order` lists each currency with a payable earning once, ascending. */
  predicate PayoutOrder(es: seq<Earning>, user: UserId, order: seq<string>) {
    && Sorted(order) && Distinct(order)
    && (forall i :: 0 <= i < |es| && Payable(es[i], user) ==> es[i].currency in order)
    && (forall c :: c in order ==> HasPayableIn(es, user, c))
  }

  predicate PayoutsMatch(es: seq<Earning>, user: UserId, order: seq<string>, payouts: seq<(string, real)>) {
    |payouts| == |order| && forall k :: 0 <= k < |order| ==> payouts[k] == (order[k], Owed(es, user, order[k]))
  }

  /** A withdrawal that pays currencies in `order` leads from `s` to `t`. */
  predicate Settles(s: State, user: UserId, org: OrgId, order: seq<string>, t: State, payouts: seq<(string, real)>) {
    && order != []
    && PayoutOrder(s.earnings, user, order)
    && PayAll(s, user, org, order) == Some(t)
    && PayoutsMatch(s.earnings, user, order, payouts)
  }

  datatype WithdrawReply = PaidOut(payouts: seq<(string, real)>) | Forbidden | NothingToWithdraw | Failed

  class Affiliate {
    var settings: Option<Settings>
    var earnings: seq<Earning>
    var books: Books

    function Contents(): State
      reads this
    {
      State(settings, earnings, books)
    }

    constructor ()
      ensures Contents() == INITIAL
    {
      settings, earnings, books := None, [], Books(map[], []);
    }

    /** One insert under the unique index on invoice and kind. */
    method Insert(e: Earning)
      modifies this`earnings
      ensures earnings == InsertOnce(old(earnings), e)
    {
      var i := 0;
      while i < |earnings|
        invariant 0 <= i <= |earnings|
        invariant !HasEarning(earnings[..i], e.invoice, e.kind)
      {
        if earnings[i].invoice == e.invoice && earnings[i].kind == e.kind {
          return;
        }
        assert earnings[..i + 1][..i] == earnings[..i];
        i := i + 1;
      }
      assert earnings[..i] == earnings;
      earnings := earnings + [e];
    }

    method RecordCommission(w: World, invoice: InvoiceId) returns (reply: Reply)
      modifies this
      ensures (Contents(), reply) == Accrue(old(Contents()), w, invoice)
    {
      if settings.None? {
        return Done;
      }
      if invoice !in w.invoices {
        return NotFound;
      }
      var cfg, inv := settings.value, w.invoices[invoice];
      var base := inv.subtotal - inv.discount;
      if inv.status != "paid" || !Eligible(cfg.enabled, base, cfg.minTotal) {
        return Done;
      }
      if inv.org !in w.creators || w.creators[inv.org].None? {
        return Done;
      }
      var payer := w.creators[inv.org].value;
      if payer !in w.users || w.users[payer].deleted {
        return QueryError;
      }
      var referrer := w.users[payer].referredBy;
      var commission := ComputeCommission(base, cfg.percent);
      if referrer.None? || referrer.value == payer || commission <= 0.0 {
        return Done;
      }
      Insert(Earning(referrer.value, payer, invoice, base, commission, 0.0, inv.currency,
                     Approved, ReferrerCommission));
      if cfg.bonusPercent > 0.0 {
        var bonus := ComputeCommission(base, cfg.bonusPercent);
        if bonus > 0.0 {
          Insert(Earning(referrer.value, payer, invoice, base, bonus, bonus, inv.currency, Approved, RefereeBonus));
        }
      }
      reply := Done;
    }

    method Reverse(id: nat) returns (reply: Reply)
      modifies this`earnings
      ensures (Contents(), reply) == ReverseEarning(old(Contents()), id)
    {
      if id < |earnings| && earnings[id].status == Approved {
        earnings := earnings[id := earnings[id].(status := Reversed)];
        return Done;
      }
      reply := if id >= |earnings| then NotFound else InvalidState;
    }

    /** Sums the payable rows per currency, then credits and marks one currency at a time;
        any failure rolls the whole transaction back. */
    method Withdraw(user: UserId, org: OrgId, member: bool) returns (reply: WithdrawReply)
      modifies this
      ensures StepTo(old(Contents()), Withdrawal(user, org, member), Contents())
      ensures !reply.PaidOut? ==> Contents() == old(Contents())
      ensures reply.PaidOut? ==>
                exists order :: Settles(old(Contents()), user, org, order, Contents(), reply.payouts)
      ensures reply == Forbidden <==> !member
      ensures member ==>
                (reply == NothingToWithdraw <==> NothingPayable(old(earnings), user))
      ensures reply == Failed ==> HasBadAmount(old(earnings))
      ensures reply.PaidOut? ==>
                && PaysOut(old(Contents()), user, org, Contents())
                && forall k :: 0 <= k < |reply.payouts| ==>
                     reply.payouts[k].1 == TurnedPaid(old(earnings), earnings, reply.payouts[k].0)
      ensures member ==>
                (reply == NothingToWithdraw <==>
                 forall i :: 0 <= i < |old(earnings)| ==> !DueTo(old(earnings)[i], user))
    {
      if !member {
        return Forbidden;
      }
      var totals := SumPayable(earnings, user);
      EmptyTotalsExactly(earnings, user, totals);
      PayableIsDue(earnings, user);
      if totals == map[] {
        return NothingToWithdraw;
      }
      var order := SortedKeys(totals.Keys);
      KeysAreOrder(earnings, user, totals, order);
      var paid, payouts := PayOut(Contents(), user, org, order, totals);
      if paid.None? {
        return Failed;
      }
      assert order != [] by {
        var c :| c in totals;
        assert c in order;
      }
      settings, earnings, books := paid.value.settings, paid.value.earnings, paid.value.books;
      reply := PaidOut(payouts);
      assert Contents() == paid.value;
      assert Settles(old(Contents()), user, org, order, Contents(), reply.payouts);
      WithdrawalPays(old(Contents()), user, org, order, Contents());
    }
  }

  predicate NothingPayable(rows: seq<Earning>, user: UserId) {
    forall i :: 0 <= i < |rows| ==> !Payable(rows[i], user)
  }

  predicate HasBadAmount(rows: seq<Earning>) {
    exists i :: 0 <= i < |rows| && rows[i].amount <= 0.0
  }

  predicate HasPayableIn(rows: seq<Earning>, user: UserId, currency: string) {
    exists i :: 0 <= i < |rows| && Payable(rows[i], user) && rows[i].currency == currency
  }

  predicate TotalsOf(rows: seq<Earning>, user: UserId, totals: map<string, real>) {
    && (forall i :: 0 <= i < |rows| && Payable(rows[i], user) ==> rows[i].currency in totals)
    && (forall c :: c in totals ==> HasPayableIn(rows, user, c) && totals[c] == Owed(rows, user, c))
  }

  lemma {:induction false} EmptyTotalsExactly(rows: seq<Earning>, user: UserId, totals: map<string, real>)
    requires TotalsOf(rows, user, totals)
    ensures totals == map[] <==> NothingPayable(rows, user)
  {
    if totals != map[] {
      var c :| c in totals;
      assert HasPayableIn(rows, user, c);
    }
  }

  lemma {:induction false} KeysAreOrder(rows: seq<Earning>, user: UserId, totals: map<string, real>, order: seq<string>)
    requires TotalsOf(rows, user, totals) && Sorted(order) && Distinct(order)
    requires forall c :: c in order <==> c in totals.Keys
    ensures PayoutOrder(rows, user, order)
  {
  }

  lemma {:induction false} RefusalMeansBadAmount(rows: seq<Earning>, user: UserId, currency: string)
    requires HasPayableIn(rows, user, currency) && Owed(rows, user, currency) <= 0.0
    ensures HasBadAmount(rows)
  {
    if forall i :: 0 <= i < |rows| ==> rows[i].amount > 0.0 {
      PositiveMeansOwed(rows, user, currency);
      assert false;
    }
  }

  /** The summing query: per currency, the running total of the user's payable rows. */
  method SumPayable(rows: seq<Earning>, user: UserId) returns (totals: map<string, real>)
    ensures TotalsOf(rows, user, totals)
  {
    totals := map[];
    for i := 0 to |rows|
      invariant forall j :: 0 <= j < i && Payable(rows[j], user) ==> rows[j].currency in totals
      invariant forall c :: c in totals ==>
                  exists j :: 0 <= j < i && Payable(rows[j], user) && rows[j].currency == c
      invariant forall c :: c in totals ==> totals[c] == Owed(rows[..i], user, c)
    {
      var e := rows[i];
      assert rows[..i + 1][..i] == rows[..i];
      if Payable(e, user) {
        if e.currency !in totals {
          NothingOwed(rows[..i], user, e.currency);
        }
        var sofar := if e.currency in totals then totals[e.currency] else 0.0;
        totals := totals[e.currency := sofar + e.amount];
      }
    }
    assert rows[..|rows|] == rows;
  }

  /** The payout loop: credit the collected total, then mark rows by predicate. */
  method PayOut(start: State, user: UserId, org: OrgId, order: seq<string>, totals: map<string, real>)
    returns (paid: Option<State>, payouts: seq<(string, real)>)
    requires PayoutOrder(start.earnings, user, order)
    requires forall c :: c in order ==> c in totals && totals[c] == Owed(start.earnings, user, c)
    ensures paid == PayAll(start, user, org, order)
    ensures paid.None? ==> HasBadAmount(start.earnings)
    ensures paid.Some? ==> PayoutsMatch(start.earnings, user, order, payouts)
  {
    var s := start;
    payouts := [];
    for k := 0 to |order|
      invariant PayAll(s, user, org, order[k..]) == PayAll(start, user, org, order)
      invariant forall l :: k <= l < |order| ==> totals[order[l]] == Owed(s.earnings, user, order[l])
      invariant |payouts| == k
      invariant forall l :: 0 <= l < k ==> payouts[l] == (order[l], totals[order[l]])
    {
      var currency := order[k];
      assert order[k..][0] == currency && order[k..][1..] == order[k + 1..];
      var id := WalletId(org, currency);
      var r := CreditPayout(s.books, id, totals[currency]);
      CreditAcceptedIffPositive(s.books, id, totals[currency]);
      if r.Rejected? {
        RefusalMeansBadAmount(start.earnings, user, currency);
        return None, payouts;
      }
      var marked := MarkPaid(s.earnings, user, currency);
      if marked == s.earnings {
        // No row affected: the source answers "earnings changed during payout".
        NothingMarked(s.earnings, user, currency);
        assert false;
      }
      forall l | k + 1 <= l < |order| ensures Owed(marked, user, order[l]) == Owed(s.earnings, user, order[l]) {
        assert order[k] != order[l];
        MarkLeavesOthersOwed(s.earnings, user, currency, order[l]);
      }
      s := State(s.settings, marked, r.books);
      payouts := payouts + [(currency, totals[currency])];
    }
    assert order[|order|..] == [];
    paid := Some(s);
  }

  /** Collects the keys of the totals map and sorts them in place. */
  method SortedKeys(keys: set<string>) returns (order: seq<string>)
    ensures Sorted(order) && Distinct(order)
    ensures forall c :: c in order <==> c in keys
  {
    var out: seq<string> := [];
    var rest := keys;
    while rest != {}
      invariant rest <= keys
      invariant forall c :: c in out <==> c in keys - rest
      invariant Distinct(out)
      decreases rest
    {
      var c :| c in rest;
      assert c !in out;
      forall i, j | 0 <= i < j < |out + [c]| ensures (out + [c])[i] != (out + [c])[j] {
        assert out[i] in out;
      }
      out := out + [c];
      rest := rest - {c};
    }
    var a := new string[|out|](i requires 0 <= i < |out| => out[i]);
    assert a[..] == out;
    SortCurrencies(a);
    order := a[..];
    SameElementsDistinct(out, order);
  }

  lemma {:induction false} SameElementsDistinct(a: seq<string>, b: seq<string>)
    requires multiset(a) == multiset(b) && Distinct(a)
    ensures Distinct(b) && forall c :: c in b <==> c in a
  {
    forall c ensures c in b <==> c in a {
      assert c in multiset(a) <==> c in a;
      assert c in multiset(b) <==> c in b;
    }
    if !Distinct(b) {
      var i, j :| 0 <= i < j < |b| && b[i] == b[j];
      assert b == b[..i] + [b[i]] + b[i + 1..j] + [b[j]] + b[j + 1..];
      assert multiset(b)[b[i]] >= 2;
      OccursOnce(a, b[i]);
      assert false;
    }
  }

  lemma {:induction false} OccursOnce(s: seq<string>, c: string)
    requires Distinct(s)
    ensures multiset(s)[c] <= 1
  {
    if s != [] {
      assert s == [s[0]] + s[1..];
      OccursOnce(s[1..], c);
      if c == s[0] {
        assert c !in s[1..];
      }
    }
  }

  lemma {:induction false} NothingOwed(es: seq<Earning>, user: UserId, currency: string)
    requires forall i :: 0 <= i < |es| && Payable(es[i], user) ==> es[i].currency != currency
    ensures Owed(es, user, currency) == 0.0
  {
    if es != [] {
      NothingOwed(es[..|es| - 1], user, currency);
    }
  }

  lemma {:induction false} NothingMarked(es: seq<Earning>, user: UserId, currency: string)
    requires MarkPaid(es, user, currency) == es
    ensures Owed(es, user, currency) == 0.0
  {
    forall i | 0 <= i < |es| && Payable(es[i], user) ensures es[i].currency != currency {
      assert MarkPaid(es, user, currency)[i] == es[i];
    }
    NothingOwed(es, user, currency);
  }

  lemma {:induction false} PositiveMeansOwed(es: seq<Earning>, user: UserId, currency: string)
    requires forall i :: 0 <= i < |es| ==> es[i].amount > 0.0
    ensures Owed(es, user, currency) >= 0.0
    ensures HasPayableIn(es, user, currency) ==>
              Owed(es, user, currency) > 0.0
  {
    if es != [] {
      PositiveMeansOwed(es[..|es| - 1], user, currency);
    }
  }

  lemma {:induction false} MarkDropsLast(es: seq<Earning>, user: UserId, currency: string)
    requires es != []
    ensures MarkPaid(es, user, currency)[..|es| - 1] == MarkPaid(es[..|es| - 1], user, currency)
  {
  }

  lemma {:induction false} MarkLeavesOthersOwed(es: seq<Earning>, user: UserId, currency: string, other: string)
    requires currency != other
    ensures Owed(MarkPaid(es, user, currency), user, other) == Owed(es, user, other)
  {
    if es != [] {
      MarkDropsLast(es, user, currency);
      MarkLeavesOthersOwed(es[..|es| - 1], user, currency, other);
    }
  }

  /** Marking one currency moves exactly what was owed in it from approved to paid. */
  lemma {:induction false} MarkMovesOwed(es: seq<Earning>, user: UserId, currency: string, c: string)
    ensures Total(MarkPaid(es, user, currency), PaidIn(c)) ==
            Total(es, PaidIn(c)) + if c == currency then Owed(es, user, currency) else 0.0
  {
    if es != [] {
      MarkDropsLast(es, user, currency);
      MarkMovesOwed(es[..|es| - 1], user, currency, c);
    }
  }

  // ----- What a withdrawal does, read off rows and wallets -----

  /** The row is due to the user: commissions to the referrer, bonuses to the referee. */
  predicate DueTo(e: Earning, user: UserId) {
    && e.status == Approved
    && (|| (e.kind == ReferrerCommission && e.referrer == user)
        || (e.kind == RefereeBonus && e.referee == user))
  }

  /** The total of the rows of one currency that were not paid before and are paid after. */
  function TurnedPaid(before: seq<Earning>, after: seq<Earning>, c: string): real
    requires |before| == |after|
  {
    if before == [] then 0.0
    else
      var n := |before| - 1;
      TurnedPaid(before[..n], after[..n], c) +
      if before[n].status != Paid && after[n].status == Paid && before[n].currency == c then before[n].amount else 0.0
  }

  /** Exactly the rows due to the user turn paid, and exactly the organization's wallets rise, each
      by the total of the rows of its currency that turned paid, with one credit entry for each
      movement. */
  ghost predicate PaysOut(s: State, user: UserId, org: OrgId, t: State) {
    && t.settings == s.settings
    && |t.earnings| == |s.earnings|
    && (forall i :: 0 <= i < |s.earnings| ==>
          t.earnings[i] == if DueTo(s.earnings[i], user) then s.earnings[i].(status := Paid) else s.earnings[i])
    && (forall id: WalletId ::
          BalanceOf(t.books, id) ==
          BalanceOf(s.books, id) + if id.org == org then TurnedPaid(s.earnings, t.earnings, id.currency) else 0.0)
    && PayoutEntries(s.books.ledger, t.books.ledger, org)
  }

  /** The ledger only grew, by payout credits to wallets of the organization. */
  ghost predicate PayoutEntries(before: seq<Entry>, after: seq<Entry>, org: OrgId) {
    && before <= after
    && forall j :: |before| <= j < |after| ==>
         after[j].wallet.org == org && after[j].direction == "credit" && after[j].reference == "affiliate_payout"
  }

  lemma {:induction false} PayableIsDue(rows: seq<Earning>, user: UserId)
    ensures forall i :: 0 <= i < |rows| ==> (Payable(rows[i], user) <==> DueTo(rows[i], user))
  {
  }

  lemma {:induction false} PayCurrencyEffect(s: State, user: UserId, org: OrgId, currency: string)
    requires PayCurrency(s, user, org, currency).Some?
    ensures var t := PayCurrency(s, user, org, currency).value;
            && t.settings == s.settings && t.earnings == MarkPaid(s.earnings, user, currency)
            && PayoutEntries(s.books.ledger, t.books.ledger, org)
            && forall id: WalletId ::
                 BalanceOf(t.books, id) ==
                 BalanceOf(s.books, id) +
                 if id == WalletId(org, currency) then Owed(s.earnings, user, currency) else 0.0
  {
  }

  /** The currencies paid one after the other, each from what was owed at the start. */
  lemma {:induction false} PayAllEffect(s: State, user: UserId, org: OrgId, order: seq<string>)
    requires Distinct(order) && PayAll(s, user, org, order).Some?
    ensures var t := PayAll(s, user, org, order).value;
            && t.settings == s.settings && |t.earnings| == |s.earnings|
            && PayoutEntries(s.books.ledger, t.books.ledger, org)
            && (forall i :: 0 <= i < |s.earnings| ==>
                  t.earnings[i] == if Payable(s.earnings[i], user) && s.earnings[i].currency in order
                                   then s.earnings[i].(status := Paid) else s.earnings[i])
            && forall id: WalletId ::
                 BalanceOf(t.books, id) ==
                 BalanceOf(s.books, id) +
                 if id.org == org && id.currency in order then Owed(s.earnings, user, id.currency) else 0.0
    decreases |order|
  {
    if order != [] {
      var first, rest := order[0], order[1..];
      PayCurrencyEffect(s, user, org, first);
      var u := PayCurrency(s, user, org, first).value;
      PayAllEffect(u, user, org, rest);
      assert order == [first] + rest && first !in rest;
      forall c | c in rest ensures Owed(u.earnings, user, c) == Owed(s.earnings, user, c) {
        MarkLeavesOthersOwed(s.earnings, user, first, c);
      }
    }
  }

  lemma {:induction false} TurnedIsOwed(before: seq<Earning>, after: seq<Earning>, user: UserId, order: seq<string>,
                                        c: string)
    requires |before| == |after|
    requires forall i :: 0 <= i < |before| ==>
               after[i] == if Payable(before[i], user) && before[i].currency in order
                           then before[i].(status := Paid) else before[i]
    ensures TurnedPaid(before, after, c) == if c in order then Owed(before, user, c) else 0.0
  {
    if before != [] {
      var n := |before| - 1;
      TurnedIsOwed(before[..n], after[..n], user, order, c);
    }
  }

  /** A withdrawal pays exactly the rows due to the user, into exactly the organization's wallets. */
  lemma {:induction false} WithdrawalPays(s: State, user: UserId, org: OrgId, order: seq<string>, t: State)
    requires PayoutOrder(s.earnings, user, order) && PayAll(s, user, org, order) == Some(t)
    ensures PaysOut(s, user, org, t)
    ensures forall c :: c in order ==> TurnedPaid(s.earnings, t.earnings, c) == Owed(s.earnings, user, c)
  {
    PayAllEffect(s, user, org, order);
    PayableIsDue(s.earnings, user);
    forall c ensures TurnedPaid(s.earnings, t.earnings, c) == if c in order then Owed(s.earnings, user, c) else 0.0 {
      TurnedIsOwed(s.earnings, t.earnings, user, order, c);
    }
  }

  // ----- Runs -----

  datatype Action =
    | Accrual(world: World, invoice: InvoiceId)
    | SettingsChange(input: SettingsInput)
    | Withdrawal(user: UserId, org: OrgId, member: bool)
    | Reversal(id: nat)

  const INITIAL := State(None, [], Books(map[], []))

  ghost predicate StepTo(s: State, a: Action, t: State) {
    match a
    case Accrual(w, invoice) => t == Accrue(s, w, invoice).0
    case SettingsChange(input) => t == ChangeSettings(s, input).0
    case Reversal(id) => t == ReverseEarning(s, id).0
    case Withdrawal(user, org, member) =>
      t == s ||
      (member && exists order :: PayoutOrder(s.earnings, user, order) && PayAll(s, user, org, order) == Some(t))
  }

  ghost predicate Behaviour(states: seq<State>, actions: seq<Action>) {
    && |states| == |actions| + 1
    && states[0] == INITIAL
    && forall i :: 0 <= i < |actions| ==> StepTo(states[i], actions[i], states[i + 1])
  }

  /** Total of the wallet credits made by affiliate payouts in one currency. */
  function Credited(ledger: seq<Entry>, currency: string): real {
    if ledger == [] then 0.0
    else
      var last := ledger[|ledger| - 1];
      Credited(ledger[..|ledger| - 1], currency) +
      if last.reference == PAYOUT && last.wallet.currency == currency then last.amount else 0.0
  }

  ghost predicate Conserved(s: State) {
    forall c: string :: Credited(s.books.ledger, c) == Total(s.earnings, PaidIn(c))
  }

  predicate OnePerInvoiceAndKind(es: seq<Earning>) {
    forall i, j :: 0 <= i < j < |es| ==> es[i].invoice != es[j].invoice || es[i].kind != es[j].kind
  }

  ghost predicate Inv(s: State) {
    && Sound(s.books)
    && Conserved(s)
    && OnePerInvoiceAndKind(s.earnings)
    && (forall i :: 0 <= i < |s.earnings| ==> s.earnings[i].amount > 0.0)
  }

  /** Rows are never removed, only their status changes, and only away from 'approved'. */
  predicate Evolves(es: seq<Earning>, fs: seq<Earning>) {
    && |es| <= |fs|
    && forall i :: 0 <= i < |es| ==>
         && fs[i] == es[i].(status := fs[i].status)
         && (es[i].status != Approved ==> fs[i].status == es[i].status)
  }

  /** One payout credits its wallet with exactly what it marks as paid. */
  lemma {:induction false} PayCurrencyConserves(s: State, user: UserId, org: OrgId, currency: string, c: string)
    requires Conserved(s) && PayCurrency(s, user, org, currency).Some?
    ensures var t := PayCurrency(s, user, org, currency).value;
            Credited(t.books.ledger, c) == Total(t.earnings, PaidIn(c))
  {
    var t := PayCurrency(s, user, org, currency).value;
    MarkMovesOwed(s.earnings, user, currency, c);
    assert t.books.ledger[..|t.books.ledger| - 1] == s.books.ledger;
  }

  lemma {:induction false} PayCurrencyKeepsInv(s: State, user: UserId, org: OrgId, currency: string)
    requires Inv(s) && PayCurrency(s, user, org, currency).Some?
    ensures var t := PayCurrency(s, user, org, currency).value; Inv(t) && Evolves(s.earnings, t.earnings)
  {
    var id := WalletId(org, currency);
    EnsureWalletKeepsSound(s.books, id);
    ApplyKeepsSound(EnsureWallet(s.books, id), id, "credit", Owed(s.earnings, user, currency), PAYOUT, "");
    forall c: string
      ensures var t := PayCurrency(s, user, org, currency).value;
              Credited(t.books.ledger, c) == Total(t.earnings, PaidIn(c))
    {
      PayCurrencyConserves(s, user, org, currency, c);
    }
  }

  lemma {:induction false} PayAllKeepsInv(s: State, user: UserId, org: OrgId, order: seq<string>)
    requires Inv(s) && PayAll(s, user, org, order).Some?
    ensures var t := PayAll(s, user, org, order).value; Inv(t) && Evolves(s.earnings, t.earnings)
    decreases |order|
  {
    if order != [] {
      PayCurrencyKeepsInv(s, user, org, order[0]);
      PayAllKeepsInv(PayCurrency(s, user, org, order[0]).value, user, org, order[1..]);
    }
  }

  lemma {:induction false} UnpaidAppendKeepsTotals(es: seq<Earning>, e: Earning, c: string)
    requires e.status != Paid
    ensures Total(es + [e], PaidIn(c)) == Total(es, PaidIn(c))
  {
    assert (es + [e])[..|es|] == es;
  }

  lemma {:induction false} InsertKeepsInv(s: State, e: Earning)
    requires Inv(s) && e.status == Approved && e.amount > 0.0
    ensures var t := s.(earnings := InsertOnce(s.earnings, e)); Inv(t) && Evolves(s.earnings, t.earnings)
  {
    var t := s.(earnings := InsertOnce(s.earnings, e));
    forall c: string ensures Total(t.earnings, PaidIn(c)) == Total(s.earnings, PaidIn(c)) {
      UnpaidAppendKeepsTotals(s.earnings, e, c);
    }
  }

  lemma {:induction false} StatusChangeKeepsPaid(es: seq<Earning>, id: nat, c: string)
    requires id < |es| && es[id].status == Approved
    ensures Total(es[id := es[id].(status := Reversed)], PaidIn(c)) == Total(es, PaidIn(c))
  {
    var fs := es[id := es[id].(status := Reversed)];
    if id < |es| - 1 {
      StatusChangeKeepsPaid(es[..|es| - 1], id, c);
      assert fs[..|es| - 1] == es[..|es| - 1][id := es[id].(status := Reversed)];
    } else {
      assert fs[..|es| - 1] == es[..|es| - 1];
    }
  }

  lemma {:induction false} StepKeepsInv(s: State, a: Action, t: State)
    requires Inv(s) && StepTo(s, a, t)
    ensures Inv(t) && Evolves(s.earnings, t.earnings)
  {
    match a
    case Accrual(w, invoice) => AccrueKeepsInv(s, w, invoice);
    case SettingsChange(input) => assert t.earnings == s.earnings && t.books == s.books;
    case Reversal(id) =>
      if t != s {
        forall c: string ensures Total(t.earnings, PaidIn(c)) == Total(s.earnings, PaidIn(c)) {
          StatusChangeKeepsPaid(s.earnings, id, c);
        }
      }
    case Withdrawal(user, org, member) =>
      if t != s {
        var order :| PayoutOrder(s.earnings, user, order) && PayAll(s, user, org, order) == Some(t);
        PayAllKeepsInv(s, user, org, order);
      }
  }

  lemma {:induction false} AccrueKeepsInv(s: State, w: World, invoice: InvoiceId)
    requires Inv(s)
    ensures var t := Accrue(s, w, invoice).0; Inv(t) && Evolves(s.earnings, t.earnings)
  {
    if Accrue(s, w, invoice).0 != s {
      var e, b := AccrualRows(s, w, invoice);
      InsertKeepsInv(s, e);
      var s1 := s.(earnings := InsertOnce(s.earnings, e));
      if Accrue(s, w, invoice).0.earnings != s1.earnings {
        InsertKeepsInv(s1, b);
      }
    }
  }

  lemma {:induction false} BehaviourKeepsInv(states: seq<State>, actions: seq<Action>, n: nat)
    requires Behaviour(states, actions) && n < |states|
    ensures Inv(states[n])
  {
    if n > 0 {
      BehaviourKeepsInv(states, actions, n - 1);
      StepKeepsInv(states[n - 1], actions[n - 1], states[n]);
    }
  }

  /** In every run and for every currency, wallet credits from payouts equal the amounts of
      paid earnings; there is one earning per invoice and kind; the wallets' books balance. */
  lemma {:induction false} AffiliateConservation(states: seq<State>, actions: seq<Action>, n: nat, currency: string)
    requires Behaviour(states, actions) && n < |states|
    ensures Credited(states[n].books.ledger, currency) == Total(states[n].earnings, PaidIn(currency))
    ensures OnePerInvoiceAndKind(states[n].earnings)
    ensures Sound(states[n].books)
  {
    BehaviourKeepsInv(states, actions, n);
  }

  /** Earnings keep their amounts and parties, and 'paid' and 'reversed' are terminal. */
  lemma {:induction false} EarningsEvolve(states: seq<State>, actions: seq<Action>, m: nat, n: nat)
    requires Behaviour(states, actions) && m <= n < |states|
    ensures Evolves(states[m].earnings, states[n].earnings)
    decreases n - m
  {
    if m < n {
      BehaviourKeepsInv(states, actions, m);
      StepKeepsInv(states[m], actions[m], states[m + 1]);
      EarningsEvolve(states, actions, m + 1, n);
    }
  }

  /** Every earning links two different users, and a referee bonus never stands without an
      earlier commission of its invoice. */
  predicate Provenance(es: seq<Earning>) {
    && (forall i :: 0 <= i < |es| ==>
          && es[i].referrer != es[i].referee && es[i].amount > 0.0
          && es[i].bonus == (if es[i].kind == RefereeBonus then es[i].amount else 0.0))
    && (forall j :: 0 <= j < |es| && es[j].kind == RefereeBonus ==>
          HasEarning(es[..j], es[j].invoice, ReferrerCommission))
  }

  lemma {:induction false} EvolvedPrefixHasEarning(es: seq<Earning>, fs: seq<Earning>, j: nat, invoice: InvoiceId)
    requires Evolves(es, fs) && j <= |es| && HasEarning(es[..j], invoice, ReferrerCommission)
    ensures HasEarning(fs[..j], invoice, ReferrerCommission)
  {
    var i :| 0 <= i < j && es[..j][i].invoice == invoice && es[..j][i].kind == ReferrerCommission;
    assert fs[..j][i] == fs[i];
  }

  lemma {:induction false} StepKeepsProvenance(s: State, a: Action, t: State)
    requires Inv(s) && StepTo(s, a, t) && Provenance(s.earnings)
    ensures Provenance(t.earnings)
  {
    StepKeepsInv(s, a, t);
    var es, fs := s.earnings, t.earnings;
    forall j | 0 <= j < |es| && fs[j].kind == RefereeBonus
      ensures HasEarning(fs[..j], fs[j].invoice, ReferrerCommission)
    {
      EvolvedPrefixHasEarning(es, fs, j, es[j].invoice);
    }
    if a.Accrual? {
      AccrualAddsRightfulRows(s, a.world, a.invoice);
    } else {
      StatusOnly(s, a, t);
    }
  }

  lemma {:induction false} PayAllKeepsRowCount(s: State, user: UserId, org: OrgId, order: seq<string>)
    requires PayAll(s, user, org, order).Some?
    ensures |PayAll(s, user, org, order).value.earnings| == |s.earnings|
    decreases |order|
  {
    if order != [] {
      PayAllKeepsRowCount(PayCurrency(s, user, org, order[0]).value, user, org, order[1..]);
    }
  }

  /** Only an accrual adds rows. */
  lemma {:induction false} StatusOnly(s: State, a: Action, t: State)
    requires StepTo(s, a, t) && !a.Accrual?
    ensures |t.earnings| == |s.earnings|
  {
    if a.Withdrawal? && t != s {
      var order :| PayoutOrder(s.earnings, a.user, order) && PayAll(s, a.user, a.org, order) == Some(t);
      PayAllKeepsRowCount(s, a.user, a.org, order);
    }
  }

  /** In every run no user earns from their own invoice, and every bonus has its commission. */
  lemma {:induction false} EarningsHaveProvenance(states: seq<State>, actions: seq<Action>, n: nat)
    requires Behaviour(states, actions) && n < |states|
    ensures Provenance(states[n].earnings)
  {
    if n > 0 {
      EarningsHaveProvenance(states, actions, n - 1);
      BehaviourKeepsInv(states, actions, n - 1);
      StepKeepsProvenance(states[n - 1], actions[n - 1], states[n]);
    }
  }

  /** The number of steps up to `n` that turn earning `i` to 'paid'. */
  function Payments(states: seq<State>, i: nat, n: nat): nat
    requires n < |states|
  {
    if n == 0 then 0
    else
      Payments(states, i, n - 1) +
      if IsPaid(states[n], i) && !IsPaid(states[n - 1], i) then 1 else 0
  }

  predicate IsPaid(s: State, i: nat) {
    i < |s.earnings| && s.earnings[i].status == Paid
  }

  /** Each earning is paid at most once over a whole run, and exactly once when it ends paid;
      with conservation, it is credited exactly then. */
  lemma {:induction false} PaidAtMostOnce(states: seq<State>, actions: seq<Action>, i: nat, n: nat)
    requires Behaviour(states, actions) && n < |states|
    ensures Payments(states, i, n) == if IsPaid(states[n], i) then 1 else 0
  {
    if n > 0 {
      PaidAtMostOnce(states, actions, i, n - 1);
      EarningsEvolve(states, actions, n - 1, n);
    }
  }

  /** A reversed earning stays reversed and is never accrued again under another row. */
  lemma {:induction false} ReversedIsNeverReaccrued(states: seq<State>, actions: seq<Action>, m: nat, n: nat, i: nat,
                                                    j: nat)
    requires Behaviour(states, actions) && m <= n < |states|
    requires i < |states[m].earnings| && states[m].earnings[i].status == Reversed
    requires j < |states[n].earnings| && states[n].earnings[j].invoice == states[m].earnings[i].invoice
    requires states[n].earnings[j].kind == states[m].earnings[i].kind
    ensures j == i && states[n].earnings[j].status == Reversed
  {
    EarningsEvolve(states, actions, m, n);
    BehaviourKeepsInv(states, actions, n);
  }
}
