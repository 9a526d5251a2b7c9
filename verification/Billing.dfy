/**
 Orders, invoices and payments under the admin and customer endpoints. Each event is one
 transaction, or one statement outside a transaction; `Read` events are the first query of a
 handler that writes later without looking again.
 */
module Billing {
  import opened Prelude
  import opened Wallet

  type OrderId = nat
  type InvoiceId = nat
  type PaymentId = string
  type HandlerId = nat

  datatype OrderStatus =
    | OrderDraft | PendingPayment | OrderPaid | Processing | Completed | Cancelled | OrderFailed | OrderRefunded

  datatype InvoiceStatus = Draft | Unpaid | Settled | Overdue | Void | Refunded | PartiallyRefunded

  datatype PaymentStatus =
    | Pending | InProcess | Received | PaymentFailed | Expired | Withdrawn | Returned | PartiallyReturned

  datatype Order = Order(org: OrgId, status: OrderStatus)

  datatype Invoice = Invoice(order: Option<OrderId>, status: InvoiceStatus, total: real, paid: real, due: real)

  /** A payment without an invoice is a wallet top-up. */
  datatype Payment = Payment(org: OrgId, invoice: Option<InvoiceId>, currency: string, amount: real,
                             status: PaymentStatus)

  datatype Handler =
    | Approving(payment: PaymentId)
    | VoidingInvoice(invoice: InvoiceId)
    | VoidingOrder(order: OrderId)

  datatype State = State(
    orders: map<OrderId, Order>,
    invoices: map<InvoiceId, Invoice>,
    payments: map<PaymentId, Payment>,
    books: Books,
    handlers: map<HandlerId, Handler>)

  datatype Event =
    | ApproveRead(h: HandlerId, payment: PaymentId)
    | VoidInvoiceRead(h: HandlerId, invoice: InvoiceId)
    | VoidOrderRead(h: HandlerId, order: OrderId)
    | Write(h: HandlerId)
    | CancelOrder(order: OrderId, org: OrgId)
    | Abort(h: HandlerId)

  function TopupKey(p: PaymentId): string {
    "topup-" + p
  }

  function TopupWallet(pay: Payment): WalletId {
    WalletId(pay.org, pay.currency)
  }

  function Admit(s: State, h: HandlerId, x: Handler): State {
    if h in s.handlers then s else s.(handlers := s.handlers[h := x])
  }

  function Done(s: State, h: HandlerId): State {
    s.(handlers := s.handlers - {h})
  }

  /** UPDATE invoices ... WHERE id AND status IN ('unpaid','overdue'). */
  function SettleInvoice(invoices: map<InvoiceId, Invoice>, i: InvoiceId): map<InvoiceId, Invoice> {
    if i in invoices && invoices[i].status in {Unpaid, Overdue}
    then invoices[i := invoices[i].(status := Settled, paid := invoices[i].total, due := 0.0)]
    else invoices
  }

  /** The approval transaction. A rejected wallet entry, a used key included, leaves the
      database transaction aborted, so nothing of it commits. */
  function Approve(s: State, p: PaymentId): State
    requires p in s.payments
  {
    var pay := s.payments[p];
    var payments := s.payments[p := pay.(status := Received)];
    if pay.invoice.Some? then s.(payments := payments, invoices := SettleInvoice(s.invoices, pay.invoice.value))
    else
      var id := TopupWallet(pay);
      var r := ApplyTransaction(EnsureWallet(s.books, id), id, "credit", pay.amount, "topup", TopupKey(p));
      if r.Applied? then s.(payments := payments, books := r.books) else s
  }

  function VoidWhere(invoices: map<InvoiceId, Invoice>, hit: Invoice -> bool): map<InvoiceId, Invoice> {
    map i | i in invoices :: if hit(invoices[i]) then invoices[i].(status := Void) else invoices[i]
  }

  function VoidOrder(s: State, o: OrderId): State
    requires o in s.orders
  {
    s.(orders := s.orders[o := s.orders[o].(status := Cancelled)],
       invoices := VoidWhere(s.invoices, (v: Invoice) => v.order == Some(o) && v.status in {Draft, Unpaid, Overdue}))
  }

  function Cancel(s: State, o: OrderId, org: OrgId): State {
    if o in s.orders && s.orders[o].org == org && s.orders[o].status in {OrderDraft, PendingPayment, Processing}
    then s.(orders := s.orders[o := s.orders[o].(status := Cancelled)],
            invoices := VoidWhere(s.invoices,
                                  (v: Invoice) => v.order == Some(o) && v.status in {Unpaid, Overdue} && v.paid == 0.0))
    else s
  }

  function WriteOf(s: State, x: Handler): State {
    match x
    case Approving(p) => if p in s.payments then Approve(s, p) else s
    case VoidingInvoice(i) =>
      if i in s.invoices then s.(invoices := s.invoices[i := s.invoices[i].(status := Void)]) else s
    case VoidingOrder(o) => if o in s.orders then VoidOrder(s, o) else s
  }

  function Step(s: State, ev: Event): State {
    match ev
    case ApproveRead(h, p) =>
      if p in s.payments && s.payments[p].status == Pending then Admit(s, h, Approving(p)) else s
    case VoidInvoiceRead(h, i) =>
      if i in s.invoices && s.invoices[i].status !in {Settled, PartiallyRefunded, Void}
      then Admit(s, h, VoidingInvoice(i)) else s
    case VoidOrderRead(h, o) =>
      if o in s.orders && s.orders[o].status !in {Cancelled, OrderRefunded, OrderFailed}
      then Admit(s, h, VoidingOrder(o)) else s
    case Write(h) => if h in s.handlers then Done(WriteOf(s, s.handlers[h]), h) else s
    case CancelOrder(o, org) => Cancel(s, o, org)
    case Abort(h) => Done(s, h)
  }

  function Run(s: State, events: seq<Event>): State
    decreases |events|
  {
    if events == [] then s else Run(Step(s, events[0]), events[1..])
  }

  // ----- Invoices -----

  predicate InvoiceIs(s: State, i: InvoiceId, status: InvoiceStatus) {
    i in s.invoices && s.invoices[i].status == status
  }

  /** A void invoice stays void in every interleaving, so it is never paid. */
  lemma {:induction false} VoidIsTerminal(s: State, events: seq<Event>, i: InvoiceId)
    requires InvoiceIs(s, i, Void)
    ensures InvoiceIs(Run(s, events), i, Void)
    decreases |events|
  {
    if events != [] {
      VoidIsTerminal(Step(s, events[0]), events[1..], i);
    }
  }

  predicate VoidInFlight(s: State, i: InvoiceId) {
    exists h :: h in s.handlers && s.handlers[h] == VoidingInvoice(i)
  }

  predicate PaidInFull(v: Invoice) {
    v.status == Settled && v.paid == v.total && v.due == 0.0
  }

  /** Only a void request in flight touches a settled invoice. */
  lemma {:induction false} WriteLeavesSettled(s: State, x: Handler, i: InvoiceId)
    requires InvoiceIs(s, i, Settled) && x != VoidingInvoice(i)
    ensures var t := WriteOf(s, x); t.handlers == s.handlers && i in t.invoices && t.invoices[i] == s.invoices[i]
  {
  }

  lemma {:induction false} SettledStep(s: State, ev: Event, i: InvoiceId)
    requires InvoiceIs(s, i, Settled) && !VoidInFlight(s, i)
    ensures var t := Step(s, ev); i in t.invoices && t.invoices[i] == s.invoices[i] && !VoidInFlight(t, i)
  {
    if ev.Write? && ev.h in s.handlers {
      WriteLeavesSettled(s, s.handlers[ev.h], i);
    }
  }

  lemma {:induction false} SettledForever(s: State, events: seq<Event>, i: InvoiceId)
    requires InvoiceIs(s, i, Settled) && !VoidInFlight(s, i)
    ensures var t := Run(s, events); i in t.invoices && t.invoices[i] == s.invoices[i]
    decreases |events|
  {
    if events != [] {
      SettledStep(s, events[0], i);
      SettledForever(Step(s, events[0]), events[1..], i);
    }
  }

  ghost predicate CanLoseSettlement(s: State, i: InvoiceId) {
    exists events :: !InvoiceIs(Run(s, events), i, Settled)
  }

  /** Exactly when a paid invoice can stop being paid: when a void request had read it before
      it was paid and has not written yet. Otherwise its row never changes again. */
  lemma {:induction false} SettlementIsFinalExactly(s: State, i: InvoiceId)
    requires InvoiceIs(s, i, Settled)
    ensures CanLoseSettlement(s, i) <==> VoidInFlight(s, i)
    ensures !VoidInFlight(s, i) ==>
              forall events :: i in Run(s, events).invoices && Run(s, events).invoices[i] == s.invoices[i]
  {
    if VoidInFlight(s, i) {
      var h :| h in s.handlers && s.handlers[h] == VoidingInvoice(i);
      var events := [Write(h)];
      assert Run(s, events) == Step(s, events[0]);
      assert !InvoiceIs(Run(s, events), i, Settled);
    } else {
      forall events
        ensures i in Run(s, events).invoices && Run(s, events).invoices[i] == s.invoices[i]
      {
        SettledForever(s, events, i);
      }
    }
  }

  /** Three events in a row. */
  lemma {:induction false} RunOfThree(s: State, a: Event, b: Event, c: Event)
    ensures Run(s, [a, b, c]) == Step(Step(Step(s, a), b), c)
  {
    assert [a, b, c][1..] == [b, c] && [b, c][1..] == [c] && [c][1..] == [];
    assert Run(Step(s, a), [b, c]) == Run(Step(Step(s, a), b), [c]);
  }

  /** The failing case occurs for every unpaid invoice with a pending payment: a void request
      reads it, an approval settles it, and the void then overwrites the settlement. */
  lemma {:induction false} PaidInvoiceIsVoided(s: State, i: InvoiceId, p: PaymentId)
    returns (pay: seq<Event>, void: Event)
    requires i in s.invoices && s.invoices[i].status in {Unpaid, Overdue}
    requires p in s.payments && s.payments[p].status == Pending && s.payments[p].invoice == Some(i)
    requires s.handlers == map[]
    ensures InvoiceIs(Run(s, pay), i, Settled) && PaidInFull(Run(s, pay).invoices[i]) && VoidInFlight(Run(s, pay), i)
    ensures InvoiceIs(Step(Run(s, pay), void), i, Void)
    ensures var t := Step(Run(s, pay), void); p in t.payments && t.payments[p].status == Received
  {
    pay, void := [VoidInvoiceRead(0, i), ApproveRead(1, p), Write(1)], Write(0);
    RunOfThree(s, pay[0], pay[1], pay[2]);
    assert 0 in Run(s, pay).handlers && Run(s, pay).handlers[0] == VoidingInvoice(i);
  }

  ghost predicate SettledAreFull(s: State) {
    forall i :: InvoiceIs(s, i, Settled) ==> PaidInFull(s.invoices[i])
  }

  lemma {:induction false} StepKeepsFull(s: State, ev: Event, i: InvoiceId)
    requires SettledAreFull(s) && InvoiceIs(Step(s, ev), i, Settled)
    ensures PaidInFull(Step(s, ev).invoices[i])
  {
    assert InvoiceIs(s, i, Settled) ==> PaidInFull(s.invoices[i]);
  }

  /** Approval always records full payment: paid = total and due = 0 on every paid invoice. */
  lemma {:induction false} PaidInvoicesAreFull(s: State, events: seq<Event>)
    requires SettledAreFull(s)
    ensures SettledAreFull(Run(s, events))
    decreases |events|
  {
    if events != [] {
      forall i | InvoiceIs(Step(s, events[0]), i, Settled) ensures PaidInFull(Step(s, events[0]).invoices[i]) {
        StepKeepsFull(s, events[0], i);
      }
      PaidInvoicesAreFull(Step(s, events[0]), events[1..]);
    }
  }

  // ----- What each endpoint writes -----

  lemma {:induction false} RunOfTwo(s: State, a: Event, b: Event)
    ensures Run(s, [a, b]) == Step(Step(s, a), b)
  {
    assert [a, b][1..] == [b] && [b][1..] == [];
    assert Run(Step(s, a), [b]) == Step(Step(s, a), b);
  }

  lemma {:induction false} NoTrace(s: State, h: HandlerId, x: Handler)
    requires h !in s.handlers
    ensures s.handlers[h := x] - {h} == s.handlers
  {
  }

  /** `t` is `s` with one order cancelled and exactly the invoices `hit` of it made void. */
  ghost predicate Cancels(s: State, o: OrderId, hit: set<InvoiceId>, t: State) {
    && t.payments == s.payments && t.books == s.books && t.handlers == s.handlers
    && t.orders.Keys == s.orders.Keys && t.invoices.Keys == s.invoices.Keys
    && (forall x :: x in s.orders ==>
          t.orders[x].org == s.orders[x].org && t.orders[x].status == if x == o then Cancelled else s.orders[x].status)
    && (forall i :: i in s.invoices ==>
          && t.invoices[i].status == (if i in hit then Void else s.invoices[i].status)
          && t.invoices[i].order == s.invoices[i].order && t.invoices[i].total == s.invoices[i].total
          && t.invoices[i].paid == s.invoices[i].paid && t.invoices[i].due == s.invoices[i].due)
  }

  /** A customer cancels exactly an order of their own organization that is a draft, awaits payment
      or is being processed; its unpaid and overdue invoices without any payment become void. */
  lemma {:induction false} CancelExactly(s: State, o: OrderId, org: OrgId)
    ensures var t := Step(s, CancelOrder(o, org));
            var hit := set i | i in s.invoices && s.invoices[i].order == Some(o) && s.invoices[i].paid == 0.0 &&
                               (s.invoices[i].status == Unpaid || s.invoices[i].status == Overdue);
            if o in s.orders && s.orders[o].org == org &&
               (s.orders[o].status == OrderDraft || s.orders[o].status == PendingPayment ||
                s.orders[o].status == Processing)
            then Cancels(s, o, hit, t)
            else t == s
  {
  }

  lemma {:induction false} VoidOrderWrites(s: State, o: OrderId)
    requires o in s.orders
    ensures Cancels(s, o, set i | i in s.invoices && s.invoices[i].order == Some(o) &&
                                  (s.invoices[i].status == Draft || s.invoices[i].status == Unpaid ||
                                   s.invoices[i].status == Overdue) :: i, VoidOrder(s, o))
  {
  }

  /** An administrator voids exactly an order that is not cancelled, refunded or failed; its draft,
      unpaid and overdue invoices become void. */
  lemma {:induction false} VoidOrderExactly(s: State, h: HandlerId, o: OrderId)
    requires h !in s.handlers
    ensures var t := Run(s, [VoidOrderRead(h, o), Write(h)]);
            var hit := set i | i in s.invoices && s.invoices[i].order == Some(o) &&
                               (s.invoices[i].status == Draft || s.invoices[i].status == Unpaid ||
                                s.invoices[i].status == Overdue);
            if o in s.orders && s.orders[o].status != Cancelled && s.orders[o].status != OrderRefunded &&
               s.orders[o].status != OrderFailed
            then Cancels(s, o, hit, t)
            else t == s
  {
    RunOfTwo(s, VoidOrderRead(h, o), Write(h));
    NoTrace(s, h, VoidingOrder(o));
    var read := s.(handlers := s.handlers[h := VoidingOrder(o)]);
    if o in s.orders && s.orders[o].status !in {Cancelled, OrderRefunded, OrderFailed} {
      assert Step(s, VoidOrderRead(h, o)) == read;
      assert Step(read, Write(h)) == Done(VoidOrder(read, o), h) == VoidOrder(s, o);
      VoidOrderWrites(s, o);
    }
  }

  /** An administrator voids exactly an invoice that is not paid, partially refunded or void. */
  lemma {:induction false} VoidInvoiceExactly(s: State, h: HandlerId, i: InvoiceId)
    requires h !in s.handlers
    ensures Run(s, [VoidInvoiceRead(h, i), Write(h)]) ==
            if i in s.invoices && s.invoices[i].status != Settled && s.invoices[i].status != PartiallyRefunded &&
               s.invoices[i].status != Void
            then s.(invoices := s.invoices[i := s.invoices[i].(status := Void)])
            else s
  {
    RunOfTwo(s, VoidInvoiceRead(h, i), Write(h));
    NoTrace(s, h, VoidingInvoice(i));
  }

  /** Approving a pending invoice payment marks it received, and settles its invoice in full
      exactly when that is unpaid or overdue; a payment that is not pending is refused. */
  lemma {:induction false} ApproveInvoicePayment(s: State, h: HandlerId, p: PaymentId, i: InvoiceId)
    requires h !in s.handlers && p in s.payments && s.payments[p].invoice == Some(i) && i in s.invoices
    ensures var t, v := Run(s, [ApproveRead(h, p), Write(h)]), s.invoices[i];
            if s.payments[p].status != Pending then t == s
            else t == s.(payments := s.payments[p := s.payments[p].(status := Received)],
                         invoices := s.invoices[i := if v.status == Unpaid || v.status == Overdue
                                                     then v.(status := Settled, paid := v.total, due := 0.0) else v])
  {
    RunOfTwo(s, ApproveRead(h, p), Write(h));
    NoTrace(s, h, Approving(p));
    assert s.invoices[i := s.invoices[i]] == s.invoices;
  }

  /** An aborted request writes nothing. */
  lemma {:induction false} AbortExactly(s: State, h: HandlerId)
    ensures var t := Step(s, Abort(h));
            && t == s.(handlers := t.handlers) && t.handlers.Keys == s.handlers.Keys - {h}
            && forall g :: g in t.handlers ==> t.handlers[g] == s.handlers[g]
  {
  }

  /** After a cancellation no run ever settles an invoice it voided, and the order stays cancelled. */
  lemma {:induction false} CancelledForGood(s: State, o: OrderId, org: OrgId, i: InvoiceId, events: seq<Event>)
    requires o in s.orders && s.orders[o].org == org && s.orders[o].status in {OrderDraft, PendingPayment, Processing}
    requires i in s.invoices && s.invoices[i].order == Some(o) && s.invoices[i].paid == 0.0
    requires s.invoices[i].status == Unpaid || s.invoices[i].status == Overdue
    ensures var t := Run(Step(s, CancelOrder(o, org)), events);
            InvoiceIs(t, i, Void) && o in t.orders && t.orders[o].status == Cancelled
  {
    CancelExactly(s, o, org);
    VoidIsTerminal(Step(s, CancelOrder(o, org)), events, i);
    CancelledIsTerminal(Step(s, CancelOrder(o, org)), events, o);
  }

  lemma {:induction false} CancelledIsTerminal(s: State, events: seq<Event>, o: OrderId)
    requires o in s.orders && s.orders[o].status == Cancelled
    ensures o in Run(s, events).orders && Run(s, events).orders[o].status == Cancelled
    decreases |events|
  {
    if events != [] {
      CancelledIsTerminal(Step(s, events[0]), events[1..], o);
    }
  }

  // ----- Top-ups -----

  function Credits(ledger: seq<Entry>, key: string): nat {
    if ledger == [] then 0
    else Credits(ledger[..|ledger| - 1], key) + if ledger[|ledger| - 1].key == Some(key) then 1 else 0
  }

  predicate CreditsTopup(e: Entry, pay: Payment) {
    && e.wallet.org == pay.org && e.wallet.currency == pay.currency
    && e.direction == "credit" && e.amount == pay.amount
  }

  /** The ledger of one top-up: exactly one credit of its amount to its wallet once the payment
      is received, none before. */
  predicate TopupOk(ledger: seq<Entry>, p: PaymentId, pay: Payment) {
    pay.invoice.None? ==>
      && Credits(ledger, TopupKey(p)) == (if pay.status == Received then 1 else 0)
      && forall j :: 0 <= j < |ledger| && ledger[j].key == Some(TopupKey(p)) ==> CreditsTopup(ledger[j], pay)
  }

  ghost predicate TopupInv(s: State) {
    && Sound(s.books)
    && (forall p :: p in s.payments ==> TopupOk(s.books.ledger, p, s.payments[p]))
    && (forall h :: h in s.handlers && s.handlers[h].Approving? ==>
          s.handlers[h].payment in s.payments && s.payments[s.handlers[h].payment].status in {Pending, Received})
  }

  lemma {:induction false} CreditsMeanKeyPresent(ledger: seq<Entry>, key: string)
    ensures Credits(ledger, key) > 0 <==> exists j :: 0 <= j < |ledger| && ledger[j].key == Some(key)
  {
    if ledger != [] {
      var n := |ledger| - 1;
      CreditsMeanKeyPresent(ledger[..n], key);
      if j :| 0 <= j < |ledger| && ledger[j].key == Some(key) && j < n {
        assert ledger[..n][j].key == Some(key);
      }
    }
  }

  lemma {:induction false} KeysAreInjective(p: PaymentId, q: PaymentId)
    requires TopupKey(p) == TopupKey(q)
    ensures p == q
  {
    assert TopupKey(p)[6..] == p && TopupKey(q)[6..] == q;
  }

  lemma {:induction false} OtherEntryKeepsTopup(ledger: seq<Entry>, e: Entry, q: PaymentId, pay: Payment)
    requires TopupOk(ledger, q, pay) && e.key != Some(TopupKey(q))
    ensures TopupOk(ledger + [e], q, pay)
  {
    assert (ledger + [e])[..|ledger|] == ledger;
  }

  lemma {:induction false} OwnEntryCompletesTopup(ledger: seq<Entry>, e: Entry, p: PaymentId, pay: Payment)
    requires TopupOk(ledger, p, pay) && pay.invoice.None? && pay.status != Received
    requires e.key == Some(TopupKey(p)) && CreditsTopup(e, pay)
    ensures TopupOk(ledger + [e], p, pay.(status := Received))
  {
    assert (ledger + [e])[..|ledger|] == ledger;
  }

  /** A second approval of a top-up finds its key used and changes nothing. */
  lemma {:induction false} SecondApprovalIsNoop(s: State, p: PaymentId)
    requires TopupInv(s) && p in s.payments && s.payments[p].invoice.None? && s.payments[p].status == Received
    ensures Approve(s, p) == s
  {
    var id := TopupWallet(s.payments[p]);
    CreditsMeanKeyPresent(s.books.ledger, TopupKey(p));
    assert TopupOk(s.books.ledger, p, s.payments[p]);
    assert KeyUsed(EnsureWallet(s.books, id), id, TopupKey(p));
  }

  lemma {:induction false} PendingKeyIsFree(s: State, p: PaymentId)
    requires TopupInv(s) && p in s.payments && s.payments[p].invoice.None? && s.payments[p].status == Pending
    ensures forall j :: 0 <= j < |s.books.ledger| ==> s.books.ledger[j].key != Some(TopupKey(p))
  {
    CreditsMeanKeyPresent(s.books.ledger, TopupKey(p));
    assert TopupOk(s.books.ledger, p, s.payments[p]);
  }

  /** An approval under a free key is accepted exactly when the amount is positive: one credit of
      it, to the wallet of the payment's organization and currency, and no other balance moves. */
  lemma {:induction false} FreeKeyIsAccepted(s: State, p: PaymentId)
    requires p in s.payments && s.payments[p].invoice.None?
    requires forall j :: 0 <= j < |s.books.ledger| ==> s.books.ledger[j].key != Some(TopupKey(p))
    ensures var t, pay, n := Approve(s, p), s.payments[p], |s.books.ledger|;
            if pay.amount > 0.0 then
              && t.payments == s.payments[p := pay.(status := Received)]
              && |t.books.ledger| == n + 1 && t.books.ledger[..n] == s.books.ledger
              && t.books.ledger[n].key == Some(TopupKey(p)) == Some("topup-" + p)
              && CreditsTopup(t.books.ledger[n], pay) && t.books.ledger[n].reference == "topup"
              && forall id :: BalanceOf(t.books, id) ==
                              BalanceOf(s.books, id) + if id == WalletId(pay.org, pay.currency) then pay.amount else 0.0
            else t == s
  {
    var pay := s.payments[p];
    var id := TopupWallet(pay);
    EnsureWalletExactly(s.books, id);
    ApplyExactly(EnsureWallet(s.books, id), id, "credit", pay.amount, "topup", TopupKey(p));
  }

  /** A pending top-up's key is free, so its approval is accepted exactly when the amount is
      positive, and then appends one credit of it under that key. */
  lemma {:induction false} PendingTopupIsAccepted(s: State, p: PaymentId)
    requires TopupInv(s) && p in s.payments && s.payments[p].invoice.None? && s.payments[p].status == Pending
    ensures var t, pay, n := Approve(s, p), s.payments[p], |s.books.ledger|;
            if pay.amount > 0.0 then
              && t.payments == s.payments[p := pay.(status := Received)]
              && |t.books.ledger| == n + 1 && t.books.ledger[..n] == s.books.ledger
              && t.books.ledger[n].key == Some(TopupKey(p)) == Some("topup-" + p)
              && CreditsTopup(t.books.ledger[n], pay) && t.books.ledger[n].reference == "topup"
              && forall id :: BalanceOf(t.books, id) ==
                              BalanceOf(s.books, id) + if id == WalletId(pay.org, pay.currency) then pay.amount else 0.0
            else t == s
  {
    PendingKeyIsFree(s, p);
    FreeKeyIsAccepted(s, p);
  }

  /** A first approval of a positive top-up marks the payment received and appends the one entry
      it needs; any other changes nothing. No other top-up is touched. */
  lemma {:induction false} FirstApprovalCredits(s: State, p: PaymentId)
    requires TopupInv(s) && p in s.payments && s.payments[p].invoice.None? && s.payments[p].status == Pending
    ensures var t := Approve(s, p);
            && Sound(t.books)
            && (forall q :: q in t.payments ==> TopupOk(t.books.ledger, q, t.payments[q]))
            && t.payments.Keys == s.payments.Keys
            && (s.payments[p].amount > 0.0 <==> t.payments[p].status == Received)
            && Credits(t.books.ledger, TopupKey(p)) == (if s.payments[p].amount > 0.0 then 1 else 0)
            && (s.payments[p].amount <= 0.0 ==> t == s)
  {
    var t, pay := Approve(s, p), s.payments[p];
    var id := TopupWallet(pay);
    EnsureWalletKeepsSound(s.books, id);
    ApplyKeepsSound(EnsureWallet(s.books, id), id, "credit", pay.amount, "topup", TopupKey(p));
    PendingTopupIsAccepted(s, p);
    assert TopupOk(s.books.ledger, p, pay);
    if pay.amount > 0.0 {
      var e := t.books.ledger[|s.books.ledger|];
      assert t.books.ledger == s.books.ledger + [e];
      forall q | q in t.payments ensures TopupOk(t.books.ledger, q, t.payments[q]) {
        EntryKeepsTopups(s, p, e, q);
      }
    }
  }

  /** The credit of one top-up completes its own payment and leaves every other as it was. */
  lemma {:induction false} EntryKeepsTopups(s: State, p: PaymentId, e: Entry, q: PaymentId)
    requires TopupInv(s) && p in s.payments && s.payments[p].invoice.None? && s.payments[p].status != Received
    requires e.key == Some(TopupKey(p)) && CreditsTopup(e, s.payments[p]) && q in s.payments
    ensures TopupOk(s.books.ledger + [e], q,
                    if q == p then s.payments[p].(status := Received) else s.payments[q])
  {
    assert TopupOk(s.books.ledger, q, s.payments[q]);
    if q == p {
      OwnEntryCompletesTopup(s.books.ledger, e, p, s.payments[p]);
    } else {
      if TopupKey(q) == TopupKey(p) {
        KeysAreInjective(q, p);
      }
      OtherEntryKeepsTopup(s.books.ledger, e, q, s.payments[q]);
    }
  }

  lemma {:induction false} InvoiceApprovalKeepsTopups(s: State, p: PaymentId)
    requires TopupInv(s) && p in s.payments && s.payments[p].invoice.Some?
    ensures TopupInv(Approve(s, p))
  {
    var t := Approve(s, p);
    forall q | q in t.payments ensures TopupOk(t.books.ledger, q, t.payments[q]) {
      assert TopupOk(s.books.ledger, q, s.payments[q]);
    }
  }

  lemma {:induction false} ApprovalKeepsTopups(s: State, p: PaymentId)
    requires TopupInv(s) && p in s.payments && s.payments[p].status in {Pending, Received}
    ensures TopupInv(Approve(s, p))
  {
    if s.payments[p].invoice.Some? {
      InvoiceApprovalKeepsTopups(s, p);
    } else if s.payments[p].status == Received {
      SecondApprovalIsNoop(s, p);
    } else {
      FirstApprovalCredits(s, p);
    }
  }

  /** A request that ends leaves the obligations of the others. */
  lemma {:induction false} DoneKeepsTopups(s: State, h: HandlerId)
    requires TopupInv(s)
    ensures TopupInv(Done(s, h))
  {
  }

  lemma {:induction false} StepKeepsTopups(s: State, ev: Event)
    requires TopupInv(s)
    ensures TopupInv(Step(s, ev))
  {
    if ev.Write? && ev.h in s.handlers {
      var x := s.handlers[ev.h];
      if x.Approving? {
        ApprovalKeepsTopups(s, x.payment);
      }
      DoneKeepsTopups(WriteOf(s, x), ev.h);
    }
  }

  lemma {:induction false} RunKeepsTopups(s: State, events: seq<Event>)
    requires TopupInv(s)
    ensures TopupInv(Run(s, events))
    decreases |events|
  {
    if events != [] {
      StepKeepsTopups(s, events[0]);
      RunKeepsTopups(Step(s, events[0]), events[1..]);
    }
  }

  /** No request in flight, an empty ledger, and no top-up received yet. */
  predicate Fresh(s: State) {
    && s.handlers == map[] && s.books == Books(map[], [])
    && forall p :: p in s.payments && s.payments[p].invoice.None? ==> s.payments[p].status != Received
  }

  /** The event is the write of a request that approves `p`. */
  predicate Approves(s: State, ev: Event, p: PaymentId) {
    ev.Write? && ev.h in s.handlers && s.handlers[ev.h] == Approving(p)
  }

  /** The number of approvals of `p` that reach their transaction in a run. */
  function Approvals(s: State, events: seq<Event>, p: PaymentId): nat
    decreases |events|
  {
    if events == [] then 0
    else (if Approves(s, events[0], p) then 1 else 0) + Approvals(Step(s, events[0]), events[1..], p)
  }

  /** Nothing but its own approval changes a payment. */
  lemma {:induction false} OtherEventsLeavePayment(s: State, ev: Event, p: PaymentId)
    requires p in s.payments && !Approves(s, ev, p)
    ensures p in Step(s, ev).payments && Step(s, ev).payments[p] == s.payments[p]
  {
  }

  lemma {:induction false} ReceivedByStep(s: State, ev: Event, p: PaymentId)
    requires TopupInv(s) && p in s.payments && s.payments[p].invoice.None?
    ensures var t, pay := Step(s, ev), s.payments[p];
            && p in t.payments && t.payments[p] == pay.(status := t.payments[p].status)
            && (t.payments[p].status == Received <==>
                pay.status == Received || (Approves(s, ev, p) && pay.amount > 0.0))
  {
    if !Approves(s, ev, p) {
      OtherEventsLeavePayment(s, ev, p);
    } else if s.payments[p].status == Received {
      SecondApprovalIsNoop(s, p);
    } else {
      PendingTopupIsAccepted(s, p);
    }
  }

  /** A top-up is received at the end of a run exactly when it was before or at least one
      approval of it reached its transaction and its amount is positive. */
  lemma {:induction false} ReceivedExactly(s: State, events: seq<Event>, p: PaymentId)
    requires TopupInv(s) && p in s.payments && s.payments[p].invoice.None?
    ensures var t, pay := Run(s, events), s.payments[p];
            && p in t.payments && t.payments[p] == pay.(status := t.payments[p].status)
            && (t.payments[p].status == Received <==>
                pay.status == Received || (Approvals(s, events, p) > 0 && pay.amount > 0.0))
    decreases |events|
  {
    if events != [] {
      ReceivedByStep(s, events[0], p);
      StepKeepsTopups(s, events[0]);
      ReceivedExactly(Step(s, events[0]), events[1..], p);
    }
  }

  /** However many approvals of a top-up overlap, and whatever else happens: one or more of them
      credit its wallet exactly once, with the payment's amount, and mark it received; without
      one, or with an amount that is not positive, it is never credited. Balances stay equal to
      the ledger and non-negative. */
  lemma {:induction false} TopupCreditedExactlyOnce(s: State, events: seq<Event>, p: PaymentId)
    requires Fresh(s) && p in s.payments && s.payments[p].invoice.None?
    ensures var t := Run(s, events);
            var credited := Approvals(s, events, p) > 0 && s.payments[p].amount > 0.0;
            && p in t.payments && (t.payments[p].status == Received <==> credited)
            && Credits(t.books.ledger, TopupKey(p)) == (if credited then 1 else 0)
            && (forall j :: 0 <= j < |t.books.ledger| && t.books.ledger[j].key == Some(TopupKey(p)) ==>
                  CreditsTopup(t.books.ledger[j], s.payments[p]))
            && Sound(t.books)
  {
    RunKeepsTopups(s, events);
    ReceivedExactly(s, events, p);
    assert TopupOk(Run(s, events).books.ledger, p, Run(s, events).payments[p]);
  }

  /** Any approval that reaches its transaction after the top-up was received only ends. */
  lemma {:induction false} LateApprovalOnlyEnds(s: State, h: HandlerId, p: PaymentId)
    requires TopupInv(s) && Approves(s, Write(h), p)
    requires p in s.payments && s.payments[p].invoice.None? && s.payments[p].status == Received
    ensures Step(s, Write(h)) == Done(s, h)
  {
    SecondApprovalIsNoop(s, p);
  }

  /** The first approval of a positive top-up to reach its transaction credits it. */
  lemma {:induction false} FirstWriteCredits(s: State, h: HandlerId, p: PaymentId)
    requires TopupInv(s) && Approves(s, Write(h), p)
    requires p in s.payments && s.payments[p].invoice.None?
    requires s.payments[p].status == Pending && s.payments[p].amount > 0.0
    ensures var t := Step(s, Write(h));
            && t.handlers == s.handlers - {h}
            && p in t.payments && t.payments[p].status == Received && t.payments[p].invoice.None?
            && Credits(t.books.ledger, TopupKey(p)) == 1
  {
    PendingTopupIsAccepted(s, p);
    FirstApprovalCredits(s, p);
  }

  lemma {:induction false} TwoReads(s: State, p: PaymentId)
    requires s.handlers == map[] && p in s.payments && s.payments[p].status == Pending
    ensures Step(Step(s, ApproveRead(0, p)), ApproveRead(1, p)) ==
            s.(handlers := map[0 := Approving(p), 1 := Approving(p)])
  {
  }

  lemma {:induction false} TwoHandlers(x: Handler)
    ensures map[0 := x, 1 := x] - {0} == map[1 := x] && map[1 := x] - {1} == map[]
  {
  }

  /** Overlapping approvals occur for every pending top-up of positive amount. */
  lemma {:induction false} ApprovalsOverlap(s: State, p: PaymentId) returns (events: seq<Event>)
    requires Fresh(s) && p in s.payments && s.payments[p].invoice.None?
    requires s.payments[p].status == Pending && s.payments[p].amount > 0.0
    ensures var t := Run(s, events);
            && t.handlers == map[1 := Approving(p)]
            && p in t.payments && t.payments[p].status == Received
            && Credits(t.books.ledger, TopupKey(p)) == 1
            && Step(t, Write(1)) == t.(handlers := map[])
  {
    events := [ApproveRead(0, p), ApproveRead(1, p), Write(0)];
    RunOfThree(s, events[0], events[1], events[2]);
    StepKeepsTopups(s, events[0]);
    StepKeepsTopups(Step(s, events[0]), events[1]);
    TwoReads(s, p);
    TwoHandlers(Approving(p));
    var read := s.(handlers := map[0 := Approving(p), 1 := Approving(p)]);
    FirstWriteCredits(read, 0, p);
    StepKeepsTopups(read, events[2]);
    LateApprovalOnlyEnds(Step(read, events[2]), 1, p);
  }
}
