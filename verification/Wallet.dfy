/** The wallet ledger: immutable entries, a balance per wallet, idempotency keys per wallet. */
module Wallet {
  import opened Prelude

  type OrgId = nat

  /** UNIQUE(organization_id, currency) makes the pair the wallet's identity. */
  datatype WalletId = WalletId(org: OrgId, currency: string)

  datatype Entry = Entry(
    wallet: WalletId,
    direction: string,
    amount: real,
    before: real,
    after: real,
    reference: string,
    key: Option<string>)

  datatype Books = Books(balances: map<WalletId, real>, ledger: seq<Entry>)

  datatype Failure = InvalidAmount | NoWallet | InvalidDirection | InsufficientBalance | KeyAlreadyUsed

  datatype Outcome = Applied(books: Books) | Rejected(why: Failure)

  /** INSERT INTO wallets ... ON CONFLICT: a new wallet starts at zero. */
  function EnsureWallet(b: Books, id: WalletId): Books {
    if id in b.balances then b else b.(balances := b.balances[id := 0.0])
  }

  predicate KeyUsed(b: Books, id: WalletId, key: string) {
    exists i :: 0 <= i < |b.ledger| && b.ledger[i].wallet == id && b.ledger[i].key == Some(key)
  }

  function ApplyTransaction(b: Books, id: WalletId, direction: string, amount: real,
                            reference: string, key: string): Outcome
  {
    if amount <= 0.0 then Rejected(InvalidAmount)
    else if id !in b.balances then Rejected(NoWallet)
    else if direction != "credit" && direction != "debit" then Rejected(InvalidDirection)
    else
      var before := b.balances[id];
      var after := if direction == "credit" then before + amount else before - amount;
      if after < 0.0 && direction == "debit" then Rejected(InsufficientBalance)
      else if key != "" && KeyUsed(b, id, key) then Rejected(KeyAlreadyUsed)
      else
        var stored := if key == "" then None else Some(key);
        Applied(Books(b.balances[id := after],
                      b.ledger + [Entry(id, direction, amount, before, after, reference, stored)]))
  }

  function Signed(e: Entry): real {
    if e.direction == "credit" then e.amount else -e.amount
  }

  function Net(ledger: seq<Entry>, id: WalletId): real {
    if ledger == [] then 0.0
    else
      var last := ledger[|ledger| - 1];
      Net(ledger[..|ledger| - 1], id) + if last.wallet == id then Signed(last) else 0.0
  }

  /** Every balance is the net of its ledger entries and non-negative, entries belong to
      existing wallets and have positive amounts, and no key occurs twice in a wallet. */
  ghost predicate Sound(b: Books) {
    && (forall id :: id in b.balances ==> b.balances[id] == Net(b.ledger, id) && b.balances[id] >= 0.0)
    && (forall i :: 0 <= i < |b.ledger| ==> b.ledger[i].wallet in b.balances && b.ledger[i].amount > 0.0)
    && (forall i, j | 0 <= i < j < |b.ledger| && b.ledger[i].wallet == b.ledger[j].wallet ::
          b.ledger[i].key == None || b.ledger[i].key != b.ledger[j].key)
  }

  lemma {:induction false} NetOfUnknownWallet(ledger: seq<Entry>, id: WalletId)
    requires forall i :: 0 <= i < |ledger| ==> ledger[i].wallet != id
    ensures Net(ledger, id) == 0.0
  {
    if ledger != [] {
      NetOfUnknownWallet(ledger[..|ledger| - 1], id);
    }
  }

  lemma {:induction false} EnsureWalletKeepsSound(b: Books, id: WalletId)
    requires Sound(b)
    ensures Sound(EnsureWallet(b, id))
  {
    if id !in b.balances {
      NetOfUnknownWallet(b.ledger, id);
    }
  }

  /** Every accepted transaction appends one entry, moves one balance by its signed amount and
      keeps the books sound; its key was not in use. */
  lemma {:induction false} ApplyKeepsSound(b: Books, id: WalletId, direction: string, amount: real,
                                           reference: string, key: string)
    requires Sound(b)
    ensures var r := ApplyTransaction(b, id, direction, amount, reference, key);
            r.Applied? ==>
              && Sound(r.books)
              && |r.books.ledger| == |b.ledger| + 1 && b.ledger <= r.books.ledger
              && r.books.balances.Keys == b.balances.Keys
              && (key != "" ==> !KeyUsed(b, id, key) && KeyUsed(r.books, id, key))
  {
    var r := ApplyTransaction(b, id, direction, amount, reference, key);
    if r.Applied? {
      var after := r.books;
      var n := |b.ledger|;
      assert after.ledger[..n] == b.ledger;
      forall other | other in after.balances
        ensures after.balances[other] == Net(after.ledger, other) && after.balances[other] >= 0.0
      {
        assert Net(after.ledger, other) ==
               Net(b.ledger, other) + if other == id then Signed(after.ledger[n]) else 0.0;
      }
      assert after.ledger[n].wallet == id;
    }
  }

  /** The balance of a wallet; one that does not exist yet has none. */
  function BalanceOf(b: Books, id: WalletId): real {
    if id in b.balances then b.balances[id] else 0.0
  }

  lemma {:induction false} EnsureWalletExactly(b: Books, id: WalletId)
    ensures var c := EnsureWallet(b, id);
            && c.ledger == b.ledger && c.balances.Keys == b.balances.Keys + {id}
            && forall other :: BalanceOf(c, other) == BalanceOf(b, other)
  {
  }

  /** Which transactions are accepted, why the others are not, and what an accepted one writes:
      one balance moves by the amount, and the entry records both balances. */
  lemma {:induction false} ApplyExactly(b: Books, id: WalletId, direction: string, amount: real,
                                        reference: string, key: string)
    ensures var r := ApplyTransaction(b, id, direction, amount, reference, key);
            && (r.Applied? <==>
                && amount > 0.0 && id in b.balances
                && (direction == "credit" || (direction == "debit" && b.balances[id] >= amount))
                && (key == "" || forall i :: 0 <= i < |b.ledger| ==>
                                   b.ledger[i].wallet != id || b.ledger[i].key != Some(key)))
            && (r == Rejected(InvalidAmount) <==> amount <= 0.0)
            && (r == Rejected(InsufficientBalance) <==>
                amount > 0.0 && id in b.balances && direction == "debit" && b.balances[id] < amount)
            && (r == Rejected(KeyAlreadyUsed) ==>
                key != "" &&
                exists i :: 0 <= i < |b.ledger| && b.ledger[i].wallet == id && b.ledger[i].key == Some(key))
            && (r.Applied? ==>
                  var now := if direction == "credit" then b.balances[id] + amount else b.balances[id] - amount;
                  && r.books.balances == b.balances[id := now]
                  && r.books.ledger == b.ledger + [Entry(id, direction, amount, b.balances[id], now, reference,
                                                         if key == "" then None else Some(key))])
  {
  }
}
