/**
 The hourly reconciliation tick over provider accounts and the orphan_provider_resources
 table. The table carries UNIQUE(provider_id, resource_type, external_resource_id) over all
 rows, resolved ones included, so recording a machine whose row was resolved is an error that
 aborts the tick. There is no transaction: statements before the error stay committed.
 */
module OrphanReconciliation {
  import opened Prelude

  type ExternalId = string
  type AccountId = nat

  datatype Vm = Vm(ext: ExternalId, payload: string)

  /** `listing` is None when ListVMs failed; `instances` holds the external ids of the
      organization's live instances. */
  datatype Account = Account(id: AccountId, listing: Option<seq<Vm>>, instances: seq<ExternalId>)

  datatype Orphan = Orphan(account: AccountId, ext: ExternalId, payload: string, resolved: bool)

  /** What the table says about external ids: those with a row, and those with an open row. */
  datatype View = View(known: set<ExternalId>, open: set<ExternalId>)

  function Exts(vms: seq<Vm>): set<ExternalId> {
    set i | 0 <= i < |vms| :: vms[i].ext
  }

  function Listed(a: Account): set<ExternalId> {
    if a.listing.Some? then Exts(a.listing.value) else {}
  }

  function Local(a: Account): set<ExternalId> {
    set i | 0 <= i < |a.instances| :: a.instances[i]
  }

  /** Machines the provider lists for the account that no live instance accounts for. */
  function Orphans(a: Account): set<ExternalId> {
    Listed(a) - Local(a)
  }

  function ViewOf(rows: seq<Orphan>): View {
    View(set i | 0 <= i < |rows| :: rows[i].ext,
         set i | 0 <= i < |rows| && !rows[i].resolved :: rows[i].ext)
  }

  predicate UniqueExts(rows: seq<Orphan>) {
    forall i, j :: 0 <= i < j < |rows| ==> rows[i].ext != rows[j].ext
  }

  // ----- Reference semantics on views -----

  function Sight(v: View, vms: seq<Vm>, local: set<ExternalId>): (View, bool)
    decreases |vms|
  {
    if vms == [] then (v, true)
    else if vms[0].ext in local then Sight(v, vms[1..], local)
    else if vms[0].ext in v.known && vms[0].ext !in v.open then (v, false)
    else Sight(View(v.known + {vms[0].ext}, v.open + {vms[0].ext}), vms[1..], local)
  }

  function Visit(v: View, a: Account): (View, bool) {
    if a.listing.None? then (v, true)
    else
      var (w, ok) := Sight(v, a.listing.value, Local(a));
      if ok then (View(w.known, w.open * Listed(a)), true) else (w, false)
  }

  function TickView(v: View, accounts: seq<Account>): (View, bool)
    decreases |accounts|
  {
    if accounts == [] then (v, true)
    else
      var (w, ok) := Visit(v, accounts[0]);
      if ok then TickView(w, accounts[1..]) else (w, false)
  }

  // ----- The table and the loops of the tick -----

  /** Position `k` holds the last entry of `ext` in the listing. */
  predicate LastEntry(vms: seq<Vm>, ext: ExternalId, k: nat) {
    k < |vms| && vms[k].ext == ext && forall j :: k < j < |vms| ==> vms[j].ext != ext
  }

  /** Old rows keep their account, id and state, and their payload unless they are open rows of a
      listed orphan; new rows are open rows of listed orphans and carry the visited account. */
  predicate Extended(before: seq<Orphan>, after: seq<Orphan>, account: AccountId, listed: set<ExternalId>,
                     local: set<ExternalId>)
  {
    && |before| <= |after|
    && (forall i :: 0 <= i < |before| ==> after[i] == before[i].(payload := after[i].payload))
    && (forall i :: 0 <= i < |before| && (before[i].resolved || before[i].ext in local || before[i].ext !in listed) ==>
          after[i].payload == before[i].payload)
    && (forall i :: |before| <= i < |after| ==>
          after[i].account == account && !after[i].resolved && after[i].ext !in local && after[i].ext in listed)
  }

  /** Every open row of a listed orphan has its last listed payload. */
  ghost predicate PayloadsLatest(rows: seq<Orphan>, vms: seq<Vm>, local: set<ExternalId>) {
    forall i, k: nat :: 0 <= i < |rows| && !rows[i].resolved && rows[i].ext !in local &&
                        LastEntry(vms, rows[i].ext, k) ==>
      rows[i].payload == vms[k].payload
  }

  ghost predicate Recorded(before: seq<Orphan>, after: seq<Orphan>, account: AccountId, vms: seq<Vm>,
                           local: set<ExternalId>)
  {
    Extended(before, after, account, Exts(vms), local) && PayloadsLatest(after, vms, local)
  }

  lemma {:induction false} RecordedNothing(rows: seq<Orphan>, account: AccountId, local: set<ExternalId>)
    ensures Recorded(rows, rows, account, [], local)
  {
  }

  lemma {:induction false} ExtsSnoc(vms: seq<Vm>, vm: Vm)
    ensures Exts(vms + [vm]) == Exts(vms) + {vm.ext}
  {
    assert forall i :: 0 <= i < |vms| ==> (vms + [vm])[i] == vms[i];
    assert (vms + [vm])[|vms|] == vm;
  }

  /** A further listing entry leaves the last entry of every other id where it was. */
  lemma {:induction false} LastEntrySnoc(vms: seq<Vm>, vm: Vm, ext: ExternalId, k: nat)
    requires LastEntry(vms + [vm], ext, k)
    ensures if ext == vm.ext then k == |vms| else LastEntry(vms, ext, k)
  {
    var after := vms + [vm];
    assert after[|vms|] == vm;
    if ext != vm.ext {
      forall j | k < j < |vms| ensures vms[j].ext != ext {
        assert after[j] == vms[j];
      }
    }
  }

  /** The row of the entry just recorded has its payload, and the others keep theirs. */
  lemma {:induction false} PayloadsSnoc(mid: seq<Orphan>, after: seq<Orphan>, vms: seq<Vm>, vm: Vm,
                                        local: set<ExternalId>)
    requires PayloadsLatest(mid, vms, local) && |mid| <= |after|
    requires forall i :: 0 <= i < |after| && after[i].ext != vm.ext ==> i < |mid| && after[i] == mid[i]
    requires vm.ext !in local ==>
               forall i :: 0 <= i < |after| && after[i].ext == vm.ext && !after[i].resolved ==>
                 after[i].payload == vm.payload
    ensures PayloadsLatest(after, vms + [vm], local)
  {
    forall i, k: nat | 0 <= i < |after| && !after[i].resolved && after[i].ext !in local &&
                       LastEntry(vms + [vm], after[i].ext, k)
      ensures after[i].payload == (vms + [vm])[k].payload
    {
      LastEntrySnoc(vms, vm, after[i].ext, k);
    }
  }

  /** What one listed machine does to the rows. */
  ghost predicate RecordsOne(mid: seq<Orphan>, after: seq<Orphan>, account: AccountId, vm: Vm) {
    || after == mid + [Orphan(account, vm.ext, vm.payload, false)]
    || exists i :: 0 <= i < |mid| && mid[i].ext == vm.ext && !mid[i].resolved &&
                   after == mid[i := mid[i].(payload := vm.payload)]
  }

  lemma {:induction false} OnlyItsRow(mid: seq<Orphan>, after: seq<Orphan>, account: AccountId, vm: Vm)
    requires RecordsOne(mid, after, account, vm) && UniqueExts(after)
    ensures forall i :: 0 <= i < |after| && after[i].ext == vm.ext && !after[i].resolved ==>
              after[i].payload == vm.payload
  {
    var k := |mid|;
    if |after| == |mid| {
      k :| 0 <= k < |mid| && mid[k].ext == vm.ext && !mid[k].resolved &&
           after == mid[k := mid[k].(payload := vm.payload)];
    }
    forall i | 0 <= i < |after| && after[i].ext == vm.ext ensures i == k {
      assert after[k].ext == vm.ext;
    }
  }

  lemma {:induction false} RecordedSnoc(before: seq<Orphan>, mid: seq<Orphan>, after: seq<Orphan>, account: AccountId,
                                        vms: seq<Vm>, vm: Vm, local: set<ExternalId>)
    requires Recorded(before, mid, account, vms, local) && UniqueExts(mid) && UniqueExts(after)
    requires if vm.ext in local then after == mid else RecordsOne(mid, after, account, vm)
    ensures Recorded(before, after, account, vms + [vm], local)
  {
    ExtsSnoc(vms, vm);
    if vm.ext in local {
      PayloadsOfLocal(mid, vms, vm, local);
    } else {
      OnlyItsRow(mid, after, account, vm);
      PayloadsSnoc(mid, after, vms, vm, local);
    }
  }

  lemma {:induction false} PayloadsOfLocal(rows: seq<Orphan>, vms: seq<Vm>, vm: Vm, local: set<ExternalId>)
    requires PayloadsLatest(rows, vms, local) && vm.ext in local
    ensures PayloadsLatest(rows, vms + [vm], local)
  {
    forall i, k: nat | 0 <= i < |rows| && !rows[i].resolved && rows[i].ext !in local &&
                       LastEntry(vms + [vm], rows[i].ext, k)
      ensures rows[i].payload == (vms + [vm])[k].payload
    {
      LastEntrySnoc(vms, vm, rows[i].ext, k);
    }
  }

  class OrphanTable {
    var rows: seq<Orphan>

    constructor ()
      ensures rows == []
    {
      rows := [];
    }

    /** Look for an open row; refresh it, or insert a new row under the unique index. */
    method Record(account: AccountId, vm: Vm) returns (ok: bool)
      requires UniqueExts(rows)
      modifies this
      ensures UniqueExts(rows)
      ensures ok <==> vm.ext in old(ViewOf(rows)).open || vm.ext !in old(ViewOf(rows)).known
      ensures !ok ==> rows == old(rows)
      ensures ok ==> ViewOf(rows) == View(old(ViewOf(rows)).known + {vm.ext}, old(ViewOf(rows)).open + {vm.ext})
      ensures ok && vm.ext !in old(ViewOf(rows)).known ==>
                rows == old(rows) + [Orphan(account, vm.ext, vm.payload, false)]
      ensures ok && vm.ext in old(ViewOf(rows)).known ==>
                exists i :: 0 <= i < |old(rows)| && old(rows)[i].ext == vm.ext && !old(rows)[i].resolved &&
                            rows == old(rows)[i := old(rows)[i].(payload := vm.payload)]
    {
      var i := 0;
      while i < |rows| && !(rows[i].ext == vm.ext && !rows[i].resolved)
        invariant 0 <= i <= |rows|
        invariant forall j :: 0 <= j < i ==> rows[j].ext != vm.ext || rows[j].resolved
      {
        i := i + 1;
      }
      if i < |rows| {
        var before := rows;
        rows := rows[i := rows[i].(payload := vm.payload)];
        SameView(before, rows);
        assert before[i].ext in ViewOf(before).open && before[i].ext in ViewOf(before).known;
        return true;
      }
      ok := forall j :: 0 <= j < |rows| ==> rows[j].ext != vm.ext;
      if ok {
        InsertedView(rows, Orphan(account, vm.ext, vm.payload, false));
        rows := rows + [Orphan(account, vm.ext, vm.payload, false)];
        assert rows[|rows| - 1] == Orphan(account, vm.ext, vm.payload, false);
      }
    }

    /** The positions of the open rows. */
    method OpenRows() returns (stale: seq<nat>)
      ensures forall i: nat :: i in stale <==> i < |rows| && !rows[i].resolved
    {
      stale := [];
      for i := 0 to |rows|
        invariant forall j: nat :: j in stale <==> j < i && !rows[j].resolved
      {
        if !rows[i].resolved {
          stale := stale + [i];
        }
      }
    }

    /** Close every open row whose machine the listing no longer shows. */
    method ResolveStale(atProvider: set<ExternalId>)
      requires UniqueExts(rows)
      modifies this
      ensures UniqueExts(rows) && |rows| == |old(rows)|
      ensures forall i :: 0 <= i < |rows| ==>
                rows[i] == old(rows)[i].(resolved := old(rows)[i].resolved || old(rows)[i].ext !in atProvider)
      ensures ViewOf(rows) == View(old(ViewOf(rows)).known, old(ViewOf(rows)).open * atProvider)
    {
      var before := rows;
      var stale := OpenRows();
      for k := 0 to |stale|
        invariant |rows| == |before|
        invariant forall i :: 0 <= i < |rows| ==>
                    rows[i] == if i in stale[..k] && before[i].ext !in atProvider
                               then before[i].(resolved := true) else before[i]
      {
        assert stale[..k + 1] == stale[..k] + [stale[k]];
        assert stale[k] in stale;
        var id := stale[k];
        if rows[id].ext !in atProvider {
          rows := rows[id := rows[id].(resolved := true)];
        }
      }
      assert stale[..|stale|] == stale;
      ResolvedView(before, rows, atProvider);
    }

    /** An administrator may close any open row by hand. */
    method ResolveByAdmin(id: nat) returns (changed: bool)
      requires UniqueExts(rows)
      modifies this
      ensures UniqueExts(rows)
      ensures changed <==> id < |old(rows)| && !old(rows)[id].resolved
      ensures !changed ==> rows == old(rows)
      ensures changed ==> ViewOf(rows) == View(old(ViewOf(rows)).known, old(ViewOf(rows)).open - {old(rows)[id].ext})
    {
      changed := id < |rows| && !rows[id].resolved;
      if changed {
        var before := rows;
        rows := rows[id := rows[id].(resolved := true)];
        ClosedView(before, rows, id);
      }
    }

    /** The loop over a listing: every machine no live instance accounts for is recorded, until one
        cannot be. */
    method RecordListing(account: AccountId, vms: seq<Vm>, local: set<ExternalId>)
      returns (ok: bool, atProvider: set<ExternalId>)
      requires UniqueExts(rows)
      modifies this
      ensures UniqueExts(rows)
      ensures (ViewOf(rows), ok) == Sight(old(ViewOf(rows)), vms, local)
      ensures ok ==> atProvider == Exts(vms) && Recorded(old(rows), rows, account, vms, local)
    {
      atProvider := {};
      RecordedNothing(rows, account, local);
      for i := 0 to |vms|
        invariant UniqueExts(rows)
        invariant atProvider == set j | 0 <= j < i :: vms[j].ext
        invariant Sight(ViewOf(rows), vms[i..], local) == Sight(old(ViewOf(rows)), vms, local)
        invariant Recorded(old(rows), rows, account, vms[..i], local)
      {
        ghost var before := rows;
        atProvider := atProvider + {vms[i].ext};
        assert vms[i..][0] == vms[i] && vms[i..][1..] == vms[i + 1..];
        if vms[i].ext !in local {
          var recorded := Record(account, vms[i]);
          if !recorded {
            return false, atProvider;
          }
        }
        RecordedSnoc(old(rows), before, rows, account, vms[..i], vms[i], local);
        assert vms[..i + 1] == vms[..i] + [vms[i]];
      }
      assert vms[..|vms|] == vms;
      ok := true;
    }

    /** One account of the tick. */
    method VisitAccount(a: Account) returns (ok: bool)
      requires UniqueExts(rows)
      modifies this
      ensures UniqueExts(rows)
      ensures (ViewOf(rows), ok) == Visit(old(ViewOf(rows)), a)
      ensures a.listing.None? ==> rows == old(rows)
      ensures a.listing.Some? && ok ==>
                exists mid: seq<Orphan> ::
                  && Recorded(old(rows), mid, a.id, a.listing.value, Local(a)) && |mid| == |rows|
                  && forall i :: 0 <= i < |rows| ==>
                       rows[i] == mid[i].(resolved := mid[i].resolved || mid[i].ext !in Listed(a))
    {
      if a.listing.None? {
        return true;
      }
      var local: set<ExternalId> := {};
      for i := 0 to |a.instances|
        invariant local == set j | 0 <= j < i :: a.instances[j]
      {
        local := local + {a.instances[i]};
      }
      assert local == Local(a);
      var atProvider;
      ok, atProvider := RecordListing(a.id, a.listing.value, local);
      if ok {
        ghost var mid := rows;
        ResolveStale(atProvider);
        assert Recorded(old(rows), mid, a.id, a.listing.value, Local(a));
      }
    }

    /** The whole tick; the first failing account ends it. */
    method Tick(accounts: seq<Account>) returns (ok: bool)
      requires UniqueExts(rows)
      modifies this
      ensures UniqueExts(rows)
      ensures (ViewOf(rows), ok) == TickView(old(ViewOf(rows)), accounts)
    {
      for i := 0 to |accounts|
        invariant UniqueExts(rows)
        invariant TickView(ViewOf(rows), accounts[i..]) == TickView(old(ViewOf(rows)), accounts)
      {
        assert accounts[i..][0] == accounts[i] && accounts[i..][1..] == accounts[i + 1..];
        var visited := VisitAccount(accounts[i]);
        if !visited {
          return false;
        }
      }
      ok := true;
    }
  }

  lemma {:induction false} SameView(before: seq<Orphan>, after: seq<Orphan>)
    requires |before| == |after|
    requires forall i :: 0 <= i < |before| ==> before[i].ext == after[i].ext && before[i].resolved == after[i].resolved
    ensures ViewOf(before) == ViewOf(after)
  {
    assert forall i :: 0 <= i < |before| ==> before[i].ext == after[i].ext;
    assert ViewOf(before).known == ViewOf(after).known;
    assert ViewOf(before).open == ViewOf(after).open;
  }

  lemma {:induction false} InsertedView(rows: seq<Orphan>, row: Orphan)
    requires !row.resolved
    ensures ViewOf(rows + [row]) == View(ViewOf(rows).known + {row.ext}, ViewOf(rows).open + {row.ext})
  {
    var after := rows + [row];
    assert forall i :: 0 <= i < |rows| ==> after[i] == rows[i];
    assert after[|rows|] == row;
    assert ViewOf(after).known == ViewOf(rows).known + {row.ext};
    assert ViewOf(after).open == ViewOf(rows).open + {row.ext};
  }

  lemma {:induction false} ResolvedView(before: seq<Orphan>, after: seq<Orphan>, atProvider: set<ExternalId>)
    requires |before| == |after|
    requires forall i :: 0 <= i < |before| ==>
               after[i] == before[i].(resolved := before[i].resolved || before[i].ext !in atProvider)
    ensures ViewOf(after) == View(ViewOf(before).known, ViewOf(before).open * atProvider)
  {
    assert forall i :: 0 <= i < |before| ==> after[i].ext == before[i].ext;
    assert ViewOf(after).known == ViewOf(before).known;
    assert ViewOf(after).open == ViewOf(before).open * atProvider;
  }

  lemma {:induction false} ClosedView(before: seq<Orphan>, after: seq<Orphan>, id: nat)
    requires UniqueExts(before) && id < |before| && after == before[id := before[id].(resolved := true)]
    ensures ViewOf(after) == View(ViewOf(before).known, ViewOf(before).open - {before[id].ext})
  {
    assert forall i :: 0 <= i < |before| ==> after[i].ext == before[i].ext;
    assert ViewOf(after).known == ViewOf(before).known;
    assert ViewOf(after).open == ViewOf(before).open - {before[id].ext};
  }

  // ----- Closed forms -----

  /** A listing is recorded in full exactly when none of its orphans has a resolved row. */
  lemma {:induction false} SightClosedForm(v: View, vms: seq<Vm>, local: set<ExternalId>)
    ensures var found := Exts(vms) - local;
            var (w, ok) := Sight(v, vms, local);
            && (ok <==> found !! (v.known - v.open))
            && (ok ==> w == View(v.known + found, v.open + found))
            && v.known <= w.known && v.open <= w.open
            && w.known - w.open == v.known - v.open
            && (v.open <= v.known ==> w.open <= w.known)
    decreases |vms|
  {
    if vms != [] {
      var x := vms[0].ext;
      assert Exts(vms) == {x} + Exts(vms[1..]) by {
        assert forall i :: 1 <= i < |vms| ==> vms[i] == vms[1..][i - 1];
        assert forall y :: y in Exts(vms) ==> y in {x} + Exts(vms[1..]);
      }
      if x in local {
        SightClosedForm(v, vms[1..], local);
        assert Exts(vms) - local == Exts(vms[1..]) - local;
      } else if !(x in v.known && x !in v.open) {
        SightClosedForm(View(v.known + {x}, v.open + {x}), vms[1..], local);
        assert Exts(vms) - local == {x} + (Exts(vms[1..]) - local);
        assert (v.known + {x}) - (v.open + {x}) == v.known - v.open;
      } else {
        assert x in Exts(vms) - local;
      }
    }
  }

  /** For a listed account the open orphans U become (U and V) or (V without L), provided no
      orphan was resolved before; a failed listing changes nothing. */
  lemma {:induction false} VisitClosedForm(v: View, a: Account)
    ensures a.listing.None? ==> Visit(v, a) == (v, true)
    ensures a.listing.Some? ==> (Visit(v, a).1 <==> Orphans(a) !! (v.known - v.open))
    ensures a.listing.Some? && Visit(v, a).1 ==>
              Visit(v, a).0 == View(v.known + Orphans(a), (v.open * Listed(a)) + Orphans(a))
  {
    if a.listing.Some? {
      SightClosedForm(v, a.listing.value, Local(a));
    }
  }

  /** Some listed account at a position in [from, to) does not show `x`. */
  ghost predicate Drops(accounts: seq<Account>, from: nat, to: nat, x: ExternalId)
    requires to <= |accounts|
  {
    exists j :: from <= j < to && accounts[j].listing.Some? && x !in Listed(accounts[j])
  }

  /** `x` is an orphan of account `i` that is already resolved when the tick gets there: it
      was resolved before, or it was open and dropped by an earlier account. */
  ghost predicate Blocked(v: View, accounts: seq<Account>, i: nat, x: ExternalId)
    requires i < |accounts|
  {
    && x in Orphans(accounts[i])
    && (|| (x in v.known && x !in v.open)
        || (x in v.open && Drops(accounts, 0, i, x))
        || exists k :: 0 <= k < i && x in Orphans(accounts[k]) && Drops(accounts, k + 1, i, x))
  }

  lemma {:induction false} DropsShift(accounts: seq<Account>, from: nat, to: nat, x: ExternalId)
    requires accounts != [] && to < |accounts|
    ensures Drops(accounts, from + 1, to + 1, x) <==> Drops(accounts[1..], from, to, x)
  {
    if Drops(accounts, from + 1, to + 1, x) {
      var j :| from + 1 <= j < to + 1 && accounts[j].listing.Some? && x !in Listed(accounts[j]);
      assert accounts[1..][j - 1] == accounts[j];
    }
    if Drops(accounts[1..], from, to, x) {
      var j :| from <= j < to && accounts[1..][j].listing.Some? && x !in Listed(accounts[1..][j]);
      assert accounts[1..][j] == accounts[j + 1];
    }
  }

  lemma {:induction false} DropsSplit(accounts: seq<Account>, to: nat, x: ExternalId)
    requires 0 < to <= |accounts|
    ensures Drops(accounts, 0, to, x) <==>
              (accounts[0].listing.Some? && x !in Listed(accounts[0])) || Drops(accounts, 1, to, x)
  {
  }

  lemma {:induction false} BlockedShift(v: View, accounts: seq<Account>, i: nat, x: ExternalId)
    requires v.open <= v.known && i + 1 < |accounts| && Visit(v, accounts[0]).1
    ensures Blocked(v, accounts, i + 1, x) <==> Blocked(Visit(v, accounts[0]).0, accounts[1..], i, x)
  {
    var a, rest, w := accounts[0], accounts[1..], Visit(v, accounts[0]).0;
    VisitClosedForm(v, a);
    DropsSplit(accounts, i + 1, x);
    DropsShift(accounts, 0, i, x);
    assert rest[i] == accounts[i + 1];
    assert (exists k :: 0 <= k < i + 1 && x in Orphans(accounts[k]) && Drops(accounts, k + 1, i + 1, x)) <==>
           (x in Orphans(a) && Drops(rest, 0, i, x)) ||
           (exists k :: 0 <= k < i && x in Orphans(rest[k]) && Drops(rest, k + 1, i, x))
    by {
      forall k | 0 <= k < i
        ensures x in Orphans(rest[k]) && Drops(rest, k + 1, i, x) <==>
                x in Orphans(accounts[k + 1]) && Drops(accounts, k + 2, i + 1, x)
      {
        assert rest[k] == accounts[k + 1];
        DropsShift(accounts, k + 1, i, x);
      }
      if k :| 0 <= k < i + 1 && x in Orphans(accounts[k]) && Drops(accounts, k + 1, i + 1, x) {
        if k > 0 {
          assert x in Orphans(rest[k - 1]) && Drops(rest, k, i, x);
        }
      }
      if k :| 0 <= k < i && x in Orphans(rest[k]) && Drops(rest, k + 1, i, x) {
        assert x in Orphans(accounts[k + 1]) && Drops(accounts, k + 2, i + 1, x);
      }
    }
  }

  /** The tick fails exactly when some account lists an orphan whose row is, or by then has
      been, resolved. */
  lemma {:induction false} TickFailsExactly(v: View, accounts: seq<Account>)
    requires v.open <= v.known
    ensures !TickView(v, accounts).1 <==> exists i, x :: 0 <= i < |accounts| && Blocked(v, accounts, i, x)
    decreases |accounts|
  {
    if accounts != [] {
      var a, rest := accounts[0], accounts[1..];
      VisitClosedForm(v, a);
      var (w, ok) := Visit(v, a);
      if !ok {
        var x :| x in Orphans(a) && x in v.known - v.open;
        assert Blocked(v, accounts, 0, x);
      } else {
        TickFailsExactly(w, rest);
        forall i, x | 0 <= i < |accounts| && Blocked(v, accounts, i, x)
          ensures exists i', x' :: 0 <= i' < |rest| && Blocked(w, rest, i', x')
        {
          if i == 0 {
            assert false;
          }
          BlockedShift(v, accounts, i - 1, x);
          assert Blocked(w, rest, i - 1, x);
        }
        forall i, x | 0 <= i < |rest| && Blocked(w, rest, i, x)
          ensures exists i', x' :: 0 <= i' < |accounts| && Blocked(v, accounts, i', x')
        {
          BlockedShift(v, accounts, i, x);
          assert Blocked(v, accounts, i + 1, x);
        }
      }
    }
  }

  /** `x` is an orphan of account `k` that every listed account after it shows. */
  ghost predicate KeptFrom(accounts: seq<Account>, k: nat, x: ExternalId) {
    k < |accounts| && x in Orphans(accounts[k]) && !Drops(accounts, k + 1, |accounts|, x)
  }

  ghost predicate StaysOpen(v: View, accounts: seq<Account>, x: ExternalId) {
    (x in v.open && !Drops(accounts, 0, |accounts|, x)) || exists k: nat :: KeptFrom(accounts, k, x)
  }

  lemma {:induction false} KeptShift(accounts: seq<Account>, k: nat, x: ExternalId)
    requires accounts != []
    ensures KeptFrom(accounts, k + 1, x) <==> KeptFrom(accounts[1..], k, x)
  {
    if k + 1 < |accounts| {
      assert accounts[1..][k] == accounts[k + 1];
      DropsShift(accounts, k + 1, |accounts| - 1, x);
    }
  }

  lemma {:induction false} StaysOpenShift(v: View, accounts: seq<Account>, x: ExternalId)
    requires accounts != [] && Visit(v, accounts[0]).1
    ensures StaysOpen(v, accounts, x) <==> StaysOpen(Visit(v, accounts[0]).0, accounts[1..], x)
  {
    var rest, n := accounts[1..], |accounts| - 1;
    VisitClosedForm(v, accounts[0]);
    DropsSplit(accounts, n + 1, x);
    DropsShift(accounts, 0, n, x);
    if k: nat :| KeptFrom(accounts, k, x) && k > 0 {
      KeptShift(accounts, k - 1, x);
      assert KeptFrom(rest, k - 1, x);
    }
    if k: nat :| KeptFrom(rest, k, x) {
      KeptShift(accounts, k, x);
      assert KeptFrom(accounts, k + 1, x);
    }
    assert KeptFrom(accounts, 0, x) <==> x in Orphans(accounts[0]) && !Drops(rest, 0, n, x);
  }

  /** Exactly what is open after a successful tick: what was open and no listed account drops,
      and each account's orphans that no listed account after it drops. */
  lemma {:induction false} OpenExactly(v: View, accounts: seq<Account>, x: ExternalId)
    requires TickView(v, accounts).1
    ensures x in TickView(v, accounts).0.open <==> StaysOpen(v, accounts, x)
    decreases |accounts|
  {
    if accounts != [] {
      StaysOpenShift(v, accounts, x);
      OpenExactly(Visit(v, accounts[0]).0, accounts[1..], x);
    }
  }

  /** After a successful tick everything open lies in the listing of the last listed account. */
  lemma {:induction false} OpenLiesInLastListing(v: View, accounts: seq<Account>, last: nat)
    requires TickView(v, accounts).1
    requires last < |accounts| && accounts[last].listing.Some?
    requires forall j :: last < j < |accounts| ==> accounts[j].listing.None?
    ensures TickView(v, accounts).0.open <= Listed(accounts[last])
    ensures Orphans(accounts[last]) <= TickView(v, accounts).0.open
    decreases |accounts|
  {
    VisitClosedForm(v, accounts[0]);
    var w := Visit(v, accounts[0]).0;
    if last > 0 {
      assert accounts[1..][last - 1] == accounts[last];
      OpenLiesInLastListing(w, accounts[1..], last - 1);
    } else {
      Unlisted(w, accounts[1..]);
    }
  }

  lemma {:induction false} Unlisted(v: View, accounts: seq<Account>)
    requires forall j :: 0 <= j < |accounts| ==> accounts[j].listing.None?
    ensures TickView(v, accounts) == (v, true)
    decreases |accounts|
  {
    if accounts != [] {
      Unlisted(v, accounts[1..]);
    }
  }

  /** Rows are never removed or reopened: what is known stays known, and a resolved row stays
      resolved through every tick, successful or not. */
  lemma {:induction false} ResolvedIsTerminal(v: View, accounts: seq<Account>)
    requires v.open <= v.known
    ensures var w := TickView(v, accounts).0;
            w.open <= w.known && v.known <= w.known && v.known - v.open <= w.known - w.open
    decreases |accounts|
  {
    if accounts != [] {
      var a := accounts[0];
      if a.listing.Some? {
        SightClosedForm(v, a.listing.value, Local(a));
      }
      var (w, ok) := Visit(v, a);
      if ok {
        ResolvedIsTerminal(w, accounts[1..]);
      }
    }
  }

  /** What may happen to the table between two ticks: other ticks, and manual resolutions. */
  datatype Event = TickOver(accounts: seq<Account>) | CloseByAdmin(ext: ExternalId)

  function Effect(v: View, ev: Event): View {
    match ev
    case TickOver(accounts) => TickView(v, accounts).0
    case CloseByAdmin(x) => View(v.known, v.open - {x})
  }

  function After(v: View, events: seq<Event>): View
    decreases |events|
  {
    if events == [] then v else After(Effect(v, events[0]), events[1..])
  }

  /** Once an orphan's row is resolved, every later tick that lists it again fails, whatever
      ticks and manual resolutions lie in between. */
  lemma {:induction false} ReappearanceAlwaysFails(v: View, between: seq<Event>, accounts: seq<Account>,
                                                   i: nat, x: ExternalId)
    requires v.open <= v.known && x in v.known && x !in v.open
    requires i < |accounts| && x in Orphans(accounts[i])
    ensures !TickView(After(v, between), accounts).1
    decreases |between|
  {
    if between == [] {
      assert Blocked(v, accounts, i, x);
      TickFailsExactly(v, accounts);
    } else {
      var w := Effect(v, between[0]);
      if between[0].TickOver? {
        ResolvedIsTerminal(v, between[0].accounts);
        assert x in w.known - w.open;
      }
      ReappearanceAlwaysFails(w, between[1..], accounts, i, x);
    }
  }

  lemma {:induction false} OrphansBecomeKnown(v: View, accounts: seq<Account>, i: nat)
    requires v.open <= v.known && TickView(v, accounts).1 && i < |accounts|
    ensures Orphans(accounts[i]) <= TickView(v, accounts).0.known
    decreases |accounts|
  {
    VisitClosedForm(v, accounts[0]);
    var w := Visit(v, accounts[0]).0;
    if i == 0 {
      ResolvedIsTerminal(w, accounts[1..]);
    } else {
      assert accounts[1..][i - 1] == accounts[i];
      OrphansBecomeKnown(w, accounts[1..], i - 1);
    }
  }

  /** Two accounts resolve each other's orphans: if the last listed account does not show an
      orphan of an earlier one, a successful tick is followed by a failing one. */
  lemma {:induction false} SecondTickFails(v: View, accounts: seq<Account>, i: nat, last: nat, x: ExternalId)
    requires v.open <= v.known && TickView(v, accounts).1
    requires i < |accounts| && x in Orphans(accounts[i])
    requires last < |accounts| && accounts[last].listing.Some? && x !in Listed(accounts[last])
    requires forall j :: last < j < |accounts| ==> accounts[j].listing.None?
    ensures !TickView(TickView(v, accounts).0, accounts).1
  {
    var w := TickView(v, accounts).0;
    OpenLiesInLastListing(v, accounts, last);
    OrphansBecomeKnown(v, accounts, i);
    ResolvedIsTerminal(v, accounts);
    ReappearanceAlwaysFails(w, [], accounts, i, x);
  }

  /** With a single account an unchanged listing is stable: the next tick changes nothing. */
  lemma {:induction false} SingleAccountIsStable(v: View, a: Account)
    requires v.open <= v.known && Visit(v, a).1
    ensures Visit(Visit(v, a).0, a) == (Visit(v, a).0, true)
  {
    VisitClosedForm(v, a);
    var w := Visit(v, a).0;
    VisitClosedForm(w, a);
    if a.listing.Some? {
      assert Visit(w, a).1 by {
        forall x | x in Orphans(a) ensures x in w.open {}
      }
      assert (w.open * Listed(a)) + Orphans(a) == w.open;
    }
  }
}
