/** What a sync pass does to a keyed table, whatever the rows are. */
module MirrorPass {
  /** One upstream item: its remote id, empty when it has none; the row it would store; and
      whether the upsert succeeds. */
  datatype Upsert<V> = Upsert(id: string, row: V, stored: bool)

  /** An item without an id is never stored. */
  predicate Plausible<V>(us: seq<Upsert<V>>) {
    forall i :: 0 <= i < |us| && us[i].stored ==> us[i].id != ""
  }

  function SeenIds<V>(us: seq<Upsert<V>>): set<string> {
    set i | 0 <= i < |us| && us[i].id != "" :: us[i].id
  }

  function StoredIds<V>(us: seq<Upsert<V>>): set<string> {
    set i | 0 <= i < |us| && us[i].stored :: us[i].id
  }

  function StoredCount<V>(us: seq<Upsert<V>>): nat {
    if us == [] then 0 else StoredCount(us[..|us| - 1]) + if us[|us| - 1].stored then 1 else 0
  }

  /** The table after the upsert loop. */
  function Merged<V>(table: map<string, V>, us: seq<Upsert<V>>): map<string, V> {
    if us == [] then table
    else
      var last := us[|us| - 1];
      var before := Merged(table, us[..|us| - 1]);
      if last.stored then before[last.id := last.row] else before
  }

  /** The position of the last stored upsert of an id. */
  predicate IsLast<V>(us: seq<Upsert<V>>, id: string, i: nat) {
    && i < |us| && us[i].stored && us[i].id == id
    && forall j :: i < j < |us| && us[j].stored ==> us[j].id != id
  }

  lemma {:induction false} IdsSnoc<V>(us: seq<Upsert<V>>, u: Upsert<V>)
    ensures SeenIds(us + [u]) == SeenIds(us) + if u.id != "" then {u.id} else {}
    ensures StoredIds(us + [u]) == StoredIds(us) + if u.stored then {u.id} else {}
  {
    var vs := us + [u];
    assert forall i :: 0 <= i < |us| ==> vs[i] == us[i];
    assert vs[|us|] == u;
  }

  /** One more upsert, seen by each of the folds. */
  lemma {:induction false} PassSnoc<V>(table: map<string, V>, us: seq<Upsert<V>>, i: nat)
    requires i < |us|
    ensures SeenIds(us[..i + 1]) == SeenIds(us[..i]) + if us[i].id != "" then {us[i].id} else {}
    ensures StoredCount(us[..i + 1]) == StoredCount(us[..i]) + if us[i].stored then 1 else 0
    ensures Merged(table, us[..i + 1]) ==
            if us[i].stored then Merged(table, us[..i])[us[i].id := us[i].row] else Merged(table, us[..i])
  {
    assert us[..i + 1] == us[..i] + [us[i]] && us[..i + 1][..i] == us[..i];
    IdsSnoc(us[..i], us[i]);
  }

  lemma {:induction false} StoredAreSeen<V>(us: seq<Upsert<V>>)
    requires Plausible(us)
    ensures StoredIds(us) <= SeenIds(us)
  {
  }

  lemma {:induction false} LastExists<V>(us: seq<Upsert<V>>, id: string) returns (i: nat)
    requires id in StoredIds(us)
    ensures IsLast(us, id, i)
    decreases |us|
  {
    var n := |us| - 1;
    if us[n].stored && us[n].id == id {
      i := n;
    } else {
      assert us == us[..n] + [us[n]];
      IdsSnoc(us[..n], us[n]);
      i := LastExists(us[..n], id);
    }
  }

  /** After the loop a row holds the last stored upsert of its id, or is untouched. */
  lemma {:induction false} MergedClosedForm<V>(table: map<string, V>, us: seq<Upsert<V>>)
    ensures var m := Merged(table, us);
            && m.Keys == table.Keys + StoredIds(us)
            && (forall id :: id in table && id !in StoredIds(us) ==> m[id] == table[id])
            && (forall id, i: nat :: IsLast(us, id, i) ==> id in m && m[id] == us[i].row)
    decreases |us|
  {
    if us != [] {
      var n := |us| - 1;
      var prev := us[..n];
      assert us == prev + [us[n]];
      IdsSnoc(prev, us[n]);
      MergedClosedForm(table, prev);
      forall id, i: nat | IsLast(us, id, i)
        ensures id in Merged(table, us) && Merged(table, us)[id] == us[i].row
      {
        if i < n {
          assert IsLast(prev, id, i);
        }
      }
    }
  }

  /** The ids read before the pass that were not seen in it and can be deleted. */
  function Deletable(existing: set<string>, seen: set<string>, deleteOk: string -> bool): set<string> {
    set id | id in existing && id !in seen && deleteOk(id)
  }

  /** Walks the ids read before the pass, in any order, deleting the unseen ones. */
  method DeleteUnseen<V>(table: map<string, V>, existing: set<string>, seen: set<string>, deleteOk: string -> bool)
    returns (left: map<string, V>, removed: nat)
    ensures left == table - Deletable(existing, seen, deleteOk)
    ensures removed == |Deletable(existing, seen, deleteOk)|
  {
    left, removed := table, 0;
    var todo := existing;
    while todo != {}
      invariant todo <= existing
      invariant left == table - Deletable(existing - todo, seen, deleteOk)
      invariant removed == |Deletable(existing - todo, seen, deleteOk)|
      decreases todo
    {
      var id :| id in todo;
      ghost var gone := Deletable(existing - todo, seen, deleteOk);
      if id !in seen && deleteOk(id) {
        left := left - {id};
        removed := removed + 1;
        assert Deletable(existing - (todo - {id}), seen, deleteOk) == gone + {id};
      } else {
        assert Deletable(existing - (todo - {id}), seen, deleteOk) == gone;
      }
      todo := todo - {id};
    }
    assert existing - {} == existing;
  }

  /** Deleting unseen ids after the merge leaves every stored row with its last item. */
  lemma {:induction false} MergedMinus<V>(table: map<string, V>, us: seq<Upsert<V>>, stale: set<string>)
    requires Plausible(us) && stale !! SeenIds(us)
    ensures var m := Merged(table, us) - stale;
            && stale !! StoredIds(us)
            && m.Keys == StoredIds(us) + (table.Keys - stale)
            && forall id, i: nat :: IsLast(us, id, i) ==> id in m && m[id] == us[i].row
  {
    MergedClosedForm(table, us);
    StoredAreSeen(us);
    forall id, i: nat | IsLast(us, id, i) ensures id in StoredIds(us) {}
  }

  /** Merging the same upserts again changes nothing. */
  lemma {:induction false} MergeAgain<V>(table: map<string, V>, us: seq<Upsert<V>>)
    requires forall id, i: nat :: IsLast(us, id, i) ==> id in table && table[id] == us[i].row
    ensures Merged(table, us) == table
  {
    var m := Merged(table, us);
    MergedClosedForm(table, us);
    forall id | id in m ensures id in table && m[id] == table[id] {
      if id in StoredIds(us) {
        var i := LastExists(us, id);
      }
    }
    forall id | id in table ensures id in m {}
  }
}

/** The Dokploy mirror: one upstream list upserted into one local table. */
module DokployMirror {
  import opened MirrorPass
  import opened Prelude

  /** A decoded JSON value; a number carries its lossless decimal text. */
  datatype Json = Str(s: string) | Num(text: string) | Flag(b: bool) | Null | Composite

  type Item = map<string, Json>

  datatype Entity =
    | Projects | Servers | Registries | SshKeys | Certificates | Applications
    | Composes | Environments | Domains | Deployments | Backups

  /** The first of `keys` that holds a scalar, as text; an empty string is a scalar too. */
  function ScalarText(item: Item, keys: seq<string>): string {
    if keys == [] then ""
    else if keys[0] in item then
      match item[keys[0]]
      case Str(s) => s
      case Num(text) => text
      case Flag(b) => if b then "true" else "false"
      case Null => ScalarText(item, keys[1..])
      case Composite => ScalarText(item, keys[1..])
    else ScalarText(item, keys[1..])
  }

  function IdKeys(entity: Entity): seq<string> {
    match entity
    case Projects => ["projectId", "id"]
    case Servers => ["serverId", "id"]
    case Registries => ["registryId", "id"]
    case SshKeys => ["sshKeyId", "sshKeyID", "id"]
    case Certificates => ["certificateId", "id"]
    case Applications => ["applicationId", "id"]
    case Composes => ["composeId", "id"]
    case Environments => ["environmentId", "id"]
    case Domains => ["domainId", "id"]
    case Deployments => ["deploymentId", "deployId", "id"]
    case Backups => ["backupId", "id"]
  }

  /** The remote id of an upstream item; empty when it has none. */
  function ItemId(entity: Entity, item: Item): string {
    ScalarText(item, IdKeys(entity))
  }

  /** The text of a scalar; None for null and composite values. */
  function TextOf(v: Json): Option<string> {
    match v
    case Str(s) => Some(s)
    case Num(text) => Some(text)
    case Flag(b) => Some(if b then "true" else "false")
    case Null => None
    case Composite => None
  }

  /** The first key that holds a scalar decides, and the keys after it never count; without one
      the text is empty. */
  lemma {:induction false} FirstScalarDecides(item: Item, keys: seq<string>)
    ensures forall k: nat :: k < |keys| && keys[k] in item && TextOf(item[keys[k]]).Some? &&
                             (forall j :: 0 <= j < k ==> keys[j] !in item || TextOf(item[keys[j]]).None?) ==>
              ScalarText(item, keys) == TextOf(item[keys[k]]).value
    ensures (forall j :: 0 <= j < |keys| ==> keys[j] !in item || TextOf(item[keys[j]]).None?) ==>
              ScalarText(item, keys) == ""
    decreases |keys|
  {
    if keys != [] {
      FirstScalarDecides(item, keys[1..]);
      forall k: nat | 0 < k < |keys| && keys[k] in item && TextOf(item[keys[k]]).Some? &&
                      forall j :: 0 <= j < k ==> keys[j] !in item || TextOf(item[keys[j]]).None?
        ensures ScalarText(item, keys) == TextOf(item[keys[k]]).value
      {
        assert keys[1..][k - 1] == keys[k];
        assert forall j :: 0 <= j < k - 1 ==> keys[1..][j] == keys[j + 1];
        assert ScalarText(item, keys[1..]) == TextOf(item[keys[1..][k - 1]]).value;
      }
      if forall j :: 0 <= j < |keys| ==> keys[j] !in item || TextOf(item[keys[j]]).None? {
        assert forall j :: 0 <= j < |keys| - 1 ==> keys[1..][j] == keys[j + 1];
      }
    }
  }

  /** The field that carries the id of each entity. */
  predicate IsIdField(entity: Entity, key: string) {
    || (entity == Projects && key == "projectId") || (entity == Servers && key == "serverId")
    || (entity == Registries && key == "registryId") || (entity == SshKeys && key == "sshKeyId")
    || (entity == Certificates && key == "certificateId") || (entity == Applications && key == "applicationId")
    || (entity == Composes && key == "composeId") || (entity == Environments && key == "environmentId")
    || (entity == Domains && key == "domainId") || (entity == Deployments && key == "deploymentId")
    || (entity == Backups && key == "backupId")
  }

  /** A second spelling two entities also accept. */
  predicate IsAltField(entity: Entity, key: string) {
    (entity == SshKeys && key == "sshKeyID") || (entity == Deployments && key == "deployId")
  }

  predicate Scalar(item: Item, key: string) {
    key in item && item[key] != Null && item[key] != Composite
  }

  lemma {:induction false} ScalarOfTwo(item: Item, a: string, b: string)
    ensures Scalar(item, a) ==> ScalarText(item, [a, b]) == TextOf(item[a]).value
    ensures !Scalar(item, a) && Scalar(item, b) ==> ScalarText(item, [a, b]) == TextOf(item[b]).value
    ensures !Scalar(item, a) && !Scalar(item, b) ==> ScalarText(item, [a, b]) == ""
  {
    assert [a, b][1..] == [b] && [b][1..] == [];
    assert ScalarText(item, [b]) == if Scalar(item, b) then TextOf(item[b]).value else "";
  }

  lemma {:induction false} ScalarOfThree(item: Item, a: string, b: string, c: string)
    ensures Scalar(item, a) ==> ScalarText(item, [a, b, c]) == TextOf(item[a]).value
    ensures !Scalar(item, a) ==> ScalarText(item, [a, b, c]) == ScalarText(item, [b, c])
  {
    assert [a, b, c][1..] == [b, c];
  }

  /** The id of an item: its entity's own field, then the second spelling, then "id"; a field
      counts only when those before it hold no scalar, and without any there is no id. */
  lemma {:induction false} ItemIdByField(entity: Entity, item: Item, own: string)
    requires IsIdField(entity, own)
    ensures Scalar(item, own) && item[own].Str? ==> ItemId(entity, item) == item[own].s
    ensures Scalar(item, own) && item[own].Num? ==> ItemId(entity, item) == item[own].text
    ensures forall alt :: IsAltField(entity, alt) && !Scalar(item, own) && Scalar(item, alt) && item[alt].Str? ==>
              ItemId(entity, item) == item[alt].s
    ensures !Scalar(item, own) && (forall alt :: IsAltField(entity, alt) ==> !Scalar(item, alt)) ==>
              && (Scalar(item, "id") && item["id"].Str? ==> ItemId(entity, item) == item["id"].s)
              && (!Scalar(item, "id") ==> ItemId(entity, item) == "")
  {
    ScalarOfTwo(item, own, "id");
    if entity == SshKeys || entity == Deployments {
      var alt := if entity == SshKeys then "sshKeyID" else "deployId";
      assert IsAltField(entity, alt) && IdKeys(entity) == [own, alt, "id"];
      ScalarOfThree(item, own, alt, "id");
      ScalarOfTwo(item, alt, "id");
    } else {
      assert IdKeys(entity) == [own, "id"];
      assert forall alt :: !IsAltField(entity, alt);
    }
  }

  /** An item with a non-empty id is stored under it by every pass whose insert of it succeeds;
      an environment also needs the id of its project. */
  lemma {:induction false} ItemIsStoredUnderItsField(entity: Entity, items: seq<Item>, f: Faults, i: nat, own: string)
    requires i < |items| && IsIdField(entity, own) && f.insertOk(i)
    requires Scalar(items[i], own) && items[i][own].Str? && items[i][own].s != ""
    ensures items[i][own].s in SeenIds(Upserts(entity, items, f))
    ensures entity != Environments ==> items[i][own].s in StoredIds(Upserts(entity, items, f))
    ensures Scalar(items[i], "projectId") && items[i]["projectId"].Str? && items[i]["projectId"].s != "" ==>
              items[i][own].s in StoredIds(Upserts(entity, items, f))
    ensures entity == Environments && !Scalar(items[i], "projectId") ==> !Upserts(entity, items, f)[i].stored
  {
    ItemIdByField(entity, items[i], own);
    FirstScalarDecides(items[i], ["projectId"]);
    var us := Upserts(entity, items, f);
    assert us[i].id == items[i][own].s;
  }

  /** Whether the upsert gets as far as its INSERT: environments also need a project. */
  predicate Storable(entity: Entity, item: Item) {
    ItemId(entity, item) != "" && (entity == Environments ==> ScalarText(item, ["projectId"]) != "")
  }

  /** Which statements the database accepts. A row the first query fails to scan counts as one
      whose deletion fails. */
  datatype Faults = Faults(readOk: bool, insertOk: nat -> bool, deleteOk: string -> bool)

  /** The pass reads the table and every deletion succeeds; inserts may fail all the same. */
  ghost predicate DeletesAll(f: Faults) {
    f.readOk && forall id :: f.deleteOk(id)
  }

  function Upserts(entity: Entity, items: seq<Item>, f: Faults): seq<Upsert<Item>> {
    seq(|items|, i requires 0 <= i < |items| =>
      Upsert(ItemId(entity, items[i]), items[i], Storable(entity, items[i]) && f.insertOk(i)))
  }

  lemma {:induction false} UpsertsArePlausible(entity: Entity, items: seq<Item>, f: Faults)
    ensures Plausible(Upserts(entity, items, f))
  {
    var us := Upserts(entity, items, f);
    forall i | 0 <= i < |us| && us[i].stored ensures us[i].id != "" {
      assert us[i] == Upsert(ItemId(entity, items[i]), items[i], Storable(entity, items[i]) && f.insertOk(i));
    }
  }

  /** Rows the reconciling pass tries to delete, and manages to. */
  function Stale(table: map<string, Item>, us: seq<Upsert<Item>>, f: Faults): set<string> {
    if f.readOk then Deletable(table.Keys, SeenIds(us), f.deleteOk) else {}
  }

  function Synced(table: map<string, Item>, us: seq<Upsert<Item>>, reconcile: bool, f: Faults): map<string, Item> {
    if reconcile then Merged(table, us) - Stale(table, us, f) else Merged(table, us)
  }

  class Mirror {
    var table: map<string, Item>

    constructor (initial: map<string, Item>)
      ensures table == initial
    {
      table := initial;
    }

    /** The upsert loop: an item without an id, or whose INSERT fails, is counted as failed. */
    method StoreItems(entity: Entity, items: seq<Item>, f: Faults)
      returns (synced: nat, failed: nat, seen: set<string>)
      modifies this
      ensures table == Merged(old(table), Upserts(entity, items, f))
      ensures seen == SeenIds(Upserts(entity, items, f))
      ensures synced == StoredCount(Upserts(entity, items, f)) && synced + failed == |items|
    {
      ghost var us := Upserts(entity, items, f);
      seen := {};
      synced, failed := 0, 0;
      for i := 0 to |items|
        invariant table == Merged(old(table), us[..i])
        invariant seen == SeenIds(us[..i])
        invariant synced == StoredCount(us[..i]) && synced + failed == i
      {
        PassSnoc(old(table), us, i);
        var id := ItemId(entity, items[i]);
        if id != "" {
          seen := seen + {id};
        }
        if Storable(entity, items[i]) && f.insertOk(i) {
          table := table[id := items[i]];
          synced := synced + 1;
        } else {
          failed := failed + 1;
        }
      }
      assert us[..|items|] == us;
    }

    /** A whole pass; with `reconcile` the rows read before it and not seen in it are deleted. */
    method UpsertItems(entity: Entity, items: seq<Item>, reconcile: bool, f: Faults)
      returns (synced: nat, failed: nat, removed: nat)
      modifies this
      ensures table == Synced(old(table), Upserts(entity, items, f), reconcile, f)
      ensures synced == StoredCount(Upserts(entity, items, f)) && synced + failed == |items|
      ensures removed == if reconcile then |Stale(old(table), Upserts(entity, items, f), f)| else 0
    {
      var existing: set<string> := if reconcile && f.readOk then table.Keys else {};
      var seen;
      synced, failed, seen := StoreItems(entity, items, f);
      removed := 0;
      if reconcile {
        table, removed := DeleteUnseen(table, existing, seen, f.deleteOk);
        assert !f.readOk ==> Deletable(existing, seen, f.deleteOk) == {};
      }
    }
  }

  // ----- What a pass achieves -----

  /** A pass leaves what it stored and what it did not delete. No row stored in a pass is deleted
      in it, every stored id holds its last item, and a targeted pass removes nothing. */
  lemma {:induction false} MirrorAgreement(table: map<string, Item>, entity: Entity, items: seq<Item>,
                                           reconcile: bool, f: Faults)
    ensures var us := Upserts(entity, items, f);
            var after := Synced(table, us, reconcile, f);
            var gone := if reconcile then Stale(table, us, f) else {};
            && after.Keys == StoredIds(us) + (table.Keys - gone)
            && gone !! StoredIds(us)
            && (!reconcile ==> table.Keys <= after.Keys)
            && forall id, i: nat :: IsLast(us, id, i) ==> id in after && after[id] == items[i]
  {
    var us := Upserts(entity, items, f);
    var gone := if reconcile then Stale(table, us, f) else {};
    UpsertsArePlausible(entity, items, f);
    MergedMinus(table, us, gone);
    assert Synced(table, us, reconcile, f) == Merged(table, us) - gone;
  }

  /** When no read or deletion fails, the rows left are those stored plus the old ones seen. */
  lemma {:induction false} CleanPassKeys(table: map<string, Item>, entity: Entity, items: seq<Item>, f: Faults)
    requires DeletesAll(f)
    ensures var us := Upserts(entity, items, f);
            Synced(table, us, true, f).Keys == StoredIds(us) + (table.Keys * SeenIds(us))
  {
    var us := Upserts(entity, items, f);
    MirrorAgreement(table, entity, items, true, f);
    assert table.Keys - Stale(table, us, f) == table.Keys * SeenIds(us);
  }

  /** Repeating a pass whose read and deletions succeed changes nothing and removes nothing,
      whichever of its inserts fail. */
  lemma {:induction false} SyncIsIdempotent(table: map<string, Item>, entity: Entity, items: seq<Item>, f: Faults)
    requires DeletesAll(f)
    ensures var us := Upserts(entity, items, f);
            var once := Synced(table, us, true, f);
            Synced(once, us, true, f) == once && Stale(once, us, f) == {}
  {
    var us := Upserts(entity, items, f);
    var once := Synced(table, us, true, f);
    MirrorAgreement(table, entity, items, true, f);
    CleanPassKeys(table, entity, items, f);
    UpsertsArePlausible(entity, items, f);
    StoredAreSeen(us);
    assert Stale(once, us, f) == {};
    MergeAgain(once, us);
    assert once - {} == once;
  }
}
