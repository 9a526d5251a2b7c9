/**
 The databases mirror: six per-type searches merged into one table. A type whose search did
 not answer with a list is skipped, for upserts and for deletions.
 */
module DokployDatabases {
  import opened MirrorPass
  import opened DokployMirror

  datatype Row = Row(dbType: string, data: Item)

  type Table = map<string, Row>

  /** A type's list, and which statements of its pass the database accepts. */
  datatype Answer = Answer(items: seq<Item>, faults: Faults)

  /** The types that answered. */
  type Answers = map<string, Answer>

  const TYPES := ["postgres", "mysql", "mariadb", "mongo", "redis", "libsql"]

  function DatabaseId(dbType: string, item: Item): string {
    ScalarText(item, [dbType + "Id", dbType + "ID", "databaseId", "id"])
  }

  /** The id of a database item: the type's own field in two spellings, then "databaseId", then
      "id"; a field counts only when those before it hold no scalar. */
  lemma {:induction false} DatabaseIdByField(dbType: string, item: Item)
    ensures Scalar(item, dbType + "Id") && item[dbType + "Id"].Str? ==>
              DatabaseId(dbType, item) == item[dbType + "Id"].s
    ensures Scalar(item, dbType + "Id") && item[dbType + "Id"].Num? ==>
              DatabaseId(dbType, item) == item[dbType + "Id"].text
    ensures !Scalar(item, dbType + "Id") && Scalar(item, dbType + "ID") && item[dbType + "ID"].Str? ==>
              DatabaseId(dbType, item) == item[dbType + "ID"].s
    ensures !Scalar(item, dbType + "Id") && !Scalar(item, dbType + "ID") ==>
              && (Scalar(item, "databaseId") && item["databaseId"].Str? ==>
                    DatabaseId(dbType, item) == item["databaseId"].s)
              && (!Scalar(item, "databaseId") ==>
                    && (Scalar(item, "id") && item["id"].Str? ==> DatabaseId(dbType, item) == item["id"].s)
                    && (!Scalar(item, "id") ==> DatabaseId(dbType, item) == ""))
  {
    var keys := [dbType + "Id", dbType + "ID", "databaseId", "id"];
    FirstScalarDecides(item, keys);
    assert keys[0] == dbType + "Id" && keys[1] == dbType + "ID" && keys[2] == "databaseId" && keys[3] == "id";
  }

  /** The upserts of one answered type, each stamped with the type. */
  function Stamps(dbType: string, a: Answer): seq<Upsert<Row>> {
    seq(|a.items|, i requires 0 <= i < |a.items| =>
      Upsert(DatabaseId(dbType, a.items[i]), Row(dbType, a.items[i]),
             DatabaseId(dbType, a.items[i]) != "" && a.faults.insertOk(i)))
  }

  lemma {:induction false} StampsArePlausible(dbType: string, a: Answer)
    ensures Plausible(Stamps(dbType, a))
    ensures forall i :: 0 <= i < |a.items| ==> Stamps(dbType, a)[i].row == Row(dbType, a.items[i])
  {
  }

  function OfType(t: Table, dbType: string): set<string> {
    set id | id in t && t[id].dbType == dbType
  }

  /** A row of an answered type goes when it was read, was not listed, and its DELETE succeeds. */
  predicate Removable(dbType: string, a: Answer, id: string) {
    a.faults.readOk && id !in SeenIds(Stamps(dbType, a)) && a.faults.deleteOk(id)
  }

  function StaleOf(t: Table, dbType: string, a: Answer): set<string> {
    if a.faults.readOk then Deletable(OfType(t, dbType), SeenIds(Stamps(dbType, a)), a.faults.deleteOk) else {}
  }

  /** Upsert the list, then delete the rows that had this type before and were not seen. */
  function SyncType(t: Table, dbType: string, answers: Answers): Table {
    if dbType in answers
    then Merged(t, Stamps(dbType, answers[dbType])) - StaleOf(t, dbType, answers[dbType])
    else t
  }

  function SyncAll(t: Table, types: seq<string>, answers: Answers): Table {
    if types == [] then t
    else SyncType(SyncAll(t, types[..|types| - 1], answers), types[|types| - 1], answers)
  }

  class DatabaseMirror {
    var table: Table

    constructor (initial: Table)
      ensures table == initial
    {
      table := initial;
    }

    /** The per-item upserts of one answered type. */
    method StampItems(dbType: string, a: Answer) returns (synced: nat, failed: nat, seen: set<string>)
      modifies this
      ensures table == Merged(old(table), Stamps(dbType, a))
      ensures seen == SeenIds(Stamps(dbType, a))
      ensures synced == StoredCount(Stamps(dbType, a)) && synced + failed == |a.items|
    {
      ghost var us := Stamps(dbType, a);
      seen := {};
      synced, failed := 0, 0;
      for i := 0 to |a.items|
        invariant table == Merged(old(table), us[..i])
        invariant seen == SeenIds(us[..i])
        invariant synced == StoredCount(us[..i]) && synced + failed == i
      {
        PassSnoc(old(table), us, i);
        var id := DatabaseId(dbType, a.items[i]);
        if id != "" {
          seen := seen + {id};
        }
        if id != "" && a.faults.insertOk(i) {
          table := table[id := Row(dbType, a.items[i])];
          synced := synced + 1;
        } else {
          failed := failed + 1;
        }
      }
      assert us[..|a.items|] == us;
    }

    /** One answered type. */
    method SyncOne(dbType: string, answers: Answers) returns (synced: nat, failed: nat, removed: nat)
      requires dbType in answers
      modifies this
      ensures table == SyncType(old(table), dbType, answers)
      ensures synced == StoredCount(Stamps(dbType, answers[dbType])) && synced + failed == |answers[dbType].items|
      ensures removed == |StaleOf(old(table), dbType, answers[dbType])|
    {
      var a := answers[dbType];
      var existing := if a.faults.readOk then OfType(table, dbType) else {};
      var seen;
      synced, failed, seen := StampItems(dbType, a);
      table, removed := DeleteUnseen(table, existing, seen, a.faults.deleteOk);
      assert !a.faults.readOk ==> Deletable(existing, seen, a.faults.deleteOk) == {};
    }

    /** The whole databases sync. */
    method Sync(types: seq<string>, answers: Answers)
      returns (synced: nat, failed: nat, removed: nat, skipped: seq<string>)
      modifies this
      ensures table == SyncAll(old(table), types, answers)
      ensures synced == SyncedCount(types, answers) && synced + failed == ItemCount(types, answers)
      ensures removed == RemovedCount(old(table), types, answers)
      ensures forall t :: t in skipped <==> t in types && t !in answers
    {
      synced, failed, removed, skipped := 0, 0, 0, [];
      for i := 0 to |types|
        invariant table == SyncAll(old(table), types[..i], answers)
        invariant synced == SyncedCount(types[..i], answers) && synced + failed == ItemCount(types[..i], answers)
        invariant removed == RemovedCount(old(table), types[..i], answers)
        invariant forall t :: t in skipped <==> t in types[..i] && t !in answers
      {
        assert types[..i + 1][..i] == types[..i] && types[..i + 1] == types[..i] + [types[i]];
        if types[i] !in answers {
          skipped := skipped + [types[i]];
        } else {
          var s, f, r := SyncOne(types[i], answers);
          synced, failed, removed := synced + s, failed + f, removed + r;
        }
      }
      assert types[..|types|] == types;
    }
  }

  function ItemCount(types: seq<string>, answers: Answers): nat {
    if types == [] then 0
    else
      var last := types[|types| - 1];
      ItemCount(types[..|types| - 1], answers) + if last in answers then |answers[last].items| else 0
  }

  function SyncedCount(types: seq<string>, answers: Answers): nat {
    if types == [] then 0
    else
      var last := types[|types| - 1];
      SyncedCount(types[..|types| - 1], answers) +
      if last in answers then StoredCount(Stamps(last, answers[last])) else 0
  }

  function RemovedCount(t: Table, types: seq<string>, answers: Answers): nat {
    if types == [] then 0
    else
      var prev, last := types[..|types| - 1], types[|types| - 1];
      RemovedCount(t, prev, answers) +
      if last in answers then |StaleOf(SyncAll(t, prev, answers), last, answers[last])| else 0
  }

  // ----- Closed form -----

  /** The k-th type answered with a list from which the id was stored. */
  predicate Stores(types: seq<string>, answers: Answers, k: nat, id: string) {
    k < |types| && types[k] in answers && id in StoredIds(Stamps(types[k], answers[types[k]]))
  }

  ghost predicate StoresLast(types: seq<string>, answers: Answers, k: nat, id: string) {
    Stores(types, answers, k, id) && forall j: nat :: j > k ==> !Stores(types, answers, j, id)
  }

  /** The pass of its own type deletes the row. */
  predicate Removed(types: seq<string>, answers: Answers, dbType: string, id: string) {
    dbType in types && dbType in answers && Removable(dbType, answers[dbType], id)
  }

  predicate DistinctTypes(types: seq<string>) {
    forall i, j :: 0 <= i < j < |types| ==> types[i] != types[j]
  }

  lemma {:induction false} StoredBySync(t: Table, dbType: string, answers: Answers, id: string)
    requires dbType in answers && id in StoredIds(Stamps(dbType, answers[dbType]))
    ensures var us := Stamps(dbType, answers[dbType]);
            var s := SyncType(t, dbType, answers);
            id in s && s[id].dbType == dbType && forall i: nat :: IsLast(us, id, i) ==> s[id] == us[i].row
  {
    var us := Stamps(dbType, answers[dbType]);
    StampsArePlausible(dbType, answers[dbType]);
    MergedMinus(t, us, StaleOf(t, dbType, answers[dbType]));
    var i := LastExists(us, id);
  }

  lemma {:induction false} NotStoredBySync(t: Table, dbType: string, answers: Answers, id: string)
    requires dbType in answers && id !in StoredIds(Stamps(dbType, answers[dbType]))
    ensures var s := SyncType(t, dbType, answers);
            && (id in s <==> id in t && !(t[id].dbType == dbType && Removable(dbType, answers[dbType], id)))
            && (id in s ==> s[id] == t[id])
  {
    MergedClosedForm(t, Stamps(dbType, answers[dbType]));
  }

  lemma {:induction false} StoredIdEnds(t: Table, types: seq<string>, answers: Answers, id: string, k: nat)
    requires DistinctTypes(types) && StoresLast(types, answers, k, id)
    ensures var us := Stamps(types[k], answers[types[k]]);
            var final := SyncAll(t, types, answers);
            id in final && final[id].dbType == types[k] && forall i: nat :: IsLast(us, id, i) ==> final[id] == us[i].row
    decreases |types|
  {
    var n := |types| - 1;
    var prev, dbType := types[..n], types[n];
    if k == n {
      StoredBySync(SyncAll(t, prev, answers), dbType, answers, id);
    } else {
      PrefixStores(types, answers, id);
      assert StoresLast(prev, answers, k, id) && prev[k] == types[k];
      StoredIdEnds(t, prev, answers, id, k);
      assert !Stores(types, answers, n, id) && types[k] != dbType;
      if dbType in answers {
        NotStoredBySync(SyncAll(t, prev, answers), dbType, answers, id);
      }
    }
  }

  lemma {:induction false} UnstoredIdEnds(t: Table, types: seq<string>, answers: Answers, id: string)
    requires DistinctTypes(types) && forall k: nat :: !Stores(types, answers, k, id)
    ensures var final := SyncAll(t, types, answers);
            && (id in final <==> id in t && !Removed(types, answers, t[id].dbType, id))
            && (id in final ==> final[id] == t[id])
    decreases |types|
  {
    if types != [] {
      var n := |types| - 1;
      var prev, dbType := types[..n], types[n];
      PrefixStores(types, answers, id);
      UnstoredIdEnds(t, prev, answers, id);
      assert !Stores(types, answers, n, id);
      if dbType in answers {
        NotStoredBySync(SyncAll(t, prev, answers), dbType, answers, id);
      }
      assert types == prev + [dbType];
    }
  }

  /** Where every remote id ends, whichever statements fail: stamped with the last answered type
      that stored it, holding that list's last stored item; otherwise its row stays as it was
      unless the pass of its own type deletes it. */
  lemma {:induction false} DatabaseSyncClosedForm(t: Table, types: seq<string>, answers: Answers, id: string)
    requires DistinctTypes(types)
    ensures var final := SyncAll(t, types, answers);
            && (forall k: nat :: StoresLast(types, answers, k, id) ==>
                  && id in final && final[id].dbType == types[k]
                  && forall i: nat :: IsLast(Stamps(types[k], answers[types[k]]), id, i) ==>
                       final[id] == Row(types[k], answers[types[k]].items[i]))
            && ((forall k: nat :: !Stores(types, answers, k, id)) ==>
                  && (id in final <==> id in t && !Removed(types, answers, t[id].dbType, id))
                  && (id in final ==> final[id] == t[id]))
  {
    forall k: nat | StoresLast(types, answers, k, id)
      ensures var final := SyncAll(t, types, answers);
              && id in final && final[id].dbType == types[k]
              && forall i: nat :: IsLast(Stamps(types[k], answers[types[k]]), id, i) ==>
                   final[id] == Row(types[k], answers[types[k]].items[i])
    {
      StoredIdEnds(t, types, answers, id, k);
    }
    if forall k: nat :: !Stores(types, answers, k, id) {
      UnstoredIdEnds(t, types, answers, id);
    }
  }

  lemma {:induction false} LastStoreExists(types: seq<string>, answers: Answers, id: string, k: nat)
    returns (last: nat)
    requires Stores(types, answers, k, id)
    ensures StoresLast(types, answers, last, id)
    decreases |types| - k
  {
    last := k;
    if j: nat :| j > k && Stores(types, answers, j, id) {
      last := LastStoreExists(types, answers, id, j);
    }
  }

  /** A sync leaves each id in a state that depends only on the answers or keeps its row, so a
      second one ends where the first did. */
  lemma {:induction false} RepeatedIdEnds(t: Table, types: seq<string>, answers: Answers, id: string)
    requires DistinctTypes(types)
    ensures var once := SyncAll(t, types, answers);
            var twice := SyncAll(once, types, answers);
            (id in twice <==> id in once) && (id in once ==> twice[id] == once[id])
  {
    var once := SyncAll(t, types, answers);
    if k: nat :| Stores(types, answers, k, id) {
      var last := LastStoreExists(types, answers, id, k);
      StoredIdEnds(t, types, answers, id, last);
      StoredIdEnds(once, types, answers, id, last);
      var i := LastExists(Stamps(types[last], answers[types[last]]), id);
    } else {
      UnstoredIdEnds(t, types, answers, id);
      UnstoredIdEnds(once, types, answers, id);
    }
  }

  /** The second sync finds no stale row at any of its types. */
  lemma {:induction false} NothingStale(t: Table, types: seq<string>, answers: Answers, n: nat, id: string)
    requires DistinctTypes(types) && n < |types| && types[n] in answers
    ensures id !in StaleOf(SyncAll(SyncAll(t, types, answers), types[..n], answers), types[n], answers[types[n]])
  {
    var once, prev := SyncAll(t, types, answers), types[..n];
    var us := Stamps(types[n], answers[types[n]]);
    StampsArePlausible(types[n], answers[types[n]]);
    StoredAreSeen(us);
    if id !in SeenIds(us) {
      if k: nat :| Stores(prev, answers, k, id) {
        var last := LastStoreExists(prev, answers, id, k);
        StoredIdEnds(once, prev, answers, id, last);
      } else {
        UnstoredIdEnds(once, prev, answers, id);
        if k: nat :| Stores(types, answers, k, id) {
          var last := LastStoreExists(types, answers, id, k);
          StoredIdEnds(t, types, answers, id, last);
          assert last != n;
        } else {
          UnstoredIdEnds(t, types, answers, id);
        }
      }
    }
  }

  lemma {:induction false} NothingRemoved(t: Table, types: seq<string>, answers: Answers, n: nat)
    requires DistinctTypes(types) && n <= |types|
    ensures RemovedCount(SyncAll(t, types, answers), types[..n], answers) == 0
  {
    if n > 0 {
      NothingRemoved(t, types, answers, n - 1);
      assert types[..n][..n - 1] == types[..n - 1];
      if types[n - 1] in answers {
        var table := SyncAll(SyncAll(t, types, answers), types[..n - 1], answers);
        var stale := StaleOf(table, types[n - 1], answers[types[n - 1]]);
        forall id | id in stale ensures false {
          NothingStale(t, types, answers, n - 1, id);
        }
        assert stale == {};
      }
    }
  }

  /** Repeating a sync with the same answers, whichever statements fail in both, changes nothing
      and removes nothing. */
  lemma {:induction false} DatabaseSyncIsIdempotent(t: Table, types: seq<string>, answers: Answers)
    requires DistinctTypes(types)
    ensures var once := SyncAll(t, types, answers);
            SyncAll(once, types, answers) == once && RemovedCount(once, types, answers) == 0
  {
    var once := SyncAll(t, types, answers);
    var twice := SyncAll(once, types, answers);
    forall id ensures (id in twice <==> id in once) && (id in once ==> twice[id] == once[id]) {
      RepeatedIdEnds(t, types, answers, id);
    }
    NothingRemoved(t, types, answers, |types|);
    assert types[..|types|] == types;
  }

  /** No statement of the type's pass fails. */
  ghost predicate Faultless(a: Answer) {
    DeletesAll(a.faults) && forall i: nat :: a.faults.insertOk(i)
  }

  predicate Lists(types: seq<string>, answers: Answers, k: nat, id: string) {
    k < |types| && types[k] in answers && id in SeenIds(Stamps(types[k], answers[types[k]]))
  }

  ghost predicate ListsLast(types: seq<string>, answers: Answers, k: nat, id: string) {
    Lists(types, answers, k, id) && forall j: nat :: j > k ==> !Lists(types, answers, j, id)
  }

  lemma {:induction false} FaultlessStoresAll(dbType: string, a: Answer)
    requires Faultless(a)
    ensures StoredIds(Stamps(dbType, a)) == SeenIds(Stamps(dbType, a))
  {
    var us := Stamps(dbType, a);
    forall i | 0 <= i < |us| ensures us[i].stored <==> us[i].id != "" {
      assert a.faults.insertOk(i);
    }
  }

  lemma {:induction false} ListedIsStored(types: seq<string>, answers: Answers, k: nat, id: string)
    requires forall d :: d in answers ==> Faultless(answers[d])
    ensures Lists(types, answers, k, id) <==> Stores(types, answers, k, id)
  {
    if k < |types| && types[k] in answers {
      FaultlessStoresAll(types[k], answers[types[k]]);
    }
  }

  /** When database writes succeed, an id ends stamped with the last answered type whose list
      contains it, holding that list's last item. */
  lemma {:induction false} ListedIdEnds(t: Table, types: seq<string>, answers: Answers, id: string, k: nat)
    requires DistinctTypes(types) && forall d :: d in answers ==> Faultless(answers[d])
    requires ListsLast(types, answers, k, id)
    ensures var final := SyncAll(t, types, answers);
            && id in final && final[id].dbType == types[k]
            && forall i: nat :: IsLast(Stamps(types[k], answers[types[k]]), id, i) ==>
                 final[id] == Row(types[k], answers[types[k]].items[i])
  {
    forall j: nat ensures Lists(types, answers, j, id) <==> Stores(types, answers, j, id) {
      ListedIsStored(types, answers, j, id);
    }
    StoredIdEnds(t, types, answers, id, k);
  }

  /** When database writes succeed, an id no list contains keeps its row if its type was
      skipped, and is gone otherwise. */
  lemma {:induction false} UnlistedIdEnds(t: Table, types: seq<string>, answers: Answers, id: string)
    requires DistinctTypes(types) && forall d :: d in answers ==> Faultless(answers[d])
    requires forall k: nat :: !Lists(types, answers, k, id)
    ensures var final := SyncAll(t, types, answers);
            && (id in final <==> id in t && !(t[id].dbType in types && t[id].dbType in answers))
            && (id in final ==> final[id] == t[id])
  {
    forall j: nat ensures !Stores(types, answers, j, id) {
      ListedIsStored(types, answers, j, id);
    }
    UnstoredIdEnds(t, types, answers, id);
    if id in t && t[id].dbType in types && t[id].dbType in answers {
      var k: nat :| k < |types| && types[k] == t[id].dbType;
      assert !Lists(types, answers, k, id);
      assert Faultless(answers[t[id].dbType]);
    }
  }

  lemma {:induction false} PrefixStores(types: seq<string>, answers: Answers, id: string)
    requires types != []
    ensures var prev := types[..|types| - 1];
            forall k: nat :: Stores(prev, answers, k, id) <==> Stores(types, answers, k, id) && k < |types| - 1
  {
  }

  /** An answered item with a non-empty string under its type's own field ends, when no later type
      lists that id, in the row of that id, stamped with the type. */
  lemma {:induction false} ListedItemEndsUnderItsField(t: Table, types: seq<string>, answers: Answers, k: nat, i: nat,
                                                       x: string)
    requires DistinctTypes(types) && forall d :: d in answers ==> Faultless(answers[d])
    requires k < |types| && types[k] in answers && i < |answers[types[k]].items| && x != ""
    requires types[k] + "Id" in answers[types[k]].items[i] && answers[types[k]].items[i][types[k] + "Id"] == Str(x)
    requires forall j: nat :: j > k ==> !Lists(types, answers, j, x)
    ensures var final := SyncAll(t, types, answers); x in final && final[x].dbType == types[k]
  {
    var a := answers[types[k]];
    DatabaseIdByField(types[k], a.items[i]);
    assert Stamps(types[k], a)[i].id == x;
    ListedIdEnds(t, types, answers, x, k);
  }

  /** The six types of the sync are distinct, so the closed forms apply to it. */
  lemma {:induction false} TypesAreDistinct()
    ensures DistinctTypes(TYPES) && |TYPES| == 6
    ensures forall d :: d in {"postgres", "mysql", "mariadb", "mongo", "redis", "libsql"} ==> d in TYPES
  {
  }
}
