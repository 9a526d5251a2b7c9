/** The merged ISO listing: local rows laid over the provider's list, and its pages. */
module IsoViews {
  import opened Prelude

  type IsoId = nat

  datatype Image = Image(
    ext: string, name: string, filename: string, desc: string, size: int, progress: int, isSystem: bool)

  datatype View = View(
    id: Option<IsoId>, ext: string, name: string, filename: string, description: string,
    sourceUrl: string, size: int, status: string, registerStatus: string, progress: int,
    isSystem: bool, createdAt: string)

  function StatusFromProgress(progress: int): string {
    if progress >= 100 then "active" else "provisioning"
  }

  function FromProvider(p: Image): View {
    View(None, p.ext, p.name, p.filename, p.desc, "", p.size, StatusFromProgress(p.progress), "",
         p.progress, p.isSystem, "")
  }

  /** A local row takes over a listed entry, borrowing what it does not know itself. */
  function Overlay(l: View, v: View): View {
    l.(progress := v.progress,
       filename := if v.filename != "" then v.filename else l.filename,
       description := if v.description != "" then v.description else l.description,
       size := if l.size == 0 then v.size else l.size)
  }

  predicate Listed(images: seq<Image>, ext: string) {
    exists i :: 0 <= i < |images| && images[i].ext == ext
  }

  predicate Matched(images: seq<Image>, l: View) {
    l.ext != "" && Listed(images, l.ext)
  }

  /** The index map keeps the last position of an external id. */
  predicate IsLastImage(images: seq<Image>, i: nat) {
    i < |images| && forall j :: i < j < |images| ==> images[j].ext != images[i].ext
  }

  // ----- Reference semantics -----

  function Unmatched(local: seq<View>, images: seq<Image>): seq<View> {
    if local == [] then []
    else
      var l := local[|local| - 1];
      Unmatched(local[..|local| - 1], images) + if Matched(images, l) then [] else [l]
  }

  /** An entry after all local rows with its external id were laid over it in order. */
  function Layered(v: View, local: seq<View>, ext: string): View {
    if local == [] then v
    else
      var l := local[|local| - 1];
      var before := Layered(v, local[..|local| - 1], ext);
      if l.ext == ext && ext != "" then Overlay(l, before) else before
  }

  function Slot(local: seq<View>, images: seq<Image>, i: nat): View
    requires i < |images|
  {
    if IsLastImage(images, i) then Layered(FromProvider(images[i]), local, images[i].ext) else FromProvider(images[i])
  }

  function Merge(local: seq<View>, images: seq<Image>): seq<View> {
    seq(|images|, i requires 0 <= i < |images| => Slot(local, images, i)) + Unmatched(local, images)
  }

  /** Each listed external id points to its last position. */
  ghost predicate IndexOf(images: seq<Image>, idx: map<string, nat>) {
    && (forall e :: e in idx <==> Listed(images, e))
    && (forall e :: e in idx ==> IsLastImage(images, idx[e]) && images[idx[e]].ext == e)
  }

  lemma {:induction false} IndexSnoc(images: seq<Image>, idx: map<string, nat>, i: nat)
    requires i < |images| && IndexOf(images[..i], idx)
    ensures IndexOf(images[..i + 1], idx[images[i].ext := i])
  {
    ListedSnoc(images, i);
    var a, b, next := images[..i], images[..i + 1], idx[images[i].ext := i];
    forall e | e in next ensures IsLastImage(b, next[e]) && b[next[e]].ext == e {
      if e != images[i].ext {
        assert IsLastImage(a, idx[e]) && a[idx[e]].ext == e;
        forall j | idx[e] < j < |b| ensures b[j].ext != e {
          assert j < i ==> b[j] == a[j];
        }
      }
    }
  }

  /** The first loop: one entry per provider image, and the index map. */
  method ProviderViews(images: seq<Image>) returns (views: seq<View>, idx: map<string, nat>)
    ensures |views| == |images| && IndexOf(images, idx)
    ensures forall i :: 0 <= i < |images| ==> views[i] == FromProvider(images[i])
  {
    views, idx := [], map[];
    for i := 0 to |images|
      invariant |views| == i
      invariant forall j :: 0 <= j < i ==> views[j] == FromProvider(images[j])
      invariant IndexOf(images[..i], idx)
    {
      IndexSnoc(images, idx, i);
      views := views + [FromProvider(images[i])];
      idx := idx[images[i].ext := i];
    }
    assert images[..|images|] == images;
  }

  lemma {:induction false} SlotSnoc(local: seq<View>, images: seq<Image>, k: nat, i: nat)
    requires k < |local| && i < |images|
    ensures var l := local[k];
            Slot(local[..k + 1], images, i) ==
            if IsLastImage(images, i) && l.ext == images[i].ext && l.ext != ""
            then Overlay(l, Slot(local[..k], images, i)) else Slot(local[..k], images, i)
  {
    assert local[..k + 1][..k] == local[..k] && local[..k + 1][k] == local[k];
  }

  /** Only the indexed position of a row's external id changes when the row is laid over. */
  lemma {:induction false} IndexedSlot(local: seq<View>, images: seq<Image>, idx: map<string, nat>, k: nat)
    requires k < |local| && IndexOf(images, idx)
    ensures var l := local[k];
            forall i: nat :: i < |images| ==>
              Slot(local[..k + 1], images, i) ==
              if l.ext != "" && l.ext in idx && i == idx[l.ext]
              then Overlay(l, Slot(local[..k], images, i)) else Slot(local[..k], images, i)
  {
    forall i: nat | i < |images|
      ensures Slot(local[..k + 1], images, i) ==
              if local[k].ext != "" && local[k].ext in idx && i == idx[local[k].ext]
              then Overlay(local[k], Slot(local[..k], images, i)) else Slot(local[..k], images, i)
    {
      SlotSnoc(local, images, k, i);
      assert Listed(images, images[i].ext);
    }
  }

  /** One more local row: it takes over the indexed entry, or is appended. */
  lemma {:induction false} MergeSnoc(local: seq<View>, images: seq<Image>, idx: map<string, nat>, k: nat)
    requires k < |local| && IndexOf(images, idx)
    ensures var l, before := local[k], Merge(local[..k], images);
            if l.ext in idx && l.ext != ""
            then idx[l.ext] < |before| &&
                 Merge(local[..k + 1], images) == before[idx[l.ext] := Overlay(l, before[idx[l.ext]])]
            else Merge(local[..k + 1], images) == before + [l]
  {
    var l, before, after := local[k], Merge(local[..k], images), Merge(local[..k + 1], images);
    assert local[..k + 1][..k] == local[..k];
    IndexedSlot(local, images, idx, k);
    assert Listed(images, l.ext) <==> l.ext in idx;
    forall i | 0 <= i < |images| ensures after[i] == Slot(local[..k + 1], images, i) {}
  }

  /** Both loops: local rows overwrite the entry they match or are appended. */
  method MergedViews(local: seq<View>, images: seq<Image>) returns (views: seq<View>)
    ensures views == Merge(local, images)
  {
    var idx;
    views, idx := ProviderViews(images);
    assert views == Merge(local[..0], images);
    for k := 0 to |local|
      invariant views == Merge(local[..k], images)
    {
      MergeSnoc(local, images, idx, k);
      var l := local[k];
      if l.ext in idx && l.ext != "" {
        views := views[idx[l.ext] := Overlay(l, views[idx[l.ext]])];
      } else {
        views := views + [l];
      }
    }
    assert local[..|local|] == local;
  }

  lemma {:induction false} ListedSnoc(images: seq<Image>, i: nat)
    requires i < |images|
    ensures forall e :: Listed(images[..i + 1], e) <==> Listed(images[..i], e) || e == images[i].ext
  {
    forall e ensures Listed(images[..i + 1], e) <==> Listed(images[..i], e) || e == images[i].ext {
      if Listed(images[..i], e) {
        var j :| 0 <= j < i && images[..i][j].ext == e;
        assert images[..i + 1][j].ext == e;
      }
      assert images[..i + 1][i] == images[i];
      if Listed(images[..i + 1], e) {
        var j :| 0 <= j < i + 1 && images[..i + 1][j].ext == e;
        assert j < i ==> images[..i][j].ext == e;
      }
    }
  }

  // ----- Which rows survive -----

  predicate LocalIdsDistinct(local: seq<View>) {
    && (forall j :: 0 <= j < |local| ==> local[j].id.Some?)
    && (forall j, k :: 0 <= j < k < |local| ==> local[j].id != local[k].id)
  }

  /** No later local row has the same external id. */
  predicate IsLastLocal(local: seq<View>, j: nat) {
    j < |local| && forall k :: j < k < |local| ==> local[k].ext != local[j].ext
  }

  predicate Shows(views: seq<View>, l: View) {
    exists i :: 0 <= i < |views| && views[i].id == l.id
  }

  /** A layered entry belongs to the last local row laid over it. */
  lemma {:induction false} LayeredOwner(v: View, local: seq<View>, ext: string, j: nat)
    requires ext != "" && IsLastLocal(local, j) && local[j].ext == ext
    ensures Layered(v, local, ext).id == local[j].id
    decreases |local|
  {
    var n := |local| - 1;
    if j < n {
      assert local[n].ext != ext;
      LayeredOwner(v, local[..n], ext, j);
    }
  }

  lemma {:induction false} LayeredUntouched(v: View, local: seq<View>, ext: string)
    requires forall j :: 0 <= j < |local| ==> local[j].ext != ext || ext == ""
    ensures Layered(v, local, ext) == v
  {
    if local != [] {
      LayeredUntouched(v, local[..|local| - 1], ext);
    }
  }

  lemma {:induction false} LastLocalExists(local: seq<View>, k: nat) returns (j: nat)
    requires k < |local|
    ensures IsLastLocal(local, j) && local[j].ext == local[k].ext
    decreases |local| - k
  {
    j := k;
    if !IsLastLocal(local, k) {
      var next :| k < next < |local| && local[next].ext == local[k].ext;
      j := LastLocalExists(local, next);
    }
  }

  /** A row that a later one hides owns no provider position. */
  lemma {:induction false} HiddenRowOwnsNoSlot(local: seq<View>, images: seq<Image>, j: nat, i: nat)
    requires LocalIdsDistinct(local) && j < |local| && !IsLastLocal(local, j) && i < |images|
    ensures Slot(local, images, i).id != local[j].id
  {
    var v, ext := FromProvider(images[i]), images[i].ext;
    if k: nat :| k < |local| && local[k].ext == ext && ext != "" {
      var last := LastLocalExists(local, k);
      LayeredOwner(v, local, ext, last);
    } else {
      LayeredUntouched(v, local, ext);
    }
  }

  lemma {:induction false} UnmatchedMembers(local: seq<View>, images: seq<Image>)
    ensures forall v :: v in Unmatched(local, images) <==> v in local && !Matched(images, v)
  {
    if local != [] {
      var n := |local| - 1;
      UnmatchedMembers(local[..n], images);
      assert local == local[..n] + [local[n]];
    }
  }

  lemma {:induction false} LastImageExists(images: seq<Image>, ext: string) returns (i: nat)
    requires Listed(images, ext)
    ensures IsLastImage(images, i) && images[i].ext == ext
    decreases |images|
  {
    var n := |images| - 1;
    if images[n].ext == ext {
      i := n;
    } else {
      var j :| 0 <= j < |images| && images[j].ext == ext;
      assert images[..n][j].ext == ext;
      i := LastImageExists(images[..n], ext);
    }
  }

  /** Without any assumption on the lists: a local row is visible in the merged list exactly
      when it matches no provider entry or no later local row has the same external id. */
  lemma {:induction false} LocalRowSurvivesExactly(local: seq<View>, images: seq<Image>, j: nat)
    requires LocalIdsDistinct(local) && j < |local|
    ensures Shows(Merge(local, images), local[j]) <==> !Matched(images, local[j]) || IsLastLocal(local, j)
  {
    var views := Merge(local, images);
    UnmatchedMembers(local, images);
    var l := local[j];
    if !Matched(images, l) {
      var u :| 0 <= u < |Unmatched(local, images)| && Unmatched(local, images)[u] == l;
      assert views[|images| + u] == l;
    } else if IsLastLocal(local, j) {
      var i := LastImageExists(images, l.ext);
      LayeredOwner(FromProvider(images[i]), local, l.ext, j);
      assert views[i] == Slot(local, images, i);
    } else {
      forall i | 0 <= i < |views| ensures views[i].id != l.id {
        if i < |images| {
          HiddenRowOwnsNoSlot(local, images, j, i);
        } else {
          assert views[i] in Unmatched(local, images);
        }
      }
    }
  }

  predicate ExtsDistinct(local: seq<View>, images: seq<Image>) {
    && (forall i, j :: 0 <= i < j < |images| ==> images[i].ext != images[j].ext)
    && (forall j, k :: 0 <= j < k < |local| && local[j].ext != "" ==> local[j].ext != local[k].ext)
  }

  lemma {:induction false} LayeredOnce(v: View, local: seq<View>, ext: string, j: nat)
    requires ext != "" && j < |local| && local[j].ext == ext
    requires forall a, b :: 0 <= a < b < |local| && local[a].ext != "" ==> local[a].ext != local[b].ext
    ensures Layered(v, local, ext) == Overlay(local[j], v)
  {
    var n := |local| - 1;
    if j == n {
      LayeredUntouched(v, local[..n], ext);
    } else {
      LayeredOnce(v, local[..n], ext, j);
    }
  }

  lemma {:induction false} SlotOfDistinct(local: seq<View>, images: seq<Image>, i: nat)
    requires ExtsDistinct(local, images) && i < |images|
    ensures (forall j :: 0 <= j < |local| ==> local[j].ext != images[i].ext || images[i].ext == "") ==>
              Slot(local, images, i) == FromProvider(images[i])
    ensures forall j :: 0 <= j < |local| && local[j].ext == images[i].ext && images[i].ext != "" ==>
              Slot(local, images, i) == Overlay(local[j], FromProvider(images[i]))
  {
    assert IsLastImage(images, i);
    if j: nat :| j < |local| && local[j].ext == images[i].ext && images[i].ext != "" {
      LayeredOnce(FromProvider(images[i]), local, images[i].ext, j);
    } else {
      LayeredUntouched(FromProvider(images[i]), local, images[i].ext);
    }
  }

  /** With distinct external ids the list is the provider's list in its own order, each entry
      overlaid by the one local row that matches it, followed by the unmatched local rows in
      order; every local row is visible. */
  lemma {:induction false} MergeOfDistinctLists(local: seq<View>, images: seq<Image>)
    requires LocalIdsDistinct(local) && ExtsDistinct(local, images)
    ensures var views := Merge(local, images);
            && |views| == |images| + |Unmatched(local, images)|
            && views[|images|..] == Unmatched(local, images)
            && (forall i, j :: 0 <= i < |images| && 0 <= j < |local| &&
                               local[j].ext == images[i].ext && images[i].ext != "" ==>
                  views[i] == Overlay(local[j], FromProvider(images[i])))
            && (forall i :: 0 <= i < |images| &&
                            (forall j :: 0 <= j < |local| ==> local[j].ext != images[i].ext || images[i].ext == "") ==>
                  views[i] == FromProvider(images[i]))
            && (forall j :: 0 <= j < |local| ==> Shows(views, local[j]))
  {
    var views := Merge(local, images);
    forall i | 0 <= i < |images|
      ensures (forall j :: 0 <= j < |local| ==> local[j].ext != images[i].ext || images[i].ext == "") ==>
                views[i] == FromProvider(images[i])
      ensures forall j :: 0 <= j < |local| && local[j].ext == images[i].ext && images[i].ext != "" ==>
                views[i] == Overlay(local[j], FromProvider(images[i]))
    {
      SlotOfDistinct(local, images, i);
      assert views[i] == Slot(local, images, i);
    }
    forall j | 0 <= j < |local| ensures Shows(views, local[j]) {
      LocalRowSurvivesExactly(local, images, j);
    }
  }

  lemma {:induction false} SlotOwner(local: seq<View>, images: seq<Image>, i: nat) returns (j: nat)
    requires i < |images| && Slot(local, images, i).id.Some?
    ensures j < |local| && IsLastImage(images, i) && local[j].ext == images[i].ext != ""
    ensures Slot(local, images, i).id == local[j].id
  {
    var v, ext := FromProvider(images[i]), images[i].ext;
    if k: nat :| k < |local| && local[k].ext == ext && ext != "" {
      j := LastLocalExists(local, k);
      LayeredOwner(v, local, ext, j);
    } else {
      LayeredUntouched(v, local, ext);
      assert false;
    }
  }

  lemma {:induction false} SlotOwnersDiffer(local: seq<View>, images: seq<Image>, a: nat, b: nat)
    requires LocalIdsDistinct(local) && a < b < |images| && Slot(local, images, a).id.Some?
    ensures Slot(local, images, a).id != Slot(local, images, b).id
  {
    var j := SlotOwner(local, images, a);
    if Slot(local, images, b).id.Some? {
      var k := SlotOwner(local, images, b);
      assert j != k;
    }
  }

  lemma {:induction false} DistinctSnoc(views: seq<View>, l: View)
    requires LocalIdsDistinct(views) && l.id.Some? && forall k :: 0 <= k < |views| ==> views[k].id != l.id
    ensures LocalIdsDistinct(views + [l])
  {
  }

  lemma {:induction false} UnmatchedIdsDistinct(local: seq<View>, images: seq<Image>)
    requires LocalIdsDistinct(local)
    ensures LocalIdsDistinct(Unmatched(local, images))
  {
    if local != [] {
      var n := |local| - 1;
      UnmatchedIdsDistinct(local[..n], images);
      var prev := Unmatched(local[..n], images);
      forall k | 0 <= k < |prev| ensures prev[k].id != local[n].id {
        UnmatchedIsLocal(local, images, n, prev[k]);
      }
      DistinctSnoc(prev, local[n]);
    }
  }

  lemma {:induction false} UnmatchedIsLocal(local: seq<View>, images: seq<Image>, n: nat, v: View)
    requires LocalIdsDistinct(local) && n < |local| && v in Unmatched(local[..n], images)
    ensures v.id != local[n].id
  {
    UnmatchedMembers(local[..n], images);
    var j :| 0 <= j < n && local[..n][j] == v;
  }

  /** No local row is shown twice, whatever the external ids are. */
  lemma {:induction false} NoRowIsShownTwice(local: seq<View>, images: seq<Image>, a: nat, b: nat)
    requires LocalIdsDistinct(local) && a < b < |Merge(local, images)| && Merge(local, images)[a].id.Some?
    ensures Merge(local, images)[a].id != Merge(local, images)[b].id
  {
    var views, rest := Merge(local, images), Unmatched(local, images);
    if b < |images| {
      SlotOwnersDiffer(local, images, a, b);
    } else if a < |images| {
      var j := SlotOwner(local, images, a);
      UnmatchedMembers(local, images);
      assert Listed(images, local[j].ext);
      assert views[b] == rest[b - |images|] && rest[b - |images|] in rest;
    } else {
      UnmatchedIdsDistinct(local, images);
      assert views[a] == rest[a - |images|] && views[b] == rest[b - |images|];
    }
  }

  /** What a provider entry without a local row shows, column by column. */
  predicate ShowsImage(v: View, p: Image) {
    && v.id == None && v.ext == p.ext && v.name == p.name && v.filename == p.filename && v.description == p.desc
    && v.size == p.size && v.progress == p.progress && v.isSystem == p.isSystem
    && v.status == (if p.progress < 100 then "provisioning" else "active")
    && v.sourceUrl == "" && v.registerStatus == "" && v.createdAt == ""
  }

  /** What a matched local row shows: its own columns, with the provider's progress, the provider's
      filename and description where it has them, and its size where the row has none. */
  predicate ShowsRowOver(v: View, l: View, p: Image) {
    && v.id == l.id && v.ext == l.ext && v.name == l.name && v.sourceUrl == l.sourceUrl
    && v.status == l.status && v.registerStatus == l.registerStatus && v.isSystem == l.isSystem
    && v.createdAt == l.createdAt
    && v.progress == p.progress
    && (p.filename != "" ==> v.filename == p.filename) && (p.filename == "" ==> v.filename == l.filename)
    && (p.desc != "" ==> v.description == p.desc) && (p.desc == "" ==> v.description == l.description)
    && (l.size != 0 ==> v.size == l.size) && (l.size == 0 ==> v.size == p.size)
  }

  /** With distinct external ids, each position of the provider's list shows its image, or the
      local row matched with it. */
  lemma {:induction false} EntriesByColumn(local: seq<View>, images: seq<Image>, i: nat)
    requires ExtsDistinct(local, images) && i < |images|
    ensures var v := Merge(local, images)[i];
            && (forall j :: 0 <= j < |local| && local[j].ext == images[i].ext && images[i].ext != "" ==>
                  ShowsRowOver(v, local[j], images[i]))
            && ((forall j :: 0 <= j < |local| ==> local[j].ext != images[i].ext || images[i].ext == "") ==>
                  ShowsImage(v, images[i]))
  {
    SlotOfDistinct(local, images, i);
  }

  // ----- Pages -----

  const MAX_INT: int := 0x7FFF_FFFF_FFFF_FFFF
  const MAX_PER_PAGE: int := 100

  /** Two's-complement wrap-around of a 64-bit int. */
  function Wrap64(x: int): int {
    (x + 0x8000_0000_0000_0000) % 0x1_0000_0000_0000_0000 - 0x8000_0000_0000_0000
  }

  /** The requested page; None when the slice bounds are invalid and the handler panics. */
  method PaginateViews<T>(all: seq<T>, page: int, perPage: int) returns (slice: Option<seq<T>>)
    requires 1 <= page <= MAX_INT && 1 <= perPage <= MAX_PER_PAGE
    ensures slice == PageOf(all, page, perPage)
  {
    var total := |all|;
    var start := Wrap64((page - 1) * perPage);
    if start > total {
      start := total;
    }
    var end := start + perPage;
    if end > total {
      end := total;
    }
    if start < 0 {
      return None;
    }
    slice := Some(all[start..end]);
  }

  function Min(a: int, b: int): int {
    if a <= b then a else b
  }

  /** What lies at an offset: clamped to the list, or invalid when it is negative. */
  function PageFrom<T>(all: seq<T>, offset: int, perPage: int): Option<seq<T>>
    requires 1 <= perPage
  {
    if offset < 0 then None
    else Some(all[Min(offset, |all|)..Min(Min(offset, |all|) + perPage, |all|)])
  }

  function PageOf<T>(all: seq<T>, page: int, perPage: int): Option<seq<T>>
    requires 1 <= page && 1 <= perPage
  {
    PageFrom(all, Wrap64((page - 1) * perPage), perPage)
  }

  /** The first `n` pages in a row. */
  function Pages<T>(all: seq<T>, perPage: int, n: nat): seq<T>
    requires 1 <= perPage
  {
    if n == 0 then []
    else
      var page := PageOf(all, n, perPage);
      Pages(all, perPage, n - 1) + if page.Some? then page.value else []
  }

  lemma {:induction false} SmallIsUnwrapped(x: int)
    requires 0 <= x <= MAX_INT
    ensures Wrap64(x) == x
  {
  }

  lemma {:induction false} OffsetStep(n: nat, perPage: int)
    requires n > 0 && perPage >= 1
    ensures 0 <= (n - 1) * perPage == n * perPage - perPage
  {
  }

  /** A page continues the list where the pages before it stopped. */
  lemma {:induction false} PageContinues<T>(all: seq<T>, offset: nat, perPage: nat)
    requires 1 <= perPage
    ensures all[..Min(offset, |all|)] + PageFrom(all, offset, perPage).value == all[..Min(offset + perPage, |all|)]
  {
  }

  lemma {:induction false} PagesUpTo<T>(all: seq<T>, perPage: int, n: nat, offset: nat)
    requires 1 <= perPage && offset == n * perPage <= MAX_INT
    ensures Pages(all, perPage, n) == all[..Min(offset, |all|)]
    decreases n
  {
    if n > 0 {
      OffsetStep(n, perPage);
      var prev := offset - perPage;
      PagesUpTo(all, perPage, n - 1, prev);
      SmallIsUnwrapped(prev);
      PageContinues(all, prev, perPage);
    }
  }

  /** Pages partition the list: the first `n` of them are its first n * perPage elements, so
      enough pages reproduce all of it. */
  lemma {:induction false} PagesReproduceList<T>(all: seq<T>, perPage: int, n: nat)
    requires 1 <= perPage && n * perPage <= MAX_INT
    ensures Pages(all, perPage, n) == all[..Min(n * perPage, |all|)]
    ensures n * perPage >= |all| ==> Pages(all, perPage, n) == all
  {
    var offset := n * perPage;
    assert offset >= 0;
    PagesUpTo(all, perPage, n, offset);
    assert all[..|all|] == all;
  }

  /** A page past the end is empty as long as its offset fits an int. */
  lemma {:induction false} PagePastTheEndIsEmpty<T>(all: seq<T>, page: int, perPage: int)
    requires 1 <= page && 1 <= perPage && |all| <= (page - 1) * perPage <= MAX_INT
    ensures PageOf(all, page, perPage) == Some([])
  {
    SmallIsUnwrapped((page - 1) * perPage);
    assert all[|all|..|all|] == [];
  }

  lemma {:induction false} PageFromPastTheEnd<T>(all: seq<T>, offset: int, perPage: int)
    requires 1 <= perPage && 0 <= offset
    ensures PageFrom(all, offset, perPage) == Some([]) <==> offset >= |all|
  {
  }

  /** The exact offset decides which requests get the page they ask for: those whose offset
      fits an int, and those whose wrapped offset happens to lie past the end. Every other one
      fails or shows entries of an earlier page. */
  lemma {:induction false} PageIsRightExactly<T>(all: seq<T>, page: int, perPage: int)
    requires 1 <= page && 1 <= perPage && |all| <= MAX_INT
    ensures PageOf(all, page, perPage) == PageFrom(all, (page - 1) * perPage, perPage) <==>
            (page - 1) * perPage <= MAX_INT || Wrap64((page - 1) * perPage) >= |all|
  {
    var offset := (page - 1) * perPage;
    assert offset >= 0;
    if offset <= MAX_INT {
      SmallIsUnwrapped(offset);
    } else {
      PageFromPastTheEnd(all, offset, perPage);
      if Wrap64(offset) >= 0 {
        PageFromPastTheEnd(all, Wrap64(offset), perPage);
      }
    }
  }

  /** The largest page number the query parser lets through wraps to a negative offset. */
  lemma {:induction false} LargestPageIsInvalid<T>(all: seq<T>)
    ensures PageOf(all, MAX_INT, 20) == None
  {
    assert Wrap64((MAX_INT - 1) * 20) == -40;
  }
}
