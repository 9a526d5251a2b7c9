/**
 How one execution of iso_register_provider picks the provider image it adopts: a scan of the
 listing before the create call, and polls of the listing after it until a deadline.
 */
module IsoAdoption {
  import opened Prelude

  datatype Image = Image(ext: string, name: string, filename: string, isSystem: bool, size: int)

  /** `matches` is the tolerant name comparison; `claimed` says whether another live row owns
      the external id. */
  predicate Fits(img: Image, matches: Image -> bool, claimed: string -> bool) {
    !img.isSystem && matches(img) && !claimed(img.ext)
  }

  function ExtsOf(listing: seq<Image>): set<string> {
    set i | 0 <= i < |listing| :: listing[i].ext
  }

  predicate IsNew(img: Image, before: set<string>) {
    !img.isSystem && img.ext !in before
  }

  /** The entries of a poll that were not there before the create call. */
  function NewEntries(listing: seq<Image>, before: set<string>): seq<Image> {
    if listing == [] then []
    else
      var last := listing[|listing| - 1];
      NewEntries(listing[..|listing| - 1], before) + if IsNew(last, before) then [last] else []
  }

  /** The scan before the create call adopts the first fitting entry; otherwise it remembers
      every listed external id. */
  method ScanBefore(listing: seq<Image>, matches: Image -> bool, claimed: string -> bool)
    returns (adopt: Option<Image>, before: set<string>)
    ensures adopt.Some? ==>
              exists k :: 0 <= k < |listing| && listing[k] == adopt.value && Fits(listing[k], matches, claimed) &&
                          forall j :: 0 <= j < k ==> !Fits(listing[j], matches, claimed)
    ensures adopt.None? ==>
              before == ExtsOf(listing) && forall k :: 0 <= k < |listing| ==> !Fits(listing[k], matches, claimed)
  {
    before := {};
    for i := 0 to |listing|
      invariant before == set j | 0 <= j < i :: listing[j].ext
      invariant forall j :: 0 <= j < i ==> !Fits(listing[j], matches, claimed)
    {
      before := before + {listing[i].ext};
      if Fits(listing[i], matches, claimed) {
        return Some(listing[i]), before;
      }
    }
    adopt := None;
  }

  /** What one listing gives after the create call: a new entry that fits, or, once the wait is
      over, a single new entry under any name. */
  predicate Adoptable(listing: seq<Image>, before: set<string>, matches: Image -> bool, claimed: string -> bool,
                      late: bool, img: Image)
  {
    && img in listing && IsNew(img, before) && !claimed(img.ext)
    && (matches(img) || (late && NewEntries(listing, before) == [img]))
  }

  predicate IsFirstNewFit(listing: seq<Image>, before: set<string>, matches: Image -> bool, claimed: string -> bool,
                          k: nat)
  {
    && k < |listing| && IsNew(listing[k], before) && Fits(listing[k], matches, claimed)
    && forall j :: 0 <= j < k ==> !(IsNew(listing[j], before) && Fits(listing[j], matches, claimed))
  }

  /** One poll after the create call; the first new match wins over the late rule. */
  method PollAfter(listing: seq<Image>, before: set<string>, matches: Image -> bool, claimed: string -> bool,
                   late: bool)
    returns (adopt: Option<Image>)
    ensures adopt.Some? ==> Adoptable(listing, before, matches, claimed, late, adopt.value)
    ensures adopt.None? ==> forall img :: !Adoptable(listing, before, matches, claimed, late, img)
    ensures forall k: nat :: IsFirstNewFit(listing, before, matches, claimed, k) ==> adopt == Some(listing[k])
  {
    var singleNew: Option<Image> := None;
    var count := 0;
    for i := 0 to |listing|
      invariant forall j :: 0 <= j < i ==> !(IsNew(listing[j], before) && Fits(listing[j], matches, claimed))
      invariant count == |NewEntries(listing[..i], before)|
      invariant count > 0 ==> singleNew == Some(NewEntries(listing[..i], before)[count - 1])
      invariant singleNew.Some? ==> singleNew.value in listing && IsNew(singleNew.value, before)
    {
      assert listing[..i + 1][..i] == listing[..i];
      if IsNew(listing[i], before) {
        count := count + 1;
        singleNew := Some(listing[i]);
        if Fits(listing[i], matches, claimed) {
          return Some(listing[i]);
        }
      }
    }
    assert listing[..|listing|] == listing;
    if count == 1 && late && !claimed(singleNew.value.ext) {
      return singleNew;
    }
    adopt := None;
  }

  /** One round of the wait. The listing may fail, other rows may claim images between rounds,
      and the clock is read again at the end of a round. */
  datatype Round = Round(listing: Option<seq<Image>>, claimed: string -> bool, late: bool, expired: bool)

  datatype Outcome = Adopted(image: Image, polls: nat) | TimedOut(polls: nat) | Cancelled

  /** The round offers nothing to adopt. */
  ghost predicate Barren(r: Round, before: set<string>, matches: Image -> bool) {
    r.listing.Some? ==>
      forall img :: !Adoptable(r.listing.value, before, matches, r.claimed, r.late, img)
  }

  /** The verification loop: poll until an image can be adopted, the deadline has passed, or the
      job is cancelled because the rounds granted to it run out. */
  method AwaitImage(rounds: seq<Round>, before: set<string>, matches: Image -> bool) returns (outcome: Outcome)
    ensures outcome.Adopted? ==>
              && var k := outcome.polls;
              && k < |rounds| && rounds[k].listing.Some?
              && Adoptable(rounds[k].listing.value, before, matches, rounds[k].claimed, rounds[k].late, outcome.image)
              && forall j :: 0 <= j < k ==> Barren(rounds[j], before, matches) && !rounds[j].expired
    ensures outcome.TimedOut? ==>
              && var k := outcome.polls;
              && k < |rounds| && rounds[k].expired && Barren(rounds[k], before, matches)
              && forall j :: 0 <= j < k ==> Barren(rounds[j], before, matches) && !rounds[j].expired
    ensures outcome.Cancelled? <==>
              forall j :: 0 <= j < |rounds| ==> Barren(rounds[j], before, matches) && !rounds[j].expired
  {
    for k := 0 to |rounds|
      invariant forall j :: 0 <= j < k ==> Barren(rounds[j], before, matches) && !rounds[j].expired
    {
      if rounds[k].listing.Some? {
        var adopt := PollAfter(rounds[k].listing.value, before, matches, rounds[k].claimed, rounds[k].late);
        if adopt.Some? {
          return Adopted(adopt.value, k);
        }
      }
      if rounds[k].expired {
        return TimedOut(k);
      }
    }
    outcome := Cancelled;
  }

  /** A whole execution past the claim gate. An adopted image is the first free match that
      existed already, in which case create is not called, or one that was not listed before the
      call; it is never a system image, nor one another live row owned when it was chosen. */
  method Register(first: seq<Image>, claimed: string -> bool, rounds: seq<Round>, matches: Image -> bool)
    returns (outcome: Outcome, created: bool)
    ensures created <==> forall k :: 0 <= k < |first| ==> !Fits(first[k], matches, claimed)
    ensures outcome.Adopted? ==> !outcome.image.isSystem
    ensures !created ==>
              && outcome.Adopted?
              && outcome.image in first && matches(outcome.image) && !claimed(outcome.image.ext)
              && exists k :: 0 <= k < |first| && first[k] == outcome.image && Fits(first[k], matches, claimed) &&
                             forall j :: 0 <= j < k ==> !Fits(first[j], matches, claimed)
    ensures created && outcome.Adopted? ==>
              && outcome.polls < |rounds| && rounds[outcome.polls].listing.Some?
              && outcome.image in rounds[outcome.polls].listing.value
              && !outcome.image.isSystem && !rounds[outcome.polls].claimed(outcome.image.ext)
              && outcome.image.ext !in ExtsOf(first)
    ensures created && !outcome.Adopted? ==>
              forall j :: 0 <= j < |rounds| && (outcome.TimedOut? ==> j <= outcome.polls) ==>
                Barren(rounds[j], ExtsOf(first), matches)
  {
    var adopt, before := ScanBefore(first, matches, claimed);
    created := adopt.None?;
    if created {
      outcome := AwaitImage(rounds, before, matches);
    } else {
      outcome := Adopted(adopt.value, 0);
    }
  }

  /** Exactly one position of the listing holds an image that is new and not the system's. */
  ghost predicate SingleNew(listing: seq<Image>, before: set<string>, k: nat) {
    && k < |listing| && !listing[k].isSystem && listing[k].ext !in before
    && forall j :: 0 <= j < |listing| && j != k ==> listing[j].isSystem || listing[j].ext in before
  }

  lemma {:induction false} SingleNewIsOnlyEntry(listing: seq<Image>, before: set<string>, k: nat)
    requires SingleNew(listing, before, k)
    ensures NewEntries(listing, before) == [listing[k]]
  {
    var n := |listing| - 1;
    if k < n {
      assert listing[n].isSystem || listing[n].ext in before;
      SingleNewIsOnlyEntry(listing[..n], before, k);
    } else {
      NoNewExactly(listing[..n], before);
    }
  }

  lemma {:induction false} OnlyEntryIsSingleNew(listing: seq<Image>, before: set<string>) returns (k: nat)
    requires |NewEntries(listing, before)| == 1
    ensures SingleNew(listing, before, k) && NewEntries(listing, before) == [listing[k]]
  {
    var n := |listing| - 1;
    if IsNew(listing[n], before) {
      k := n;
      NoNewExactly(listing[..n], before);
      assert forall j :: 0 <= j < n ==> listing[..n][j] == listing[j];
    } else {
      k := OnlyEntryIsSingleNew(listing[..n], before);
      forall j | 0 <= j < |listing| && j != k ensures listing[j].isSystem || listing[j].ext in before {
        assert j < n ==> listing[..n][j] == listing[j];
      }
    }
  }

  lemma {:induction false} SingleNewExactly(listing: seq<Image>, before: set<string>, img: Image)
    ensures NewEntries(listing, before) == [img] <==>
            exists k: nat :: SingleNew(listing, before, k) && listing[k] == img
  {
    if NewEntries(listing, before) == [img] {
      var k := OnlyEntryIsSingleNew(listing, before);
      assert SingleNew(listing, before, k) && listing[k] == img;
    }
    if k: nat :| SingleNew(listing, before, k) && listing[k] == img {
      SingleNewIsOnlyEntry(listing, before, k);
    }
  }

  lemma {:induction false} NoNewExactly(listing: seq<Image>, before: set<string>)
    ensures NewEntries(listing, before) == [] <==>
            forall j :: 0 <= j < |listing| ==> listing[j].isSystem || listing[j].ext in before
  {
    if listing != [] {
      NoNewExactly(listing[..|listing| - 1], before);
    }
  }

  /** What a poll may adopt, read off the listing: a listed image that is not the system's, was not
      listed before the create call and belongs to no other live row, and either matches by name or
      is, once the wait is over, the only such new image. */
  lemma {:induction false} AdoptableExactly(listing: seq<Image>, before: set<string>, matches: Image -> bool,
                                            claimed: string -> bool, late: bool, img: Image)
    ensures Adoptable(listing, before, matches, claimed, late, img) <==>
            && img in listing && !img.isSystem && img.ext !in before && !claimed(img.ext)
            && (matches(img) || (late && exists k: nat :: SingleNew(listing, before, k) && listing[k] == img))
  {
    SingleNewExactly(listing, before, img);
  }

  /** What the scan before the call may adopt. */
  lemma {:induction false} FitsExactly(img: Image, matches: Image -> bool, claimed: string -> bool)
    ensures Fits(img, matches, claimed) <==> matches(img) && !claimed(img.ext) && !img.isSystem
  {
  }
}
