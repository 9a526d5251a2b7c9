/** Byte-wise string order and the in-place insertion sort that fixes the payout order. */
module CurrencyOrder {
  predicate Less(a: string, b: string) {
    b != [] && (a == [] || a[0] < b[0] || (a[0] == b[0] && Less(a[1..], b[1..])))
  }

  predicate AtMost(a: string, b: string) {
    !Less(b, a)
  }

  /** The order by its definition: at the first difference the smaller character comes first, and
      a proper prefix comes before the longer string. */
  lemma {:induction false} LessIsLexicographic(a: string, b: string)
    ensures Less(a, b) <==>
            exists k :: 0 <= k <= |a| && k < |b| && a[..k] == b[..k] && (k == |a| || a[k] < b[k])
  {
    if Less(a, b) {
      var k := FirstDifference(a, b);
    }
    if k :| 0 <= k <= |a| && k < |b| && a[..k] == b[..k] && (k == |a| || a[k] < b[k]) {
      DifferenceDecides(a, b, k);
    }
  }

  lemma {:induction false} FirstDifference(a: string, b: string) returns (k: nat)
    requires Less(a, b)
    ensures k <= |a| && k < |b| && a[..k] == b[..k] && (k == |a| || a[k] < b[k])
  {
    k := 0;
    if a != [] && a[0] == b[0] {
      k := FirstDifference(a[1..], b[1..]);
      assert a[..k + 1] == [a[0]] + a[1..][..k] && b[..k + 1] == [b[0]] + b[1..][..k];
      k := k + 1;
    }
  }

  lemma {:induction false} DifferenceDecides(a: string, b: string, k: nat)
    requires k <= |a| && k < |b| && a[..k] == b[..k] && (k == |a| || a[k] < b[k])
    ensures Less(a, b)
  {
    if k > 0 {
      assert a[0] == a[..k][0] == b[..k][0] == b[0];
      assert a[1..][..k - 1] == a[..k][1..] == b[..k][1..] == b[1..][..k - 1];
      DifferenceDecides(a[1..], b[1..], k - 1);
    }
  }

  lemma {:induction false} LessIsAsymmetric(a: string, b: string)
    requires Less(a, b)
    ensures AtMost(a, b)
  {
    if a != [] && a[0] == b[0] {
      LessIsAsymmetric(a[1..], b[1..]);
    }
  }

  lemma {:induction false} AtMostIsTransitive(a: string, b: string, c: string)
    requires AtMost(a, b) && AtMost(b, c)
    ensures AtMost(a, c)
  {
    if a != [] && b != [] && c != [] && a[0] == b[0] == c[0] {
      AtMostIsTransitive(a[1..], b[1..], c[1..]);
    }
  }

  lemma {:induction false} AtMostIsAntisymmetric(a: string, b: string)
    requires AtMost(a, b) && AtMost(b, a)
    ensures a == b
  {
    if a != [] && b != [] {
      AtMostIsAntisymmetric(a[1..], b[1..]);
    }
  }

  predicate Sorted(s: seq<string>) {
    forall i, j :: 0 <= i < j < |s| ==> AtMost(s[i], s[j])
  }

  predicate Distinct(s: seq<string>) {
    forall i, j :: 0 <= i < j < |s| ==> s[i] != s[j]
  }

  /** Everything up to `i` is in order, except possibly for what lies left of position `j`. */
  predicate SortedExcept(s: seq<string>, i: int, j: int) {
    forall p, q :: 0 <= p < q <= i < |s| && q != j ==> AtMost(s[p], s[q])
  }

  lemma {:induction false} SwapKeepsSortedExcept(s: seq<string>, i: int, j: int)
    requires 0 < j <= i < |s| && SortedExcept(s, i, j) && Less(s[j], s[j - 1])
    ensures SortedExcept(s[j := s[j - 1]][j - 1 := s[j]], i, j - 1)
  {
    LessIsAsymmetric(s[j], s[j - 1]);
  }

  lemma {:induction false} InsertionDone(s: seq<string>, i: int, j: int)
    requires 0 <= j <= i < |s| && SortedExcept(s, i, j)
    requires j > 0 ==> AtMost(s[j - 1], s[j])
    ensures forall p, q :: 0 <= p < q <= i ==> AtMost(s[p], s[q])
  {
    forall p | 0 <= p < j ensures AtMost(s[p], s[j]) {
      if p < j - 1 {
        AtMostIsTransitive(s[p], s[j - 1], s[j]);
      }
    }
  }

  /** Sorts in place: same elements, ascending. */
  method SortCurrencies(a: array<string>)
    modifies a
    ensures Sorted(a[..])
    ensures multiset(a[..]) == multiset(old(a[..]))
  {
    var i := 1;
    while i < a.Length
      invariant 1 <= i
      invariant forall p, q :: 0 <= p < q < i && q < a.Length ==> AtMost(a[..][p], a[..][q])
      invariant multiset(a[..]) == multiset(old(a[..]))
    {
      var j := i;
      while j > 0 && Less(a[j], a[j - 1])
        invariant 0 <= j <= i
        invariant SortedExcept(a[..], i, j)
        invariant multiset(a[..]) == multiset(old(a[..]))
      {
        SwapKeepsSortedExcept(a[..], i, j);
        ghost var before := a[..];
        a[j], a[j - 1] := a[j - 1], a[j];
        assert a[..] == before[j := before[j - 1]][j - 1 := before[j]];
        j := j - 1;
      }
      InsertionDone(a[..], i, j);
      i := i + 1;
    }
  }
}
