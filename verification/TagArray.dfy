/** Printing and parsing of the blog tags' text[] literal. */
module TagArray {
  /** unicode.IsSpace, by code point. */
  predicate IsSpace(c: char) {
    var n := c as int;
    0x09 <= n <= 0x0D || n == 0x20 || n == 0x85 || n == 0xA0 || n == 0x1680 || 0x2000 <= n <= 0x200A ||
    n == 0x2028 || n == 0x2029 || n == 0x202F || n == 0x205F || n == 0x3000
  }

  predicate IsQuote(c: char) {
    c == '"'
  }

  function TrimLeft(s: string, cut: char -> bool): string {
    if s != "" && cut(s[0]) then TrimLeft(s[1..], cut) else s
  }

  function TrimRight(s: string, cut: char -> bool): string {
    if s != "" && cut(s[|s| - 1]) then TrimRight(s[..|s| - 1], cut) else s
  }

  function Trim(s: string, cut: char -> bool): string {
    TrimRight(TrimLeft(s, cut), cut)
  }

  function TrimSpace(s: string): string {
    Trim(s, IsSpace)
  }

  function TrimQuotes(s: string): string {
    Trim(s, IsQuote)
  }

  function TrimBraces(s: string): string {
    var t := if s != "" && s[0] == '{' then s[1..] else s;
    if t != "" && t[|t| - 1] == '}' then t[..|t| - 1] else t
  }

  /** Every double quote gets a backslash in front; nothing else is escaped. */
  function Escape(s: string): string {
    if s == "" then "" else (if s[0] == '"' then "\\\"" else [s[0]]) + Escape(s[1..])
  }

  function Split(s: string): (parts: seq<string>)
    ensures |parts| >= 1
    ensures forall i :: 0 <= i < |parts| ==> ',' !in parts[i]
  {
    if s == "" then [""]
    else
      var rest := Split(s[1..]);
      if s[0] == ',' then [""] + rest else [[s[0]] + rest[0]] + rest[1..]
  }

  function Join(parts: seq<string>): string {
    if parts == [] then "" else if |parts| == 1 then parts[0] else parts[0] + "," + Join(parts[1..])
  }

  // ----- Reference semantics -----

  /** The trimmed, non-empty tags in order. */
  function Clean(tags: seq<string>): seq<string> {
    if tags == [] then []
    else
      var t := TrimSpace(tags[|tags| - 1]);
      Clean(tags[..|tags| - 1]) + if t == "" then [] else [t]
  }

  function Quote(t: string): string {
    "\"" + Escape(t) + "\""
  }

  function QuoteAll(ts: seq<string>): seq<string> {
    seq(|ts|, i requires 0 <= i < |ts| => Quote(ts[i]))
  }

  function Print(tags: seq<string>): string {
    "{" + Join(QuoteAll(Clean(tags))) + "}"
  }

  /** The parts that are not empty once their outer quotes are gone. */
  function Kept(parts: seq<string>): seq<string> {
    if parts == [] then []
    else
      var p := TrimQuotes(parts[|parts| - 1]);
      Kept(parts[..|parts| - 1]) + if p == "" then [] else [p]
  }

  function Parse(raw: string): seq<string> {
    var inner := TrimBraces(TrimSpace(raw));
    if inner == "" then [] else Kept(Split(inner))
  }

  // ----- The loops of the source -----

  method PostgresStringArray(tags: seq<string>) returns (literal: string)
    ensures literal == Print(tags)
  {
    if |tags| == 0 {
      return "{}";
    }
    var quoted: seq<string> := [];
    for i := 0 to |tags|
      invariant quoted == QuoteAll(Clean(tags[..i]))
    {
      assert tags[..i + 1][..i] == tags[..i];
      var t := TrimSpace(tags[i]);
      if t != "" {
        quoted := quoted + [Quote(t)];
      }
    }
    assert tags[..|tags|] == tags;
    if |quoted| == 0 {
      return "{}";
    }
    literal := "{" + Join(quoted) + "}";
  }

  method ParseStringArray(raw: string) returns (out: seq<string>)
    ensures out == Parse(raw)
  {
    var inner := TrimBraces(TrimSpace(raw));
    if inner == "" {
      return [];
    }
    var parts := Split(inner);
    out := [];
    for i := 0 to |parts|
      invariant out == Kept(parts[..i])
    {
      assert parts[..i + 1][..i] == parts[..i];
      var p := TrimQuotes(parts[i]);
      if p != "" {
        out := out + [p];
      }
    }
    assert parts[..|parts|] == parts;
  }

  // ----- Trimming -----

  /** Trimming removes nothing but cut characters, and keeps every other one. */
  lemma {:induction false} TrimLeftKeeps(s: string, cut: char -> bool)
    ensures |TrimLeft(s, cut)| <= |s|
    ensures forall c :: !cut(c) ==> multiset(TrimLeft(s, cut))[c] == multiset(s)[c]
    ensures forall c :: c in TrimLeft(s, cut) ==> c in s
    decreases |s|
  {
    if s != "" && cut(s[0]) {
      assert s == [s[0]] + s[1..];
      TrimLeftKeeps(s[1..], cut);
    }
  }

  lemma {:induction false} TrimRightKeeps(s: string, cut: char -> bool)
    ensures forall c :: !cut(c) ==> multiset(TrimRight(s, cut))[c] == multiset(s)[c]
    ensures forall c :: c in TrimRight(s, cut) ==> c in s
    decreases |s|
  {
    if s != "" && cut(s[|s| - 1]) {
      assert s == s[..|s| - 1] + [s[|s| - 1]];
      TrimRightKeeps(s[..|s| - 1], cut);
    }
  }

  lemma {:induction false} TrimKeeps(s: string, cut: char -> bool)
    ensures forall c :: !cut(c) ==> multiset(Trim(s, cut))[c] == multiset(s)[c]
    ensures forall c :: !cut(c) ==> (c in Trim(s, cut) <==> c in s)
    ensures forall c :: c in Trim(s, cut) ==> c in s
  {
    TrimLeftKeeps(s, cut);
    TrimRightKeeps(TrimLeft(s, cut), cut);
    forall c | !cut(c) ensures c in Trim(s, cut) <==> c in s {
      assert c in Trim(s, cut) <==> c in multiset(Trim(s, cut));
      assert c in s <==> c in multiset(s);
    }
  }

  // ----- Splitting undoes joining -----

  lemma {:induction false} SplitPart(p: string, rest: string)
    requires ',' !in p
    ensures Split(p + "," + rest) == [p] + Split(rest)
  {
    if p == "" {
      assert p + "," + rest == "," + rest;
      assert ("," + rest)[1..] == rest;
    } else {
      var s := p + "," + rest;
      assert s[1..] == p[1..] + "," + rest;
      SplitPart(p[1..], rest);
      assert Split(s) == [[s[0]] + p[1..]] + Split(rest);
      assert [s[0]] + p[1..] == p;
    }
  }

  lemma {:induction false} SplitSingle(p: string)
    requires ',' !in p
    ensures Split(p) == [p]
  {
    if p != "" {
      SplitSingle(p[1..]);
      assert [p[0]] + p[1..] == p;
    }
  }

  lemma {:induction false} SplitUndoesJoin(parts: seq<string>)
    requires parts != [] && forall i :: 0 <= i < |parts| ==> ',' !in parts[i]
    ensures Split(Join(parts)) == parts
  {
    if |parts| == 1 {
      SplitSingle(parts[0]);
    } else {
      SplitUndoesJoin(parts[1..]);
      SplitPart(parts[0], Join(parts[1..]));
      assert parts == [parts[0]] + parts[1..];
    }
  }

  // ----- Quoting -----

  function Count(s: string, c: char): nat {
    multiset(s)[c]
  }

  lemma {:induction false} EscapeCounts(s: string)
    ensures Count(Escape(s), '\\') == Count(s, '\\') + Count(s, '"')
    ensures ',' in Escape(s) <==> ',' in s
    ensures '"' !in s ==> Escape(s) == s
  {
    if s != "" {
      EscapeCounts(s[1..]);
      assert s == [s[0]] + s[1..];
      var head := if s[0] == '"' then "\\\"" else [s[0]];
      assert multiset(Escape(s)) == multiset(head) + multiset(Escape(s[1..]));
      assert forall c :: c in Escape(s) <==> c in head || c in Escape(s[1..]);
    }
  }

  lemma {:induction false} TrimLeftOfQuoted(t: string)
    requires t != "" && '"' !in t
    ensures TrimLeft("\"" + t + "\"", IsQuote) == t + "\""
  {
    var q := "\"" + t + "\"";
    assert q[1..] == t + "\"" && q[0] == '"';
    assert t[0] in t && (t + "\"")[0] == t[0];
    assert TrimLeft(t + "\"", IsQuote) == t + "\"";
  }

  lemma {:induction false} TrimRightOfQuoted(t: string)
    requires t != "" && '"' !in t
    ensures TrimRight(t + "\"", IsQuote) == t
  {
    assert (t + "\"")[..|t|] == t && (t + "\"")[|t|] == '"';
    assert t[|t| - 1] in t;
    assert TrimRight(t, IsQuote) == t;
  }

  lemma {:induction false} PlainTagSurvives(t: string)
    requires t != "" && '"' !in t
    ensures TrimQuotes(Quote(t)) == t
  {
    EscapeCounts(t);
    assert Quote(t) == "\"" + t + "\"";
    TrimLeftOfQuoted(t);
    TrimRightOfQuoted(t);
  }

  /** A tag with a double quote comes back with more backslashes than it had. */
  lemma {:induction false} QuotedTagIsChanged(t: string)
    requires '"' in t
    ensures TrimQuotes(Quote(t)) != t && TrimQuotes(Quote(t)) != ""
  {
    EscapeCounts(t);
    var q := Quote(t);
    TrimKeeps(q, IsQuote);
    assert multiset(q) == multiset("\"") + multiset(Escape(t)) + multiset("\"");
    assert Count(q, '\\') == Count(Escape(t), '\\');
    assert '"' in multiset(t);
    assert Count(TrimQuotes(q), '\\') > Count(t, '\\');
  }

  // ----- What trimming and printing mean -----

  predicate AllIn(s: string, cut: char -> bool) {
    forall i :: 0 <= i < |s| ==> cut(s[i])
  }

  lemma {:induction false} TrimLeftExactly(s: string, cut: char -> bool) returns (a: nat)
    ensures a <= |s| && TrimLeft(s, cut) == s[a..] && AllIn(s[..a], cut)
    ensures a < |s| ==> !cut(s[a])
    decreases |s|
  {
    a := 0;
    if s != "" && cut(s[0]) {
      var b := TrimLeftExactly(s[1..], cut);
      a := b + 1;
      assert s[1..][b..] == s[a..];
      forall i | 0 <= i < a ensures cut(s[..a][i]) {
        assert i > 0 ==> s[..a][i] == s[1..][..b][i - 1];
      }
    }
  }

  lemma {:induction false} TrimRightExactly(s: string, cut: char -> bool) returns (b: nat)
    ensures b <= |s| && TrimRight(s, cut) == s[..b] && AllIn(s[b..], cut)
    ensures b > 0 ==> !cut(s[b - 1])
    decreases |s|
  {
    b := |s|;
    if s != "" && cut(s[|s| - 1]) {
      var n := |s| - 1;
      b := TrimRightExactly(s[..n], cut);
      assert s[..n][..b] == s[..b];
      forall i | 0 <= i < |s[b..]| ensures cut(s[b..][i]) {
        assert b + i < n ==> s[b..][i] == s[..n][b..][i];
      }
    }
  }

  /** A trimmed tag is the middle of the tag: only spaces around it go, and it neither starts nor
      ends with one. */
  lemma {:induction false} TrimSpaceExactly(tag: string) returns (before: string, after: string)
    ensures tag == before + TrimSpace(tag) + after && AllIn(before, IsSpace) && AllIn(after, IsSpace)
    ensures var t := TrimSpace(tag); t != "" ==> !IsSpace(t[0]) && !IsSpace(t[|t| - 1])
  {
    var a := TrimLeftExactly(tag, IsSpace);
    var mid := tag[a..];
    var b := TrimRightExactly(mid, IsSpace);
    before, after := tag[..a], mid[b..];
    assert tag == tag[..a] + (mid[..b] + mid[b..]);
    assert b > 0 ==> mid[..b][0] == tag[a] && mid[..b][b - 1] == mid[b - 1];
  }

  /** The 25 code points of Unicode's White_Space property. */
  lemma {:induction false} SpacesExactly(c: char)
    ensures IsSpace(c) <==>
            c as int in {0x09, 0x0A, 0x0B, 0x0C, 0x0D, 0x20, 0x85, 0xA0, 0x1680, 0x2000, 0x2001, 0x2002, 0x2003, 0x2004,
                         0x2005, 0x2006, 0x2007, 0x2008, 0x2009, 0x200A, 0x2028, 0x2029, 0x202F, 0x205F, 0x3000}
  {
  }

  lemma {:induction false} CleanSnoc(tags: seq<string>, t: string)
    requires TrimSpace(t) == t && t != ""
    ensures Clean(tags + [t]) == Clean(tags) + [t]
  {
    var all := tags + [t];
    assert all[..|all| - 1] == tags && all[|all| - 1] == t;
  }

  /** A printed tag without quotes inside is the tag between double quotes. */
  lemma {:induction false} QuotePlain(t: string)
    requires '"' !in t
    ensures Quote(t) == "\"" + t + "\""
  {
    EscapeCounts(t);
  }

  lemma {:induction false} JoinQuotedSnoc(ts: seq<string>, t: string)
    ensures Join(QuoteAll(ts + [t])) == if ts == [] then Quote(t) else Join(QuoteAll(ts)) + "," + Quote(t)
  {
    assert QuoteAll(ts + [t]) == QuoteAll(ts) + [Quote(t)];
    if ts != [] {
      JoinSnoc(QuoteAll(ts), Quote(t));
    }
  }

  /** The literal by its shape: braces around the tags, each in double quotes, joined by commas. */
  lemma {:induction false} PrintedShape(tags: seq<string>, t: string)
    requires TrimSpace(t) == t && t != "" && '"' !in t
    ensures Clean(tags) == [] ==> Print(tags) == "{}" && Print(tags + [t]) == "{" + ("\"" + t + "\"") + "}"
    ensures Clean(tags) != [] ==>
              exists body :: Print(tags) == "{" + body + "}" &&
                             Print(tags + [t]) == "{" + (body + "," + ("\"" + t + "\"")) + "}"
  {
    CleanSnoc(tags, t);
    QuotePlain(t);
    JoinQuotedSnoc(Clean(tags), t);
    var body := Join(QuoteAll(Clean(tags)));
    assert Print(tags) == "{" + body + "}";
  }

  lemma {:induction false} JoinSnoc(parts: seq<string>, p: string)
    requires parts != []
    ensures Join(parts + [p]) == Join(parts) + "," + p
  {
    if |parts| == 1 {
      assert parts + [p] == [parts[0], p];
      assert [parts[0], p][1..] == [p];
    } else {
      assert (parts + [p])[1..] == parts[1..] + [p];
      JoinSnoc(parts[1..], p);
    }
  }

  /** The parts that are not empty. */
  function NonEmpty(parts: seq<string>): seq<string> {
    if parts == [] then []
    else NonEmpty(parts[..|parts| - 1]) + if parts[|parts| - 1] == "" then [] else [parts[|parts| - 1]]
  }

  lemma {:induction false} UnquotedIsKept(parts: seq<string>)
    requires forall i :: 0 <= i < |parts| ==> '"' !in parts[i]
    ensures Kept(parts) == NonEmpty(parts)
  {
    if parts != [] {
      var p := parts[|parts| - 1];
      UnquotedIsKept(parts[..|parts| - 1]);
      assert p != "" ==> p[0] in p && p[|p| - 1] in p;
      assert TrimQuotes(p) == p;
    }
  }

  /** A literal without quotes, as the database prints plain tags, parses to its parts that are not
      empty, in order. */
  lemma {:induction false} ParseUnquoted(parts: seq<string>)
    requires parts != [] && forall i :: 0 <= i < |parts| ==> ',' !in parts[i] && '"' !in parts[i]
    ensures Parse("{" + Join(parts) + "}") == NonEmpty(parts)
  {
    var inner := Join(parts);
    var raw := "{" + inner + "}";
    assert raw[0] == '{' && raw[|raw| - 1] == '}';
    assert TrimSpace(raw) == raw;
    assert raw[1..] == inner + "}" && (inner + "}")[..|inner|] == inner;
    SplitUndoesJoin(parts);
    UnquotedIsKept(parts);
    assert Parse(raw) == if inner == "" then [] else Kept(Split(inner));
    if inner == "" {
      assert Split(inner) == [""];
      assert [""][..0] == [];
      assert NonEmpty([""]) == [];
    }
  }

  // ----- Round trip -----

  predicate Plain(tag: string) {
    ',' !in tag && '"' !in tag
  }

  predicate AllPlain(tags: seq<string>) {
    forall i :: 0 <= i < |tags| ==> Plain(tags[i])
  }

  lemma {:induction false} AllPlainSnoc(tags: seq<string>, t: string)
    ensures AllPlain(tags + [t]) <==> AllPlain(tags) && Plain(t)
  {
    var all := tags + [t];
    assert all[|tags|] == t;
    assert forall i :: 0 <= i < |tags| ==> all[i] == tags[i];
  }

  lemma {:induction false} CleanTagsAreTrimmed(tags: seq<string>)
    ensures forall i :: 0 <= i < |Clean(tags)| ==> Clean(tags)[i] != ""
    ensures AllPlain(Clean(tags)) <==> AllPlain(tags)
  {
    if tags != [] {
      var n := |tags| - 1;
      var t := TrimSpace(tags[n]);
      CleanTagsAreTrimmed(tags[..n]);
      TrimKeeps(tags[n], IsSpace);
      assert Plain(t) <==> Plain(tags[n]);
      assert tags == tags[..n] + [tags[n]];
      AllPlainSnoc(tags[..n], tags[n]);
      AllPlainSnoc(Clean(tags[..n]), t);
      assert t == "" ==> Clean(tags) == Clean(tags[..n]);
    }
  }

  lemma {:induction false} QuotedTagStays(t: string)
    requires t != ""
    ensures TrimQuotes(Quote(t)) != ""
  {
    if '"' in t {
      QuotedTagIsChanged(t);
    } else {
      PlainTagSurvives(t);
    }
  }

  lemma {:induction false} KeptOfQuotedSnoc(ts: seq<string>, t: string)
    requires t != ""
    ensures Kept(QuoteAll(ts + [t])) == Kept(QuoteAll(ts)) + [TrimQuotes(Quote(t))]
  {
    QuotedTagStays(t);
    var all := QuoteAll(ts + [t]);
    assert all[..|all| - 1] == QuoteAll(ts) && all[|all| - 1] == Quote(t);
  }

  /** Each tag as it comes back. */
  function Returned(ts: seq<string>): seq<string> {
    seq(|ts|, i requires 0 <= i < |ts| => TrimQuotes(Quote(ts[i])))
  }

  lemma {:induction false} ReturnedSnoc(ts: seq<string>, t: string)
    ensures Returned(ts + [t]) == Returned(ts) + [TrimQuotes(Quote(t))]
  {
  }

  lemma {:induction false} KeptOfQuoted(ts: seq<string>)
    requires "" !in ts
    ensures Kept(QuoteAll(ts)) == Returned(ts)
  {
    if ts == [] {
      assert QuoteAll(ts) == [];
    } else {
      var n := |ts| - 1;
      var prev, t := ts[..n], ts[n];
      assert ts == prev + [t];
      KeptOfQuoted(prev);
      KeptOfQuotedSnoc(prev, t);
      ReturnedSnoc(prev, t);
    }
  }

  lemma {:induction false} ParseOfPrint(tags: seq<string>)
    ensures var inner := Join(QuoteAll(Clean(tags)));
            Parse(Print(tags)) == if inner == "" then [] else Kept(Split(inner))
  {
    var s := Print(tags);
    var inner := Join(QuoteAll(Clean(tags)));
    assert s[0] == '{' && s[|s| - 1] == '}';
    assert TrimSpace(s) == s;
    assert s[1..] == inner + "}";
    assert (inner + "}")[..|inner|] == inner;
  }

  lemma {:induction false} KeptHasNoComma(parts: seq<string>)
    requires forall i :: 0 <= i < |parts| ==> ',' !in parts[i]
    ensures forall i :: 0 <= i < |Kept(parts)| ==> ',' !in Kept(parts)[i]
  {
    if parts != [] {
      KeptHasNoComma(parts[..|parts| - 1]);
      TrimKeeps(parts[|parts| - 1], IsQuote);
    }
  }

  lemma {:induction false} JoinIsEmptyExactly(ts: seq<string>)
    ensures Join(QuoteAll(ts)) == "" <==> ts == []
  {
    if ts != [] {
      assert QuoteAll(ts)[0] == Quote(ts[0]);
    }
  }

  lemma {:induction false} CommaIsLost(ts: seq<string>, k: nat)
    requires k < |ts| && ',' in ts[k]
    ensures Kept(Split(Join(QuoteAll(ts)))) != ts
  {
    var parts := Split(Join(QuoteAll(ts)));
    KeptHasNoComma(parts);
    assert forall i :: 0 <= i < |Kept(parts)| ==> Kept(parts)[i] != ts[k];
  }

  lemma {:induction false} QuotedPartsHaveNoComma(ts: seq<string>)
    requires forall i :: 0 <= i < |ts| ==> ',' !in ts[i]
    ensures forall i :: 0 <= i < |ts| ==> ',' !in QuoteAll(ts)[i]
  {
    forall i | 0 <= i < |ts| ensures ',' !in QuoteAll(ts)[i] {
      EscapeCounts(ts[i]);
      assert ',' !in Escape(ts[i]);
    }
  }

  lemma {:induction false} WithoutCommas(ts: seq<string>)
    requires ts != [] && forall i :: 0 <= i < |ts| ==> ts[i] != "" && ',' !in ts[i]
    ensures Kept(Split(Join(QuoteAll(ts)))) == ts <==> AllPlain(ts)
  {
    QuotedPartsHaveNoComma(ts);
    SplitUndoesJoin(QuoteAll(ts));
    KeptOfQuoted(ts);
    if AllPlain(ts) {
      forall i | 0 <= i < |ts| ensures Kept(QuoteAll(ts))[i] == ts[i] {
        PlainTagSurvives(ts[i]);
      }
    } else {
      var k :| 0 <= k < |ts| && !Plain(ts[k]);
      QuotedTagIsChanged(ts[k]);
    }
  }

  /** Parsing the printed literal yields exactly the trimmed non-empty tags in order, if and
      only if no tag contains a comma or a double quote. */
  lemma {:induction false} RoundTripExactly(tags: seq<string>)
    ensures Parse(Print(tags)) == Clean(tags) <==> forall i :: 0 <= i < |tags| ==> ',' !in tags[i] && '"' !in tags[i]
  {
    var ts := Clean(tags);
    CleanTagsAreTrimmed(tags);
    ParseOfPrint(tags);
    JoinIsEmptyExactly(ts);
    assert AllPlain(tags) <==> forall i :: 0 <= i < |tags| ==> ',' !in tags[i] && '"' !in tags[i];
    if ts != [] {
      if k :| 0 <= k < |ts| && ',' in ts[k] {
        assert !Plain(ts[k]);
        CommaIsLost(ts, k);
      } else {
        WithoutCommas(ts);
      }
    }
  }
}
