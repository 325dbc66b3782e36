/**
 The accepted subset of BCP 47 language tags: the parser, and the sense in which
 its result is a canonical form (section 2.1.1 of RFC 5646).
 */
module Language {
  import opened Text
  import opened Wrappers

  const MAX_LANGUAGE_TAG_BYTES := 64

  predicate IsAlphabetic(c: char) {
    'a' <= c <= 'z' || 'A' <= c <= 'Z'
  }

  predicate IsNumeric(c: char) {
    '0' <= c <= '9'
  }

  predicate AllAlphabetic(s: string) {
    forall c :: c in s ==> IsAlphabetic(c)
  }

  predicate AllAlphanumeric(s: string) {
    forall c :: c in s ==> IsAlphabetic(c) || IsNumeric(c)
  }

  function LowerChar(c: char): char {
    if 'A' <= c <= 'Z' then (c as int + 32) as char else c
  }

  function UpperChar(c: char): char {
    if 'a' <= c <= 'z' then (c as int - 32) as char else c
  }

  /** `to_ascii_lowercase`. */
  function Lower(s: string): (r: string)
    ensures |r| == |s|
  {
    seq(|s|, i requires 0 <= i < |s| => LowerChar(s[i]))
  }

  /** `to_ascii_uppercase`. */
  function Upper(s: string): (r: string)
    ensures |r| == |s|
  {
    seq(|s|, i requires 0 <= i < |s| => UpperChar(s[i]))
  }

  /** Tags are compared ignoring ASCII case, section 2.1.1 of RFC 5646. */
  predicate SameIgnoringCase(a: string, b: string) {
    Lower(a) == Lower(b)
  }

  // ----- the parser -----

  predicate IsLanguage(subtag: string) {
    2 <= Utf8Len(subtag) <= 8 && AllAlphabetic(subtag)
  }

  predicate IsScript(subtag: string) {
    Utf8Len(subtag) == 4 && AllAlphabetic(subtag)
  }

  predicate IsRegion(subtag: string) {
    if Utf8Len(subtag) == 2 then AllAlphabetic(subtag)
    else Utf8Len(subtag) == 3 && forall c :: c in subtag ==> IsNumeric(c)
  }

  predicate IsVariant(subtag: string) {
    if Utf8Len(subtag) == 4 then AllAlphanumeric(subtag) && IsNumeric(subtag[0])
    else 5 <= Utf8Len(subtag) <= 8 && AllAlphanumeric(subtag)
  }

  /** First letter upper case, the rest lower case. */
  function TitleCase(s: string): string
    requires s != ""
  {
    [UpperChar(s[0])] + Lower(s[1..])
  }

  method ParseLanguageTag(value: string) returns (tag: Option<string>)
    ensures tag == if Accepted(value) then Some(Normalized(value)) else None
  {
    if value == "" || Utf8Len(value) > MAX_LANGUAGE_TAG_BYTES {
      return None;
    }
    var subtags := Split(value, '-');
    if !IsLanguage(subtags[0]) {
      return None;
    }
    var normalized := Lower(subtags[0]);
    var next := 1;
    if next < |subtags| && IsScript(subtags[next]) {
      normalized := normalized + "-" + TitleCase(subtags[next]);
      next := next + 1;
    }
    if next < |subtags| && IsRegion(subtags[next]) {
      normalized := normalized + "-" + Upper(subtags[next]);
      next := next + 1;
    }
    assert next == VariantsFrom(subtags);
    HeadIsCased(subtags);
    CasedVariants(subtags);
    tag := ParseVariants(subtags, next, normalized, Cased(subtags));
  }

  /** The parser's last loop, which refuses a repeated variant (section 2.2.5 of RFC 5646). */
  method ParseVariants(subtags: seq<string>, from: nat, head: string, ghost cased: seq<string>)
    returns (tag: Option<string>)
    requires 0 < from <= |subtags| == |cased| && head == Join(cased[..from], '-')
    requires forall i :: from <= i < |subtags| ==> cased[i] == Lower(subtags[i])
    ensures tag == if AllVariants(subtags, from) && DistinctFrom(cased, from) then Some(Join(cased, '-')) else None
  {
    var normalized := head;
    var seen: seq<string> := [];
    for i := from to |subtags|
      invariant AllVariants(subtags[..i], from)
      invariant |seen| == i - from && forall n :: 0 <= n < |seen| ==> seen[n] == cased[from + n]
      invariant DistinctFrom(cased[..i], from)
      invariant normalized == Join(cased[..i], '-')
    {
      if !IsVariant(subtags[i]) {
        assert !AllVariants(subtags, from);
        return None;
      }
      var variant := Lower(subtags[i]);
      if variant in seen {
        ghost var n :| 0 <= n < |seen| && seen[n] == variant;
        NotDistinct(cased, from, from + n, i);
        return None;
      }
      normalized := normalized + "-" + variant;
      JoinNext(cased, i);
      forall j | from <= j < i ensures cased[j] != cased[i] {
        assert seen[j - from] == cased[j];
      }
      DistinctNext(cased, from, i);
      seen := seen + [variant];
    }
    assert cased[..|subtags|] == cased && subtags[..|subtags|] == subtags;
    return Some(normalized);
  }

  // ----- what it accepts, and what it returns -----

  predicate HasScript(subtags: seq<string>) {
    |subtags| > 1 && IsScript(subtags[1])
  }

  function RegionAt(subtags: seq<string>): nat {
    if HasScript(subtags) then 2 else 1
  }

  function VariantsFrom(subtags: seq<string>): nat {
    var at := RegionAt(subtags);
    if at < |subtags| && IsRegion(subtags[at]) then at + 1 else at
  }

  ghost predicate AcceptedSubtags(subtags: seq<string>)
    requires subtags != []
  {
    IsLanguage(subtags[0]) && DistinctVariants(subtags, VariantsFrom(subtags))
  }

  ghost predicate AllVariants(subtags: seq<string>, from: nat) {
    forall i :: from <= i < |subtags| ==> IsVariant(subtags[i])
  }

  ghost predicate DistinctVariants(subtags: seq<string>, from: nat) {
    && AllVariants(subtags, from)
    && (forall i, j :: from <= i < j < |subtags| ==> !SameIgnoringCase(subtags[i], subtags[j]))
  }

  ghost predicate Accepted(value: string) {
    value != "" && Utf8Len(value) <= MAX_LANGUAGE_TAG_BYTES && AcceptedSubtags(Split(value, '-'))
  }

  /** Each subtag in its conventional case: `sr-Latn-RS-ekavsk`. */
  function CasedAt(subtags: seq<string>, i: nat): string
    requires i < |subtags|
  {
    if i == 1 && HasScript(subtags) then TitleCase(subtags[i])
    else if 0 < i == RegionAt(subtags) < VariantsFrom(subtags) then Upper(subtags[i])
    else Lower(subtags[i])
  }

  function Cased(subtags: seq<string>): (r: seq<string>)
    ensures |r| == |subtags|
  {
    seq(|subtags|, i requires 0 <= i < |subtags| => CasedAt(subtags, i))
  }

  ghost predicate DistinctFrom(pieces: seq<string>, from: nat) {
    forall i, j :: from <= i < j < |pieces| ==> pieces[i] != pieces[j]
  }

  lemma DistinctNext(pieces: seq<string>, from: nat, i: nat)
    requires from <= i < |pieces| && DistinctFrom(pieces[..i], from)
    requires forall j :: from <= j < i ==> pieces[j] != pieces[i]
    ensures DistinctFrom(pieces[..i + 1], from)
  {
    forall j, k | from <= j < k < i + 1 ensures pieces[j] != pieces[k] {
      if k < i { assert pieces[..i][j] != pieces[..i][k]; }
    }
  }

  lemma NotDistinct(pieces: seq<string>, from: nat, i: nat, j: nat)
    requires from <= i < j < |pieces| && pieces[i] == pieces[j]
    ensures !DistinctFrom(pieces, from)
  {
  }

  lemma CasedVariants(subtags: seq<string>)
    ensures forall i :: VariantsFrom(subtags) <= i < |subtags| ==> Cased(subtags)[i] == Lower(subtags[i])
    ensures DistinctVariants(subtags, VariantsFrom(subtags)) <==>
      AllVariants(subtags, VariantsFrom(subtags)) && DistinctFrom(Cased(subtags), VariantsFrom(subtags))
  {
    var cased, from := Cased(subtags), VariantsFrom(subtags);
    assert forall i, j :: from <= i < j < |subtags| ==>
      (cased[i] != cased[j] <==> !SameIgnoringCase(subtags[i], subtags[j]));
  }

  lemma JoinNext(pieces: seq<string>, i: nat)
    requires 0 < i < |pieces|
    ensures Join(pieces[..i + 1], '-') == Join(pieces[..i], '-') + "-" + pieces[i]
  {
    JoinSnoc(pieces[..i], [pieces[i]], '-');
    assert pieces[..i] + [pieces[i]] == pieces[..i + 1];
  }

  /** The language, script and region as the parser writes them. */
  lemma HeadIsCased(subtags: seq<string>)
    requires subtags != []
    ensures var script := if HasScript(subtags) then "-" + TitleCase(subtags[1]) else "";
            var at := RegionAt(subtags);
            var region := if at < VariantsFrom(subtags) then "-" + Upper(subtags[at]) else "";
            Join(Cased(subtags)[..VariantsFrom(subtags)], '-') == Lower(subtags[0]) + script + region
  {
    var cased := Cased(subtags);
    assert Join(cased[..1], '-') == cased[0];
    if VariantsFrom(subtags) > 1 {
      JoinNext(cased, 1);
      if VariantsFrom(subtags) > 2 {
        JoinNext(cased, 2);
      }
    }
  }

  function Normalized(value: string): string {
    Join(Cased(Split(value, '-')), '-')
  }

  // ----- the result is a canonical form -----

  function LowerAll(pieces: seq<string>): (r: seq<string>)
    ensures |r| == |pieces|
  {
    seq(|pieces|, i requires 0 <= i < |pieces| => Lower(pieces[i]))
  }

  lemma {:induction false} LowerKeepsBytes(s: string)
    ensures Utf8Len(Lower(s)) == Utf8Len(s)
  {
    if s != "" {
      LowerKeepsBytes(s[1..]);
      assert Lower(s)[1..] == Lower(s[1..]);
    }
  }

  /** Case folding is idempotent, and upper-casing ignores it. */
  lemma LowerIsFolding(s: string)
    ensures Lower(Lower(s)) == Lower(s) && Upper(Lower(s)) == Upper(s) && Lower(Upper(s)) == Lower(s)
  {
  }

  lemma TitleCaseIsFolding(s: string)
    requires s != ""
    ensures TitleCase(Lower(s)) == TitleCase(s) && Lower(TitleCase(s)) == Lower(s)
  {
    assert Lower(s)[1..] == Lower(s[1..]);
    LowerIsFolding(s[1..]);
    assert Lower(s) == [LowerChar(s[0])] + Lower(s[1..]);
    assert Lower(TitleCase(s))[1..] == Lower(TitleCase(s)[1..]);
  }

  /** No subtag class looks at case. */
  lemma ClassesIgnoreCase(p: string)
    ensures IsLanguage(Lower(p)) == IsLanguage(p) && IsScript(Lower(p)) == IsScript(p)
    ensures IsRegion(Lower(p)) == IsRegion(p) && IsVariant(Lower(p)) == IsVariant(p)
  {
    LowerKeepsBytes(p);
    var q := Lower(p);
    assert forall i :: 0 <= i < |p| ==> IsAlphabetic(q[i]) == IsAlphabetic(p[i]) && IsNumeric(q[i]) == IsNumeric(p[i]);
    assert forall c :: c in p ==> LowerChar(c) in q by {
      forall c | c in p ensures LowerChar(c) in q {
        var i :| 0 <= i < |p| && p[i] == c;
        assert q[i] == LowerChar(c);
      }
    }
  }

  lemma {:induction false} SplitLower(s: string)
    ensures Split(Lower(s), '-') == LowerAll(Split(s, '-'))
  {
    if s != "" {
      SplitLower(s[1..]);
      assert Lower(s)[1..] == Lower(s[1..]);
      var rest := Split(s[1..], '-');
      if s[0] == '-' {
        LowerAllCons("", rest);
      } else {
        LowerCons(s[0], rest[0]);
        LowerAllCons([s[0]] + rest[0], rest[1..]);
        LowerAllCons(rest[0], rest[1..]);
        assert rest == [rest[0]] + rest[1..];
      }
    }
  }

  lemma LowerAllCons(piece: string, rest: seq<string>)
    ensures LowerAll([piece] + rest) == [Lower(piece)] + LowerAll(rest)
  {}

  lemma LowerCons(c: char, rest: string)
    ensures Lower([c] + rest) == [LowerChar(c)] + Lower(rest)
  {}

  lemma {:induction false} LowerJoin(pieces: seq<string>)
    ensures Lower(Join(pieces, '-')) == Join(LowerAll(pieces), '-')
  {
    if |pieces| > 1 {
      LowerJoin(pieces[1..]);
      assert LowerAll(pieces)[1..] == LowerAll(pieces[1..]);
      assert Lower(Join(pieces, '-')) == Lower(pieces[0]) + "-" + Lower(Join(pieces[1..], '-'));
    }
  }

  lemma ShapeIgnoresCase(pieces: seq<string>)
    requires pieces != []
    ensures VariantsFrom(LowerAll(pieces)) == VariantsFrom(pieces) && RegionAt(LowerAll(pieces)) == RegionAt(pieces)
    ensures HasScript(LowerAll(pieces)) == HasScript(pieces)
    ensures AcceptedSubtags(LowerAll(pieces)) == AcceptedSubtags(pieces)
  {
    var q := LowerAll(pieces);
    forall i | 0 <= i < |pieces|
      ensures IsLanguage(q[i]) == IsLanguage(pieces[i]) && IsScript(q[i]) == IsScript(pieces[i])
      ensures IsRegion(q[i]) == IsRegion(pieces[i]) && IsVariant(q[i]) == IsVariant(pieces[i])
      ensures Lower(q[i]) == q[i]
    {
      ClassesIgnoreCase(pieces[i]);
      LowerIsFolding(pieces[i]);
    }
  }

  lemma CasedIgnoresCase(pieces: seq<string>)
    requires pieces != []
    ensures Cased(LowerAll(pieces)) == Cased(pieces) && LowerAll(Cased(pieces)) == LowerAll(pieces)
  {
    ShapeIgnoresCase(pieces);
    forall i | 0 <= i < |pieces|
      ensures CasedAt(LowerAll(pieces), i) == CasedAt(pieces, i) && Lower(CasedAt(pieces, i)) == Lower(pieces[i])
    {
      LowerIsFolding(pieces[i]);
      if pieces[i] != "" {
        TitleCaseIsFolding(pieces[i]);
      }
    }
  }

  /** Acceptance and the normalized tag depend only on the tag's letters, not their case. */
  lemma CaseDoesNotMatter(a: string, b: string)
    requires SameIgnoringCase(a, b)
    ensures Accepted(a) == Accepted(b)
    ensures Normalized(a) == Normalized(b)
  {
    FoldedFirst(a);
    FoldedFirst(b);
  }

  lemma FoldedFirst(a: string)
    ensures Accepted(Lower(a)) == Accepted(a) && Normalized(Lower(a)) == Normalized(a)
    ensures SameIgnoringCase(Normalized(a), a)
  {
    LowerKeepsBytes(a);
    SplitLower(a);
    ShapeIgnoresCase(Split(a, '-'));
    CasedIgnoresCase(Split(a, '-'));
    LowerJoin(Cased(Split(a, '-')));
    SplitPieces(Lower(a), '-');
  }

  /**
   Normalization is a canonical form: it changes case and nothing else, it keeps the length,
   parsing its result gives that result back, and two tags share a form exactly when they
   are one tag.
   */
  lemma NormalizedIsCanonical(a: string, b: string)
    ensures SameIgnoringCase(Normalized(a), a) && |Normalized(a)| == |a|
    ensures Accepted(a) ==> Accepted(Normalized(a)) && Normalized(Normalized(a)) == Normalized(a)
    ensures Normalized(a) == Normalized(b) <==> SameIgnoringCase(a, b)
  {
    FoldedFirst(a);
    FoldedFirst(b);
    CaseDoesNotMatter(Normalized(a), a);
    assert |Lower(Normalized(a))| == |Lower(a)|;
    if SameIgnoringCase(a, b) {
      CaseDoesNotMatter(a, b);
    }
  }
}
