/**
 The language tags as a grammar, section 2.1 of RFC 5646: the parser accepts exactly what it
 generates, and writes each part in its conventional case.
 */
module Grammar {
  import opened Language
  import opened Text
  import opened Wrappers

  /** A tag by its parts. */
  datatype Parts = Parts(language: string, script: Option<string>, region: Option<string>, variants: seq<string>)

  predicate Lowercase(c: char) {
    'a' <= c <= 'z'
  }

  predicate Uppercase(c: char) {
    'A' <= c <= 'Z'
  }

  predicate Digit(c: char) {
    '0' <= c <= '9'
  }

  ghost predicate Letters(s: string) {
    forall c :: c in s ==> Lowercase(c) || Uppercase(c)
  }

  ghost predicate Alphanumeric(s: string) {
    forall c :: c in s ==> Lowercase(c) || Uppercase(c) || Digit(c)
  }

  ghost predicate IsRegionPart(s: string) {
    (|s| == 2 && Letters(s)) || (|s| == 3 && forall c :: c in s ==> Digit(c))
  }

  ghost predicate IsVariantPart(s: string) {
    Alphanumeric(s) && (5 <= |s| <= 8 || (|s| == 4 && Digit(s[0])))
  }

  /** The accepted grammar: a language, then a script, a region and variants, of which none is repeated. */
  ghost predicate WellFormed(p: Parts) {
    && 2 <= |p.language| <= 8 && Letters(p.language)
    && (p.script.Some? ==> |p.script.value| == 4 && Letters(p.script.value))
    && (p.region.Some? ==> IsRegionPart(p.region.value))
    && (forall i :: 0 <= i < |p.variants| ==> IsVariantPart(p.variants[i]))
    && (forall i, j :: 0 <= i < j < |p.variants| ==> !SameIgnoringCase(p.variants[i], p.variants[j]))
  }

  /** Each part in its conventional case, section 2.1.1 of RFC 5646. */
  ghost predicate Conventional(p: Parts) {
    && (forall c :: c in p.language ==> Lowercase(c))
    && (p.script.Some? ==> p.script.value != "" && Uppercase(p.script.value[0]) && forall c :: c in p.script.value[1..] ==> Lowercase(c))
    && (p.region.Some? ==> forall c :: c in p.region.value ==> Uppercase(c) || Digit(c))
    && (forall i :: 0 <= i < |p.variants| ==> forall c :: c in p.variants[i] ==> Lowercase(c) || Digit(c))
  }

  function Head(p: Parts): (r: seq<string>)
    ensures |r| == 1 + (if p.script.Some? then 1 else 0) + (if p.region.Some? then 1 else 0)
  {
    [p.language] + (if p.script.Some? then [p.script.value] else []) + (if p.region.Some? then [p.region.value] else [])
  }

  function Subtags(p: Parts): seq<string> {
    Head(p) + p.variants
  }

  function Written(p: Parts): string {
    Join(Subtags(p), '-')
  }

  lemma PlainLength(s: string)
    requires Alphanumeric(s)
    ensures Utf8Len(s) == |s| && '-' !in s
  {
    AsciiLength(s);
  }

  /** The parser finds each part of a well-formed tag where it stands. */
  lemma PartsAreFound(p: Parts)
    requires WellFormed(p)
    ensures var s := Subtags(p);
            && IsLanguage(s[0]) && (HasScript(s) <==> p.script.Some?)
            && VariantsFrom(s) == |Head(p)| && (RegionAt(s) < VariantsFrom(s) <==> p.region.Some?)
            && (forall i :: 0 <= i < |p.variants| ==> IsVariant(p.variants[i]))
  {
    PlainLength(p.language);
    if p.script.Some? { PlainLength(p.script.value); }
    if p.region.Some? { PlainLength(p.region.value); }
    forall i | 0 <= i < |p.variants|
      ensures IsVariant(p.variants[i]) && !IsScript(p.variants[i]) && !IsRegion(p.variants[i])
    {
      VariantIsNoOther(p.variants[i]);
    }
    var s := Subtags(p);
    assert s[0] == p.language;
    assert forall i :: |Head(p)| <= i < |s| ==> s[i] == p.variants[i - |Head(p)|];
    if p.region.Some? {
      assert s[|Head(p)| - 1] == p.region.value;
    }
  }

  lemma VariantIsNoOther(s: string)
    requires IsVariantPart(s)
    ensures IsVariant(s) && !IsScript(s) && !IsRegion(s)
  {
    PlainLength(s);
    assert s[0] in s;
  }

  lemma WellFormedIsAccepted(p: Parts)
    requires WellFormed(p)
    ensures Split(Written(p), '-') == Subtags(p) && AcceptedSubtags(Subtags(p)) && Written(p) != ""
  {
    forall piece | piece in Subtags(p) ensures '-' !in piece {
      PieceIsPlain(p, piece);
    }
    SplitJoin(Subtags(p), '-');
    PartsAreFound(p);
    VariantsStandLast(p);
    assert Subtags(p)[0] == p.language && p.language != "";
    assert Written(p) == "" ==> Split(Written(p), '-') == [""];
  }

  lemma VariantsStandLast(p: Parts)
    requires WellFormed(p)
    ensures DistinctVariants(Subtags(p), |Head(p)|)
  {
    PartsAreFound(p);
    var s := Subtags(p);
    assert forall i :: |Head(p)| <= i < |s| ==> s[i] == p.variants[i - |Head(p)|];
  }

  lemma PieceIsPlain(p: Parts, piece: string)
    requires WellFormed(p) && piece in Subtags(p)
    ensures '-' !in piece
  {
    var i :| 0 <= i < |Subtags(p)| && Subtags(p)[i] == piece;
    if i >= |Head(p)| {
      assert piece == p.variants[i - |Head(p)|];
    }
  }

  /** The parts the parser finds in the subtags of an accepted tag. */
  function Found(s: seq<string>): Parts
    requires s != [] && VariantsFrom(s) <= |s|
  {
    Parts(s[0], if HasScript(s) then Some(s[1]) else None,
          if RegionAt(s) < VariantsFrom(s) then Some(s[RegionAt(s)]) else None, s[VariantsFrom(s)..])
  }

  lemma FoundIsWellFormed(s: seq<string>)
    requires s != [] && AcceptedSubtags(s) && VariantsFrom(s) <= |s|
    ensures WellFormed(Found(s)) && Subtags(Found(s)) == s
  {
    FoundStandsThere(s);
    PlainSubtags(s);
    VariantsAreFound(s, VariantsFrom(s));
  }

  lemma VariantsAreFound(s: seq<string>, from: nat)
    requires from <= |s| && DistinctVariants(s, from)
    ensures forall i :: 0 <= i < |s| - from ==> IsVariantPart(s[from..][i])
    ensures forall i, j :: 0 <= i < j < |s| - from ==> !SameIgnoringCase(s[from..][i], s[from..][j])
  {
    PlainSubtags(s);
    forall i | 0 <= i < |s| - from ensures IsVariantPart(s[from..][i]) {
      assert s[from..][i] == s[from + i] && IsVariant(s[from + i]);
    }
  }

  lemma FoundStandsThere(s: seq<string>)
    requires s != [] && VariantsFrom(s) <= |s|
    ensures Subtags(Found(s)) == s
  {
    var from := VariantsFrom(s);
    if from == 3 {
      assert [s[0]] + [s[1]] + [s[2]] + s[3..] == s;
    } else if from == 2 {
      assert [s[0]] + [s[1]] + s[2..] == s;
      assert [s[0]] + [] + [s[1]] == [s[0]] + [s[1]];
      assert [s[0]] + [s[1]] + [] == [s[0]] + [s[1]];
    } else {
      assert [s[0]] + [] + [] == [s[0]];
      assert [s[0]] + s[1..] == s;
    }
  }

  /** Subtags of the parser's classes are plain ASCII, so bytes and characters are one measure. */
  lemma PlainSubtags(s: seq<string>)
    ensures forall i :: 0 <= i < |s| && (IsLanguage(s[i]) || IsScript(s[i]) || IsRegion(s[i]) || IsVariant(s[i])) ==>
              Alphanumeric(s[i]) && Utf8Len(s[i]) == |s[i]|
  {
    forall i | 0 <= i < |s| && (IsLanguage(s[i]) || IsScript(s[i]) || IsRegion(s[i]) || IsVariant(s[i]))
      ensures Alphanumeric(s[i]) && Utf8Len(s[i]) == |s[i]|
    {
      PlainLength(s[i]);
    }
  }

  /** The parser accepts exactly the tags the grammar generates, within the length it allows. */
  lemma AcceptsTheGrammar(value: string)
    ensures Accepted(value) <==> Utf8Len(value) <= 64 && exists p :: WellFormed(p) && Written(p) == value
  {
    if Accepted(value) {
      var s := Split(value, '-');
      FoundIsWellFormed(s);
      SplitPieces(value, '-');
      assert WellFormed(Found(s)) && Written(Found(s)) == value;
    }
    if p :| WellFormed(p) && Written(p) == value {
      WellFormedIsAccepted(p);
    }
  }

  /** Each part in the case the parser writes it in. */
  function Conventionally(p: Parts): Parts
    requires WellFormed(p)
  {
    Parts(Lower(p.language), if p.script.Some? then Some(TitleCase(p.script.value)) else None,
          if p.region.Some? then Some(Upper(p.region.value)) else None, LowerAll(p.variants))
  }

  lemma LowerIsLowercase(s: string)
    requires Alphanumeric(s)
    ensures forall c :: c in Lower(s) ==> Lowercase(c) || Digit(c)
    ensures Letters(s) ==> forall c :: c in Lower(s) ==> Lowercase(c)
    ensures Alphanumeric(Lower(s)) && (Letters(s) ==> Letters(Lower(s)))
  {
    forall c | c in Lower(s) ensures Lowercase(c) || (Digit(c) && c in s) {
      var i :| 0 <= i < |s| && LowerChar(s[i]) == c;
      assert s[i] in s;
    }
  }

  lemma UpperIsUppercase(s: string)
    requires Alphanumeric(s)
    ensures forall c :: c in Upper(s) ==> Uppercase(c) || (Digit(c) && c in s)
  {
    forall c | c in Upper(s) ensures Uppercase(c) || (Digit(c) && c in s) {
      var i :| 0 <= i < |s| && UpperChar(s[i]) == c;
      assert s[i] in s;
    }
  }

  lemma ConventionallyIsConventional(p: Parts)
    requires WellFormed(p)
    ensures Conventional(Conventionally(p))
  {
    LowerIsLowercase(p.language);
    if p.script.Some? {
      var s := p.script.value;
      assert s[0] in s;
      assert forall c :: c in s[1..] ==> c in s;
      LowerIsLowercase(s[1..]);
      assert TitleCase(s)[1..] == Lower(s[1..]);
    }
    if p.region.Some? {
      UpperIsUppercase(p.region.value);
    }
    forall i | 0 <= i < |p.variants| ensures forall c :: c in LowerAll(p.variants)[i] ==> Lowercase(c) || Digit(c) {
      LowerIsLowercase(p.variants[i]);
    }
  }

  lemma HeadIsConventional(p: Parts)
    requires WellFormed(p)
    ensures forall i :: 0 <= i < |Head(p)| ==> CasedAt(Subtags(p), i) == Head(Conventionally(p))[i]
  {
    PartsAreFound(p);
    var s := Subtags(p);
    assert s[0] == p.language;
    assert p.script.Some? ==> s[1] == p.script.value;
    assert p.region.Some? ==> s[|Head(p)| - 1] == p.region.value;
  }

  lemma CasedParts(p: Parts)
    requires WellFormed(p)
    ensures Cased(Subtags(p)) == Subtags(Conventionally(p))
  {
    PartsAreFound(p);
    HeadIsConventional(p);
    var s, head, n := Subtags(p), |Head(p)|, Subtags(Conventionally(p));
    forall i | 0 <= i < |s| ensures Cased(s)[i] == n[i] {
      assert Cased(s)[i] == CasedAt(s, i);
      if i >= head {
        assert s[i] == p.variants[i - head] && n[i] == LowerAll(p.variants)[i - head];
      }
    }
  }

  /** What the parser returns is the tag with each part in its conventional case, and no letter changed. */
  lemma NormalizedIsConventional(p: Parts)
    requires WellFormed(p)
    ensures Normalized(Written(p)) == Written(Conventionally(p)) && Conventional(Conventionally(p))
    ensures SameIgnoringCase(Normalized(Written(p)), Written(p))
  {
    WellFormedIsAccepted(p);
    ConventionallyIsConventional(p);
    CasedParts(p);
    FoldedFirst(Written(p));
  }
}
