/** RFC 6901 pointers as the lesson gate spells them, and their reading back. */
module Pointer {
  import opened Text
  import opened Wrappers

  const USIZE_MAX: nat := 0xFFFF_FFFF_FFFF_FFFF

  /** `str::replace` of one character. */
  function Replace(s: string, c: char, replacement: string): string {
    if s == "" then "" else (if s[0] == c then replacement else [s[0]]) + Replace(s[1..], c, replacement)
  }

  /** Escapes one reference token, sections 3 and 4 of RFC 6901. */
  function EscapeToken(token: string): string {
    Replace(Replace(token, '~', "~0"), '/', "~1")
  }

  /** Undoes an escaped token; a tilde before anything else stays. */
  function UnescapeToken(s: string): string
    decreases |s|
  {
    if s == "" then ""
    else if |s| > 1 && s[0] == '~' && s[1] == '1' then "/" + UnescapeToken(s[2..])
    else if |s| > 1 && s[0] == '~' && s[1] == '0' then "~" + UnescapeToken(s[2..])
    else [s[0]] + UnescapeToken(s[1..])
  }

  /** The pointer through these tokens; the empty one is the whole document. */
  function PointerTo(tokens: seq<string>): string {
    if tokens == [] then "" else "/" + EscapeToken(tokens[0]) + PointerTo(tokens[1..])
  }

  function ReadPointer(pointer: string): seq<string> {
    if pointer == "" then []
    else
      var escaped := Split(pointer[1..], '/');
      seq(|escaped|, i requires 0 <= i < |escaped| => UnescapeToken(escaped[i]))
  }

  /** `str::parse::<usize>`: an optional plus sign, then digits that fit. */
  function ParseUsize(s: string): Option<nat> {
    var digits := if s != "" && s[0] == '+' then s[1..] else s;
    var n := ReadDigits(0, digits);
    if digits != "" && 0 <= n <= USIZE_MAX then Some(n) else None
  }

  const SEGMENT_LIST := "segments"
  const SEGMENTS := "/" + SEGMENT_LIST + "/"

  /** The segment a pointer is inside, if it is inside one. */
  function SegmentIndex(pointer: string): Option<nat> {
    if SEGMENTS <= pointer then ParseUsize(Split(pointer[|SEGMENTS|..], '/')[0]) else None
  }

  lemma {:induction false} EscapeConcat(c: char, rest: string)
    ensures EscapeToken([c] + rest) == EscapeToken([c]) + EscapeToken(rest)
    ensures EscapeToken([c]) == if c == '~' then "~0" else if c == '/' then "~1" else [c]
  {
    assert ([c] + rest)[1..] == rest && ([c])[1..] == "";
    var piece := if c == '~' then "~0" else [c];
    assert Replace([c], '~', "~0") == piece;
    ReplaceAppend(piece, Replace(rest, '~', "~0"));
    assert ("~0")[1..] == "0" && ("0")[1..] == "";
  }

  lemma {:induction false} ReplaceAppend(s: string, t: string)
    ensures Replace(s + t, '/', "~1") == Replace(s, '/', "~1") + Replace(t, '/', "~1")
  {
    if s == "" {
      assert s + t == t;
    } else {
      ReplaceAppend(s[1..], t);
      assert (s + t)[1..] == s[1..] + t;
    }
  }

  /** Unescaping undoes escaping for every token, and an escaped token holds no slash. */
  lemma {:induction false} EscapeRoundTrip(token: string)
    ensures UnescapeToken(EscapeToken(token)) == token
    ensures '/' !in EscapeToken(token)
  {
    if token != "" {
      var c, rest := token[0], token[1..];
      EscapeRoundTrip(rest);
      EscapeConcat(c, rest);
      assert token == [c] + rest;
      var head, tail := EscapeToken([c]), EscapeToken(rest);
      assert (head + tail)[|head|..] == tail;
    }
  }

  /** Reading a pointer gives back the tokens it was built from, so no two paths share a pointer. */
  lemma {:induction false} PointerRoundTrip(tokens: seq<string>)
    ensures ReadPointer(PointerTo(tokens)) == tokens
  {
    var escaped := seq(|tokens|, i requires 0 <= i < |tokens| => EscapeToken(tokens[i]));
    forall i | 0 <= i < |tokens|
      ensures '/' !in escaped[i] && UnescapeToken(escaped[i]) == tokens[i]
    {
      EscapeRoundTrip(tokens[i]);
    }
    if tokens != [] {
      PointerIsJoin(tokens, escaped);
      SplitJoin(escaped, '/');
    }
  }

  lemma {:induction false} PointerIsJoin(tokens: seq<string>, escaped: seq<string>)
    requires tokens != [] && |escaped| == |tokens| && forall i :: 0 <= i < |tokens| ==> escaped[i] == EscapeToken(tokens[i])
    ensures PointerTo(tokens) == "/" + Join(escaped, '/')
  {
    if |tokens| > 1 {
      PointerIsJoin(tokens[1..], escaped[1..]);
      Associate("/" + escaped[0], "/", Join(escaped[1..], '/'));
      Associate("/", escaped[0], "/" + Join(escaped[1..], '/'));
      Associate(escaped[0], "/", Join(escaped[1..], '/'));
    } else {
      assert tokens[1..] == [];
    }
  }

  lemma PointerThroughTwo(a: string, b: string, tokens: seq<string>)
    requires EscapeToken(a) == a && EscapeToken(b) == b
    ensures PointerTo([a, b] + tokens) == "/" + a + "/" + (b + PointerTo(tokens))
  {
    assert ([a, b] + tokens)[1..] == [b] + tokens && ([b] + tokens)[1..] == tokens;
    assert PointerTo([b] + tokens) == "/" + b + PointerTo(tokens);
  }

  lemma SegmentPointer(index: nat, tokens: seq<string>)
    ensures PointerTo([SEGMENT_LIST, Decimal(index)] + tokens) == SEGMENTS + (Decimal(index) + PointerTo(tokens))
  {
    PlainToken(SEGMENT_LIST);
    PlainToken(Decimal(index));
    PointerThroughTwo(SEGMENT_LIST, Decimal(index), tokens);
  }

  lemma SegmentIndexOfDigits(index: nat, after: string)
    requires index <= USIZE_MAX && (after == "" || after[0] == '/')
    ensures SegmentIndex(SEGMENTS + (Decimal(index) + after)) == Some(index)
  {
    var digits := Decimal(index);
    assert (SEGMENTS + (digits + after))[|SEGMENTS|..] == digits + after;
    if after == "" {
      SplitPiece(digits, '/', "");
      assert digits + after == digits;
    } else {
      SplitPiece(digits, '/', after[1..]);
      assert digits + after == digits + ['/'] + after[1..];
    }
    ReadDecimal(index, "");
    assert digits + "" == digits;
  }

  /** A pointer built inside segment `index` is read back as being inside it. */
  lemma SegmentIndexRoundTrip(index: nat, tokens: seq<string>)
    requires index <= USIZE_MAX
    ensures SegmentIndex(PointerTo([SEGMENT_LIST, Decimal(index)] + tokens)) == Some(index)
  {
    SegmentPointer(index, tokens);
    SegmentIndexOfDigits(index, PointerTo(tokens));
  }

  lemma {:induction false} PlainToken(token: string)
    requires '~' !in token && '/' !in token
    ensures EscapeToken(token) == token
  {
    if token != "" {
      PlainToken(token[1..]);
      EscapeConcat(token[0], token[1..]);
      assert token == [token[0]] + token[1..];
    }
  }
}
