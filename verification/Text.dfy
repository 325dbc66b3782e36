/**
 Text as its UTF-8 bytes: a string is a sequence of Unicode scalar values
 (Dafny's `char`), its length is its UTF-8 length, and its order is the order of
 its UTF-8 bytes.
 */
module Text {
  import opened Wrappers

  newtype byte = n: int | 0 <= n < 256

  /** One scalar value in UTF-8, section 3 of RFC 3629. */
  function Utf8Char(c: char): (b: seq<byte>)
    ensures 1 <= |b| <= 4
    ensures |b| == 1 <==> c < 128 as char
  {
    var n := c as int;
    var n1 := n / 64;
    var n2 := n1 / 64;
    var n3 := n2 / 64;
    if n < 0x80 then [n as byte]
    else if n < 0x800 then [(0xC0 + n1) as byte, Trail(n)]
    else if n < 0x10000 then [(0xE0 + n2) as byte, Trail(n1), Trail(n)]
    else [(0xF0 + n3) as byte, Trail(n2), Trail(n1), Trail(n)]
  }

  /** A continuation byte: the low six bits of `n`. */
  function Trail(n: nat): byte {
    (0x80 + n % 64) as byte
  }

  function Utf8(s: string): (b: seq<byte>)
    ensures |s| <= |b|
  {
    if s == [] then [] else Utf8Char(s[0]) + Utf8(s[1..])
  }

  /** `str::len`. */
  function Utf8Len(s: string): nat {
    |Utf8(s)|
  }

  lemma {:induction false} AsciiLength(s: string)
    requires forall c :: c in s ==> c < '\U{80}'
    ensures Utf8Len(s) == |s|
  {
    if s != "" {
      assert s[0] in s && forall c :: c in s[1..] ==> c in s;
      AsciiLength(s[1..]);
    }
  }

  lemma {:induction false} Utf8Append(s: string, t: string)
    ensures Utf8(s + t) == Utf8(s) + Utf8(t)
  {
    if s == [] {
      assert s + t == t;
    } else {
      TailOfAppend(s, t);
      Utf8Append(s[1..], t);
      Associate(Utf8Char(s[0]), Utf8(s[1..]), Utf8(t));
    }
  }

  /** `str::cmp` on scalar values; `LessIsByteOrder` says it is the order of the bytes. */
  predicate Less(a: string, b: string) {
    b != [] && (a == [] || a[0] < b[0] || (a[0] == b[0] && Less(a[1..], b[1..])))
  }

  predicate BytesLess(a: seq<byte>, b: seq<byte>) {
    b != [] && (a == [] || a[0] < b[0] || (a[0] == b[0] && BytesLess(a[1..], b[1..])))
  }

  lemma {:induction false} LessTotal(a: string, b: string)
    ensures a == b || Less(a, b) || Less(b, a)
  {
    if a != [] && b != [] && a[0] == b[0] {
      LessTotal(a[1..], b[1..]);
      assert a == [a[0]] + a[1..] && b == [b[0]] + b[1..];
    }
  }

  lemma {:induction false} LessAsymmetric(a: string, b: string)
    requires Less(a, b)
    ensures a != b && !Less(b, a)
  {
    if a != [] && a[0] == b[0] {
      LessAsymmetric(a[1..], b[1..]);
    }
  }

  lemma {:induction false} LessTransitive(a: string, b: string, c: string)
    requires Less(a, b) && Less(b, c)
    ensures Less(a, c)
  {
    if a != [] && a[0] == b[0] && b[0] == c[0] {
      LessTransitive(a[1..], b[1..], c[1..]);
    }
  }

  lemma {:induction false} BytesLessPrefix(p: seq<byte>, a: seq<byte>, b: seq<byte>)
    ensures BytesLess(p + a, p + b) == BytesLess(a, b)
  {
    if p == [] {
      assert p + a == a && p + b == b;
    } else {
      BytesLessPrefix(p[1..], a, b);
      assert (p + a)[1..] == p[1..] + a && (p + b)[1..] == p[1..] + b;
    }
  }

  lemma {:induction false} BytesLessAt(a: seq<byte>, b: seq<byte>, i: nat)
    requires i < |a| && i < |b| && a[..i] == b[..i] && a[i] < b[i]
    ensures BytesLess(a, b)
  {
    BytesLessPrefix(a[..i], a[i..], b[i..]);
    assert a == a[..i] + a[i..] && b == a[..i] + b[i..];
  }

  /** Dropping six bits keeps the order, and what is dropped decides a tie. */
  lemma SixBits(m: nat, n: nat)
    requires m < n
    ensures m / 64 < n / 64 || (m / 64 == n / 64 && Trail(m) < Trail(n))
  {
  }

  /** Where the encodings of two scalar values first differ, the smaller value has the smaller byte. */
  lemma Utf8CharDiffers(c: char, d: char) returns (i: nat)
    requires c < d
    ensures i < |Utf8Char(c)| && i < |Utf8Char(d)|
    ensures Utf8Char(c)[..i] == Utf8Char(d)[..i]
    ensures Utf8Char(c)[i] < Utf8Char(d)[i]
  {
    var m, n := c as int, d as int;
    i := 0;
    if |Utf8Char(c)| == |Utf8Char(d)| > 1 {
      SixBits(m, n);
      var m1, n1 := m / 64, n / 64;
      i := |Utf8Char(c)| - 1;
      if m1 < n1 {
        SixBits(m1, n1);
        i := i - 1;
        if i > 0 && m1 / 64 < n1 / 64 {
          SixBits(m1 / 64, n1 / 64);
          i := i - 1;
          if i > 0 && m1 / 64 / 64 < n1 / 64 / 64 {
            i := i - 1;
          }
        }
      }
    }
  }

  lemma Utf8CharOrder(c: char, d: char, x: seq<byte>, y: seq<byte>)
    requires c < d
    ensures BytesLess(Utf8Char(c) + x, Utf8Char(d) + y)
  {
    var i := Utf8CharDiffers(c, d);
    var a, b := Utf8Char(c), Utf8Char(d);
    assert (a + x)[..i] == a[..i] && (b + y)[..i] == b[..i];
    BytesLessAt(a + x, b + y, i);
  }

  /** Ordering strings by scalar value and ordering them by UTF-8 byte is one order. */
  lemma {:induction false} LessIsByteOrder(a: string, b: string)
    ensures Less(a, b) <==> BytesLess(Utf8(a), Utf8(b))
  {
    if a != [] && b != [] {
      if a[0] == b[0] {
        LessIsByteOrder(a[1..], b[1..]);
        BytesLessPrefix(Utf8Char(a[0]), Utf8(a[1..]), Utf8(b[1..]));
      } else if a[0] < b[0] {
        Utf8CharOrder(a[0], b[0], Utf8(a[1..]), Utf8(b[1..]));
      } else {
        Utf8CharOrder(b[0], a[0], Utf8(b[1..]), Utf8(a[1..]));
        BytesLessAsymmetric(Utf8(b), Utf8(a));
      }
    }
  }

  lemma {:induction false} BytesLessAsymmetric(a: seq<byte>, b: seq<byte>)
    requires BytesLess(a, b)
    ensures !BytesLess(b, a)
  {
    if a != [] && a[0] == b[0] {
      BytesLessAsymmetric(a[1..], b[1..]);
    }
  }

  ghost predicate Ascending(keys: seq<string>) {
    forall i, j :: 0 <= i < j < |keys| ==> Less(keys[i], keys[j])
  }

  lemma {:induction false} LeastExists(keys: set<string>)
    requires keys != {}
    ensures exists k :: k in keys && forall o :: o in keys && o != k ==> Less(k, o)
  {
    var k :| k in keys;
    if keys != {k} {
      LeastExists(keys - {k});
      var m :| m in keys - {k} && forall o :: o in keys - {k} && o != m ==> Less(m, o);
      LessTotal(k, m);
      if Less(k, m) {
        forall o | o in keys && o != k ensures Less(k, o) {
          if o != m { LessTransitive(k, m, o); }
        }
      } else {
        assert forall o :: o in keys && o != m ==> Less(m, o);
      }
    }
  }

  /** The keys of a `BTreeMap<String, _>` in iteration order. */
  function SortedKeys(keys: set<string>): (r: seq<string>)
    ensures Ascending(r)
    ensures forall k :: k in r <==> k in keys
    ensures |r| == |keys|
  {
    if keys == {} then [] else
      LeastExists(keys);
      assert forall a, b :: Less(a, b) ==> !Less(b, a) by {
        forall a, b | Less(a, b) ensures !Less(b, a) { LessAsymmetric(a, b); }
      }
      var k :| k in keys && forall o :: o in keys && o != k ==> Less(k, o);
      [k] + SortedKeys(keys - {k})
  }

  /** `u64::to_string`, `u32::to_string`, `usize::to_string`: the shortest decimal form. */
  function Decimal(n: nat): (s: string)
    ensures s != [] && forall c :: c in s ==> '0' <= c <= '9'
    ensures |s| > 1 ==> s[0] != '0'
  {
    if n < 10 then [('0' as int + n) as char] else Decimal(n / 10) + [('0' as int + n % 10) as char]
  }

  /** Reads ASCII digits after the value `acc`; `None` at any other character. */
  function ReadDigits(acc: nat, s: string): (n: int)
    decreases s
  {
    if s == [] then acc
    else if '0' <= s[0] <= '9' then ReadDigits(acc * 10 + (s[0] as int - '0' as int), s[1..])
    else -1
  }

  lemma {:induction false} ReadDecimal(n: nat, rest: string)
    ensures ReadDigits(0, Decimal(n) + rest) == ReadDigits(n, rest)
  {
    var last := ('0' as int + n % 10) as char;
    if n < 10 {
      assert (Decimal(n) + rest)[1..] == rest;
    } else {
      ReadDecimal(n / 10, [last] + rest);
      assert Decimal(n) + rest == Decimal(n / 10) + ([last] + rest);
      assert ([last] + rest)[1..] == rest;
    }
  }

  /** The Unicode White_Space property, which `str::trim` strips. */
  predicate IsWhitespace(c: char) {
    var n := c as int;
    0x9 <= n <= 0xD || n == 0x20 || n == 0x85 || n == 0xA0 || n == 0x1680 || 0x2000 <= n <= 0x200A ||
    n == 0x2028 || n == 0x2029 || n == 0x202F || n == 0x205F || n == 0x3000
  }

  function TrimStart(s: string): string {
    if s != [] && IsWhitespace(s[0]) then TrimStart(s[1..]) else s
  }

  function TrimEnd(s: string): string {
    if s != [] && IsWhitespace(s[|s| - 1]) then TrimEnd(s[..|s| - 1]) else s
  }

  /** `str::trim`. */
  function Trim(s: string): string {
    TrimEnd(TrimStart(s))
  }

  /** `str::trim().is_empty()`; `BlankIsTrim` ties it to `Trim`. */
  predicate Blank(s: string) {
    forall c :: c in s ==> IsWhitespace(c)
  }

  /** Trimming takes white space from both ends and nothing else, and leaves none there. */
  lemma TrimTakesTheEnds(s: string) returns (before: string, after: string)
    ensures s == before + Trim(s) + after && Blank(before) && Blank(after)
    ensures Trim(s) != "" ==> !IsWhitespace(Trim(s)[0]) && !IsWhitespace(Trim(s)[|Trim(s)| - 1])
  {
    before := StartTaken(s);
    after := EndTaken(TrimStart(s));
    if Trim(s) != "" {
      assert TrimStart(s)[0] == Trim(s)[0];
    }
  }

  lemma {:induction false} StartTaken(s: string) returns (before: string)
    ensures s == before + TrimStart(s) && Blank(before)
    ensures TrimStart(s) != "" ==> !IsWhitespace(TrimStart(s)[0])
  {
    before := "";
    if s != "" && IsWhitespace(s[0]) {
      var rest := StartTaken(s[1..]);
      before := [s[0]] + rest;
    }
  }

  lemma {:induction false} EndTaken(s: string) returns (after: string)
    ensures s == TrimEnd(s) + after && Blank(after)
    ensures TrimEnd(s) != "" ==> !IsWhitespace(TrimEnd(s)[|TrimEnd(s)| - 1])
  {
    after := "";
    if s != "" && IsWhitespace(s[|s| - 1]) {
      var rest := EndTaken(s[..|s| - 1]);
      after := rest + [s[|s| - 1]];
      assert s == s[..|s| - 1] + [s[|s| - 1]];
    }
  }

  /** A text between blanks trims to itself if white space does not end it. */
  lemma {:induction false} TrimBetween(before: string, s: string, after: string)
    requires Blank(before) && Blank(after) && s != "" && !IsWhitespace(s[0]) && !IsWhitespace(s[|s| - 1])
    ensures Trim(before + s + after) == s
  {
    TrimStartAfter(before, s + after);
    Associate(before, s, after);
    TrimEndBefore(s, after);
  }

  lemma {:induction false} TrimStartAfter(before: string, s: string)
    requires Blank(before) && s != "" && !IsWhitespace(s[0])
    ensures TrimStart(before + s) == s
  {
    if before == "" {
      assert before + s == s;
    } else {
      TailOfAppend(before, s);
      assert before[0] in before && forall c :: c in before[1..] ==> c in before;
      TrimStartAfter(before[1..], s);
    }
  }

  lemma {:induction false} TrimEndBefore(s: string, after: string)
    requires Blank(after) && s != "" && !IsWhitespace(s[|s| - 1])
    ensures TrimEnd(s + after) == s
  {
    if after == "" {
      assert s + after == s;
    } else {
      var init := after[..|after| - 1];
      assert after[|after| - 1] in after && forall c :: c in init ==> c in after;
      assert (s + after)[..|s + after| - 1] == s + init;
      TrimEndBefore(s, init);
    }
  }

  lemma {:induction false} BlankIsTrim(s: string)
    ensures Blank(s) <==> Trim(s) == ""
  {
    BlankStart(s);
    BlankEnd(TrimStart(s));
  }

  lemma {:induction false} BlankStart(s: string)
    ensures Blank(TrimStart(s)) <==> Blank(s)
  {
    if s != [] && IsWhitespace(s[0]) {
      BlankStart(s[1..]);
      assert s == [s[0]] + s[1..];
    }
  }

  lemma {:induction false} BlankEnd(s: string)
    ensures TrimEnd(s) == "" <==> Blank(s)
  {
    if s != [] && IsWhitespace(s[|s| - 1]) {
      BlankEnd(s[..|s| - 1]);
      assert s == s[..|s| - 1] + [s[|s| - 1]];
    }
  }

  /** `str::split`: at least one piece, none containing the separator. */
  function Split(s: string, separator: char): (r: seq<string>)
    ensures r != []
  {
    if s == "" then [""]
    else
      var rest := Split(s[1..], separator);
      if s[0] == separator then [""] + rest else [[s[0]] + rest[0]] + rest[1..]
  }

  function Join(pieces: seq<string>, separator: char): string {
    if pieces == [] then ""
    else if |pieces| == 1 then pieces[0]
    else pieces[0] + [separator] + Join(pieces[1..], separator)
  }

  lemma {:induction false} JoinSnoc(a: seq<string>, b: seq<string>, separator: char)
    requires a != []
    ensures b != [] ==> Join(a + b, separator) == Join(a, separator) + [separator] + Join(b, separator)
    ensures b == [] ==> Join(a + b, separator) == Join(a, separator)
  {
    if b == [] {
      assert a + b == a;
    } else if |a| == 1 {
      assert (a + b)[1..] == b;
    } else {
      JoinSnoc(a[1..], b, separator);
      assert (a + b)[1..] == a[1..] + b;
    }
  }

  lemma {:induction false} SplitPieces(s: string, separator: char)
    ensures Join(Split(s, separator), separator) == s
    ensures forall p :: p in Split(s, separator) ==> separator !in p
  {
    if s != "" {
      SplitPieces(s[1..], separator);
      var rest := Split(s[1..], separator);
      var r := Split(s, separator);
      if s[0] == separator {
        TailOfAppend([""], rest);
        assert Join(r, separator) == "" + [separator] + Join(rest, separator);
      } else {
        JoinLonger(s[0], rest, separator);
        assert separator !in [s[0]] + rest[0];
      }
    }
  }

  /** A character put before the first piece comes first. */
  lemma JoinLonger(c: char, pieces: seq<string>, separator: char)
    requires pieces != []
    ensures Join([[c] + pieces[0]] + pieces[1..], separator) == [c] + Join(pieces, separator)
  {
    var longer := [[c] + pieces[0]] + pieces[1..];
    TailOfAppend([[c] + pieces[0]], pieces[1..]);
    if |pieces| > 1 {
      var rest := Join(pieces[1..], separator);
      Associate([c], pieces[0] + [separator], rest);
      Associate([c], pieces[0], [separator]);
    }
  }

  lemma {:induction false} SplitPiece(p: string, separator: char, rest: string)
    requires separator !in p
    ensures Split(p, separator) == [p]
    ensures Split(p + [separator] + rest, separator) == [p] + Split(rest, separator)
  {
    if p == "" {
      assert (p + [separator] + rest)[1..] == rest;
    } else {
      SplitPiece(p[1..], separator, rest);
      assert (p + [separator] + rest)[1..] == p[1..] + [separator] + rest;
      assert p == [p[0]] + p[1..];
    }
  }

  lemma {:induction false} SplitJoin(pieces: seq<string>, separator: char)
    requires pieces != [] && forall p :: p in pieces ==> separator !in p
    ensures Split(Join(pieces, separator), separator) == pieces
  {
    if |pieces| == 1 {
      SplitPiece(pieces[0], separator, "");
      assert pieces == [pieces[0]];
    } else {
      SplitJoin(pieces[1..], separator);
      SplitPiece(pieces[0], separator, Join(pieces[1..], separator));
    }
  }
}
