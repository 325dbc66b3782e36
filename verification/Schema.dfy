/** Declared document versions: how they are spelled and which ones a build reads. */
module Schema {
  import opened Text
  import opened Wrappers

  type u16 = n: nat | n < 0x1_0000

  datatype SchemaVersion = SchemaVersion(major: u16, minor: u16)

  datatype SchemaVersionError =
    | Malformed(value: string)
    | UnsupportedMajor(declared: SchemaVersion, supported: SchemaVersion)
    | UnsupportedMinor(declared: SchemaVersion, supported: SchemaVersion)

  function Spelling(v: SchemaVersion): string {
    Decimal(v.major) + "." + Decimal(v.minor)
  }

  /** A component in decimal, with no sign and no leading zero, below 65536. */
  function ParseComponent(value: string): Option<u16> {
    if value == "" || (|value| > 1 && value[0] == '0') then None
    else
      var n := ReadDigits(0, value);
      if 0 <= n < 0x1_0000 then Some(n) else None
  }

  function IndexOf(s: string, c: char): (i: nat)
    ensures i <= |s| && c !in s[..i] && (i < |s| ==> s[i] == c)
  {
    if s == "" || s[0] == c then 0
    else
      var i := IndexOf(s[1..], c);
      assert s[..i + 1] == [s[0]] + s[1..][..i];
      i + 1
  }

  function ParseVersion(value: string): Result<SchemaVersion, SchemaVersionError> {
    var dot := IndexOf(value, '.');
    if dot == |value| then Failure(Malformed(value))
    else
      var major, minor := ParseComponent(value[..dot]), ParseComponent(value[dot + 1..]);
      if major.None? || minor.None? then Failure(Malformed(value))
      else Success(SchemaVersion(major.value, minor.value))
  }

  /** Another major is refused, a newer minor is refused, an older minor is read. */
  function AcceptedBy(v: SchemaVersion, supported: SchemaVersion): Result<SchemaVersion, SchemaVersionError> {
    if v.major != supported.major then Failure(UnsupportedMajor(v, supported))
    else if v.minor > supported.minor then Failure(UnsupportedMinor(v, supported))
    else Success(v)
  }

  /** `parse()` and then `accepted_by()`. */
  function ReadVersion(value: string, supported: SchemaVersion): Result<SchemaVersion, SchemaVersionError> {
    var v := ParseVersion(value);
    if v.Failure? then v else AcceptedBy(v.value, supported)
  }

  function SchemaUri(stem: string, major: u16): string {
    "https://schemas.study-tts.example/" + stem + "-v" + Decimal(major) + ".schema.json"
  }

  lemma {:induction false} ReadDigitsSnoc(acc: nat, s: string, c: char)
    requires ReadDigits(acc, s) >= 0 && '0' <= c <= '9'
    ensures ReadDigits(acc, s + [c]) == ReadDigits(acc, s) * 10 + (c as int - '0' as int)
    decreases s
  {
    if s != "" {
      ReadDigitsSnoc(acc * 10 + (s[0] as int - '0' as int), s[1..], c);
      assert (s + [c])[1..] == s[1..] + [c];
    } else {
      assert ([c])[1..] == "";
    }
  }

  lemma {:induction false} ReadDigitsPrefix(acc: nat, s: string)
    requires s != "" && ReadDigits(acc, s) >= 0
    ensures '0' <= s[|s| - 1] <= '9' && ReadDigits(acc, s[..|s| - 1]) >= 0
    decreases s
  {
    if |s| > 1 {
      ReadDigitsPrefix(acc * 10 + (s[0] as int - '0' as int), s[1..]);
      assert s[..|s| - 1][1..] == s[1..][..|s| - 2];
    }
  }

  /** A digit string without a leading zero is the decimal form of the number it spells. */
  lemma {:induction false} DecimalOfDigits(s: string)
    requires s != "" && (|s| > 1 ==> s[0] != '0') && ReadDigits(0, s) >= 0
    ensures Decimal(ReadDigits(0, s)) == s
    ensures |s| > 1 ==> ReadDigits(0, s) >= 10
  {
    ReadDigitsPrefix(0, s);
    var init, last := s[..|s| - 1], s[|s| - 1];
    assert s == init + [last];
    ReadDigitsSnoc(0, init, last);
    if init != "" {
      DecimalOfDigits(init);
      if |init| == 1 {
        assert init[1..] == "";
        assert ReadDigits(0, init) == init[0] as int - '0' as int;
      }
    }
  }

  lemma {:induction false} IndexAfter(s: string, c: char, rest: string)
    requires c !in s
    ensures IndexOf(s + [c] + rest, c) == |s|
  {
    if s != "" {
      IndexAfter(s[1..], c, rest);
      assert (s + [c] + rest)[1..] == s[1..] + [c] + rest;
    }
  }

  lemma ParsedIsSpelling(value: string, v: SchemaVersion)
    requires ParseVersion(value) == Success(v)
    ensures value == Spelling(v)
  {
    var dot := IndexOf(value, '.');
    DecimalOfDigits(value[..dot]);
    DecimalOfDigits(value[dot + 1..]);
    assert value == value[..dot] + "." + value[dot + 1..];
  }

  lemma ComponentParses(n: u16)
    ensures ParseComponent(Decimal(n)) == Some(n)
  {
    ReadDecimal(n, "");
    assert Decimal(n) + "" == Decimal(n);
  }

  lemma SpellingParses(v: SchemaVersion)
    ensures ParseVersion(Spelling(v)) == Success(v)
  {
    var major, minor := Decimal(v.major), Decimal(v.minor);
    IndexAfter(major, '.', minor);
    assert Spelling(v)[..|major|] == major && Spelling(v)[|major|] == '.' && Spelling(v)[|major| + 1..] == minor;
    ComponentParses(v.major);
    ComponentParses(v.minor);
  }

  /** A version has exactly one accepted spelling. */
  lemma OneSpelling(value: string, v: SchemaVersion)
    ensures ParseVersion(value) == Success(v) <==> value == Spelling(v)
  {
    if ParseVersion(value) == Success(v) {
      ParsedIsSpelling(value, v);
    }
    SpellingParses(v);
  }

  /** A supported version reads itself and every older minor, each in its one spelling, and nothing else. */
  lemma ReadsOlderMinors(value: string, supported: SchemaVersion)
    ensures ReadVersion(value, supported).Success? <==>
              exists minor: u16 :: minor <= supported.minor && value == Decimal(supported.major) + "." + Decimal(minor)
    ensures ReadVersion(value, supported).Success? ==> value == Spelling(ReadVersion(value, supported).value)
  {
    if ReadVersion(value, supported).Success? {
      var v := ParseVersion(value).value;
      OneSpelling(value, v);
      assert v.minor <= supported.minor && value == Decimal(supported.major) + "." + Decimal(v.minor);
    }
    forall minor: u16 | minor <= supported.minor && value == Decimal(supported.major) + "." + Decimal(minor)
      ensures ReadVersion(value, supported).Success?
    {
      SpellingParses(SchemaVersion(supported.major, minor));
    }
  }

  /** A readable version of the wrong kind is refused for its major before its minor. */
  lemma RefusedVersions(v: SchemaVersion, supported: SchemaVersion)
    ensures v.major != supported.major ==> ReadVersion(Spelling(v), supported) == Failure(UnsupportedMajor(v, supported))
    ensures v.major == supported.major && v.minor > supported.minor ==>
              ReadVersion(Spelling(v), supported) == Failure(UnsupportedMinor(v, supported))
  {
    SpellingParses(v);
  }

  /** The link of a schema, as its documentation spells one. */
  lemma LessonSchemaUri()
    ensures SchemaUri("lesson", 1) == "https://schemas.study-tts.example/lesson-v1.schema.json"
  {
    assert Decimal(1) == "1";
  }
}
