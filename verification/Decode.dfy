/**
 A strict reader of canonical bytes: one spelling per character and number, keys in
 ascending order. What it accepts is exactly what the writer writes.
 */
module Decode {
  import opened Canonical
  import opened Text
  import opened Wrappers

  type Parsed<T> = Option<(T, seq<byte>)>

  /** Takes every leading digit, after the value `acc`. */
  function ReadNumber(acc: nat, b: seq<byte>): (r: (nat, seq<byte>))
    ensures |r.1| <= |b| && !StartsWithDigit(r.1)
    decreases b
  {
    if StartsWithDigit(b) then ReadNumber(acc * 10 + (b[0] as int - 48), b[1..]) else (acc, b)
  }

  /** A number has no leading zero. */
  function ReadUnsigned(b: seq<byte>): (r: Parsed<u64>)
    ensures r.Some? ==> |r.value.1| < |b|
  {
    if !StartsWithDigit(b) then None
    else if b[0] == 48 then
      if StartsWithDigit(b[1..]) then None else Some((0, b[1..]))
    else
      var number := ReadNumber(b[0] as int - 48, b[1..]);
      if number.0 < 0x1_0000_0000_0000_0000 then Some((number.0, number.1)) else None
  }

  /** The six bits of a continuation byte. */
  function Low(b: byte): int {
    b as int - 0x80
  }

  predicate Continues(b: byte) {
    0x80 <= b < 0xC0
  }

  /** One scalar value in its shortest form, section 3 of RFC 3629. */
  function ReadUtf8(b: seq<byte>): (r: Parsed<char>)
    requires b != []
    ensures r.Some? ==> |r.value.1| < |b|
  {
    var lead := b[0] as int;
    if lead < 0x80 then Some((lead as char, b[1..]))
    else if 0xC2 <= lead < 0xE0 && |b| >= 2 && Continues(b[1]) then
      Some((((lead - 0xC0) * 64 + Low(b[1])) as char, b[2..]))
    else if 0xE0 <= lead < 0xF0 && |b| >= 3 && Continues(b[1]) && Continues(b[2]) then
      var n := ((lead - 0xE0) * 64 + Low(b[1])) * 64 + Low(b[2]);
      if 0x800 <= n < 0xD800 || 0xE000 <= n then Some((n as char, b[3..])) else None
    else if 0xF0 <= lead < 0xF5 && |b| >= 4 && Continues(b[1]) && Continues(b[2]) && Continues(b[3]) then
      var n := (((lead - 0xF0) * 64 + Low(b[1])) * 64 + Low(b[2])) * 64 + Low(b[3]);
      if 0x1_0000 <= n < 0x11_0000 then Some((n as char, b[4..])) else None
    else None
  }

  /** A lower-case hexadecimal digit. */
  function HexValue(b: byte): (n: Option<nat>)
    ensures n.Some? ==> n.value < 16
  {
    if 48 <= b <= 57 then Some(b as int - 48) else if 97 <= b <= 102 then Some(b as int - 87) else None
  }

  /** The character a two-byte escape stands for. */
  function ReadShort(b: byte): Option<char> {
    match b
    case 34 => Some('"')
    case 92 => Some('\\')
    case 98 => Some('\U{8}')
    case 102 => Some('\U{C}')
    case 110 => Some('\n')
    case 114 => Some('\r')
    case 116 => Some('\t')
    case _ => None
  }

  /** One character: a short escape, `\u00xx` for a control without one, or its own bytes (section 7 of RFC 8259). */
  function ReadChar(b: seq<byte>): (r: Parsed<char>)
    requires b != []
    ensures r.Some? ==> |r.value.1| < |b|
  {
    if b[0] != BACKSLASH then
      if b[0] < 32 || b[0] == QUOTE then None else ReadUtf8(b)
    else if |b| < 2 then None
    else if b[1] != 117 then
      var short := ReadShort(b[1]);
      if short.Some? then Some((short.value, b[2..])) else None
    else if |b| < 6 || b[2] != 48 || b[3] != 48 then None
    else
      var high, low := HexValue(b[4]), HexValue(b[5]);
      if high.None? || low.None? then None
      else
        var n := high.value * 16 + low.value;
        if n < 32 && n !in {8, 9, 10, 12, 13} then Some((n as char, b[6..])) else None
  }

  /** Reads a string up to its closing quote. */
  function ReadString(b: seq<byte>): (r: Parsed<string>)
    ensures r.Some? ==> |r.value.1| < |b|
    decreases |b|
  {
    if b == [] then None
    else if b[0] == QUOTE then Some(("", b[1..]))
    else
      var head := ReadChar(b);
      if head.None? then None
      else
        var tail := ReadString(head.value.1);
        if tail.None? then None else Some(([head.value.0] + tail.value.0, tail.value.1))
  }

  const NULL_BYTES: seq<byte> := [110, 117, 108, 108]

  function ReadValue(b: seq<byte>): (r: Parsed<CanonicalValue>)
    ensures r.Some? ==> |r.value.1| < |b|
    decreases |b|, 0
  {
    if b == [] then None
    else if b[0] == 110 then
      if NULL_BYTES <= b then Some((Null, b[4..])) else None
    else if IsDigit(b[0]) then
      var number := ReadUnsigned(b);
      if number.None? then None else Some((Unsigned(number.value.0), number.value.1))
    else if b[0] == QUOTE then
      var text := ReadString(b[1..]);
      if text.None? then None else Some((CanonicalValue.Text(text.value.0), text.value.1))
    else if b[0] == OPEN_BRACKET then
      var elements := ReadElements(b[1..], 0);
      if elements.None? then None else Some((Array(elements.value.0), elements.value.1))
    else if b[0] == OPEN_BRACE then
      var entries := ReadEntries(b[1..], 0, None);
      if entries.None? then None else Some((Object(FieldsOf(entries.value.0)), entries.value.1))
    else None
  }

  /** Skips the comma that must precede every item but the first. */
  function SkipSeparator(b: seq<byte>, position: nat): (r: Option<seq<byte>>)
    ensures r.Some? ==> |r.value| <= |b|
  {
    if position == 0 then Some(b) else if b != [] && b[0] == COMMA then Some(b[1..]) else None
  }

  function ReadElements(b: seq<byte>, position: nat): (r: Parsed<seq<CanonicalValue>>)
    ensures r.Some? ==> |r.value.1| < |b|
    decreases |b|, 1
  {
    if b != [] && b[0] == CLOSE_BRACKET then Some(([], b[1..]))
    else
      var start := SkipSeparator(b, position);
      if start.None? then None
      else
        var head := ReadValue(start.value);
        if head.None? then None
        else
          var tail := ReadElements(head.value.1, position + 1);
          if tail.None? then None else Some(([head.value.0] + tail.value.0, tail.value.1))
  }

  predicate Follows(previous: Option<string>, key: string) {
    previous.Some? ==> Less(previous.value, key)
  }

  /** The entries up to the closing brace; a key that does not come after `previous` is refused. */
  function ReadEntries(b: seq<byte>, position: nat, previous: Option<string>): (r: Parsed<seq<Field>>)
    ensures r.Some? ==> |r.value.1| < |b|
    decreases |b|, 2
  {
    if b != [] && b[0] == CLOSE_BRACE then Some(([], b[1..]))
    else
      var start := SkipSeparator(b, position);
      if start.None? then None
      else
        var head := ReadEntry(start.value);
        if head.None? || !Follows(previous, head.value.0.0) then None
        else
          var tail := ReadEntries(head.value.1, position + 1, Some(head.value.0.0));
          if tail.None? then None else Some(([head.value.0] + tail.value.0, tail.value.1))
  }

  /** Reads one `"key":value`. */
  function ReadEntry(b: seq<byte>): (r: Parsed<Field>)
    ensures r.Some? ==> |r.value.1| < |b|
    decreases |b|, 1
  {
    if b == [] || b[0] != QUOTE then None
    else
      var key := ReadString(b[1..]);
      if key.None? || key.value.1 == [] || key.value.1[0] != COLON then None
      else
        var value := ReadValue(key.value.1[1..]);
        if value.None? then None else Some(((key.value.0, value.value.0), value.value.1))
  }

  // ----- the reader inverts the byte form -----

  lemma {:induction false} ReadNumberDecimal(n: nat, rest: seq<byte>)
    ensures ReadNumber(0, Utf8(Decimal(n)) + rest) == ReadNumber(n, rest)
    ensures StartsWithDigit(Utf8(Decimal(n)) + rest)
  {
    var last := ('0' as int + n % 10) as char;
    var tail := [last as int as byte] + rest;
    assert Utf8([last]) == [last as int as byte] by {
      assert [last][1..] == [];
    }
    assert tail[1..] == rest;
    if n < 10 {
      assert Utf8(Decimal(n)) + rest == tail;
    } else {
      ReadNumberDecimal(n / 10, tail);
      Utf8Append(Decimal(n / 10), [last]);
      assert Utf8(Decimal(n)) + rest == Utf8(Decimal(n / 10)) + tail;
    }
  }

  lemma ReadUtf8Char(c: char, rest: seq<byte>)
    ensures ReadUtf8(Utf8Char(c) + rest) == Some((c, rest))
  {
    var n := c as int;
    var b := Utf8Char(c) + rest;
    assert b[|Utf8Char(c)|..] == rest;
    assert Low(Trail(n)) == n % 64 && Low(Trail(n / 64)) == n / 64 % 64;
    assert Low(Trail(n / 64 / 64)) == n / 64 / 64 % 64;
    assert Continues(Trail(n)) && Continues(Trail(n / 64)) && Continues(Trail(n / 64 / 64));
  }

  lemma ReadEscaped(c: char, rest: seq<byte>)
    ensures ReadChar(Escaped(c) + rest) == Some((c, rest))
  {
    var b := Escaped(c) + rest;
    assert b[|Escaped(c)|..] == rest;
    var n := c as int;
    if c != '"' && c != '\\' && n >= 32 {
      ReadUtf8Char(c, rest);
    }
  }

  lemma {:induction false} ReadStringTail(text: string, rest: seq<byte>)
    ensures ReadString(StringTail(text) + rest) == Some((text, rest))
  {
    if text != "" {
      var after := StringTail(text[1..]) + rest;
      assert StringTail(text) + rest == Escaped(text[0]) + after;
      ReadEscaped(text[0], after);
      ReadStringTail(text[1..], rest);
      assert text == [text[0]] + text[1..];
    } else {
      assert ([QUOTE] + rest)[1..] == rest;
    }
  }

  /** No value starts like the end of its container. */
  lemma FirstByte(v: CanonicalValue)
    ensures Bytes(v) != [] && Bytes(v)[0] !in {CLOSE_BRACKET, CLOSE_BRACE, COMMA}
  {
    match v
    case Unsigned(number) => ReadNumberDecimal(number, []); assert Utf8(Decimal(number)) + [] == Utf8(Decimal(number));
    case _ =>
  }

  lemma SkipSeparated(position: nat, item: seq<byte>, after: seq<byte>)
    ensures SkipSeparator(Separated(position, item) + after, position) == Some(item + after)
  {
    if position > 0 {
      assert ([COMMA] + item + after)[1..] == item + after;
    }
  }

  /**
   The reader recovers any value, however nested, and leaves what follows it, unless
   the value is a number and what follows could extend it.
   */
  lemma {:induction false} RoundTrip(v: CanonicalValue, rest: seq<byte>)
    requires v.Unsigned? ==> !StartsWithDigit(rest)
    ensures ReadValue(Bytes(v) + rest) == Some((v, rest))
    decreases v, 3, 0
  {
    var b := Bytes(v) + rest;
    match v {
      case Null =>
        NullBytes();
        assert b[..4] == NULL_BYTES && b[4..] == rest;
      case Unsigned(number) => RoundTripNumber(number, rest);
      case Text(text) => RoundTripText(text, rest);
      case Array(_) => RoundTripArray(v, rest);
      case Object(_) => RoundTripObject(v, rest);
    }
  }

  lemma RoundTripNumber(number: u64, rest: seq<byte>)
    requires !StartsWithDigit(rest)
    ensures ReadValue(Bytes(Unsigned(number)) + rest) == Some((Unsigned(number), rest))
  {
    var b := Utf8(Decimal(number)) + rest;
    ReadNumberDecimal(number, rest);
    assert ReadNumber(0, b) == ReadNumber(b[0] as int - 48, b[1..]);
    LeadingDigit(number, rest);
  }

  /** Only zero is written with a leading zero. */
  lemma LeadingDigit(n: nat, rest: seq<byte>)
    ensures var b := Utf8(Decimal(n)) + rest;
            b != [] && b[0] as int == Decimal(n)[0] as int && (b[0] == 48 <==> n == 0) && (n == 0 ==> b[1..] == rest)
  {
    var digits := Decimal(n);
    assert digits[0] in digits;
    if n == 0 {
      assert digits == "0" && digits[1..] == "";
    }
  }

  lemma NullBytes()
    ensures Utf8("null") == NULL_BYTES
  {
    assert "null"[1..] == "ull" && "ull"[1..] == "ll" && "ll"[1..] == "l" && "l"[1..] == "";
  }

  lemma RoundTripText(text: string, rest: seq<byte>)
    ensures ReadValue(Bytes(Text(text)) + rest) == Some((Text(text), rest))
  {
    ReadStringTail(text, rest);
    Associate([QUOTE], StringTail(text), rest);
    ReadQuoted(StringTail(text) + rest, text, rest);
  }

  lemma ReadQuoted(tail: seq<byte>, text: string, rest: seq<byte>)
    requires ReadString(tail) == Some((text, rest))
    ensures ReadValue([QUOTE] + tail) == Some((Text(text), rest))
  {
    TailOfAppend([QUOTE], tail);
  }

  lemma {:induction false} RoundTripArray(v: CanonicalValue, rest: seq<byte>)
    requires v.Array?
    ensures ReadValue(Bytes(v) + rest) == Some((v, rest))
    decreases v, 2, 0
  {
    var inner := ElementsFrom(v, 0) + ([CLOSE_BRACKET] + rest);
    Enclosed(OPEN_BRACKET, ElementsFrom(v, 0), CLOSE_BRACKET, rest);
    ReadElementsFrom(v, 0, rest);
    assert v.elements[0..] == v.elements;
    assert ([OPEN_BRACKET] + inner)[1..] == inner;
  }

  lemma {:induction false} RoundTripObject(v: CanonicalValue, rest: seq<byte>)
    requires v.Object?
    ensures ReadValue(Bytes(v) + rest) == Some((v, rest))
    decreases v, 2, 0
  {
    RoundTripKeys(v, SortedKeys(v.entries.Keys), rest);
  }

  lemma {:induction false} RoundTripKeys(v: CanonicalValue, keys: seq<string>, rest: seq<byte>)
    requires v.Object? && Ascending(keys) && forall k :: k in keys <==> k in v.entries
    ensures ReadValue([OPEN_BRACE] + EntriesFrom(v, keys, 0) + [CLOSE_BRACE] + rest) == Some((v, rest))
    decreases v, 1, |keys| + 1
  {
    var inner := EntriesFrom(v, keys, 0) + ([CLOSE_BRACE] + rest);
    Enclosed(OPEN_BRACE, EntriesFrom(v, keys, 0), CLOSE_BRACE, rest);
    ReadEntriesFrom(v, keys, 0, None, rest);
    AllEntries(v, keys);
    ReadObject(inner, EntriesOf(v, keys, 0), rest);
  }

  lemma ReadObject(inner: seq<byte>, fields: seq<Field>, rest: seq<byte>)
    requires ReadEntries(inner, 0, None) == Some((fields, rest))
    ensures ReadValue([OPEN_BRACE] + inner) == Some((Object(FieldsOf(fields)), rest))
  {
    TailOfAppend([OPEN_BRACE], inner);
  }

  /** The entries of `v` under these keys, from `position` on. */
  ghost function EntriesOf(v: CanonicalValue, keys: seq<string>, position: nat): seq<Field>
    requires v.Object? && position <= |keys| && forall k :: k in keys ==> k in v.entries
  {
    seq(|keys| - position, i requires 0 <= i < |keys| - position => (keys[position + i], v.entries[keys[position + i]]))
  }

  lemma AllEntries(v: CanonicalValue, keys: seq<string>)
    requires v.Object? && (forall k :: k in keys <==> k in v.entries) && Ascending(keys)
    ensures FieldsOf(EntriesOf(v, keys, 0)) == v.entries
  {
    var fields := EntriesOf(v, keys, 0);
    AscendingIsDistinct(keys);
    FieldsOfKeys(fields);
    forall i | 0 <= i < |fields| ensures fields[i].0 in FieldsOf(fields) && FieldsOf(fields)[fields[i].0] == fields[i].1 {
      FieldsOfAt(fields, i);
    }
    forall k | k in v.entries ensures k in FieldsOf(fields) && FieldsOf(fields)[k] == v.entries[k] {
      var i :| 0 <= i < |keys| && keys[i] == k;
      assert fields[i] == (k, v.entries[k]);
    }
  }

  lemma {:induction false} FieldsOfKeys(fields: seq<Field>)
    ensures forall k :: k in FieldsOf(fields) ==> exists i :: 0 <= i < |fields| && fields[i].0 == k
  {
    if fields != [] {
      var init := fields[..|fields| - 1];
      FieldsOfKeys(init);
      forall k | k in FieldsOf(fields) ensures exists i :: 0 <= i < |fields| && fields[i].0 == k {
        if k != fields[|fields| - 1].0 {
          assert k in FieldsOf(init);
          var i :| 0 <= i < |init| && init[i].0 == k;
          assert fields[i].0 == k;
        }
      }
    }
  }

  lemma AscendingIsDistinct(keys: seq<string>)
    requires Ascending(keys)
    ensures forall i, j :: 0 <= i < j < |keys| ==> keys[i] != keys[j]
  {
    forall i, j | 0 <= i < j < |keys| ensures keys[i] != keys[j] {
      LessAsymmetric(keys[i], keys[j]);
    }
  }

  lemma {:induction false} ReadElementsFrom(v: CanonicalValue, position: nat, rest: seq<byte>)
    requires v.Array? && position <= |v.elements|
    ensures ReadElements(ElementsFrom(v, position) + ([CLOSE_BRACKET] + rest), position)
         == Some((v.elements[position..], rest))
    decreases v, 0, |v.elements| - position
  {
    var end := [CLOSE_BRACKET] + rest;
    if position == |v.elements| {
      assert ElementsFrom(v, position) + end == end && end[1..] == rest;
      assert v.elements[position..] == [];
    } else {
      var e := v.elements[position];
      var after := ElementsFrom(v, position + 1) + end;
      Associate(Separated(position, Bytes(e)), ElementsFrom(v, position + 1), end);
      FirstByte(e);
      SkipSeparated(position, Bytes(e), after);
      RoundTrip(e, after);
      ReadElementsFrom(v, position + 1, rest);
      assert v.elements[position..] == [e] + v.elements[position + 1..];
    }
  }

  lemma {:induction false} ReadEntriesFrom(v: CanonicalValue, keys: seq<string>, position: nat, previous: Option<string>, rest: seq<byte>)
    requires v.Object? && position <= |keys| && (forall k :: k in keys ==> k in v.entries) && Ascending(keys)
    requires previous == if position == 0 then None else Some(keys[position - 1])
    ensures ReadEntries(EntriesFrom(v, keys, position) + ([CLOSE_BRACE] + rest), position, previous)
         == Some((EntriesOf(v, keys, position), rest))
    decreases v, 1, |keys| - position
  {
    var end := [CLOSE_BRACE] + rest;
    if position == |keys| {
      assert EntriesFrom(v, keys, position) + end == end && end[1..] == rest;
      assert EntriesOf(v, keys, position) == [];
    } else {
      var key := keys[position];
      var after := EntriesFrom(v, keys, position + 1) + end;
      var b := Separated(position, EntryBytes(v, key)) + after;
      Associate(Separated(position, EntryBytes(v, key)), EntriesFrom(v, keys, position + 1), end);
      SkipSeparated(position, EntryBytes(v, key), after);
      ReadEntryBytes(v, key, after);
      ReadEntriesFrom(v, keys, position + 1, Some(key), rest);
      assert position > 0 ==> Less(keys[position - 1], key);
      ReadEntriesStep(b, position, previous, EntryBytes(v, key) + after, (key, v.entries[key]), after, EntriesOf(v, keys, position + 1), rest);
      EntriesOfNext(v, keys, position);
    }
  }

  lemma EntriesOfNext(v: CanonicalValue, keys: seq<string>, position: nat)
    requires v.Object? && position < |keys| && forall k :: k in keys ==> k in v.entries
    ensures EntriesOf(v, keys, position) == [(keys[position], v.entries[keys[position]])] + EntriesOf(v, keys, position + 1)
  {
  }

  lemma ReadEntriesStep(b: seq<byte>, position: nat, previous: Option<string>, start: seq<byte>, head: Field,
                        after: seq<byte>, tail: seq<Field>, rest: seq<byte>)
    requires b != [] && b[0] != CLOSE_BRACE && SkipSeparator(b, position) == Some(start)
    requires ReadEntry(start) == Some((head, after)) && Follows(previous, head.0)
    requires ReadEntries(after, position + 1, Some(head.0)) == Some((tail, rest))
    ensures ReadEntries(b, position, previous) == Some(([head] + tail, rest))
  {
  }

  lemma {:induction false} ReadEntryBytes(v: CanonicalValue, key: string, after: seq<byte>)
    requires v.Object? && key in v.entries && !StartsWithDigit(after)
    ensures ReadEntry(EntryBytes(v, key) + after) == Some(((key, v.entries[key]), after))
    decreases v, 0, 0
  {
    var value := Bytes(v.entries[key]) + after;
    RoundTrip(v.entries[key], after);
    ReadStringTail(key, [COLON] + value);
    Associate([COLON], Bytes(v.entries[key]), after);
    Associate(StringBytes(key), [COLON] + Bytes(v.entries[key]), after);
    Associate([QUOTE], StringTail(key), [COLON] + value);
    ReadEntryParts(StringTail(key) + ([COLON] + value), key, value, v.entries[key], after);
  }

  lemma ReadEntryParts(tail: seq<byte>, key: string, value: seq<byte>, v: CanonicalValue, after: seq<byte>)
    requires ReadString(tail) == Some((key, [COLON] + value)) && ReadValue(value) == Some((v, after))
    ensures ReadEntry([QUOTE] + tail) == Some(((key, v), after))
  {
    TailOfAppend([QUOTE], tail);
    TailOfAppend([COLON], value);
  }

  /** Two values with the same canonical bytes are the same value. */
  lemma Injective(v: CanonicalValue, w: CanonicalValue)
    requires Bytes(v) == Bytes(w)
    ensures v == w
  {
    RoundTrip(v, []);
    RoundTrip(w, []);
    assert Bytes(v) + [] == Bytes(v) && Bytes(w) + [] == Bytes(w);
  }

  // ----- and accepts nothing else -----

  lemma {:induction false} ReadNumberSound(acc: nat, b: seq<byte>)
    requires acc > 0
    ensures var r := ReadNumber(acc, b); r.0 >= acc && Utf8(Decimal(acc)) + b == Utf8(Decimal(r.0)) + r.1
    decreases b
  {
    if StartsWithDigit(b) {
      var digit := b[0] as int - 48;
      var next := acc * 10 + digit;
      assert next / 10 == acc && next % 10 == digit;
      var c := ('0' as int + digit) as char;
      assert Decimal(next) == Decimal(acc) + [c];
      Utf8Append(Decimal(acc), [c]);
      assert Utf8([c]) == [b[0]] by { assert [c][1..] == []; }
      ReadNumberSound(next, b[1..]);
      Associate(Utf8(Decimal(acc)), [b[0]], b[1..]);
      assert b == [b[0]] + b[1..];
    }
  }

  lemma ReadUnsignedSound(b: seq<byte>)
    requires ReadUnsigned(b).Some?
    ensures var r := ReadUnsigned(b).value; b == Utf8(Decimal(r.0)) + r.1
  {
    assert b == [b[0]] + b[1..];
    var digit := b[0] as int - 48;
    var c := ('0' as int + digit) as char;
    assert Decimal(digit) == [c];
    assert Utf8([c]) == [b[0]] by { assert [c][1..] == []; }
    if digit > 0 {
      ReadNumberSound(digit, b[1..]);
    }
  }

  /** What the low and high bits of a continued number are. */
  lemma SixBitParts(m: nat, low: nat)
    requires low < 64
    ensures (m * 64 + low) / 64 == m && (m * 64 + low) % 64 == low
  {
  }

  lemma ReadTwoSound(b: seq<byte>)
    requires |b| >= 2 && 0xC2 <= b[0] < 0xE0 && ReadUtf8(b).Some?
    ensures var r := ReadUtf8(b).value; b == Utf8Char(r.0) + r.1
  {
    SixBitParts(b[0] as int - 0xC0, Low(b[1]));
    assert b == [b[0], b[1]] + b[2..];
  }

  lemma ReadThreeSound(b: seq<byte>)
    requires |b| >= 3 && 0xE0 <= b[0] < 0xF0 && ReadUtf8(b).Some?
    ensures var r := ReadUtf8(b).value; b == Utf8Char(r.0) + r.1
  {
    var m := (b[0] as int - 0xE0) * 64 + Low(b[1]);
    SixBitParts(b[0] as int - 0xE0, Low(b[1]));
    SixBitParts(m, Low(b[2]));
    assert b == [b[0], b[1], b[2]] + b[3..];
  }

  lemma ReadFourSound(b: seq<byte>)
    requires |b| >= 4 && 0xF0 <= b[0] && ReadUtf8(b).Some?
    ensures var r := ReadUtf8(b).value; b == Utf8Char(r.0) + r.1
  {
    var k := (b[0] as int - 0xF0) * 64 + Low(b[1]);
    var m := k * 64 + Low(b[2]);
    SixBitParts(b[0] as int - 0xF0, Low(b[1]));
    SixBitParts(k, Low(b[2]));
    SixBitParts(m, Low(b[3]));
    assert b == [b[0], b[1], b[2], b[3]] + b[4..];
  }

  lemma ReadUtf8Sound(b: seq<byte>)
    requires b != [] && ReadUtf8(b).Some?
    ensures var r := ReadUtf8(b).value; b == Utf8Char(r.0) + r.1
  {
    if b[0] < 0x80 {
      assert b == [b[0]] + b[1..];
    } else if b[0] < 0xE0 {
      ReadTwoSound(b);
    } else if b[0] < 0xF0 {
      ReadThreeSound(b);
    } else {
      ReadFourSound(b);
    }
  }

  lemma ReadCharSound(b: seq<byte>)
    requires b != [] && ReadChar(b).Some?
    ensures var r := ReadChar(b).value; b == Escaped(r.0) + r.1
  {
    if b[0] != BACKSLASH {
      ReadUtf8Sound(b);
      PlainChar(b);
    } else if b[1] != 117 {
      assert b == [b[0], b[1]] + b[2..];
    } else {
      var high, low := HexValue(b[4]).value, HexValue(b[5]).value;
      assert (high * 16 + low) / 16 == high && (high * 16 + low) % 16 == low;
      assert HexDigit(high) == b[4] && HexDigit(low) == b[5];
      assert b == [b[0], b[1], b[2], b[3], b[4], b[5]] + b[6..];
    }
  }

  /** A character that does not start with a quote, a backslash or a control byte is written as itself. */
  lemma PlainChar(b: seq<byte>)
    requires b != [] && b[0] != BACKSLASH && b[0] != QUOTE && b[0] >= 32 && ReadUtf8(b).Some?
    ensures Escaped(ReadUtf8(b).value.0) == Utf8Char(ReadUtf8(b).value.0)
  {
    var n := ReadUtf8(b).value.0 as int;
    assert n == b[0] as int || n >= 0x80;
  }

  lemma {:induction false} ReadStringSound(b: seq<byte>)
    requires ReadString(b).Some?
    ensures var r := ReadString(b).value; b == StringTail(r.0) + r.1
    decreases |b|
  {
    if b[0] == QUOTE {
      assert b == [QUOTE] + b[1..];
    } else {
      var head := ReadChar(b).value;
      ReadCharSound(b);
      ReadStringSound(head.1);
      var tail := ReadString(head.1).value;
      Associate(Escaped(head.0), StringTail(tail.0), tail.1);
      assert ([head.0] + tail.0)[1..] == tail.0;
    }
  }

  /** Whatever the reader accepts is the canonical bytes of what it returns. */
  lemma {:induction false} ReadValueSound(b: seq<byte>)
    requires ReadValue(b).Some?
    ensures var r := ReadValue(b).value; b == Bytes(r.0) + r.1
    decreases |b|, 0
  {
    assert b == [b[0]] + b[1..];
    if b[0] == 110 {
      NullBytes();
      assert b == NULL_BYTES + b[4..];
    } else if IsDigit(b[0]) {
      ReadUnsignedSound(b);
    } else if b[0] == QUOTE {
      ReadStringSound(b[1..]);
      var r := ReadString(b[1..]).value;
      Associate([QUOTE], StringTail(r.0), r.1);
    } else if b[0] == OPEN_BRACKET {
      var v := Array(ReadElements(b[1..], 0).value.0);
      assert v.elements[0..] == v.elements;
      ReadElementsSound(b[1..], 0, v);
      Enclosed(OPEN_BRACKET, ElementsFrom(v, 0), CLOSE_BRACKET, ReadElements(b[1..], 0).value.1);
    } else {
      var fields := ReadEntries(b[1..], 0, None).value.0;
      ReadEntriesAscend(b[1..], 0, None);
      ReadObjectKeys(fields);
      assert fields[0..] == fields;
      ReadEntriesSound(b[1..], 0, None, Object(FieldsOf(fields)), fields);
      ObjectSound(b, fields, ReadEntries(b[1..], 0, None).value.1);
    }
  }

  lemma ObjectSound(b: seq<byte>, fields: seq<Field>, rest: seq<byte>)
    requires SortedKeys(FieldsOf(fields).Keys) == Names(fields) && Holds(FieldsOf(fields), fields)
    requires b == [OPEN_BRACE] + (EntriesFrom(Object(FieldsOf(fields)), Names(fields), 0) + ([CLOSE_BRACE] + rest))
    ensures b == Bytes(Object(FieldsOf(fields))) + rest
  {
    Enclosed(OPEN_BRACE, EntriesFrom(Object(FieldsOf(fields)), Names(fields), 0), CLOSE_BRACE, rest);
  }

  lemma Enclosed(open: byte, body: seq<byte>, close: byte, rest: seq<byte>)
    ensures [open] + (body + ([close] + rest)) == [open] + body + [close] + rest
  {
  }

  lemma {:induction false} ReadElementsSound(b: seq<byte>, position: nat, v: CanonicalValue)
    requires ReadElements(b, position).Some? && v.Array? && position <= |v.elements|
    requires v.elements[position..] == ReadElements(b, position).value.0
    ensures b == ElementsFrom(v, position) + ([CLOSE_BRACKET] + ReadElements(b, position).value.1)
    decreases |b|, 1
  {
    var r := ReadElements(b, position).value;
    if b != [] && b[0] == CLOSE_BRACKET {
      assert b == [CLOSE_BRACKET] + b[1..];
      assert [] + b == b;
    } else {
      var start := SkipSeparator(b, position).value;
      var head := ReadValue(start).value;
      var tail := ReadElements(head.1, position + 1).value;
      assert v.elements[position] == r.0[0] == head.0;
      assert v.elements[position + 1..] == r.0[1..] == tail.0;
      ReadValueSound(start);
      ReadElementsSound(head.1, position + 1, v);
      SeparatorSound(b, position, Bytes(head.0), head.1);
      Associate(Separated(position, Bytes(head.0)), ElementsFrom(v, position + 1), [CLOSE_BRACKET] + r.1);
    }
  }

  lemma SeparatorSound(b: seq<byte>, position: nat, item: seq<byte>, after: seq<byte>)
    requires SkipSeparator(b, position) == Some(item + after)
    ensures b == Separated(position, item) + after
  {
    if position > 0 {
      assert b == [COMMA] + b[1..];
      Associate([COMMA], item, after);
    }
  }

  function Names(fields: seq<Field>): (r: seq<string>)
    ensures |r| == |fields| && forall i :: 0 <= i < |r| ==> r[i] == fields[i].0
  {
    seq(|fields|, i requires 0 <= i < |fields| => fields[i].0)
  }

  /** The names of the entries read stand in strictly ascending order. */
  lemma {:induction false} ReadEntriesAscend(b: seq<byte>, position: nat, previous: Option<string>)
    requires ReadEntries(b, position, previous).Some?
    ensures var names := Names(ReadEntries(b, position, previous).value.0);
            Ascending(names) && forall k :: k in names ==> Follows(previous, k)
    decreases |b|
  {
    if !(b != [] && b[0] == CLOSE_BRACE) {
      var start := SkipSeparator(b, position).value;
      var head := ReadEntry(start).value;
      var tail := ReadEntries(head.1, position + 1, Some(head.0.0)).value.0;
      ReadEntriesAscend(head.1, position + 1, Some(head.0.0));
      assert Names([head.0] + tail) == [head.0.0] + Names(tail);
      AscendingCons(previous, head.0.0, Names(tail));
    }
  }

  lemma AscendingCons(previous: Option<string>, first: string, rest: seq<string>)
    requires Ascending(rest) && Follows(previous, first) && forall k :: k in rest ==> Less(first, k)
    ensures Ascending([first] + rest) && forall k :: k in [first] + rest ==> Follows(previous, k)
  {
    forall k | k in [first] + rest ensures Follows(previous, k) {
      if k != first && previous.Some? {
        LessTransitive(previous.value, first, k);
      }
    }
  }

  /** An ascending sequence is the only one with its members. */
  lemma {:induction false} AscendingIsUnique(a: seq<string>, b: seq<string>)
    requires Ascending(a) && Ascending(b) && forall k :: k in a <==> k in b
    ensures a == b
  {
    if a != [] || b != [] {
      var k := (a + b)[0];
      assert k in a && k in b;
      assert a[0] in b && b[0] in a;
      var j :| 0 <= j < |b| && b[j] == a[0];
      var i :| 0 <= i < |a| && a[i] == b[0];
      if i > 0 && j > 0 {
        LessAsymmetric(a[0], b[0]);
      }
      AscendingIsDistinct(a);
      AscendingIsDistinct(b);
      SameTails(a, b);
      AscendingIsUnique(a[1..], b[1..]);
      assert a == [a[0]] + a[1..] && b == [b[0]] + b[1..];
    }
  }

  lemma SameTails(a: seq<string>, b: seq<string>)
    requires a != [] && b != [] && a[0] == b[0] && forall k :: k in a <==> k in b
    requires forall i, j :: 0 <= i < j < |a| ==> a[i] != a[j]
    requires forall i, j :: 0 <= i < j < |b| ==> b[i] != b[j]
    ensures forall k :: k in a[1..] <==> k in b[1..]
  {
    TailMember(a, b);
    TailMember(b, a);
  }

  lemma TailMember(a: seq<string>, b: seq<string>)
    requires a != [] && b != [] && a[0] == b[0] && forall k :: k in a ==> k in b
    requires forall i, j :: 0 <= i < j < |a| ==> a[i] != a[j]
    ensures forall k :: k in a[1..] ==> k in b[1..]
  {
    forall k | k in a[1..] ensures k in b[1..] {
      var i :| 0 <= i < |a| - 1 && a[1..][i] == k;
      assert a[i + 1] == k && k in b;
      var j :| 0 <= j < |b| && b[j] == k;
      assert j > 0 && b[1..][j - 1] == k;
    }
  }

  /** Every field is in the map its list leaves, when names are not repeated. */
  ghost predicate Holds(entries: map<string, CanonicalValue>, fields: seq<Field>) {
    forall i :: 0 <= i < |fields| ==> fields[i].0 in entries && entries[fields[i].0] == fields[i].1
  }

  lemma FieldsHold(fields: seq<Field>)
    requires Ascending(Names(fields))
    ensures Holds(FieldsOf(fields), fields)
  {
    AscendingIsDistinct(Names(fields));
    assert DistinctNames(fields) by {
      forall i, j | 0 <= i < j < |fields| ensures fields[i].0 != fields[j].0 {
        assert Names(fields)[i] != Names(fields)[j];
      }
    }
    forall i | 0 <= i < |fields| ensures fields[i].0 in FieldsOf(fields) && FieldsOf(fields)[fields[i].0] == fields[i].1 {
      FieldsOfAt(fields, i);
    }
  }

  lemma ReadObjectKeys(fields: seq<Field>)
    requires Ascending(Names(fields))
    ensures SortedKeys(FieldsOf(fields).Keys) == Names(fields) && Holds(FieldsOf(fields), fields)
  {
    FieldsHold(fields);
    NamesAreKeys(fields);
    SortedIsAscending(FieldsOf(fields).Keys, Names(fields));
  }

  lemma SortedIsAscending(keys: set<string>, names: seq<string>)
    requires Ascending(names) && forall k :: k in names <==> k in keys
    ensures SortedKeys(keys) == names
  {
    AscendingIsUnique(SortedKeys(keys), names);
  }

  lemma NamesAreKeys(fields: seq<Field>)
    requires Holds(FieldsOf(fields), fields)
    ensures forall k :: k in Names(fields) <==> k in FieldsOf(fields)
  {
    FieldsOfKeys(fields);
    forall k | k in FieldsOf(fields) ensures k in Names(fields) {
      var i :| 0 <= i < |fields| && fields[i].0 == k;
      assert Names(fields)[i] == k;
    }
  }

  lemma {:induction false} ReadEntriesSound(b: seq<byte>, position: nat, previous: Option<string>, v: CanonicalValue, all: seq<Field>)
    requires ReadEntries(b, position, previous).Some? && v.Object? && position <= |all|
    requires all[position..] == ReadEntries(b, position, previous).value.0
    requires Holds(v.entries, all)
    ensures b == EntriesFrom(v, Names(all), position) + ([CLOSE_BRACE] + ReadEntries(b, position, previous).value.1)
    decreases |b|, 2
  {
    var r := ReadEntries(b, position, previous).value;
    if b != [] && b[0] == CLOSE_BRACE {
      assert b == [CLOSE_BRACE] + b[1..];
      assert [] + b == b;
    } else {
      var start := SkipSeparator(b, position).value;
      var head := ReadEntry(start).value;
      var tail := ReadEntries(head.1, position + 1, Some(head.0.0)).value;
      assert all[position] == r.0[0] == head.0;
      assert all[position + 1..] == r.0[1..] == tail.0;
      ReadEntrySound(start, v);
      ReadEntriesSound(head.1, position + 1, Some(head.0.0), v, all);
      SeparatorSound(b, position, EntryBytes(v, head.0.0), head.1);
      Associate(Separated(position, EntryBytes(v, head.0.0)), EntriesFrom(v, Names(all), position + 1), [CLOSE_BRACE] + r.1);
    }
  }

  lemma {:induction false} ReadEntrySound(b: seq<byte>, v: CanonicalValue)
    requires ReadEntry(b).Some? && v.Object?
    requires var f := ReadEntry(b).value.0; f.0 in v.entries && v.entries[f.0] == f.1
    ensures var r := ReadEntry(b).value; b == EntryBytes(v, r.0.0) + r.1
    decreases |b|, 1
  {
    var key := ReadString(b[1..]).value;
    var value := ReadValue(key.1[1..]).value;
    ReadStringSound(b[1..]);
    ReadValueSound(key.1[1..]);
    assert b == [QUOTE] + b[1..] && key.1 == [COLON] + key.1[1..];
    EntryParts(StringTail(key.0), Bytes(value.0), value.1);
  }

  lemma EntryParts(tail: seq<byte>, value: seq<byte>, rest: seq<byte>)
    ensures [QUOTE] + (tail + ([COLON] + (value + rest))) == [QUOTE] + tail + ([COLON] + value) + rest
  {
  }

  /**
   The form is canonical: the strict reader takes bytes to a value exactly when they are that
   value's bytes, so no other spelling, escape, digit or key order of it exists.
   */
  lemma Canonicity(b: seq<byte>, v: CanonicalValue)
    ensures ReadValue(b) == Some((v, [])) <==> b == Bytes(v)
  {
    if ReadValue(b) == Some((v, [])) {
      ReadValueSound(b);
      assert Bytes(v) + [] == Bytes(v);
    }
    RoundTrip(v, []);
    assert Bytes(v) + [] == Bytes(v);
  }
}
