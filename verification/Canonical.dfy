/**
 The canonical byte form that every structured identity hashes, and the writer that
 appends it to a buffer.
 */
module Canonical {
  import opened Text
  import opened Wrappers

  type u64 = n: nat | n < 0x1_0000_0000_0000_0000

  /** A value of the identity format; an object's entries are iterated in key order. */
  datatype CanonicalValue =
    | Null
    | Unsigned(number: u64)
    | Text(text: string)
    | Array(elements: seq<CanonicalValue>)
    | Object(entries: map<string, CanonicalValue>)

  const QUOTE: byte := 34
  const COMMA: byte := 44
  const COLON: byte := 58
  const OPEN_BRACKET: byte := 91
  const BACKSLASH: byte := 92
  const CLOSE_BRACKET: byte := 93
  const OPEN_BRACE: byte := 123
  const CLOSE_BRACE: byte := 125

  predicate IsDigit(b: byte) {
    48 <= b <= 57
  }

  predicate StartsWithDigit(b: seq<byte>) {
    b != [] && IsDigit(b[0])
  }

  // ----- objects built from named fields -----

  type Field = (string, CanonicalValue)

  ghost predicate DistinctNames(fields: seq<Field>) {
    forall i, j :: 0 <= i < j < |fields| ==> fields[i].0 != fields[j].0
  }

  /** The map that inserting `fields` in order leaves. */
  function FieldsOf(fields: seq<Field>): map<string, CanonicalValue> {
    if fields == [] then map[]
    else FieldsOf(fields[..|fields| - 1])[fields[|fields| - 1].0 := fields[|fields| - 1].1]
  }

  /**
   Builds an object. A name written twice is a programming error: it stops the build, named
   here as a refusal, rather than letting the second value displace the first.
   */
  method BuildObject(fields: seq<Field>) returns (r: Result<CanonicalValue, string>)
    ensures r.Success? <==> DistinctNames(fields)
    ensures r.Success? ==> r.value == Object(FieldsOf(fields))
    ensures r.Failure? ==>
      exists i, j :: 0 <= i < j < |fields| && fields[i].0 == fields[j].0 == r.error && DistinctNames(fields[..j])
  {
    var entries: map<string, CanonicalValue> := map[];
    for n := 0 to |fields|
      invariant entries == FieldsOf(fields[..n])
      invariant forall k :: k in entries <==> exists i :: 0 <= i < n && fields[i].0 == k
      invariant DistinctNames(fields[..n])
    {
      var (name, value) := fields[n];
      if name in entries {
        return Failure(name);
      }
      assert fields[..n + 1][..n] == fields[..n];
      entries := entries[name := value];
    }
    assert fields[..|fields|] == fields;
    return Success(Object(entries));
  }

  lemma {:induction false} FieldsOfAt(fields: seq<Field>, i: nat)
    requires DistinctNames(fields) && i < |fields|
    ensures fields[i].0 in FieldsOf(fields) && FieldsOf(fields)[fields[i].0] == fields[i].1
  {
    if i < |fields| - 1 {
      FieldsOfAt(fields[..|fields| - 1], i);
    }
  }

  /** With the same distinct names in the same places, equal objects have equal fields. */
  lemma FieldsInjective(a: seq<Field>, b: seq<Field>)
    requires DistinctNames(a) && |a| == |b| && forall i :: 0 <= i < |a| ==> a[i].0 == b[i].0
    requires FieldsOf(a) == FieldsOf(b)
    ensures a == b
  {
    forall i | 0 <= i < |a| ensures a[i] == b[i] {
      FieldsOfAt(a, i);
      FieldsOfAt(b, i);
    }
  }

  // ----- the byte form -----

  function HexDigit(n: nat): byte
    requires n < 16
  {
    (if n < 10 then 48 + n else 87 + n) as byte
  }

  /** One character of a JSON string: short escapes, `\u00xx` for other controls, UTF-8 otherwise. */
  function Escaped(c: char): (b: seq<byte>)
    ensures b != [] && b[0] != QUOTE
  {
    var n := c as int;
    if c == '"' then [BACKSLASH, 34]
    else if c == '\\' then [BACKSLASH, 92]
    else if n == 8 then [BACKSLASH, 98]
    else if n == 12 then [BACKSLASH, 102]
    else if n == 10 then [BACKSLASH, 110]
    else if n == 13 then [BACKSLASH, 114]
    else if n == 9 then [BACKSLASH, 116]
    else if n < 32 then [BACKSLASH, 117, 48, 48, HexDigit(n / 16), HexDigit(n % 16)]
    else Utf8Char(c)
  }

  /** What the writer appends for `text` after its opening quote. */
  function StringTail(text: string): seq<byte> {
    if text == [] then [QUOTE] else Escaped(text[0]) + StringTail(text[1..])
  }

  function StringBytes(text: string): seq<byte> {
    [QUOTE] + StringTail(text)
  }

  /** The canonical bytes of a value. */
  function Bytes(v: CanonicalValue): seq<byte>
    decreases v, 5
  {
    match v
    case Null => Utf8("null")
    case Unsigned(number) => Utf8(Decimal(number))
    case Text(text) => StringBytes(text)
    case Array(_) => [OPEN_BRACKET] + ElementsFrom(v, 0) + [CLOSE_BRACKET]
    case Object(entries) => [OPEN_BRACE] + EntriesFrom(v, SortedKeys(entries.Keys), 0) + [CLOSE_BRACE]
  }

  /** The comma, if any, and then the item. */
  function Separated(position: nat, item: seq<byte>): seq<byte> {
    if position > 0 then [COMMA] + item else item
  }

  function ElementsFrom(v: CanonicalValue, position: nat): seq<byte>
    requires v.Array? && position <= |v.elements|
    decreases v, 4, |v.elements| - position
  {
    if position == |v.elements| then []
    else Separated(position, Bytes(v.elements[position])) + ElementsFrom(v, position + 1)
  }

  /** One `"key":value` entry. */
  function EntryBytes(v: CanonicalValue, key: string): seq<byte>
    requires v.Object? && key in v.entries
    decreases v, 3
  {
    StringBytes(key) + ([COLON] + Bytes(v.entries[key]))
  }

  function EntriesFrom(v: CanonicalValue, keys: seq<string>, position: nat): seq<byte>
    requires v.Object? && position <= |keys| && forall k :: k in keys ==> k in v.entries
    decreases v, 4, |keys| - position
  {
    if position == |keys| then []
    else Separated(position, EntryBytes(v, keys[position])) + EntriesFrom(v, keys, position + 1)
  }

  // ----- the writer -----

  /** `Vec<u8>`. */
  class ByteBuffer {
    var bytes: seq<byte>

    constructor ()
      ensures bytes == []
    {
      bytes := [];
    }

    method Extend(more: seq<byte>)
      modifies this
      ensures bytes == old(bytes) + more
    {
      bytes := bytes + more;
    }
  }

  method WriteJsonString(text: string, out: ByteBuffer)
    modifies out
    ensures out.bytes == old(out.bytes) + StringBytes(text)
  {
    out.Extend([QUOTE]);
    for i := 0 to |text|
      invariant out.bytes + StringTail(text[i..]) == old(out.bytes) + StringBytes(text)
    {
      assert text[i..][0] == text[i] && text[i..][1..] == text[i + 1..];
      Associate(out.bytes, Escaped(text[i]), StringTail(text[i + 1..]));
      out.Extend(Escaped(text[i]));
    }
    out.Extend([QUOTE]);
  }

  method WriteValue(v: CanonicalValue, out: ByteBuffer)
    modifies out
    ensures out.bytes == old(out.bytes) + Bytes(v)
    decreases v, 2
  {
    match v {
      case Null => out.Extend(Utf8("null"));
      case Unsigned(number) => out.Extend(Utf8(Decimal(number)));
      case Text(text) => WriteJsonString(text, out);
      case Array(_) => WriteArray(v, out);
      case Object(_) => WriteObject(v, out);
    }
  }

  /** The array arm of `WriteValue`. */
  method WriteArray(v: CanonicalValue, out: ByteBuffer)
    requires v.Array?
    modifies out
    ensures out.bytes == old(out.bytes) + Bytes(v)
    decreases v, 1
  {
    out.Extend([OPEN_BRACKET]);
    ghost var start := out.bytes;
    ghost var all := ElementsFrom(v, 0);
    for position := 0 to |v.elements|
      invariant out.bytes + ElementsFrom(v, position) == start + all
    {
      Associate(out.bytes, Separated(position, Bytes(v.elements[position])), ElementsFrom(v, position + 1));
      WriteElement(v, position, out);
    }
    assert out.bytes + [] == out.bytes;
    out.Extend([CLOSE_BRACKET]);
    Bracketed(old(out.bytes), OPEN_BRACKET, ElementsFrom(v, 0), CLOSE_BRACKET);
  }

  /** One element, after a comma unless it is the first. */
  method WriteElement(v: CanonicalValue, position: nat, out: ByteBuffer)
    requires v.Array? && position < |v.elements|
    modifies out
    ensures out.bytes == old(out.bytes) + Separated(position, Bytes(v.elements[position]))
    decreases v, 0
  {
    if position > 0 {
      Associate(out.bytes, [COMMA], Bytes(v.elements[position]));
      out.Extend([COMMA]);
    }
    WriteValue(v.elements[position], out);
  }

  /** The object arm of `WriteValue`. */
  method WriteObject(v: CanonicalValue, out: ByteBuffer)
    requires v.Object?
    modifies out
    ensures out.bytes == old(out.bytes) + Bytes(v)
    decreases v, 1
  {
    out.Extend([OPEN_BRACE]);
    var keys := SortedKeys(v.entries.Keys);
    ghost var start := out.bytes;
    ghost var all := EntriesFrom(v, keys, 0);
    for position := 0 to |keys|
      invariant out.bytes + EntriesFrom(v, keys, position) == start + all
    {
      Associate(out.bytes, Separated(position, EntryBytes(v, keys[position])), EntriesFrom(v, keys, position + 1));
      if position > 0 {
        Associate(out.bytes, [COMMA], EntryBytes(v, keys[position]));
        out.Extend([COMMA]);
      }
      WriteEntry(v, keys[position], out);
    }
    assert out.bytes + [] == out.bytes;
    out.Extend([CLOSE_BRACE]);
    Bracketed(old(out.bytes), OPEN_BRACE, EntriesFrom(v, keys, 0), CLOSE_BRACE);
  }

  method WriteEntry(v: CanonicalValue, key: string, out: ByteBuffer)
    requires v.Object? && key in v.entries
    modifies out
    ensures out.bytes == old(out.bytes) + EntryBytes(v, key)
    decreases v, 0
  {
    ghost var before := out.bytes;
    WriteJsonString(key, out);
    out.Extend([COLON]);
    WriteValue(v.entries[key], out);
    Associate(before + StringBytes(key), [COLON], Bytes(v.entries[key]));
    Associate(before, StringBytes(key), [COLON] + Bytes(v.entries[key]));
    Associate(StringBytes(key), [COLON], Bytes(v.entries[key]));
  }

  lemma Bracketed(before: seq<byte>, open: byte, body: seq<byte>, close: byte)
    ensures before + [open] + body + [close] == before + ([open] + body + [close])
  {
  }

  method CanonicalBytes(v: CanonicalValue) returns (bytes: seq<byte>)
    ensures bytes == Bytes(v)
  {
    var out := new ByteBuffer();
    WriteValue(v, out);
    bytes := out.bytes;
  }
}
