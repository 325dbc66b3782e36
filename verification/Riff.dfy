/** The RIFF chunk walk of the WAV analysis script, and the layout it inverts. */
module Riff {
  import opened Text
  import opened Wrappers

  datatype RiffError = NotRiffWave | InconsistentLength | TruncatedHeader | NonAsciiId | TruncatedPayload

  datatype Chunk = Chunk(id: seq<byte>, payload: seq<byte>) {
    ghost predicate Valid() {
      |id| == 4 && Ascii(id) && |payload| < 0x1_0000_0000
    }

    /** The chunk's place in the file: header, payload, and the pad after an odd payload. */
    function Footprint(): nat {
      8 + |payload| + |payload| % 2
    }
  }

  /** What the walk reports for one chunk: its payload only through a digest. */
  datatype ChunkRecord = ChunkRecord(id: seq<byte>, length: nat, sha256: string)

  const FIRST_CHUNK: nat := 12
  const RIFF: seq<byte> := [82, 73, 70, 70]
  const WAVE: seq<byte> := [87, 65, 86, 69]

  predicate Ascii(b: seq<byte>) {
    forall i :: 0 <= i < |b| ==> b[i] < 128
  }

  /** `struct.unpack_from("<I", raw, at)`. */
  function Unsigned32(raw: seq<byte>, at: nat): nat
    requires at + 4 <= |raw|
  {
    raw[at] as nat + 0x100 * raw[at + 1] as nat + 0x1_0000 * raw[at + 2] as nat + 0x100_0000 * raw[at + 3] as nat
  }

  function LittleEndian32(n: nat): (b: seq<byte>)
    requires n < 0x1_0000_0000
    ensures |b| == 4
  {
    var n1 := n / 0x100;
    var n2 := n1 / 0x100;
    var n3 := n2 / 0x100;
    [(n % 0x100) as byte, (n1 % 0x100) as byte, (n2 % 0x100) as byte, n3 as byte]
  }

  function Record(sha256: seq<byte> -> string, c: Chunk): ChunkRecord {
    ChunkRecord(c.id, |c.payload|, sha256(c.payload))
  }

  function Records(sha256: seq<byte> -> string, chunks: seq<Chunk>): seq<ChunkRecord> {
    seq(|chunks|, i requires 0 <= i < |chunks| => Record(sha256, chunks[i]))
  }

  lemma RecordsNext(sha256: seq<byte> -> string, chunks: seq<Chunk>, c: Chunk)
    ensures Records(sha256, chunks + [c]) == Records(sha256, chunks) + [Record(sha256, c)]
  {
  }

  // ----- the walk -----

  method ParseRiffChunks(raw: seq<byte>, sha256: seq<byte> -> string)
    returns (r: Result<seq<ChunkRecord>, RiffError>, ghost walked: seq<Chunk>)
    ensures r.Success? <==> exists chunks :: IsWaveOf(raw, chunks)
    ensures r.Success? ==> IsWaveOf(raw, walked) && |r.value| == |walked|
    ensures r.Success? ==> forall i :: 0 <= i < |walked| ==>
              r.value[i] == ChunkRecord(walked[i].id, |walked[i].payload|, sha256(walked[i].payload))
    ensures r.Failure? ==> StopsAt(raw, walked, r.error)
  {
    walked := [];
    if |raw| < 12 || raw[..4] != RIFF || raw[8..12] != WAVE {
      NotAWave(raw);
      return Failure(NotRiffWave), [];
    }
    var declaredSize := Unsigned32(raw, 4) + 8;
    if declaredSize != |raw| {
      NotAWave(raw);
      return Failure(InconsistentLength), [];
    }
    var chunks: seq<ChunkRecord> := [];
    var offset := FIRST_CHUNK;
    while offset < |raw|
      invariant FIRST_CHUNK <= offset
      invariant Prefix(raw, FIRST_CHUNK, walked, offset)
      invariant chunks == Records(sha256, walked)
      decreases |raw| - offset
    {
      var next := ReadChunk(raw, offset);
      if next.Failure? {
        Stuck(raw, walked, offset);
        return Failure(next.error), walked;
      }
      var c := next.value;
      chunks := chunks + [ChunkRecord(c.id, |c.payload|, sha256(c.payload))];
      Advance(raw, sha256, walked, offset, c);
      walked := walked + [c];
      offset := offset + 8 + |c.payload| + |c.payload| % 2;
    }
    Finished(raw, walked, offset);
    return Success(chunks), walked;
  }

  /** The body of the walk: the chunk at `offset`, or what is wrong there. */
  method ReadChunk(raw: seq<byte>, offset: nat) returns (r: Result<Chunk, RiffError>)
    ensures r.Success? ==> ChunkAt(raw, offset, r.value)
    ensures r.Failure? ==> Blocked(raw, offset) && r.error == FaultAt(raw, offset)
  {
    if offset + 8 > |raw| {
      return Failure(TruncatedHeader);
    }
    var id := raw[offset..offset + 4];
    if !Ascii(id) {
      return Failure(NonAsciiId);
    }
    var length := Unsigned32(raw, offset + 4);
    var payloadStart := offset + 8;
    var payloadEnd := payloadStart + length;
    if payloadEnd > |raw| {
      return Failure(TruncatedPayload);
    }
    return Success(Chunk(id, raw[payloadStart..payloadEnd]));
  }

  // ----- the layout -----

  ghost predicate HasMagic(raw: seq<byte>) {
    |raw| >= 12 && raw[..4] == RIFF && raw[8..12] == WAVE
  }

  ghost predicate IsRiffWave(raw: seq<byte>) {
    HasMagic(raw) && Unsigned32(raw, 4) + 8 == |raw|
  }

  /** `c` stands at `offset`; the pad byte, if any, may hold anything or be missing at the end. */
  ghost predicate ChunkAt(raw: seq<byte>, offset: nat, c: Chunk) {
    && c.Valid()
    && offset + 8 + |c.payload| <= |raw|
    && raw[offset..offset + 4] == c.id
    && Unsigned32(raw, offset + 4) == |c.payload|
    && raw[offset + 8..offset + 8 + |c.payload|] == c.payload
  }

  /** From `offset` the file is these chunks and nothing else. */
  ghost predicate Tiles(raw: seq<byte>, offset: nat, chunks: seq<Chunk>)
    decreases chunks
  {
    if chunks == [] then offset >= |raw|
    else ChunkAt(raw, offset, chunks[0]) && Tiles(raw, offset + chunks[0].Footprint(), chunks[1..])
  }

  /** `raw` is a RIFF/WAVE file whose length is declared and whose chunks are these. */
  ghost predicate IsWaveOf(raw: seq<byte>, chunks: seq<Chunk>) {
    IsRiffWave(raw) && Tiles(raw, FIRST_CHUNK, chunks)
  }

  /** The walk from `offset` has passed these chunks and stands at `end`. */
  ghost predicate Prefix(raw: seq<byte>, offset: nat, chunks: seq<Chunk>, end: nat)
    decreases chunks
  {
    if chunks == [] then offset == end
    else ChunkAt(raw, offset, chunks[0]) && Prefix(raw, offset + chunks[0].Footprint(), chunks[1..], end)
  }

  /** What is wrong at an offset where no chunk stands, in the order the walk looks. */
  ghost function FaultAt(raw: seq<byte>, offset: nat): RiffError {
    if offset + 8 > |raw| then TruncatedHeader
    else if !Ascii(raw[offset..offset + 4]) then NonAsciiId
    else TruncatedPayload
  }

  /** Where the walk refuses to read a chunk, none stands. */
  ghost predicate Blocked(raw: seq<byte>, offset: nat) {
    || offset + 8 > |raw|
    || !Ascii(raw[offset..offset + 4])
    || offset + 8 + Unsigned32(raw, offset + 4) > |raw|
  }

  lemma BlockedHoldsNoChunk(raw: seq<byte>, offset: nat, c: Chunk)
    requires Blocked(raw, offset)
    ensures !ChunkAt(raw, offset, c)
  {}

  lemma {:induction false} PrefixEnd(raw: seq<byte>, offset: nat, chunks: seq<Chunk>, end: nat)
    requires Prefix(raw, offset, chunks, end)
    ensures end == offset + TotalFootprint(chunks)
    decreases chunks
  {
    if chunks != [] {
      PrefixEnd(raw, offset + chunks[0].Footprint(), chunks[1..], end);
    }
  }

  lemma {:induction false} PrefixNext(raw: seq<byte>, offset: nat, chunks: seq<Chunk>, end: nat, c: Chunk)
    requires Prefix(raw, offset, chunks, end) && ChunkAt(raw, end, c)
    ensures Prefix(raw, offset, chunks + [c], end + c.Footprint())
    decreases chunks
  {
    if chunks == [] {
      assert ([c])[1..] == [];
    } else {
      PrefixNext(raw, offset + chunks[0].Footprint(), chunks[1..], end, c);
      TailOfAppend(chunks, [c]);
    }
  }

  lemma {:induction false} PrefixTiles(raw: seq<byte>, offset: nat, chunks: seq<Chunk>, end: nat)
    requires Prefix(raw, offset, chunks, end) && end >= |raw|
    ensures Tiles(raw, offset, chunks)
    decreases chunks
  {
    if chunks != [] {
      PrefixTiles(raw, offset + chunks[0].Footprint(), chunks[1..], end);
    }
  }

  /** Every tiling of the file goes the way the walk has gone. */
  lemma {:induction false} TilingFollowsPrefix(raw: seq<byte>, offset: nat, chunks: seq<Chunk>, end: nat, all: seq<Chunk>)
    requires Prefix(raw, offset, chunks, end) && Tiles(raw, offset, all)
    ensures |chunks| <= |all| && Tiles(raw, end, all[|chunks|..])
    decreases chunks
  {
    if chunks == [] {
      assert all[0..] == all;
    } else {
      TilingFollowsPrefix(raw, offset + chunks[0].Footprint(), chunks[1..], end, all[1..]);
      assert all[1..][|chunks| - 1..] == all[|chunks|..];
    }
  }

  lemma Advance(raw: seq<byte>, sha256: seq<byte> -> string, walked: seq<Chunk>, offset: nat, c: Chunk)
    requires Prefix(raw, FIRST_CHUNK, walked, offset) && ChunkAt(raw, offset, c)
    ensures Prefix(raw, FIRST_CHUNK, walked + [c], offset + 8 + |c.payload| + |c.payload| % 2)
    ensures Records(sha256, walked + [c]) == Records(sha256, walked) + [Record(sha256, c)]
  {
    PrefixNext(raw, FIRST_CHUNK, walked, offset, c);
    RecordsNext(sha256, walked, c);
  }

  /** Why a walk stopped: the header is wrong, or after these chunks no chunk stands. */
  ghost predicate StopsAt(raw: seq<byte>, walked: seq<Chunk>, e: RiffError) {
    if !HasMagic(raw) then e == NotRiffWave
    else if !IsRiffWave(raw) then e == InconsistentLength
    else
      var end := FIRST_CHUNK + TotalFootprint(walked);
      Prefix(raw, FIRST_CHUNK, walked, end) && end < |raw| && e == FaultAt(raw, end)
  }

  /** Where no chunk can stand before the end of the file, no list of chunks tiles it. */
  lemma Stuck(raw: seq<byte>, chunks: seq<Chunk>, end: nat)
    requires IsRiffWave(raw) && Prefix(raw, FIRST_CHUNK, chunks, end)
    requires end < |raw| && Blocked(raw, end)
    ensures !exists all :: IsWaveOf(raw, all)
    ensures StopsAt(raw, chunks, FaultAt(raw, end))
  {
    PrefixEnd(raw, FIRST_CHUNK, chunks, end);
    forall c ensures !ChunkAt(raw, end, c) {
      BlockedHoldsNoChunk(raw, end, c);
    }
    forall all | IsWaveOf(raw, all) ensures false {
      TilingFollowsPrefix(raw, FIRST_CHUNK, chunks, end, all);
    }
  }

  lemma NotAWave(raw: seq<byte>)
    requires !IsRiffWave(raw)
    ensures !exists all :: IsWaveOf(raw, all)
    ensures StopsAt(raw, [], if HasMagic(raw) then InconsistentLength else NotRiffWave)
  {}

  lemma Finished(raw: seq<byte>, walked: seq<Chunk>, end: nat)
    requires IsRiffWave(raw) && Prefix(raw, FIRST_CHUNK, walked, end) && end >= |raw|
    ensures IsWaveOf(raw, walked)
  {
    PrefixTiles(raw, FIRST_CHUNK, walked, end);
  }

  function TotalFootprint(chunks: seq<Chunk>): nat {
    if chunks == [] then 0 else chunks[0].Footprint() + TotalFootprint(chunks[1..])
  }

  /** An accepted file is tiled exactly, but for a final pad byte that may be missing. */
  lemma {:induction false} TilesExactly(raw: seq<byte>, offset: nat, chunks: seq<Chunk>)
    requires Tiles(raw, offset, chunks) && offset <= |raw|
    ensures offset + TotalFootprint(chunks) == |raw| ||
            (offset + TotalFootprint(chunks) == |raw| + 1 && chunks != [] && |chunks[|chunks| - 1].payload| % 2 == 1)
    decreases chunks
  {
    if chunks != [] {
      var next := offset + chunks[0].Footprint();
      if next <= |raw| {
        TilesExactly(raw, next, chunks[1..]);
      } else if |chunks| > 1 {
        assert false;
      }
    }
  }

  /** At most one list of chunks tiles a file. */
  lemma {:induction false} TilingIsUnique(raw: seq<byte>, offset: nat, a: seq<Chunk>, b: seq<Chunk>)
    requires Tiles(raw, offset, a) && Tiles(raw, offset, b)
    ensures a == b
    decreases a
  {
    if a != [] && b != [] {
      TilingIsUnique(raw, offset + a[0].Footprint(), a[1..], b[1..]);
      assert a == [a[0]] + a[1..] && b == [b[0]] + b[1..];
    }
  }

  // ----- writing a file -----

  /** One chunk as a writer lays it out, with or without its pad byte. */
  function ChunkBytes(c: Chunk, padded: bool): (b: seq<byte>)
    requires c.Valid()
  {
    c.id + LittleEndian32(|c.payload|) + c.payload + (if padded && |c.payload| % 2 == 1 then [0] else [])
  }

  /** The chunks in order; `padded` says whether the last pad byte is written. */
  function Body(chunks: seq<Chunk>, padded: bool): seq<byte>
    requires forall c :: c in chunks ==> c.Valid()
  {
    if chunks == [] then []
    else ChunkBytes(chunks[0], padded || |chunks| > 1) + Body(chunks[1..], padded)
  }

  function WaveFile(chunks: seq<Chunk>, padded: bool): seq<byte>
    requires forall c :: c in chunks ==> c.Valid()
    requires 4 + |Body(chunks, padded)| < 0x1_0000_0000
  {
    var body := Body(chunks, padded);
    RIFF + LittleEndian32(4 + |body|) + WAVE + body
  }

  /** The first byte is the least: a small number is that byte and three zeros, and so is a multiple one place up. */
  lemma LowByteFirst(n: nat)
    requires n < 0x100
    ensures LittleEndian32(n) == [n as byte, 0, 0, 0] && Unsigned32([n as byte, 0, 0, 0], 0) == n
    ensures Unsigned32([0, n as byte, 0, 0], 0) == n * 0x100 && Unsigned32([0, 0, n as byte, 0], 0) == n * 0x1_0000
    ensures Unsigned32([0, 0, 0, n as byte], 0) == n * 0x100_0000
  {
  }

  /** The magic bytes spell their names. */
  lemma MagicSpelled()
    ensures RIFF == Utf8("RIFF") && WAVE == Utf8("WAVE")
  {
    assert "RIFF"[1..] == "IFF" && "IFF"[1..] == "FF" && "FF"[1..] == "F" && "F"[1..] == "";
    assert "WAVE"[1..] == "AVE" && "AVE"[1..] == "VE" && "VE"[1..] == "E" && "E"[1..] == "";
  }

  lemma LittleEndianRoundTrip(n: nat, before: seq<byte>, after: seq<byte>)
    requires n < 0x1_0000_0000
    ensures Unsigned32(before + LittleEndian32(n) + after, |before|) == n
  {
    var raw := before + LittleEndian32(n) + after;
    assert raw[|before|..|before| + 4] == LittleEndian32(n);
    assert Unsigned32(raw, |before|) == Unsigned32(raw[|before|..|before| + 4], 0);
  }

  lemma Regroup<T>(before: seq<T>, id: seq<T>, length: seq<T>, payload: seq<T>, pad: seq<T>, after: seq<T>)
    ensures before + (id + length + payload + pad) + after == (before + id) + length + (payload + pad + after)
  {}

  lemma ChunkBytesStand(before: seq<byte>, c: Chunk, padded: bool, after: seq<byte>)
    requires c.Valid()
    ensures ChunkAt(before + ChunkBytes(c, padded) + after, |before|, c)
  {
    var raw := before + ChunkBytes(c, padded) + after;
    var pad: seq<byte> := if padded && |c.payload| % 2 == 1 then [0] else [];
    var head := before + c.id;
    LittleEndianRoundTrip(|c.payload|, head, c.payload + pad + after);
    Regroup(before, c.id, LittleEndian32(|c.payload|), c.payload, pad, after);
    var start := |before| + 8;
    assert raw[start..start + |c.payload|] == c.payload;
  }

  lemma {:induction false} BodyTiles(before: seq<byte>, chunks: seq<Chunk>, padded: bool)
    requires forall c :: c in chunks ==> c.Valid()
    ensures Tiles(before + Body(chunks, padded), |before|, chunks)
    decreases chunks
  {
    if chunks != [] {
      var whole := padded || |chunks| > 1;
      var one, rest := ChunkBytes(chunks[0], whole), Body(chunks[1..], padded);
      ChunkBytesStand(before, chunks[0], whole, rest);
      ChunkBytesSpan(chunks[0], whole);
      if whole {
        BodyTiles(before + one, chunks[1..], padded);
      }
      Placed(before, one, rest, chunks);
    }
  }

  lemma ChunkBytesSpan(c: Chunk, padded: bool)
    requires c.Valid()
    ensures |ChunkBytes(c, padded)| <= c.Footprint() && (padded ==> |ChunkBytes(c, padded)| == c.Footprint())
  {}

  /** A first chunk and a tiled rest tile the file. */
  lemma Placed(before: seq<byte>, one: seq<byte>, rest: seq<byte>, chunks: seq<Chunk>)
    requires chunks != [] && ChunkAt(before + one + rest, |before|, chunks[0]) && |one| <= chunks[0].Footprint()
    requires if |chunks| == 1 && rest == [] then true
             else |one| == chunks[0].Footprint() && Tiles(before + one + rest, |before + one|, chunks[1..])
    ensures Tiles(before + (one + rest), |before|, chunks)
  {
    Associate(before, one, rest);
  }

  /** The walk accepts every file a writer lays out, and its tiling is the list that was written. */
  lemma WaveFileIsAccepted(chunks: seq<Chunk>, padded: bool)
    requires forall c :: c in chunks ==> c.Valid()
    requires 4 + |Body(chunks, padded)| < 0x1_0000_0000
    ensures IsWaveOf(WaveFile(chunks, padded), chunks)
    ensures forall other :: IsWaveOf(WaveFile(chunks, padded), other) ==> other == chunks
  {
    var body := Body(chunks, padded);
    var raw := WaveFile(chunks, padded);
    var head := RIFF + LittleEndian32(4 + |body|) + WAVE;
    BodyTiles(head, chunks, padded);
    LittleEndianRoundTrip(4 + |body|, RIFF, WAVE + body);
    Associate(RIFF + LittleEndian32(4 + |body|), WAVE, body);
    assert raw[8..12] == WAVE;
    forall other | IsWaveOf(raw, other) ensures other == chunks {
      TilingIsUnique(raw, FIRST_CHUNK, other, chunks);
    }
  }
}
