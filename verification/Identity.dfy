/**
 The inputs that name a cached synthesis take, and the preimage they are hashed
 through. The digest is a parameter: nothing here depends on which one it is.
 */
module Identity {
  import opened Canonical
  import opened Decode
  import opened Text
  import opened Wrappers

  type u32 = n: nat | n < 0x1_0000_0000

  /** A digest of bytes, rendered as text. */
  type Hasher = seq<byte> -> string

  /** No two of these preimages share a digest. */
  ghost predicate CollisionFree(h: Hasher, preimages: set<seq<byte>>) {
    forall a, b :: a in preimages && b in preimages && h(a) == h(b) ==> a == b
  }

  datatype DeterminismClass = Reproducible | SeededNondeterministic {
    function Name(): string {
      match this
      case Reproducible => "reproducible"
      case SeededNondeterministic => "seeded_nondeterministic"
    }
  }

  datatype DeliveryStyle = Calm | CalmExplanatory | Emphatic | Deliberate {
    function Name(): string {
      match this
      case Calm => "calm"
      case CalmExplanatory => "calm_explanatory"
      case Emphatic => "emphatic"
      case Deliberate => "deliberate"
    }
  }

  /** The speech-affecting inputs that do not come from the lesson. */
  datatype SynthesisContext = SynthesisContext(
    workerBundleHash: string,
    modelRepository: string,
    modelRevision: string,
    tokenizerRevision: string,
    modelArtifactsHash: string,
    language: string,
    determinismClass: DeterminismClass,
    seed: u64,
    generationParameters: map<string, string>,
    voiceConditioningHashes: map<string, string>)
  {
    function VoiceConditioningFor(speaker: string): Option<string> {
      if speaker in voiceConditioningHashes then Some(voiceConditioningHashes[speaker]) else None
    }
  }

  /** The speech-affecting inputs that do come from the lesson. */
  datatype Speech = Speech(speaker: string, spokenText: string, style: DeliveryStyle)

  const SYNTHESIS_IDENTITY_VERSION := "e1-s5-v1"
  const CACHE_SCHEMA_VERSION := "3.0"
  const CANONICAL_SAMPLE_RATE: u64 := 24000
  const CANONICAL_CHANNELS: u64 := 1
  const CANONICAL_SAMPLE_FORMAT := "f32le"
  const CANONICAL_BITS_PER_SAMPLE: u64 := 32

  function Optional(value: Option<string>): CanonicalValue {
    match value
    case None => Null
    case Some(text) => Text(text)
  }

  /** The one place the input list is written out. */
  function SynthesisFields(context: SynthesisContext, speech: Speech, take: u32): seq<Field> {
    [ ("identity_version", Text(SYNTHESIS_IDENTITY_VERSION)),
      ("cache_schema_version", Text(CACHE_SCHEMA_VERSION)),
      ("worker_bundle_hash", Text(context.workerBundleHash)),
      ("model_repository", Text(context.modelRepository)),
      ("model_revision", Text(context.modelRevision)),
      ("tokenizer_revision", Text(context.tokenizerRevision)),
      ("model_artifacts_hash", Text(context.modelArtifactsHash)),
      ("voice_conditioning_hash", Optional(context.VoiceConditioningFor(speech.speaker))),
      ("speaker", Text(speech.speaker)),
      ("language", Text(context.language)),
      ("spoken_text", Text(speech.spokenText)),
      ("style", Text(speech.style.Name())),
      ("generation_parameters", Object(map k | k in context.generationParameters :: Text(context.generationParameters[k]))),
      ("seed", Unsigned(context.seed)),
      ("determinism_class", Text(context.determinismClass.Name())),
      ("take", Unsigned(take)),
      ("sample_rate", Unsigned(CANONICAL_SAMPLE_RATE)),
      ("channels", Unsigned(CANONICAL_CHANNELS)),
      ("sample_format", Text(CANONICAL_SAMPLE_FORMAT)),
      ("bits_per_sample", Unsigned(CANONICAL_BITS_PER_SAMPLE)) ]
  }

  /** The bytes a synthesis key is the digest of. */
  function SynthesisPreimage(context: SynthesisContext, speech: Speech, take: u32): seq<byte> {
    Bytes(Object(FieldsOf(SynthesisFields(context, speech, take))))
  }

  function SynthesisDigest(h: Hasher, context: SynthesisContext, speech: Speech, take: u32): string {
    h(SynthesisPreimage(context, speech, take))
  }

  /** Agreement on every listed input, including whether this speaker's conditioning is present. */
  ghost predicate SameInputs(c: SynthesisContext, s: Speech, t: u32, c': SynthesisContext, s': Speech, t': u32) {
    && c.workerBundleHash == c'.workerBundleHash
    && c.modelRepository == c'.modelRepository
    && c.modelRevision == c'.modelRevision
    && c.tokenizerRevision == c'.tokenizerRevision
    && c.modelArtifactsHash == c'.modelArtifactsHash
    && c.VoiceConditioningFor(s.speaker) == c'.VoiceConditioningFor(s'.speaker)
    && c.language == c'.language
    && c.determinismClass == c'.determinismClass
    && c.seed == c'.seed
    && c.generationParameters == c'.generationParameters
    && s == s'
    && t == t'
  }

  const SYNTHESIS_FIELDS := [
    "identity_version", "cache_schema_version", "worker_bundle_hash", "model_repository", "model_revision",
    "tokenizer_revision", "model_artifacts_hash", "voice_conditioning_hash", "speaker", "language",
    "spoken_text", "style", "generation_parameters", "seed", "determinism_class",
    "take", "sample_rate", "channels", "sample_format", "bits_per_sample"]

  lemma SynthesisFieldNames(context: SynthesisContext, speech: Speech, take: u32)
    ensures var f := SynthesisFields(context, speech, take);
            |f| == |SYNTHESIS_FIELDS| && forall i :: 0 <= i < |f| ==> f[i].0 == SYNTHESIS_FIELDS[i]
  {
  }

  lemma EarlyNamesDiffer(i: nat, j: nat)
    requires i < 6 && i < j < 20
    ensures SYNTHESIS_FIELDS[i] != SYNTHESIS_FIELDS[j]
  {
    var n := SYNTHESIS_FIELDS[j];
    assert |n| == |SYNTHESIS_FIELDS[i]| ==> n[0] != SYNTHESIS_FIELDS[i][0];
  }

  lemma LateNamesDiffer(i: nat, j: nat)
    requires 6 <= i < j < 20
    ensures SYNTHESIS_FIELDS[i] != SYNTHESIS_FIELDS[j]
  {
    var n := SYNTHESIS_FIELDS[j];
    assert |n| == |SYNTHESIS_FIELDS[i]| ==> n[0] != SYNTHESIS_FIELDS[i][0] || n[1] != SYNTHESIS_FIELDS[i][1];
  }

  /** No field of the identity is written twice, so building it never panics. */
  lemma SynthesisFieldsAreDistinct(context: SynthesisContext, speech: Speech, take: u32)
    ensures DistinctNames(SynthesisFields(context, speech, take))
  {
    var f := SynthesisFields(context, speech, take);
    SynthesisFieldNames(context, speech, take);
    forall i, j | 0 <= i < j < |f| ensures f[i].0 != f[j].0 {
      if i < 6 { EarlyNamesDiffer(i, j); } else { LateNamesDiffer(i, j); }
    }
  }

  /** The value an identity holds under a name. */
  function Under(context: SynthesisContext, speech: Speech, take: u32, name: string): Option<CanonicalValue> {
    var fields := FieldsOf(SynthesisFields(context, speech, take));
    if name in fields then Some(fields[name]) else None
  }

  lemma UnderIs(context: SynthesisContext, speech: Speech, take: u32, i: nat)
    requires i < 20
    ensures var f := SynthesisFields(context, speech, take);
            |f| == 20 && Under(context, speech, take, SYNTHESIS_FIELDS[i]) == Some(f[i].1)
  {
    SynthesisFieldNames(context, speech, take);
    SynthesisFieldsAreDistinct(context, speech, take);
    FieldsOfAt(SynthesisFields(context, speech, take), i);
  }

  /** What produces the audio stands under its own name. */
  lemma SynthesizerUnderItsNames(c: SynthesisContext, s: Speech, take: u32)
    ensures Under(c, s, take, "worker_bundle_hash") == Some(Text(c.workerBundleHash))
    ensures Under(c, s, take, "model_repository") == Some(Text(c.modelRepository))
    ensures Under(c, s, take, "model_revision") == Some(Text(c.modelRevision))
    ensures Under(c, s, take, "tokenizer_revision") == Some(Text(c.tokenizerRevision))
    ensures Under(c, s, take, "model_artifacts_hash") == Some(Text(c.modelArtifactsHash))
    ensures Under(c, s, take, "determinism_class") ==
              Some(Text(if c.determinismClass.Reproducible? then "reproducible" else "seeded_nondeterministic"))
  {
    UnderIs(c, s, take, 2);
    UnderIs(c, s, take, 3);
    UnderIs(c, s, take, 4);
    UnderIs(c, s, take, 5);
    UnderIs(c, s, take, 6);
    UnderIs(c, s, take, 14);
  }

  /** What is said, and how, stands under its own name; a speaker without conditioning is null there. */
  lemma SpeechUnderItsNames(c: SynthesisContext, s: Speech, take: u32)
    ensures Under(c, s, take, "voice_conditioning_hash") ==
              Some(if s.speaker in c.voiceConditioningHashes then Text(c.voiceConditioningHashes[s.speaker]) else Null)
    ensures Under(c, s, take, "speaker") == Some(Text(s.speaker))
    ensures Under(c, s, take, "language") == Some(Text(c.language))
    ensures Under(c, s, take, "spoken_text") == Some(Text(s.spokenText))
    ensures Under(c, s, take, "style") == Some(Text(
              if s.style.Calm? then "calm" else if s.style.CalmExplanatory? then "calm_explanatory"
              else if s.style.Emphatic? then "emphatic" else "deliberate"))
    ensures Under(c, s, take, "seed") == Some(Unsigned(c.seed))
    ensures Under(c, s, take, "take") == Some(Unsigned(take))
  {
    UnderIs(c, s, take, 7);
    UnderIs(c, s, take, 8);
    UnderIs(c, s, take, 9);
    UnderIs(c, s, take, 10);
    UnderIs(c, s, take, 11);
    UnderIs(c, s, take, 13);
    UnderIs(c, s, take, 15);
  }

  /** The generation parameters, each as spelled, and the fixed audio format stand under their names. */
  lemma FormatUnderItsNames(c: SynthesisContext, s: Speech, take: u32)
    ensures Under(c, s, take, "generation_parameters") ==
              Some(Object(map k | k in c.generationParameters :: Text(c.generationParameters[k])))
    ensures Under(c, s, take, "sample_rate") == Some(Unsigned(24000)) && Under(c, s, take, "channels") == Some(Unsigned(1))
    ensures Under(c, s, take, "sample_format") == Some(Text("f32le")) && Under(c, s, take, "bits_per_sample") == Some(Unsigned(32))
    ensures Under(c, s, take, "identity_version") == Some(Text("e1-s5-v1")) && Under(c, s, take, "cache_schema_version") == Some(Text("3.0"))
  {
    UnderIs(c, s, take, 0);
    UnderIs(c, s, take, 1);
    UnderIs(c, s, take, 12);
    UnderIs(c, s, take, 16);
    UnderIs(c, s, take, 17);
    UnderIs(c, s, take, 18);
    UnderIs(c, s, take, 19);
  }

  /** Equal field lists mean equal inputs: no two spellings of one input coincide. */
  lemma EqualFieldsAreSameInputs(c: SynthesisContext, s: Speech, t: u32, c': SynthesisContext, s': Speech, t': u32)
    requires SynthesisFields(c, s, t) == SynthesisFields(c', s', t')
    ensures SameInputs(c, s, t, c', s', t')
  {
    var f, f' := SynthesisFields(c, s, t), SynthesisFields(c', s', t');
    assert forall i :: 0 <= i < 20 ==> f[i].1 == f'[i].1;
    EqualParameters(c.generationParameters, c'.generationParameters);
    EqualNames(s.style, s'.style, c.determinismClass, c'.determinismClass);
    assert f[1].1 == f'[1].1 && f[2].1 == f'[2].1 && f[3].1 == f'[3].1 && f[4].1 == f'[4].1 && f[5].1 == f'[5].1;
    assert f[6].1 == f'[6].1 && f[7].1 == f'[7].1 && f[8].1 == f'[8].1 && f[9].1 == f'[9].1 && f[10].1 == f'[10].1;
    assert f[11].1 == f'[11].1 && f[12].1 == f'[12].1 && f[13].1 == f'[13].1 && f[14].1 == f'[14].1 && f[15].1 == f'[15].1;
  }

  lemma EqualNames(a: DeliveryStyle, b: DeliveryStyle, d: DeterminismClass, e: DeterminismClass)
    ensures a.Name() == b.Name() ==> a == b
    ensures d.Name() == e.Name() ==> d == e
  {
    assert |a.Name()| == |b.Name()| && a.Name()[0] == b.Name()[0] ==> a == b;
    assert d.Name()[0] == e.Name()[0] ==> d == e;
  }

  lemma EqualParameters(a: map<string, string>, b: map<string, string>)
    ensures Object(map k | k in a :: Text(a[k])) == Object(map k | k in b :: Text(b[k])) ==> a == b
  {
    var x, y := map k | k in a :: Text(a[k]), map k | k in b :: Text(b[k]);
    if x == y {
      assert a.Keys == x.Keys == y.Keys == b.Keys;
      forall k | k in a ensures a[k] == b[k] {
        assert x[k] == y[k];
      }
    }
  }

  /**
   The key is exactly its input list: two requests have one preimage if and only if they
   agree on every listed input. Nothing else about a lesson, a segment, or another
   speaker's conditioning can matter, because no other field is compared.
   */
  lemma SynthesisPreimageIsExact(c: SynthesisContext, s: Speech, t: u32, c': SynthesisContext, s': Speech, t': u32)
    ensures SynthesisPreimage(c, s, t) == SynthesisPreimage(c', s', t') <==> SameInputs(c, s, t, c', s', t')
  {
    var f, f' := SynthesisFields(c, s, t), SynthesisFields(c', s', t');
    if SynthesisPreimage(c, s, t) == SynthesisPreimage(c', s', t') {
      Injective(Object(FieldsOf(f)), Object(FieldsOf(f')));
      SynthesisFieldsAreDistinct(c, s, t);
      FieldsInjective(f, f');
      EqualFieldsAreSameInputs(c, s, t, c', s', t');
    }
    if SameInputs(c, s, t, c', s', t') {
      assert f == f';
    }
  }
}
