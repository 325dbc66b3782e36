/**
 What the lesson gate counts and what its identifiers may be: the exact total as the bytes of
 all authored text, and an identifier as one safe path component.
 */
module AuthoredText {
  import opened Lesson
  import opened Text
  import opened Wrappers

  function Concat(items: seq<string>): string {
    if items == [] then "" else items[0] + Concat(items[1..])
  }

  /** Every speaker's name, followed by its profile. */
  function SpeakersText(speakers: map<string, string>, names: seq<string>): string
    requires forall n :: n in names ==> n in speakers
  {
    if names == [] then "" else names[0] + speakers[names[0]] + SpeakersText(speakers, names[1..])
  }

  function SegmentText(s: LessonSegment): string {
    s.id + s.speaker + s.displayText + s.spokenText + Concat(s.sourceRefs)
  }

  function SegmentsText(segments: seq<LessonSegment>): string {
    if segments == [] then "" else SegmentText(segments[0]) + SegmentsText(segments[1..])
  }

  /** Everything an author wrote, in one piece. */
  function AllText(lesson: AuthoredLesson): string {
    lesson.title + SpeakersText(lesson.speakers, SortedKeys(lesson.speakers.Keys)) +
    Concat(lesson.learningObjectives) + Concat(lesson.References()) + SegmentsText(lesson.segments)
  }

  lemma BytesAppend(a: string, b: string)
    ensures Utf8Len(a + b) == Utf8Len(a) + Utf8Len(b)
  {
    Utf8Append(a, b);
  }

  lemma {:induction false} TotalSnoc(items: seq<string>, item: string)
    ensures TotalBytes(items + [item]) == TotalBytes(items) + Utf8Len(item)
  {
    assert (items + [item])[..|items|] == items;
  }

  lemma {:induction false} TotalAppend(a: seq<string>, b: seq<string>)
    ensures TotalBytes(a + b) == TotalBytes(a) + TotalBytes(b)
    decreases |b|
  {
    if b == [] {
      assert a + b == a;
    } else {
      var init, last := b[..|b| - 1], b[|b| - 1];
      TotalAppend(a, init);
      assert a + b == (a + init) + [last] && b == init + [last];
      TotalSnoc(a + init, last);
      TotalSnoc(init, last);
    }
  }

  lemma {:induction false} ConcatBytes(items: seq<string>)
    ensures Utf8Len(Concat(items)) == TotalBytes(items)
  {
    if items != [] {
      ConcatBytes(items[1..]);
      BytesAppend(items[0], Concat(items[1..]));
      TotalAppend([items[0]], items[1..]);
      TotalSnoc([], items[0]);
      assert [] + [items[0]] == [items[0]] && items == [items[0]] + items[1..];
    }
  }

  lemma {:induction false} SpeakersBytes(speakers: map<string, string>, names: seq<string>)
    requires forall n :: n in names ==> n in speakers
    ensures Utf8Len(SpeakersText(speakers, names)) == TotalBytes(SpeakerTexts(speakers, names))
  {
    if names != [] {
      SpeakersBytes(speakers, names[1..]);
      BytesAppend(names[0], speakers[names[0]]);
      BytesAppend(names[0] + speakers[names[0]], SpeakersText(speakers, names[1..]));
      SpeakerTextsCons(speakers, names);
      TotalAppend([names[0], speakers[names[0]]], SpeakerTexts(speakers, names[1..]));
      TotalOfTwo(names[0], speakers[names[0]]);
    }
  }

  lemma TotalOfTwo(a: string, b: string)
    ensures TotalBytes([a, b]) == Utf8Len(a) + Utf8Len(b)
  {
    TotalSnoc([a], b);
    TotalSnoc([], a);
    assert [] + [a] == [a] && [a] + [b] == [a, b];
  }

  lemma {:induction false} SpeakerTextsCons(speakers: map<string, string>, names: seq<string>)
    requires names != [] && forall n :: n in names ==> n in speakers
    ensures SpeakerTexts(speakers, names) == [names[0], speakers[names[0]]] + SpeakerTexts(speakers, names[1..])
    decreases |names|
  {
    if |names| > 1 {
      var init := names[..|names| - 1];
      SpeakerTextsCons(speakers, init);
      assert init[1..] == names[1..][..|names| - 2];
    }
  }

  lemma SegmentTextBytes(s: LessonSegment)
    ensures Utf8Len(SegmentText(s)) == SegmentBytes(s)
  {
    ConcatBytes(s.sourceRefs);
    BytesAppend(s.id, s.speaker);
    BytesAppend(s.id + s.speaker, s.displayText);
    BytesAppend(s.id + s.speaker + s.displayText, s.spokenText);
    BytesAppend(s.id + s.speaker + s.displayText + s.spokenText, Concat(s.sourceRefs));
  }

  function Total(sizes: seq<nat>): nat {
    if sizes == [] then 0 else sizes[0] + Total(sizes[1..])
  }

  lemma {:induction false} SumIsTotal(base: nat, sizes: seq<nat>)
    ensures SumThrough(base, sizes, |sizes|) == base + Total(sizes)
    decreases |sizes|
  {
    if sizes != [] {
      SumIsTotal(base + sizes[0], sizes[1..]);
      SumThroughCons(base, sizes[0], sizes[1..], |sizes| - 1);
      assert sizes == [sizes[0]] + sizes[1..];
    }
  }

  lemma {:induction false} SegmentsBytes(segments: seq<LessonSegment>)
    ensures Total(SegmentSizes(segments)) == Utf8Len(SegmentsText(segments))
  {
    if segments != [] {
      SegmentTextBytes(segments[0]);
      SegmentsBytes(segments[1..]);
      BytesAppend(SegmentText(segments[0]), SegmentsText(segments[1..]));
      SizesCons(segments);
    }
  }

  lemma SizesCons(segments: seq<LessonSegment>)
    requires segments != []
    ensures SegmentSizes(segments)[0] == SegmentBytes(segments[0]) && SegmentSizes(segments)[1..] == SegmentSizes(segments[1..])
  {
  }

  lemma {:induction false} SumThroughCons(base: nat, first: nat, rest: seq<nat>, n: nat)
    requires n <= |rest|
    ensures SumThrough(base, [first] + rest, n + 1) == SumThrough(base + first, rest, n)
  {
    if n > 0 {
      SumThroughCons(base, first, rest, n - 1);
    }
  }

  /** The total the gate bounds is the number of bytes in everything the author wrote, each text counted once. */
  lemma AuthoredBytesAreTheBytesOfAllText(lesson: AuthoredLesson)
    ensures AuthoredBytes(lesson, |lesson.segments|) == |Utf8(AllText(lesson))|
  {
    var speakers := SpeakersText(lesson.speakers, SortedKeys(lesson.speakers.Keys));
    var objectives, references := Concat(lesson.learningObjectives), Concat(lesson.References());
    SpeakersBytes(lesson.speakers, SortedKeys(lesson.speakers.Keys));
    ConcatBytes(lesson.learningObjectives);
    ConcatBytes(lesson.References());
    SumIsTotal(LessonBytes(lesson), SegmentSizes(lesson.segments));
    SegmentsBytes(lesson.segments);
    BytesAppend(lesson.title, speakers);
    BytesAppend(lesson.title + speakers, objectives);
    BytesAppend(lesson.title + speakers + objectives, references);
    BytesAppend(lesson.title + speakers + objectives + references, SegmentsText(lesson.segments));
  }

  /** A portable identifier is one visible path component on any system: nothing in it separates, and it is no dot name. */
  lemma PortableIdIsOneComponent(id: string)
    requires IsPortableId(id)
    ensures 0 < |id| <= 64 && Utf8Len(id) == |id|
    ensures id != "." && id != ".." && '/' !in id && '\\' !in id && ':' !in id && '\0' !in id && ' ' !in id
    ensures !Blank(id)
  {
    AsciiLength(id);
    assert id[0] in id;
  }
}
