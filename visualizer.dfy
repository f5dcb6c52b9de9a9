/**
 * `src/visualizer.py`: what the annotated video shows, short of drawing it
 * (the OpenCV calls are outside the model): the colour of a face box, the
 * subtitle text and its word wrap, and the speaker and transcript
 * timelines with their lookup at a time.
 */
module Visualizer {
  import opened Base
  import opened Text
  import opened Sorting
  import opened Fusion
  import opened Transcript
  import Api
  import SubRip

  // ---------------------------------------------------------------------------
  // `_draw_face_box`: the colour of the box

  /** An OpenCV colour, blue, green and red. */
  datatype Colour = Colour(b: nat, g: nat, r: nat)

  const HighConfidenceColour := Colour(0, 255, 0)
  const MediumConfidenceColour := Colour(0, 165, 255)
  const LowConfidenceColour := Colour(0, 0, 255)

  /** The colour of a face box: green from confidence 0.8, orange from 0.6,
      red below. */
  function BoxColour(confidence: real): (c: Colour)
    ensures c == HighConfidenceColour <==> confidence >= 0.8
    ensures c == MediumConfidenceColour <==> 0.6 <= confidence < 0.8
    ensures c == LowConfidenceColour <==> confidence < 0.6
  {
    if confidence >= 0.8 then HighConfidenceColour
    else if confidence >= 0.6 then MediumConfidenceColour
    else LowConfidenceColour
  }

  /** How good a colour says a detection is: 2 for green, 1 for orange, 0
      for red. */
  function Grade(c: Colour): nat
  {
    if c == HighConfidenceColour then 2 else if c == MediumConfidenceColour then 1 else 0
  }

  /** A more confident face never gets a worse colour. */
  lemma BoxColourMonotone(a: real, b: real)
    requires a <= b
    ensures Grade(BoxColour(a)) <= Grade(BoxColour(b))
  {
  }

  // ---------------------------------------------------------------------------
  // `_draw_subtitle`

  /** The subtitle line: "speaker: text" when both are there, otherwise
      whichever is not empty. */
  function Caption(speaker: string, text: string): (subtitle: string)
    ensures subtitle == [] <==> speaker == [] && text == []
  {
    if speaker != [] && text != [] then speaker + ": " + text
    else if speaker != [] then speaker
    else text
  }

  /** A caption with both parts is the line the .srt writer puts in a
      block, and the .srt reader splits it back into speaker and text. */
  lemma CaptionSplitsBack(speaker: string, text: string)
    requires speaker != [] && text != [] && ':' !in speaker
    ensures Api.CaptionSplit(Caption(speaker, text)) == (speaker, text)
  {
    var e := SubRip.SrtEntry(0.0, 0.0, speaker, text);
    assert Caption(speaker, text) == SubRip.CaptionLine(e);
    Api.CaptionLineSplit(e);
  }

  /** The width of a wrapped line, in characters. */
  const MaxCharsPerLine := 80

  /** The loop body of the word wrap: `word` joins the last line, after a
      space, when the result fits, and starts a new line otherwise. */
  function AddWord(lines: seq<string>, word: string): (r: seq<string>)
  {
    if lines != [] && |lines[|lines| - 1]| + |word| + 1 <= MaxCharsPerLine then
      lines[..|lines| - 1] + [lines[|lines| - 1] + " " + word]
    else lines + [word]
  }

  /** The lines the words wrap into. */
  function Wrap(words: seq<string>): (lines: seq<string>)
    ensures |lines| <= |words| && (lines == [] <==> words == [])
  {
    if words == [] then [] else AddWord(Wrap(words[..|words| - 1]), words[|words| - 1])
  }

  /** The word-wrap loop of `_draw_subtitle`. */
  method WrapLines(subtitle: string) returns (lines: seq<string>)
    ensures lines == Wrap(SplitOn(subtitle, " "))
  {
    var words := SplitOn(subtitle, " ");
    lines := [];
    for k := 0 to |words|
      invariant lines == Wrap(words[..k])
    {
      assert words[..k + 1][..k] == words[..k];
      var word := words[k];
      if lines != [] && |lines[|lines| - 1]| + |word| + 1 <= MaxCharsPerLine {
        lines := lines[..|lines| - 1] + [lines[|lines| - 1] + " " + word];
      } else {
        lines := lines + [word];
      }
    }
    assert words[..|words|] == words;
  }

  /** Appending a word to the last line appends it to the joined text. */
  lemma JoinMerge(front: seq<string>, last: string, w: string)
    ensures Join(front + [last + " " + w], " ") == Join(front + [last], " ") + " " + w
  {
    var merged := last + " " + w;
    if front != [] {
      var j := Join(front, " ");
      JoinSnoc(front, " ", last);
      JoinSnoc(front, " ", merged);
      assert j + " " + merged == (j + " " + last) + " " + w;
    } else {
      assert front + [merged] == [merged];
      assert front + [last] == [last];
    }
  }

  /** The wrapped lines joined by spaces are the words joined by spaces. */
  lemma {:induction false} WrapJoin(words: seq<string>)
    ensures Join(Wrap(words), " ") == Join(words, " ")
    decreases |words|
  {
    if words != [] {
      var init, w := words[..|words| - 1], words[|words| - 1];
      var lines := Wrap(init);
      WrapJoin(init);
      assert words == init + [w];
      if init != [] {
        JoinSnoc(init, " ", w);
        if |lines[|lines| - 1]| + |w| + 1 <= MaxCharsPerLine {
          var front, last := lines[..|lines| - 1], lines[|lines| - 1];
          assert lines == front + [last];
          JoinMerge(front, last, w);
        } else {
          JoinSnoc(lines, " ", w);
        }
      }
    }
  }

  /** Word wrap round trip: the wrapped lines joined by spaces are the
      subtitle. */
  lemma WrapRoundTrip(subtitle: string)
    ensures Join(Wrap(SplitOn(subtitle, " ")), " ") == subtitle
  {
    WrapJoin(SplitOn(subtitle, " "));
    JoinSplit(subtitle, " ");
  }

  /** A wrapped line is longer than `MaxCharsPerLine` only when it is a
      single word. */
  lemma {:induction false} WrapLong(words: seq<string>)
    ensures forall i :: 0 <= i < |Wrap(words)| ==> |Wrap(words)[i]| <= MaxCharsPerLine || Wrap(words)[i] in words
    decreases |words|
  {
    if words != [] {
      var init := words[..|words| - 1];
      WrapLong(init);
      assert forall x :: x in init ==> x in words;
    }
  }

  /** The parts of a split on " " hold no space. */
  lemma {:induction false} SplitWords(s: string)
    ensures forall k :: 0 <= k < |SplitOn(s, " ")| ==> ' ' !in SplitOn(s, " ")[k]
    decreases |s|
  {
    match IndexOf(s, " ")
    case None =>
      forall j | 0 <= j < |s| ensures s[j] != ' ' {
        assert !OccursAt(s, " ", j);
      }
    case Some(i) =>
      forall j | 0 <= j < i ensures s[j] != ' ' {
        assert !OccursAt(s, " ", j);
      }
      SplitWords(s[i + 1..]);
  }

  /** What `_draw_subtitle` draws: nothing (the frame is returned
      untouched) for an empty subtitle, else its first three wrapped
      lines. */
  function DrawnLines(speaker: string, text: string): seq<string>
  {
    var subtitle := Caption(speaker, text);
    if subtitle == [] then []
    else
      var lines := Wrap(SplitOn(subtitle, " "));
      if |lines| <= 3 then lines else lines[..3]
  }

  /** The subtitle part of `_draw_subtitle`. */
  method DrawSubtitle(speaker: string, text: string) returns (drawn: seq<string>)
    ensures drawn == DrawnLines(speaker, text)
  {
    var subtitle: string;
    if speaker != [] && text != [] {
      subtitle := speaker + ": " + text;
    } else if speaker != [] {
      subtitle := speaker;
    } else if text != [] {
      subtitle := text;
    } else {
      subtitle := "";
    }
    if subtitle == [] {
      return [];
    }
    var lines := WrapLines(subtitle);
    drawn := if |lines| <= 3 then lines else lines[..3];
  }

  /** At most three lines are drawn, none for an empty subtitle; each is a
      line of the wrap, in order, and fits the width unless it is one word
      without spaces; when the wrap has at most three lines, they spell out
      the whole subtitle. */
  lemma DrawnLinesSpec(speaker: string, text: string)
    ensures var drawn := DrawnLines(speaker, text);
      |drawn| <= 3 && (drawn == [] <==> speaker == [] && text == []) &&
      forall i :: 0 <= i < |drawn| ==> |drawn[i]| <= MaxCharsPerLine || ' ' !in drawn[i]
    ensures var subtitle := Caption(speaker, text);
      |Wrap(SplitOn(subtitle, " "))| <= 3 ==> Join(DrawnLines(speaker, text), " ") == subtitle
  {
    var subtitle := Caption(speaker, text);
    var words := SplitOn(subtitle, " ");
    WrapLong(words);
    SplitWords(subtitle);
    WrapRoundTrip(subtitle);
    if subtitle == [] {
      assert Join(DrawnLines(speaker, text), " ") == [];
    }
  }

  // ---------------------------------------------------------------------------
  // Timelines

  /** One entry of a timeline: a time span and what to show in it. */
  datatype Span = Span(start: real, end: real, caption: string)

  function SpanStart(s: Span): real
  {
    s.start
  }

  /** The name of a cluster: the mapped one, or "Speaker `id`". */
  function SpeakerName(mapping: map<string, string>, clusterId: string): string
  {
    if clusterId in mapping then mapping[clusterId] else "Speaker " + clusterId
  }

  /** The span of a fused segment. */
  function SpeakerSpan(mapping: map<string, string>, s: SpeakerSegment): Span
  {
    Span(s.start, s.end, SpeakerName(mapping, s.speakerClusterId))
  }

  /** `_build_speaker_timeline`: the spans of the fused segments, stably
      sorted by start. */
  function SpeakerTimeline(segments: seq<SpeakerSegment>, mapping: map<string, string>): seq<Span>
  {
    SortBy(MapSeq(segments, s => SpeakerSpan(mapping, s)), SpanStart)
  }

  /** The loop of `_build_speaker_timeline`, then its `sorted`. */
  method BuildSpeakerTimeline(segments: seq<SpeakerSegment>, mapping: map<string, string>) returns (timeline: seq<Span>)
    ensures timeline == SpeakerTimeline(segments, mapping)
  {
    var spans: seq<Span> := [];
    for k := 0 to |segments|
      invariant spans == MapSeq(segments[..k], s => SpeakerSpan(mapping, s))
    {
      var segment := segments[k];
      var speakerName := if segment.speakerClusterId in mapping then mapping[segment.speakerClusterId]
        else "Speaker " + segment.speakerClusterId;
      spans := spans + [Span(segment.start, segment.end, speakerName)];
    }
    assert segments[..|segments|] == segments;
    timeline := SortBy(spans, SpanStart);
  }

  /** The speaker timeline is ordered by start, has one span per segment,
      and keeps segments with the same start in their input order. */
  lemma SpeakerTimelineSpec(segments: seq<SpeakerSegment>, mapping: map<string, string>)
    ensures var t := SpeakerTimeline(segments, mapping);
      var spans := MapSeq(segments, s => SpeakerSpan(mapping, s));
      SortedBy(t, SpanStart) && multiset(t) == multiset(spans) &&
      forall v :: WithKey(t, SpanStart, v) == WithKey(spans, SpanStart, v)
  {
    var spans := MapSeq(segments, s => SpeakerSpan(mapping, s));
    SortBySortedPermutation(spans, SpanStart);
    forall v ensures WithKey(SortBy(spans, SpanStart), SpanStart, v) == WithKey(spans, SpanStart, v) {
      SortByStable(spans, SpanStart, v);
    }
  }

  function SegmentStart(s: TranscriptSegment): real
  {
    s.start
  }

  function TranscriptSpan(s: TranscriptSegment): Span
  {
    Span(s.start, s.end, s.text)
  }

  /** `_build_transcript_timeline`: the segments stably sorted by start,
      then made spans. */
  function TranscriptTimeline(segments: seq<TranscriptSegment>): seq<Span>
  {
    MapSeq(SortBy(segments, SegmentStart), TranscriptSpan)
  }

  /** Sorting before making spans, as the transcript timeline does, gives
      what making spans and then sorting would: spans ordered by start, one
      per segment, equal starts in input order. */
  lemma TranscriptTimelineSpec(segments: seq<TranscriptSegment>)
    ensures TranscriptTimeline(segments) == SortBy(MapSeq(segments, TranscriptSpan), SpanStart)
    ensures var t := TranscriptTimeline(segments);
      var spans := MapSeq(segments, TranscriptSpan);
      SortedBy(t, SpanStart) && multiset(t) == multiset(spans) &&
      forall v :: WithKey(t, SpanStart, v) == WithKey(spans, SpanStart, v)
  {
    SortByMap(segments, SegmentStart, TranscriptSpan, SpanStart);
    var spans := MapSeq(segments, TranscriptSpan);
    SortBySortedPermutation(spans, SpanStart);
    forall v ensures WithKey(SortBy(spans, SpanStart), SpanStart, v) == WithKey(spans, SpanStart, v) {
      SortByStable(spans, SpanStart, v);
    }
  }

  // ---------------------------------------------------------------------------
  // `_get_speaker_at_time` and `_get_transcript_at_time`

  /** A span covers a time when it lies between its ends, both included. */
  predicate Covers(s: Span, t: real)
  {
    s.start <= t <= s.end
  }

  /** The first span covering `t`, if any. */
  function FirstCovering(timeline: seq<Span>, t: real): (r: Option<nat>)
    ensures r.Some? ==> r.value < |timeline| && Covers(timeline[r.value], t)
    ensures r.Some? ==> forall j :: 0 <= j < r.value ==> !Covers(timeline[j], t)
    ensures r.None? <==> forall j :: 0 <= j < |timeline| ==> !Covers(timeline[j], t)
  {
    if timeline == [] then None
    else if Covers(timeline[0], t) then Some(0)
    else
      match FirstCovering(timeline[1..], t)
      case None => None
      case Some(k) => Some(k + 1)
  }

  /** What is shown at time `t`: the label of the first span covering it,
      "" when none does. */
  function LabelAtTime(timeline: seq<Span>, t: real): string
  {
    match FirstCovering(timeline, t)
    case None => ""
    case Some(k) => timeline[k].caption
  }

  /** The loop both lookups share. */
  method GetLabelAtTime(t: real, timeline: seq<Span>) returns (caption: string)
    ensures caption == LabelAtTime(timeline, t)
  {
    for k := 0 to |timeline|
      invariant forall j :: 0 <= j < k ==> !Covers(timeline[j], t)
    {
      var span := timeline[k];
      if span.start <= t <= span.end {
        return span.caption;
      }
    }
    return "";
  }
}
