/**
 * Diarization segments, the conversion of the diarization pipeline's speaker
 * turns into segments, and the per-speaker statistics.
 */
module Audio {
  import opened Base
  import opened Tally

  /** One speaker turn found by diarization. */
  datatype DiarizationSegment = DiarizationSegment(speakerId: string, start: real, end: real, confidence: real)

  function Duration(s: DiarizationSegment): real
  {
    s.end - s.start
  }

  function SpeakerOf(s: DiarizationSegment): string
  {
    s.speakerId
  }

  /** A labelled turn as the diarization pipeline yields it. */
  datatype Turn = Turn(start: real, end: real, speaker: string)

  /** The segment made from a turn: the pipeline gives no confidence, so the
      default 1.0 is used. */
  function ToSegment(t: Turn): (s: DiarizationSegment)
    ensures s.speakerId == t.speaker && s.start == t.start && s.end == t.end
    ensures s.confidence == 1.0 && Duration(s) == t.end - t.start
  {
    DiarizationSegment(t.speaker, t.start, t.end, 1.0)
  }

  /** The turns lasting at least `minDuration`, converted, in order. */
  function Converted(turns: seq<Turn>, minDuration: real): seq<DiarizationSegment>
  {
    if turns == [] then []
    else
      var t := turns[|turns| - 1];
      Converted(turns[..|turns| - 1], minDuration) + (if t.end - t.start >= minDuration then [ToSegment(t)] else [])
  }

  /** The conversion loop of `perform_diarization`. */
  method ConvertTurns(turns: seq<Turn>, minDuration: real) returns (segments: seq<DiarizationSegment>)
    ensures segments == Converted(turns, minDuration)
  {
    segments := [];
    for i := 0 to |turns|
      invariant segments == Converted(turns[..i], minDuration)
    {
      assert turns[..i + 1][..i] == turns[..i];
      var turn := turns[i];
      if turn.end - turn.start >= minDuration {
        segments := segments + [ToSegment(turn)];
      }
    }
    assert turns[..|turns|] == turns;
  }

  /** Every segment comes from a turn at least `minDuration` long, has
      confidence 1.0, and every such turn gives a segment. */
  lemma {:induction false} ConvertedSpec(turns: seq<Turn>, minDuration: real)
    ensures forall k :: 0 <= k < |Converted(turns, minDuration)| ==>
              var s := Converted(turns, minDuration)[k];
              s.confidence == 1.0 && Duration(s) >= minDuration
              && exists j :: 0 <= j < |turns| && s == ToSegment(turns[j])
    ensures forall j :: 0 <= j < |turns| && turns[j].end - turns[j].start >= minDuration ==>
              ToSegment(turns[j]) in Converted(turns, minDuration)
  {
    if turns != [] {
      var p := turns[..|turns| - 1];
      ConvertedSpec(p, minDuration);
      var r := Converted(turns, minDuration);
      forall k | 0 <= k < |r|
        ensures r[k].confidence == 1.0 && Duration(r[k]) >= minDuration
        ensures exists j :: 0 <= j < |turns| && r[k] == ToSegment(turns[j])
      {
        if k < |Converted(p, minDuration)| {
          var j :| 0 <= j < |p| && Converted(p, minDuration)[k] == ToSegment(p[j]);
          assert r[k] == ToSegment(turns[j]);
        } else {
          assert r[k] == ToSegment(turns[|turns| - 1]);
        }
      }
      forall j | 0 <= j < |turns| && turns[j].end - turns[j].start >= minDuration
        ensures ToSegment(turns[j]) in r
      {
        if j < |p| {
          assert p[j] == turns[j];
        }
      }
    }
  }

  /** The conversion keeps the order of the turns. */
  lemma {:induction false} ConvertedAppend(a: seq<Turn>, b: seq<Turn>, minDuration: real)
    ensures Converted(a + b, minDuration) == Converted(a, minDuration) + Converted(b, minDuration)
    decreases |b|
  {
    if b == [] {
      assert a + b == a;
    } else {
      var c := b[..|b| - 1];
      assert (a + b)[..|a + b| - 1] == a + c;
      ConvertedAppend(a, c, minDuration);
    }
  }

  /** One value of the dict `get_speaker_statistics` returns. */
  datatype SpeakerStats = SpeakerStats(totalDuration: real, segmentCount: nat, avgSegmentDuration: real)

  /** The statistics of speaker `id`: its summed duration, its number of
      segments, and their mean (the count is positive for every speaker that
      has an entry). */
  function StatsOf(segments: seq<DiarizationSegment>, id: string): SpeakerStats
  {
    var total := Total(segments, SpeakerOf, Duration, id);
    var count := Count(segments, SpeakerOf, id);
    SpeakerStats(total, count, if count == 0 then 0.0 else total / count as real)
  }

  /** The first loop of `get_speaker_statistics`: one entry per speaker,
      created on first sight, with the summed duration and the count; `order`
      is the dict's key order. */
  method AccumulateSpeakers(segments: seq<DiarizationSegment>)
    returns (stats: map<string, SpeakerStats>, order: seq<string>)
    ensures order == Keys(segments, SpeakerOf)
    ensures forall id :: id in stats <==> id in order
    ensures forall id :: id in stats ==>
              stats[id] == SpeakerStats(Total(segments, SpeakerOf, Duration, id), Count(segments, SpeakerOf, id), 0.0)
  {
    stats := map[];
    order := [];
    for i := 0 to |segments|
      invariant order == Keys(segments[..i], SpeakerOf)
      invariant forall id :: id in stats <==> id in order
      invariant forall id :: id in stats ==>
                  stats[id] == SpeakerStats(Total(segments[..i], SpeakerOf, Duration, id),
                                            Count(segments[..i], SpeakerOf, id), 0.0)
    {
      var segment := segments[i];
      assert segments[..i + 1] == segments[..i] + [segment];
      TallySnoc(segments[..i], segment, SpeakerOf, Duration);
      if segment.speakerId !in stats {
        stats := stats[segment.speakerId := SpeakerStats(0.0, 0, 0.0)];
        order := order + [segment.speakerId];
        TotalAbsent(segments[..i], SpeakerOf, Duration, segment.speakerId);
        CountPositive(segments[..i], SpeakerOf, segment.speakerId);
      }
      var entry := stats[segment.speakerId];
      stats := stats[segment.speakerId := SpeakerStats(entry.totalDuration + Duration(segment), entry.segmentCount + 1, 0.0)];
    }
    assert segments[..|segments|] == segments;
  }

  /** `get_speaker_statistics`: the tally, then the averages written in a
      second pass over the dict. */
  method GetSpeakerStatistics(segments: seq<DiarizationSegment>)
    returns (stats: map<string, SpeakerStats>, order: seq<string>)
    ensures order == Keys(segments, SpeakerOf)
    ensures forall id :: id in stats <==> id in order
    ensures forall id :: id in stats ==> stats[id] == StatsOf(segments, id) && stats[id].segmentCount >= 1
  {
    var counted;
    counted, order := AccumulateSpeakers(segments);
    stats := AddAverages(segments, counted, order);
  }

  /** The second loop of `get_speaker_statistics`: each speaker's average
      written into its entry. */
  method AddAverages(segments: seq<DiarizationSegment>, counted: map<string, SpeakerStats>, order: seq<string>)
    returns (stats: map<string, SpeakerStats>)
    requires order == Keys(segments, SpeakerOf)
    requires forall id :: id in counted <==> id in order
    requires forall id :: id in counted ==>
               counted[id] == SpeakerStats(Total(segments, SpeakerOf, Duration, id), Count(segments, SpeakerOf, id), 0.0)
    ensures forall id :: id in stats <==> id in order
    ensures forall id :: id in stats ==> stats[id] == StatsOf(segments, id) && stats[id].segmentCount >= 1
  {
    stats := counted;
    KeysDistinct(segments, SpeakerOf);
    for j := 0 to |order|
      invariant forall id :: id in stats <==> id in order
      invariant forall k :: 0 <= k < j ==> stats[order[k]] == StatsOf(segments, order[k])
      invariant forall k :: j <= k < |order| ==> stats[order[k]] == counted[order[k]]
    {
      var id := order[j];
      var entry := stats[id];
      AveragedEntry(segments, id, entry);
      assert forall k :: 0 <= k < |order| && k != j ==> order[k] != id;
      stats := stats[id := entry.(avgSegmentDuration := entry.totalDuration / entry.segmentCount as real)];
    }
    forall id | id in stats ensures stats[id] == StatsOf(segments, id) && stats[id].segmentCount >= 1 {
      var k :| 0 <= k < |order| && order[k] == id;
      CountPositive(segments, SpeakerOf, id);
    }
  }

  /** The tallied entry of a speaker that has segments, with its average
      filled in, is that speaker's statistics. */
  lemma AveragedEntry(segments: seq<DiarizationSegment>, id: string, entry: SpeakerStats)
    requires id in Keys(segments, SpeakerOf)
    requires entry == SpeakerStats(Total(segments, SpeakerOf, Duration, id), Count(segments, SpeakerOf, id), 0.0)
    ensures entry.segmentCount >= 1
    ensures entry.(avgSegmentDuration := entry.totalDuration / entry.segmentCount as real) == StatsOf(segments, id)
  {
    CountPositive(segments, SpeakerOf, id);
  }

  /** Every segment is counted for exactly one speaker: the segment counts
      over all speakers add up to the number of segments. */
  lemma StatisticsCountAll(segments: seq<DiarizationSegment>)
    ensures SumCounts(Keys(segments, SpeakerOf), segments, SpeakerOf) == |segments|
  {
    CountsSum(segments, SpeakerOf);
  }

  /** The speakers with an entry are exactly those of the segments, each
      with at least one segment. */
  lemma StatisticsKeys(segments: seq<DiarizationSegment>)
    ensures forall i :: 0 <= i < |segments| ==> segments[i].speakerId in Keys(segments, SpeakerOf)
    ensures forall id :: id in Keys(segments, SpeakerOf) ==>
              StatsOf(segments, id).segmentCount >= 1
              && exists i :: 0 <= i < |segments| && segments[i].speakerId == id
  {
    KeysSpec(segments, SpeakerOf);
    forall id | id in Keys(segments, SpeakerOf) ensures StatsOf(segments, id).segmentCount >= 1 {
      CountPositive(segments, SpeakerOf, id);
    }
  }
}
