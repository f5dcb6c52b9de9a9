/**
 * Audio-visual fusion (`src/fusion/processor.py`): every diarization segment
 * is paired with the face most likely speaking in the video frames around
 * it, the clusters are mapped to their dominant faces, and the fused
 * segments are summarised.
 */
module Fusion {
  import opened Base
  import opened Tally
  import opened Video
  import opened Audio

  /** The `confidence_scores` dict of a fused segment. */
  datatype Scores = Scores(diarization: real, avAlignment: real, faceDetection: real)

  datatype SpeakerSegment = SpeakerSegment(
    speakerClusterId: string,
    faceId: Option<string>,
    start: real,
    end: real,
    scores: Scores)

  function SegmentDuration(s: SpeakerSegment): real
  {
    s.end - s.start
  }

  /** Python truthiness of an optional face id: present and not empty. */
  predicate HasFace(id: Option<string>)
  {
    id.Some? && id.value != ""
  }

  // ---------------------------------------------------------------------------
  // Frames around a segment

  /** The frame's timestamp lies within the segment widened by `tolerance`
      on both sides, ends included. */
  predicate InWindow(seg: DiarizationSegment, tolerance: real, f: FrameData)
  {
    seg.start - tolerance <= f.timestamp <= seg.end + tolerance
  }

  function WindowTest(seg: DiarizationSegment, tolerance: real): FrameData -> bool
  {
    f => InWindow(seg, tolerance, f)
  }

  /** The frames `_get_overlapping_frames` keeps. */
  function Overlapping(seg: DiarizationSegment, frames: seq<FrameData>, tolerance: real): seq<FrameData>
  {
    Filter(frames, WindowTest(seg, tolerance))
  }

  /** The kept frames are exactly the frames in the window, in their order. */
  lemma OverlappingSpec(seg: DiarizationSegment, frames: seq<FrameData>, tolerance: real)
    ensures forall f :: f in Overlapping(seg, frames, tolerance) <==> f in frames && InWindow(seg, tolerance, f)
    ensures forall a, b :: frames == a + b ==>
              Overlapping(seg, frames, tolerance) == Overlapping(seg, a, tolerance) + Overlapping(seg, b, tolerance)
  {
    FilterMembers(frames, WindowTest(seg, tolerance));
    forall a, b | frames == a + b
      ensures Overlapping(seg, frames, tolerance) == Overlapping(seg, a, tolerance) + Overlapping(seg, b, tolerance)
    {
      FilterAppend(a, b, WindowTest(seg, tolerance));
    }
  }

  // ---------------------------------------------------------------------------
  // The speaking face

  /** The evidence one observation of a face contributes: lip movement
      (doubled, only when positive), half the box area in millions of
      pixels, and half the detection confidence. */
  function FaceScore(face: Face): real
  {
    (if face.lipMovement > 0.0 then face.lipMovement * 2.0 else 0.0)
    + (Area(face) as real / 1000000.0) * 0.5
    + face.confidence * 0.5
  }

  function FaceKey(face: Face): string
  {
    face.faceId
  }

  /** All faces of the frames, frame after frame. */
  function Observations(frames: seq<FrameData>): seq<Face>
  {
    if frames == [] then [] else Observations(frames[..|frames| - 1]) + frames[|frames| - 1].faces
  }

  lemma ObservationsSnoc(frames: seq<FrameData>, f: FrameData)
    ensures Observations(frames + [f]) == Observations(frames) + f.faces
  {
    assert (frames + [f])[..|frames|] == frames;
  }

  /** Every observation is a face of one of the frames. */
  lemma {:induction false} ObservationsFrom(frames: seq<FrameData>, face: Face)
    requires face in Observations(frames)
    ensures exists i :: 0 <= i < |frames| && face in frames[i].faces
  {
    var init := frames[..|frames| - 1];
    if face in Observations(init) {
      ObservationsFrom(init, face);
      var i :| 0 <= i < |init| && face in init[i].faces;
      assert frames[i] == init[i];
    } else {
      assert face in frames[|frames| - 1].faces;
    }
  }

  /** The mean score of face `id` over the observations. */
  function MeanScore(obs: seq<Face>, id: string): real
  {
    var c := Count(obs, FaceKey, id);
    if c == 0 then 0.0 else Total(obs, FaceKey, FaceScore, id) / c as real
  }

  function MeanOf(obs: seq<Face>): string -> real
  {
    id => MeanScore(obs, id)
  }

  /** `_identify_speaking_face`: the face whose mean score is highest
      (the first one seen among equals, and only above 0), with confidence
      `min(1, best / 3)`; the face is dropped, the confidence kept, below the
      alignment threshold. */
  function SpeakingFace(frames: seq<FrameData>, threshold: real): (Option<string>, real)
  {
    if frames == [] then (None, 0.0) else SpeakingOf(Observations(frames), threshold)
  }

  /** The same choice over the faces observed in the frames. */
  function SpeakingOf(obs: seq<Face>, threshold: real): (Option<string>, real)
  {
    if obs == [] then (None, 0.0)
    else
      var best := BestAbove(Keys(obs, FaceKey), MeanOf(obs), 0.0);
      var confidence := Min(1.0, best.0 / 3.0);
      if confidence < threshold then (None, confidence) else (best.1, confidence)
  }

  /** What `_identify_speaking_face` promises about its result `(id,
      confidence)` over the observed faces `obs`: the confidence lies in
      [0, 1] and is `min(1, best / 3)` for the best mean score `best` (0 when
      no mean is positive), whether or not the face passes the threshold; a
      face comes back exactly when some mean is positive and the confidence
      reaches the threshold, so none when no face was observed; a returned
      face was observed, has a positive mean score that no face exceeds, and
      is seen no later than any face with the same mean. */
  ghost predicate SpeakingChoice(obs: seq<Face>, threshold: real, id: Option<string>, confidence: real)
  {
    && 0.0 <= confidence <= 1.0
    && (obs == [] ==> id == None && confidence == 0.0)
    && (forall face :: face in obs ==> Min(1.0, MeanScore(obs, face.faceId) / 3.0) <= confidence)
    && (confidence == 0.0 || exists face :: face in obs && confidence == Min(1.0, MeanScore(obs, face.faceId) / 3.0))
    && (id.Some? <==> confidence >= threshold && exists face :: face in obs && MeanScore(obs, face.faceId) > 0.0)
    && (id.Some? ==>
          && (exists j :: 0 <= j < |obs| && obs[j].faceId == id.value)
          && MeanScore(obs, id.value) > 0.0
          && (forall face :: face in obs ==> MeanScore(obs, face.faceId) <= MeanScore(obs, id.value))
          && forall i :: 0 <= i < |obs| && MeanScore(obs, obs[i].faceId) == MeanScore(obs, id.value) ==>
               exists j :: 0 <= j <= i && obs[j].faceId == id.value)
  }

  /** `_identify_speaking_face` keeps those promises over the faces of the
      frames, and a returned face appears in one of the frames. */
  lemma SpeakingFaceSpec(frames: seq<FrameData>, threshold: real)
    ensures var r := SpeakingFace(frames, threshold);
      && SpeakingChoice(Observations(frames), threshold, r.0, r.1)
      && (r.0.Some? ==> exists i :: 0 <= i < |frames| && exists face :: face in frames[i].faces && face.faceId == r.0.value)
  {
    var obs := Observations(frames);
    assert SpeakingFace(frames, threshold) == SpeakingOf(obs, threshold);
    var j := SpeakingOfSpec(obs, threshold);
    if j >= 0 {
      ObservationsFrom(frames, obs[j]);
    }
  }

  /** The choice over an observation list keeps the promises; `j` is where
      the returned face was observed. */
  lemma SpeakingOfSpec(obs: seq<Face>, threshold: real) returns (j: int)
    ensures -1 <= j < |obs|
    ensures SpeakingOf(obs, threshold).0.Some? ==> j >= 0 && obs[j].faceId == SpeakingOf(obs, threshold).0.value
    ensures SpeakingChoice(obs, threshold, SpeakingOf(obs, threshold).0, SpeakingOf(obs, threshold).1)
  {
    j := -1;
    if obs != [] {
      var w := BestMean(obs);
      var best := BestAbove(Keys(obs, FaceKey), MeanOf(obs), 0.0);
      ConfidenceOfBest(obs, best.0, w);
      if best.1.Some? {
        j := w;
      }
    }
  }

  /** `min(1, best / 3)` for a best mean that bounds every mean and is 0 or
      some face's mean: it lies in [0, 1], bounds `min(1, mean / 3)` of every
      face, and is 0 or that value for some face. */
  lemma ConfidenceOfBest(obs: seq<Face>, best: real, w: int)
    requires best >= 0.0 && -1 <= w < |obs|
    requires forall face :: face in obs ==> MeanScore(obs, face.faceId) <= best
    requires w == -1 ==> best == 0.0
    requires w >= 0 ==> MeanScore(obs, obs[w].faceId) == best
    ensures var confidence := Min(1.0, best / 3.0);
      && 0.0 <= confidence <= 1.0
      && (forall face :: face in obs ==> Min(1.0, MeanScore(obs, face.faceId) / 3.0) <= confidence)
      && (confidence == 0.0 || exists face :: face in obs && confidence == Min(1.0, MeanScore(obs, face.faceId) / 3.0))
  {
    if w >= 0 {
      assert obs[w] in obs;
    }
  }

  /** The running maximum over the mean scores of the observed faces: it is
      0 or the mean of an observed face, no observed face has a larger mean,
      a face is kept exactly when some mean is positive, and the kept face is
      seen no later than any face with the same mean. */
  lemma BestMean(obs: seq<Face>) returns (w: int)
    ensures var best := BestAbove(Keys(obs, FaceKey), MeanOf(obs), 0.0);
      && -1 <= w < |obs|
      && (w == -1 <==> best.1.None?)
      && (forall face :: face in obs ==> MeanScore(obs, face.faceId) <= best.0)
      && (best.1.None? ==> best.0 == 0.0 && forall face :: face in obs ==> MeanScore(obs, face.faceId) <= 0.0)
      && (best.1.Some? ==>
            && obs[w].faceId == best.1.value
            && best.0 == MeanScore(obs, best.1.value) > 0.0
            && forall i :: 0 <= i < |obs| && MeanScore(obs, obs[i].faceId) == best.0 ==>
                 exists j :: 0 <= j <= i && obs[j].faceId == best.1.value)
  {
    BestKeySpec(obs, FaceKey, MeanOf(obs), 0.0);
    var best := BestAbove(Keys(obs, FaceKey), MeanOf(obs), 0.0);
    forall face | face in obs
      ensures MeanScore(obs, face.faceId) <= best.0
    {
      var m :| 0 <= m < |obs| && obs[m] == face;
      assert MeanOf(obs)(FaceKey(obs[m])) <= best.0;
    }
    w := -1;
    if best.1.Some? {
      w :| 0 <= w < |obs| && FaceKey(obs[w]) == best.1.value;
      forall i | 0 <= i < |obs| && MeanScore(obs, obs[i].faceId) == best.0
        ensures exists j :: 0 <= j <= i && obs[j].faceId == best.1.value
      {
        assert MeanOf(obs)(FaceKey(obs[i])) == best.0;
      }
    }
  }

  /** Frames without faces give no face and confidence 0. */
  lemma SpeakingFaceNoFaceWhenEmpty(frames: seq<FrameData>, threshold: real)
    requires forall i :: 0 <= i < |frames| ==> frames[i].faces == []
    ensures SpeakingFace(frames, threshold) == (None, 0.0)
  {
    if frames != [] {
      NoObservations(frames);
    }
  }

  lemma {:induction false} NoObservations(frames: seq<FrameData>)
    requires forall i :: 0 <= i < |frames| ==> frames[i].faces == []
    ensures Observations(frames) == []
  {
    if frames != [] {
      NoObservations(frames[..|frames| - 1]);
    }
  }

  // ---------------------------------------------------------------------------
  // Fusing one segment

  /** The fused segment for one diarization segment: its speaker, times and
      diarization confidence, and the speaking face of the frames around it
      (none, with zero scores, when no frame is near). */
  function FuseOne(seg: DiarizationSegment, frames: seq<FrameData>, tolerance: real, threshold: real): SpeakerSegment
  {
    var near := Overlapping(seg, frames, tolerance);
    if near == [] then
      SpeakerSegment(seg.speakerId, None, seg.start, seg.end, Scores(seg.confidence, 0.0, 0.0))
    else
      var (id, confidence) := SpeakingFace(near, threshold);
      SpeakerSegment(seg.speakerId, id, seg.start, seg.end,
                     Scores(seg.confidence, confidence, if HasFace(id) then 1.0 else 0.0))
  }

  /** Each fused segment copies the speaker, the times and the diarization
      confidence; its face and alignment score are the speaking face and its
      confidence over the frames nearby (`SpeakingChoice`), so the alignment
      score lies in [0, 1]; the face-detection
      score is 1 exactly when a non-empty face id was kept; a segment with no
      frame nearby has no face and zero scores; and a kept face appears in a
      frame within the window. */
  lemma FuseOneSpec(seg: DiarizationSegment, frames: seq<FrameData>, tolerance: real, threshold: real)
    ensures var r := FuseOne(seg, frames, tolerance, threshold);
      && r.speakerClusterId == seg.speakerId && r.start == seg.start && r.end == seg.end
      && r.scores.diarization == seg.confidence
      && 0.0 <= r.scores.avAlignment <= 1.0
      && (r.scores.faceDetection == 1.0 <==> HasFace(r.faceId))
      && (r.scores.faceDetection == 0.0 <==> !HasFace(r.faceId))
      && (Overlapping(seg, frames, tolerance) == [] ==>
            r.faceId == None && r.scores.avAlignment == 0.0 && r.scores.faceDetection == 0.0)
      && (Overlapping(seg, frames, tolerance) != [] ==>
            SpeakingChoice(Observations(Overlapping(seg, frames, tolerance)), threshold, r.faceId, r.scores.avAlignment))
      && (r.faceId.Some? ==>
            exists f :: f in frames && InWindow(seg, tolerance, f)
                        && exists face :: face in f.faces && face.faceId == r.faceId.value)
  {
    var near := Overlapping(seg, frames, tolerance);
    if near != [] {
      SpeakingFaceSpec(near, threshold);
      OverlappingSpec(seg, frames, tolerance);
      var r := FuseOne(seg, frames, tolerance, threshold);
      if r.faceId.Some? {
        var i :| 0 <= i < |near| && exists face :: face in near[i].faces && face.faceId == r.faceId.value;
        assert near[i] in near;
      }
    }
  }

  // ---------------------------------------------------------------------------
  // Mapping clusters to faces

  function FaceOfSegment(s: SpeakerSegment): string
  {
    if s.faceId.Some? then s.faceId.value else ""
  }

  function ClusterOf(s: SpeakerSegment): string
  {
    s.speakerClusterId
  }

  predicate SegmentHasFace(s: SpeakerSegment)
  {
    HasFace(s.faceId)
  }

  /** The evidence a segment gives for its face: alignment times duration. */
  function Weight(s: SpeakerSegment): real
  {
    s.scores.avAlignment * SegmentDuration(s)
  }

  predicate Supports(cluster: string, s: SpeakerSegment)
  {
    HasFace(s.faceId) && s.speakerClusterId == cluster
  }

  function SupportsTest(cluster: string): SpeakerSegment -> bool
  {
    s => Supports(cluster, s)
  }

  /** The face-bearing segments of one cluster. */
  function SupportOf(segs: seq<SpeakerSegment>, cluster: string): seq<SpeakerSegment>
  {
    Filter(segs, SupportsTest(cluster))
  }

  /** The clusters with a face-bearing segment, in the order
      `speaker_faces` receives them. */
  function MappedClusters(segs: seq<SpeakerSegment>): seq<string>
  {
    Keys(Filter(segs, SegmentHasFace), ClusterOf)
  }

  /** The faces of a cluster, in the order its inner dict receives them. */
  function FacesOf(segs: seq<SpeakerSegment>, cluster: string): seq<string>
  {
    Keys(SupportOf(segs, cluster), FaceOfSegment)
  }

  /** The accumulated weight of `face` for `cluster`. */
  function FaceWeight(segs: seq<SpeakerSegment>, cluster: string, face: string): real
  {
    Total(SupportOf(segs, cluster), FaceOfSegment, Weight, face)
  }

  function WeightOf(segs: seq<SpeakerSegment>, cluster: string): string -> real
  {
    face => FaceWeight(segs, cluster, face)
  }

  /** `build_speaker_face_mapping`: every cluster with a face-bearing
      segment, mapped to its first face of maximal accumulated weight. */
  function SpeakerFaceMapping(segs: seq<SpeakerSegment>): map<string, string>
  {
    map c | c in MappedClusters(segs) :: (SupportNonEmpty(segs, c); ArgMax(FacesOf(segs, c), WeightOf(segs, c)))
  }

  /** A mapped cluster has a face-bearing segment, hence a face. */
  lemma SupportNonEmpty(segs: seq<SpeakerSegment>, c: string)
    requires c in MappedClusters(segs)
    ensures FacesOf(segs, c) != []
  {
    var withFace := Filter(segs, SegmentHasFace);
    KeysSpec(withFace, ClusterOf);
    var i :| 0 <= i < |withFace| && ClusterOf(withFace[i]) == c;
    FilterMembers(segs, SegmentHasFace);
    FilterMembers(segs, SupportsTest(c));
    assert withFace[i] in SupportOf(segs, c);
    KeysSpec(SupportOf(segs, c), FaceOfSegment);
  }

  /** The mapping covers exactly the clusters of face-bearing segments. */
  lemma MappingDomain(segs: seq<SpeakerSegment>)
    ensures forall c :: c in SpeakerFaceMapping(segs) <==>
              exists i :: 0 <= i < |segs| && Supports(c, segs[i])
  {
    var withFace := Filter(segs, SegmentHasFace);
    KeysSpec(withFace, ClusterOf);
    FilterMembers(segs, SegmentHasFace);
    forall c ensures c in MappedClusters(segs) <==> exists i :: 0 <= i < |segs| && Supports(c, segs[i]) {
      if c in MappedClusters(segs) {
        var j :| 0 <= j < |withFace| && ClusterOf(withFace[j]) == c;
        assert withFace[j] in segs;
        var i :| 0 <= i < |segs| && segs[i] == withFace[j];
        assert Supports(c, segs[i]);
      }
      if exists i :: 0 <= i < |segs| && Supports(c, segs[i]) {
        var i :| 0 <= i < |segs| && Supports(c, segs[i]);
        assert segs[i] in withFace;
        var j :| 0 <= j < |withFace| && withFace[j] == segs[i];
        assert ClusterOf(withFace[j]) in MappedClusters(segs);
      }
    }
  }

  /** `build_speaker_face_mapping` maps exactly the clusters of
      face-bearing segments, each to a face seen with it whose accumulated
      weight no other face of the cluster beats. */
  lemma SpeakerFaceMappingSpec(segs: seq<SpeakerSegment>)
    ensures var m := SpeakerFaceMapping(segs);
      && (forall c :: c in m <==> exists i :: 0 <= i < |segs| && Supports(c, segs[i]))
      && (forall c :: c in m ==>
            && (exists i :: 0 <= i < |segs| && Supports(c, segs[i]) && segs[i].faceId.value == m[c])
            && forall i :: 0 <= i < |segs| && Supports(c, segs[i]) ==>
                 FaceWeight(segs, c, segs[i].faceId.value) <= FaceWeight(segs, c, m[c]))
  {
    MappingDomain(segs);
    forall c | c in SpeakerFaceMapping(segs)
      ensures exists i :: 0 <= i < |segs| && Supports(c, segs[i]) && segs[i].faceId.value == SpeakerFaceMapping(segs)[c]
      ensures forall i :: 0 <= i < |segs| && Supports(c, segs[i]) ==>
                FaceWeight(segs, c, segs[i].faceId.value) <= FaceWeight(segs, c, SpeakerFaceMapping(segs)[c])
    {
      MappedFaceSpec(segs, c);
    }
  }

  lemma MappedFaceSpec(segs: seq<SpeakerSegment>, c: string)
    requires c in MappedClusters(segs)
    ensures var best := SpeakerFaceMapping(segs)[c];
      && (exists i :: 0 <= i < |segs| && Supports(c, segs[i]) && segs[i].faceId.value == best)
      && forall i :: 0 <= i < |segs| && Supports(c, segs[i]) ==>
           FaceWeight(segs, c, segs[i].faceId.value) <= FaceWeight(segs, c, best)
  {
    SupportNonEmpty(segs, c);
    var support := SupportOf(segs, c);
    var best := SpeakerFaceMapping(segs)[c];
    ArgMaxKeySpec(support, FaceOfSegment, WeightOf(segs, c));
    FilterMembers(segs, SupportsTest(c));
    var j :| 0 <= j < |support| && FaceOfSegment(support[j]) == best;
    assert support[j] in segs;
    forall i | 0 <= i < |segs| && Supports(c, segs[i])
      ensures FaceWeight(segs, c, segs[i].faceId.value) <= FaceWeight(segs, c, best)
    {
      assert segs[i] in support;
      var m :| 0 <= m < |support| && support[m] == segs[i];
      assert WeightOf(segs, c)(FaceOfSegment(support[m])) <= WeightOf(segs, c)(best);
    }
  }

  // ---------------------------------------------------------------------------
  // Statistics

  datatype FusionStats = FusionStats(
    totalSegments: nat,
    segmentsWithFaces: nat,
    uniqueSpeakers: nat,
    uniqueFaces: nat,
    avgDiarization: Option<real>,
    avgAlignment: Option<real>,
    totalDuration: real)

  function Diarization(segs: seq<SpeakerSegment>): seq<real>
  {
    seq(|segs|, i requires 0 <= i < |segs| => segs[i].scores.diarization)
  }

  function Alignment(segs: seq<SpeakerSegment>): seq<real>
  {
    seq(|segs|, i requires 0 <= i < |segs| => segs[i].scores.avAlignment)
  }

  function Durations(segs: seq<SpeakerSegment>): seq<real>
  {
    seq(|segs|, i requires 0 <= i < |segs| => SegmentDuration(segs[i]))
  }

  /** `np.mean`, which has no value on an empty list. */
  function MeanOrNone(xs: seq<real>): Option<real>
  {
    if xs == [] then None else Some(Sum(xs) / |xs| as real)
  }

  /** `get_statistics`. */
  function Statistics(segs: seq<SpeakerSegment>): FusionStats
  {
    FusionStats(
      |segs|,
      |Filter(segs, SegmentHasFace)|,
      |KeySet(segs, ClusterOf)|,
      |KeySet(Filter(segs, SegmentHasFace), FaceOfSegment)|,
      MeanOrNone(Diarization(segs)),
      MeanOrNone(Alignment(segs)),
      Sum(Durations(segs)))
  }

  lemma {:induction false} SumBounds(xs: seq<real>, lo: real, hi: real)
    requires forall i :: 0 <= i < |xs| ==> lo <= xs[i] <= hi
    ensures |xs| as real * lo <= Sum(xs) <= |xs| as real * hi
  {
    if xs != [] {
      SumBounds(xs[..|xs| - 1], lo, hi);
    }
  }

  lemma MeanUnit(total: real, n: real)
    requires n > 0.0 && 0.0 <= total <= n
    ensures 0.0 <= total / n <= 1.0
  {
  }

  /** The counts are bounded by the number of segments, and the distinct
      speakers and faces are as many as the clusters and faces a dict
      filled from the segments would collect. */
  lemma StatisticsCounts(segs: seq<SpeakerSegment>)
    ensures var st := Statistics(segs);
      && st.totalSegments == |segs|
      && st.segmentsWithFaces <= st.totalSegments
      && st.uniqueSpeakers == |Keys(segs, ClusterOf)| <= st.totalSegments
      && st.uniqueFaces == |Keys(Filter(segs, SegmentHasFace), FaceOfSegment)| <= st.segmentsWithFaces
      && (segs != [] ==> st.uniqueSpeakers >= 1)
  {
    KeysCount(segs, ClusterOf);
    KeysCount(Filter(segs, SegmentHasFace), FaceOfSegment);
    if segs != [] {
      KeysSpec(segs, ClusterOf);
      assert ClusterOf(segs[0]) in Keys(segs, ClusterOf);
    }
  }

  /** When every alignment score lies in [0, 1], as `fuse` guarantees, so
      does their mean. */
  lemma StatisticsAlignment(segs: seq<SpeakerSegment>)
    requires segs != []
    requires forall i :: 0 <= i < |segs| ==> 0.0 <= segs[i].scores.avAlignment <= 1.0
    ensures 0.0 <= Statistics(segs).avgAlignment.value <= 1.0
  {
    SumBounds(Alignment(segs), 0.0, 1.0);
    MeanUnit(Sum(Alignment(segs)), |segs| as real);
  }

  // ---------------------------------------------------------------------------
  // The fusion processor

  /** The `face_scores` and `face_counts` dicts (with their key order) after
      the faces `seen`: one entry per face id, holding its summed score and
      its number of observations. */
  ghost predicate Tallied(scores: map<string, real>, counts: map<string, nat>, order: seq<string>, seen: seq<Face>)
  {
    && order == Keys(seen, FaceKey)
    && (forall id :: id in scores <==> id in order)
    && (forall id :: id in counts <==> id in order)
    && forall id :: id in scores ==>
         scores[id] == Total(seen, FaceKey, FaceScore, id) && counts[id] == Count(seen, FaceKey, id)
  }

  /** The tally is empty exactly when no face was seen. */
  lemma NoFacesTallied(scores: map<string, real>, counts: map<string, nat>, order: seq<string>, seen: seq<Face>)
    requires Tallied(scores, counts, order, seen)
    ensures |scores| == 0 <==> seen == []
  {
    if seen == [] {
      assert scores == map[];
    } else {
      assert order[0] in scores;
    }
  }

  class AudioVisualFusion {
    const alignmentTolerance: real
    const diarizationThreshold: real
    const avThreshold: real

    /** The settings `AudioVisualFusion.__init__` reads from the fusion
        section (defaults 0.5, 0.6 and 0.5). */
    constructor (tolerance: real, diarization: real, av: real)
      ensures alignmentTolerance == tolerance && diarizationThreshold == diarization && avThreshold == av
    {
      alignmentTolerance, diarizationThreshold, avThreshold := tolerance, diarization, av;
    }

    /** `_get_overlapping_frames`. */
    method GetOverlappingFrames(seg: DiarizationSegment, frames: seq<FrameData>) returns (overlapping: seq<FrameData>)
      ensures overlapping == Overlapping(seg, frames, alignmentTolerance)
    {
      overlapping := [];
      for i := 0 to |frames|
        invariant overlapping == Overlapping(seg, frames[..i], alignmentTolerance)
      {
        assert frames[..i + 1] == frames[..i] + [frames[i]];
        FilterSnoc(frames[..i], frames[i], WindowTest(seg, alignmentTolerance));
        if seg.start - alignmentTolerance <= frames[i].timestamp <= seg.end + alignmentTolerance {
          overlapping := overlapping + [frames[i]];
        }
      }
      assert frames[..|frames|] == frames;
    }

    /** The score one observation adds, summed term by term as the source
        does. */
    method ScoreFace(face: Face) returns (score: real)
      ensures score == FaceScore(face)
    {
      score := 0.0;
      if face.lipMovement > 0.0 {
        score := score + face.lipMovement * 2.0;
      }
      score := score + (Area(face) as real / 1000000.0) * 0.5;
      score := score + face.confidence * 0.5;
    }

    /** `face_scores[id] += score; face_counts[id] += 1` for one face. */
    method AddFace(scores: map<string, real>, counts: map<string, nat>, order: seq<string>,
                   ghost seen: seq<Face>, face: Face)
      returns (scores': map<string, real>, counts': map<string, nat>, order': seq<string>)
      requires Tallied(scores, counts, order, seen)
      ensures Tallied(scores', counts', order', seen + [face])
    {
      TallySnoc(seen, face, FaceKey, FaceScore);
      scores', counts', order' := scores, counts, order;
      if face.faceId !in scores {
        TotalAbsent(seen, FaceKey, FaceScore, face.faceId);
        CountPositive(seen, FaceKey, face.faceId);
        scores' := scores'[face.faceId := 0.0];
        counts' := counts'[face.faceId := 0];
        order' := order' + [face.faceId];
      }
      var score := ScoreFace(face);
      scores' := scores'[face.faceId := scores'[face.faceId] + score];
      counts' := counts'[face.faceId := counts'[face.faceId] + 1];
    }

    /** The inner loop of `_identify_speaking_face` over the faces of one
        frame. */
    method AddFaces(scores: map<string, real>, counts: map<string, nat>, order: seq<string>,
                    ghost seen: seq<Face>, faces: seq<Face>)
      returns (scores': map<string, real>, counts': map<string, nat>, order': seq<string>)
      requires Tallied(scores, counts, order, seen)
      ensures Tallied(scores', counts', order', seen + faces)
    {
      scores', counts', order' := scores, counts, order;
      assert seen + faces[..0] == seen;
      for j := 0 to |faces|
        invariant Tallied(scores', counts', order', seen + faces[..j])
      {
        assert seen + faces[..j + 1] == (seen + faces[..j]) + [faces[j]];
        scores', counts', order' := AddFace(scores', counts', order', seen + faces[..j], faces[j]);
      }
      assert faces[..|faces|] == faces;
    }

    /** The accumulation loop of `_identify_speaking_face` over the frames;
        frames without faces are skipped. */
    method TallyFrames(frames: seq<FrameData>)
      returns (scores: map<string, real>, counts: map<string, nat>, order: seq<string>, ghost seen: seq<Face>)
      ensures seen == Observations(frames)
      ensures Tallied(scores, counts, order, seen)
    {
      scores, counts, order, seen := map[], map[], [], [];
      for i := 0 to |frames|
        invariant seen == Observations(frames[..i])
        invariant Tallied(scores, counts, order, seen)
      {
        assert frames[..i + 1] == frames[..i] + [frames[i]];
        ObservationsSnoc(frames[..i], frames[i]);
        if frames[i].faces == [] {
          assert seen + frames[i].faces == seen;
          continue;
        }
        scores, counts, order := AddFaces(scores, counts, order, seen, frames[i].faces);
        seen := seen + frames[i].faces;
      }
      assert frames[..|frames|] == frames;
    }

    /** `_identify_speaking_face`. */
    method IdentifySpeakingFace(frames: seq<FrameData>) returns (faceId: Option<string>, confidence: real)
      ensures (faceId, confidence) == SpeakingFace(frames, avThreshold)
    {
      if frames == [] {
        return None, 0.0;
      }
      var scores, counts, order, seen := TallyFrames(frames);
      NoFacesTallied(scores, counts, order, seen);
      if |scores| == 0 {
        return None, 0.0;
      }
      var bestScore, bestFaceId := SelectBest(scores, counts, order, seen);
      confidence := Min(1.0, bestScore / 3.0);
      if confidence < avThreshold {
        return None, confidence;
      }
      return bestFaceId, confidence;
    }

    /** The selection loop of `_identify_speaking_face`: walks the dict in
        key order, keeping a face only when its mean strictly beats the best
        so far (which starts at 0). */
    method SelectBest(scores: map<string, real>, counts: map<string, nat>, order: seq<string>, ghost seen: seq<Face>)
      returns (bestScore: real, bestFaceId: Option<string>)
      requires Tallied(scores, counts, order, seen)
      ensures (bestScore, bestFaceId) == BestAbove(Keys(seen, FaceKey), MeanOf(seen), 0.0)
    {
      bestScore := 0.0;
      bestFaceId := None;
      for j := 0 to |order|
        invariant (bestScore, bestFaceId) == BestAbove(order[..j], MeanOf(seen), 0.0)
      {
        var id := order[j];
        assert order[..j + 1][..j] == order[..j];
        assert id in order;
        CountPositive(seen, FaceKey, id);
        var avg := scores[id] / counts[id] as real;
        assert avg == MeanOf(seen)(id);
        if avg > bestScore {
          bestScore := avg;
          bestFaceId := Some(id);
        }
      }
      assert order[..|order|] == order;
    }

    /** `fuse`: one fused segment per diarization segment, in order. */
    method Fuse(diarization: seq<DiarizationSegment>, frames: seq<FrameData>) returns (fused: seq<SpeakerSegment>)
      ensures |fused| == |diarization|
      ensures forall i :: 0 <= i < |diarization| ==>
                fused[i] == FuseOne(diarization[i], frames, alignmentTolerance, avThreshold)
    {
      fused := [];
      for i := 0 to |diarization|
        invariant |fused| == i
        invariant forall k :: 0 <= k < i ==> fused[k] == FuseOne(diarization[k], frames, alignmentTolerance, avThreshold)
      {
        var seg := diarization[i];
        var overlapping := GetOverlappingFrames(seg, frames);
        if overlapping == [] {
          fused := fused + [SpeakerSegment(seg.speakerId, None, seg.start, seg.end, Scores(seg.confidence, 0.0, 0.0))];
          continue;
        }
        var faceId, confidence := IdentifySpeakingFace(overlapping);
        var detection := if faceId.Some? && faceId.value != "" then 1.0 else 0.0;
        fused := fused + [SpeakerSegment(seg.speakerId, faceId, seg.start, seg.end, Scores(seg.confidence, confidence, detection))];
      }
    }
  }
}
