/**
 * The face tracker of `src/video/processor.py`: integer box geometry, the
 * size filter applied to raw detections, the IoU tracker whose state is the
 * `face_tracks` dict, the `next_face_id` counter and the `face_history`
 * lists, the lip-movement normalisation, and the per-track statistics.
 *
 * The detector and the face-mesh model are not part of this model: raw
 * detections arrive as relative boxes with a score, and each face-mesh
 * result is reduced to the upper/lower lip distance it yields.
 */
module Video {
  import opened Base
  import opened Text
  import Tally

  // ---------------------------------------------------------------------------
  // Faces and boxes

  /** A bounding box `(x, y, w, h)` in pixels. */
  datatype BBox = BBox(x: int, y: int, w: int, h: int)

  /** A face in one frame; `landmarks` is not kept (see the lip model below). */
  datatype Face = Face(faceId: string, bbox: BBox, confidence: real, lipMovement: real)

  datatype FrameData = FrameData(timestamp: real, frameNumber: int, faces: seq<Face>)

  /** `Face.center`: `(x + w // 2, y + h // 2)`; `//` by 2 is floor division,
      which Dafny's `/` agrees with for a positive divisor. */
  function Center(f: Face): (int, int)
  {
    (f.bbox.x + f.bbox.w / 2, f.bbox.y + f.bbox.h / 2)
  }

  /** `Face.area`: `w * h`. */
  function Area(f: Face): int
  {
    f.bbox.w * f.bbox.h
  }

  /** The centre of a box with non-negative sides lies inside the box. */
  lemma CenterInside(f: Face)
    requires f.bbox.w >= 0 && f.bbox.h >= 0
    ensures f.bbox.x <= Center(f).0 <= f.bbox.x + f.bbox.w
    ensures f.bbox.y <= Center(f).1 <= f.bbox.y + f.bbox.h
    ensures Area(f) >= 0
  {
    MulNonNegative(f.bbox.w, f.bbox.h);
  }

  lemma MulNonNegative(a: int, b: int)
    requires a >= 0 && b >= 0
    ensures a * b >= 0
  {
  }

  lemma MulMonotone(a: int, b: int, c: int, d: int)
    requires 0 <= a <= c && 0 <= b <= d
    ensures a * b <= c * d
  {
    assert a * b <= c * b;
    assert c * b <= c * d;
  }

  // ---------------------------------------------------------------------------
  // Intersection over union

  function MaxInt(a: int, b: int): int { if a >= b then a else b }
  function MinInt(a: int, b: int): int { if a <= b then a else b }

  /** `n / d` as Python's true division of two ints. */
  function Ratio(n: int, d: int): real
    requires d != 0
  {
    n as real / d as real
  }

  lemma RatioUnit(n: int, d: int)
    requires 0 <= n <= d && d > 0
    ensures 0.0 <= Ratio(n, d) <= 1.0
    ensures n == d ==> Ratio(n, d) == 1.0
  {
    var r := Ratio(n, d);
    assert r * d as real == n as real;
  }

  /** The width and height of the overlap rectangle (possibly negative). */
  function OverlapW(b1: BBox, b2: BBox): int
  {
    MinInt(b1.x + b1.w, b2.x + b2.w) - MaxInt(b1.x, b2.x)
  }

  function OverlapH(b1: BBox, b2: BBox): int
  {
    MinInt(b1.y + b1.h, b2.y + b2.h) - MaxInt(b1.y, b2.y)
  }

  /** `_calculate_iou`. */
  function Iou(b1: BBox, b2: BBox): real
  {
    var dx := OverlapW(b1, b2);
    var dy := OverlapH(b1, b2);
    if dx < 0 || dy < 0 then 0.0
    else
      var intersection := dx * dy;
      var union := b1.w * b1.h + b2.w * b2.h - intersection;
      if union == 0 then 0.0 else Ratio(intersection, union)
  }

  /** Boxes that are disjoint or only touch along an edge have IoU 0. */
  lemma IouDisjoint(b1: BBox, b2: BBox)
    requires OverlapW(b1, b2) <= 0 || OverlapH(b1, b2) <= 0
    ensures Iou(b1, b2) == 0.0
  {
    var dx, dy := OverlapW(b1, b2), OverlapH(b1, b2);
    if dx >= 0 && dy >= 0 {
      assert dx * dy == 0;
    }
  }

  /** For boxes with non-negative sides the IoU lies in [0, 1]. */
  lemma IouBounds(b1: BBox, b2: BBox)
    requires b1.w >= 0 && b1.h >= 0 && b2.w >= 0 && b2.h >= 0
    ensures 0.0 <= Iou(b1, b2) <= 1.0
  {
    var dx, dy := OverlapW(b1, b2), OverlapH(b1, b2);
    if dx >= 0 && dy >= 0 {
      var inter := dx * dy;
      MulMonotone(dx, dy, b1.w, b1.h);
      MulMonotone(dx, dy, b2.w, b2.h);
      MulNonNegative(dx, dy);
      var union := b1.w * b1.h + b2.w * b2.h - inter;
      if union != 0 {
        RatioUnit(inter, union);
      }
    }
  }

  /** IoU does not depend on the order of its arguments. */
  lemma IouSymmetric(b1: BBox, b2: BBox)
    ensures Iou(b1, b2) == Iou(b2, b1)
  {
    assert OverlapW(b1, b2) == OverlapW(b2, b1);
    assert OverlapH(b1, b2) == OverlapH(b2, b1);
  }

  /** A non-empty box overlaps itself completely. */
  lemma IouSelf(b: BBox)
    requires b.w > 0 && b.h > 0
    ensures Iou(b, b) == 1.0
  {
    assert OverlapW(b, b) == b.w && OverlapH(b, b) == b.h;
    MulNonNegative(b.w, b.h);
    assert b.w * b.h > 0;
    RatioUnit(b.w * b.h, b.w * b.h);
  }

  // ---------------------------------------------------------------------------
  // Size filter of `_detect_faces`

  /** A raw detection: a box relative to the frame size, and its score. */
  datatype RawDetection = RawDetection(xmin: real, ymin: real, width: real, height: real, score: real)

  /** Python's `int(x)`: truncation toward zero. */
  function Trunc(x: real): int
  {
    if x >= 0.0 then x.Floor else -((-x).Floor)
  }

  /** The pixel box `int(rel * size)` of a raw detection. */
  function PixelBox(d: RawDetection, frameW: int, frameH: int): BBox
  {
    BBox(Trunc(d.xmin * frameW as real), Trunc(d.ymin * frameH as real),
         Trunc(d.width * frameW as real), Trunc(d.height * frameH as real))
  }

  /** Both sides of the pixel box reach `int(frameH * minFaceSize)`. */
  predicate LargeEnough(d: RawDetection, frameW: int, frameH: int, minFaceSize: real)
  {
    var b := PixelBox(d, frameW, frameH);
    var minSize := Trunc(frameH as real * minFaceSize);
    b.w >= minSize && b.h >= minSize
  }

  /** The face `_detect_faces` builds for a kept detection. */
  function DetectionFace(d: RawDetection, frameW: int, frameH: int): Face
  {
    Face("temp", PixelBox(d, frameW, frameH), d.score, 0.0)
  }

  /** `_detect_faces` after detection: boxes narrower or shorter than
      `int(frameH * minFaceSize)` are dropped; every kept face has the
      temporary id "temp" and lip movement 0. */
  function Detected(dets: seq<RawDetection>, frameW: int, frameH: int, minFaceSize: real): (faces: seq<Face>)
    ensures |faces| <= |dets|
    ensures forall i :: 0 <= i < |faces| ==>
              faces[i].faceId == "temp" && faces[i].lipMovement == 0.0
              && faces[i].bbox.w >= Trunc(frameH as real * minFaceSize)
              && faces[i].bbox.h >= Trunc(frameH as real * minFaceSize)
  {
    if dets == [] then []
    else
      var rest := Detected(dets[1..], frameW, frameH, minFaceSize);
      if LargeEnough(dets[0], frameW, frameH, minFaceSize) then [DetectionFace(dets[0], frameW, frameH)] + rest
      else rest
  }

  /** The detections that pass the size filter, in order. */
  function KeptDetections(dets: seq<RawDetection>, frameW: int, frameH: int, minFaceSize: real): seq<RawDetection>
  {
    if dets == [] then []
    else
      (if LargeEnough(dets[0], frameW, frameH, minFaceSize) then [dets[0]] else [])
      + KeptDetections(dets[1..], frameW, frameH, minFaceSize)
  }

  /** The faces are the kept detections, one for one and in order, each
      with its own truncated pixel box and its own score. */
  lemma {:induction false} DetectedKeeps(dets: seq<RawDetection>, frameW: int, frameH: int, minFaceSize: real)
    ensures var faces := Detected(dets, frameW, frameH, minFaceSize);
      var kept := KeptDetections(dets, frameW, frameH, minFaceSize);
      && |faces| == |kept|
      && forall k :: 0 <= k < |kept| ==> faces[k] == DetectionFace(kept[k], frameW, frameH)
  {
    if dets != [] {
      var faces, kept := Detected(dets, frameW, frameH, minFaceSize), KeptDetections(dets, frameW, frameH, minFaceSize);
      var faces', kept' := Detected(dets[1..], frameW, frameH, minFaceSize), KeptDetections(dets[1..], frameW, frameH, minFaceSize);
      DetectedKeeps(dets[1..], frameW, frameH, minFaceSize);
      if LargeEnough(dets[0], frameW, frameH, minFaceSize) {
        assert faces == [DetectionFace(dets[0], frameW, frameH)] + faces';
        assert kept == [dets[0]] + kept';
        forall k | 0 <= k < |kept| ensures faces[k] == DetectionFace(kept[k], frameW, frameH) {
          if k > 0 {
            assert faces[k] == faces'[k - 1] && kept[k] == kept'[k - 1];
          }
        }
      } else {
        assert faces == faces' && kept == kept';
      }
    }
  }

  /** A detection is kept exactly when both sides of its pixel box reach
      the minimum size. */
  lemma {:induction false} KeptDetectionsMembers(dets: seq<RawDetection>, frameW: int, frameH: int, minFaceSize: real)
    ensures forall d :: d in KeptDetections(dets, frameW, frameH, minFaceSize)
                        <==> d in dets && LargeEnough(d, frameW, frameH, minFaceSize)
  {
    if dets != [] {
      KeptDetectionsMembers(dets[1..], frameW, frameH, minFaceSize);
      assert dets == [dets[0]] + dets[1..];
    }
  }

  /** The filter keeps the order of the detections. */
  lemma {:induction false} KeptDetectionsAppend(a: seq<RawDetection>, b: seq<RawDetection>,
                                                frameW: int, frameH: int, minFaceSize: real)
    ensures KeptDetections(a + b, frameW, frameH, minFaceSize)
            == KeptDetections(a, frameW, frameH, minFaceSize) + KeptDetections(b, frameW, frameH, minFaceSize)
  {
    if a == [] {
      assert a + b == b;
    } else {
      var c := a + b;
      assert c[0] == a[0] && c[1..] == a[1..] + b;
      KeptDetectionsAppend(a[1..], b, frameW, frameH, minFaceSize);
      var head := if LargeEnough(a[0], frameW, frameH, minFaceSize) then [a[0]] else [];
      assert KeptDetections(c, frameW, frameH, minFaceSize) == head + KeptDetections(c[1..], frameW, frameH, minFaceSize);
      assert KeptDetections(a, frameW, frameH, minFaceSize) == head + KeptDetections(a[1..], frameW, frameH, minFaceSize);
    }
  }

  // ---------------------------------------------------------------------------
  // Tracker state

  /** One entry of `face_tracks`. */
  datatype Track = Track(bbox: BBox, firstSeen: real, lastSeen: real, count: nat)

  /** One `(timestamp, face)` entry of `face_history`. */
  datatype Observation = Observation(timestamp: real, face: Face)

  /** `face_tracks`, `next_face_id` and `face_history`. Every key of
      `face_tracks` is `face_N` for a number `N` handed out by the counter,
      and `face_N` determines `N` (`FaceIdInjective`), so the tracks are kept
      under `N`; their dict order is creation order, `Issued(nextId)`. The
      history is kept under the face-id string itself. */
  datatype TrackerState = TrackerState(
    tracks: map<nat, Track>,
    nextId: nat,
    history: map<string, seq<Observation>>)

  /** `f"face_{n}"`. */
  function FaceId(n: nat): string
  {
    "face_" + NatToString(n)
  }

  lemma FaceIdInjective(a: nat, b: nat)
    requires FaceId(a) == FaceId(b)
    ensures a == b
  {
    assert FaceId(a)[5..] == NatToString(a);
    assert FaceId(b)[5..] == NatToString(b);
    NatToStringInjective(a, b);
  }

  lemma FaceIdsDistinct()
    ensures forall a: nat, b: nat :: FaceId(a) == FaceId(b) ==> a == b
  {
    forall a: nat, b: nat | FaceId(a) == FaceId(b) ensures a == b {
      FaceIdInjective(a, b);
    }
  }

  /** The numbers handed out so far, in creation order. */
  function Issued(n: nat): (ids: seq<nat>)
    ensures |ids| == n && forall k :: 0 <= k < n ==> ids[k] == k
  {
    if n == 0 then [] else Issued(n - 1) + [n - 1]
  }

  function HistoryOf(h: map<string, seq<Observation>>, id: string): seq<Observation>
  {
    if id in h then h[id] else []
  }

  /** `face_history[id].append(obs)` on the defaultdict. */
  function Append(h: map<string, seq<Observation>>, id: string, obs: Observation): map<string, seq<Observation>>
  {
    h[id := HistoryOf(h, id) + [obs]]
  }

  /** The tracker invariant: the tracks are exactly `face_0 ..
      face_{next-1}`, and every track has been seen at least once. */
  ghost predicate WellFormed(st: TrackerState)
  {
    && (forall n: nat :: n in st.tracks <==> n < st.nextId)
    && (forall n :: n in st.tracks ==> st.tracks[n].count >= 1)
  }

  function EmptyState(): (st: TrackerState)
    ensures WellFormed(st)
  {
    TrackerState(map[], 0, map[])
  }

  predicate AllIn(ids: seq<nat>, tracks: map<nat, Track>)
  {
    forall k :: 0 <= k < |ids| ==> ids[k] in tracks
  }

  /** A track is active at `t` when it was last seen less than a second ago. */
  predicate IsActive(tr: Track, t: real)
  {
    t - tr.lastSeen < 1.0
  }

  /** The keys of `active_tracks`, in dict order. */
  function ActiveIds(ids: seq<nat>, tracks: map<nat, Track>, t: real): (r: seq<nat>)
    requires AllIn(ids, tracks)
    ensures AllIn(r, tracks)
    ensures forall k :: 0 <= k < |r| ==> r[k] in ids && IsActive(tracks[r[k]], t)
    ensures forall k :: 0 <= k < |ids| && IsActive(tracks[ids[k]], t) ==> ids[k] in r
  {
    if ids == [] then []
    else
      var rest := ActiveIds(ids[1..], tracks, t);
      assert forall k :: 1 <= k < |ids| ==> ids[k] == ids[1..][k - 1];
      if IsActive(tracks[ids[0]], t) then [ids[0]] + rest else rest
  }

  /** The test of the `active_tracks` comprehension. */
  function ActiveTest(tracks: map<nat, Track>, t: real): nat -> bool
  {
    id => id in tracks && IsActive(tracks[id], t)
  }

  /** The active ids are the comprehension over `ids` that keeps the active
      tracks, in the order of `ids`. */
  lemma {:induction false} ActiveIdsFilter(ids: seq<nat>, tracks: map<nat, Track>, t: real)
    requires AllIn(ids, tracks)
    ensures ActiveIds(ids, tracks, t) == Tally.Filter(ids, ActiveTest(tracks, t))
  {
    if ids != [] {
      var p := ActiveTest(tracks, t);
      AllInTail(ids, tracks);
      ActiveIdsFilter(ids[1..], tracks, t);
      assert ids == [ids[0]] + ids[1..];
      Tally.FilterAppend([ids[0]], ids[1..], p);
      assert [ids[0]][..0] == [];
      assert Tally.Filter([ids[0]], p) == if IsActive(tracks[ids[0]], t) then [ids[0]] else [];
    }
  }

  lemma AllInTail(a: seq<nat>, tracks: map<nat, Track>)
    requires a != [] && AllIn(a, tracks)
    ensures AllIn(a[1..], tracks)
  {
    forall k | 0 <= k < |a[1..]| ensures a[1..][k] in tracks {
      assert a[1..][k] == a[k + 1];
    }
  }



  // ---------------------------------------------------------------------------
  // Best match for one detection

  function TrackIou(b: BBox, tracks: map<nat, Track>, id: nat): real
    requires id in tracks
  {
    Iou(b, tracks[id].bbox)
  }

  /** The inner loop of `_track_faces`: scans `ids` in order, skipping
      matched tracks, and keeps the first track whose IoU strictly beats the
      best so far. */
  function Scan(b: BBox, ids: seq<nat>, matched: set<nat>, tracks: map<nat, Track>,
                bestIou: real, best: Option<nat>): (r: Option<nat>)
    requires AllIn(ids, tracks)
    ensures r != best ==> r.Some? && r.value in ids && r.value !in matched
    decreases |ids|
  {
    if ids == [] then best
    else if ids[0] in matched then Scan(b, ids[1..], matched, tracks, bestIou, best)
    else
      var iou := TrackIou(b, tracks, ids[0]);
      if iou > bestIou then Scan(b, ids[1..], matched, tracks, iou, Some(ids[0]))
      else Scan(b, ids[1..], matched, tracks, bestIou, best)
  }

  /** The IoU acceptance threshold: a track must overlap strictly more. */
  const IouThreshold: real := 0.3

  function BestMatch(b: BBox, active: seq<nat>, matched: set<nat>, tracks: map<nat, Track>): (r: Option<nat>)
    requires AllIn(active, tracks)
    ensures r.Some? ==> r.value in active && r.value !in matched && r.value in tracks
  {
    Scan(b, active, matched, tracks, IouThreshold, None)
  }

  /** `ids[k]` is an unmatched candidate. */
  predicate Open(ids: seq<nat>, matched: set<nat>, k: int)
  {
    0 <= k < |ids| && ids[k] !in matched
  }

  /** `ids[k]` has the largest IoU among the open candidates, and strictly
      larger than every open candidate before it. */
  ghost predicate FirstBest(b: BBox, ids: seq<nat>, matched: set<nat>, tracks: map<nat, Track>, k: int)
    requires AllIn(ids, tracks) && Open(ids, matched, k)
  {
    forall j :: Open(ids, matched, j) ==>
      TrackIou(b, tracks, ids[j]) <= TrackIou(b, tracks, ids[k])
      && (j < k ==> TrackIou(b, tracks, ids[j]) < TrackIou(b, tracks, ids[k]))
  }

  /** What the scan returns, with the winning position as a witness (-1 when
      the initial best survives). */
  lemma {:induction false} ScanWinner(b: BBox, ids: seq<nat>, matched: set<nat>,
                                      tracks: map<nat, Track>, bestIou: real, best: Option<nat>)
    returns (k: int)
    requires AllIn(ids, tracks)
    ensures -1 <= k < |ids|
    ensures k == -1 ==> Scan(b, ids, matched, tracks, bestIou, best) == best
                        && forall j :: Open(ids, matched, j) ==> TrackIou(b, tracks, ids[j]) <= bestIou
    ensures k >= 0 ==> Open(ids, matched, k) && Scan(b, ids, matched, tracks, bestIou, best) == Some(ids[k])
                       && TrackIou(b, tracks, ids[k]) > bestIou && FirstBest(b, ids, matched, tracks, k)
    decreases |ids|
  {
    if ids == [] {
      return -1;
    }
    var tail := ids[1..];
    assert forall j :: 0 <= j < |tail| ==> tail[j] == ids[j + 1];
    assert forall j :: 0 <= j < |tail| ==> (Open(tail, matched, j) <==> Open(ids, matched, j + 1));
    var iou0 := TrackIou(b, tracks, ids[0]);
    if ids[0] !in matched && iou0 > bestIou {
      var k' := ScanWinner(b, tail, matched, tracks, iou0, Some(ids[0]));
      if k' == -1 {
        k := 0;
        forall j | Open(ids, matched, j) ensures TrackIou(b, tracks, ids[j]) <= iou0 {
          if j > 0 { assert Open(tail, matched, j - 1); }
        }
      } else {
        k := k' + 1;
        forall j | Open(ids, matched, j)
          ensures TrackIou(b, tracks, ids[j]) <= TrackIou(b, tracks, ids[k])
          ensures j < k ==> TrackIou(b, tracks, ids[j]) < TrackIou(b, tracks, ids[k])
        {
          if j > 0 { assert Open(tail, matched, j - 1); }
        }
      }
    } else {
      var k' := ScanWinner(b, tail, matched, tracks, bestIou, best);
      if k' == -1 {
        k := -1;
        forall j | Open(ids, matched, j) ensures TrackIou(b, tracks, ids[j]) <= bestIou {
          if j > 0 { assert Open(tail, matched, j - 1); }
        }
      } else {
        k := k' + 1;
        forall j | Open(ids, matched, j)
          ensures TrackIou(b, tracks, ids[j]) <= TrackIou(b, tracks, ids[k])
          ensures j < k ==> TrackIou(b, tracks, ids[j]) < TrackIou(b, tracks, ids[k])
        {
          if j > 0 { assert Open(tail, matched, j - 1); }
        }
      }
    }
  }

  /** A detection reuses a track exactly when some unmatched active track
      overlaps it by more than the threshold; it then gets the first such
      track with the largest IoU. */
  lemma BestMatchSpec(b: BBox, active: seq<nat>, matched: set<nat>, tracks: map<nat, Track>)
    requires AllIn(active, tracks)
    ensures BestMatch(b, active, matched, tracks).None?
            <==> forall j :: Open(active, matched, j) ==> TrackIou(b, tracks, active[j]) <= IouThreshold
    ensures BestMatch(b, active, matched, tracks).Some? ==>
              exists k :: Open(active, matched, k)
                && BestMatch(b, active, matched, tracks) == Some(active[k])
                && TrackIou(b, tracks, active[k]) > IouThreshold
                && FirstBest(b, active, matched, tracks, k)
  {
    var k := ScanWinner(b, active, matched, tracks, IouThreshold, None);
    if k >= 0 {
      assert Open(active, matched, k);
    }
  }

  // ---------------------------------------------------------------------------
  // One frame of tracking, as a function of the state

  /** The state after some detections, the tracks matched so far, and the
      track number each detection received. */
  datatype Step = Step(state: TrackerState, matched: set<nat>, ids: seq<nat>)

  /** The detection `face` once it carries the id `face_N`. */
  function Tagged(face: Face, n: nat): Face
  {
    face.(faceId := FaceId(n))
  }

  /** One iteration of the loop of `_track_faces`: reuse the best track or
      open `face_{next_face_id}`, then append to the history. */
  function AssignFace(st: TrackerState, active: seq<nat>, matched: set<nat>, face: Face, t: real): (r: Step)
    requires AllIn(active, st.tracks)
    ensures st.tracks.Keys <= r.state.tracks.Keys && st.nextId <= r.state.nextId
    ensures |r.ids| == 1 && r.ids[0] in r.state.tracks
  {
    match BestMatch(face.bbox, active, matched, st.tracks)
    case Some(id) =>
      var tr := st.tracks[id];
      Step(st.(tracks := st.tracks[id := Track(face.bbox, tr.firstSeen, t, tr.count + 1)],
               history := Append(st.history, FaceId(id), Observation(t, Tagged(face, id)))),
           matched + {id}, [id])
    case None =>
      var id := st.nextId;
      Step(st.(tracks := st.tracks[id := Track(face.bbox, t, t, 1)],
               nextId := id + 1,
               history := Append(st.history, FaceId(id), Observation(t, Tagged(face, id)))),
           matched, [id])
  }

  /** The loop of `_track_faces` over the remaining detections. */
  function TrackAll(st: TrackerState, active: seq<nat>, matched: set<nat>, faces: seq<Face>, t: real): (r: Step)
    requires AllIn(active, st.tracks)
    ensures st.tracks.Keys <= r.state.tracks.Keys && st.nextId <= r.state.nextId
    ensures |r.ids| == |faces|
    ensures forall i :: 0 <= i < |r.ids| ==> r.ids[i] in r.state.tracks
    decreases |faces|
  {
    if faces == [] then Step(st, matched, [])
    else
      var s1 := AssignFace(st, active, matched, faces[0], t);
      var s2 := TrackAll(s1.state, active, s1.matched, faces[1..], t);
      Step(s2.state, s2.matched, s1.ids + s2.ids)
  }

  /** The active track numbers of `st` at time `t`, in creation order. */
  function ActiveAt(st: TrackerState, t: real): (active: seq<nat>)
    requires WellFormed(st)
    ensures AllIn(active, st.tracks)
  {
    ActiveIds(Issued(st.nextId), st.tracks, t)
  }

  /** `_track_faces(faces, t)` on state `st`: the new state, and the number
      of the track each detection was given. */
  function TrackFrame(st: TrackerState, faces: seq<Face>, t: real): Step
    requires WellFormed(st)
  {
    TrackAll(st, ActiveAt(st, t), {}, faces, t)
  }

  /** The returned faces: each detection with its assigned id. */
  function TaggedFaces(faces: seq<Face>, ids: seq<nat>): (r: seq<Face>)
    requires |ids| == |faces|
    ensures |r| == |faces| && forall i :: 0 <= i < |faces| ==> r[i] == Tagged(faces[i], ids[i])
  {
    seq(|faces|, i requires 0 <= i < |faces| => Tagged(faces[i], ids[i]))
  }

  /** Tagging one more detection of the frame appends it, tagged. */
  lemma TaggedFacesStep(faces: seq<Face>, i: nat, ids: seq<nat>, n: nat)
    requires i < |faces| && |ids| == i
    ensures TaggedFaces(faces[..i + 1], ids + [n]) == TaggedFaces(faces[..i], ids) + [Tagged(faces[i], n)]
  {
    assert faces[..i + 1] == faces[..i] + [faces[i]];
  }

  // ---------------------------------------------------------------------------
  // Properties of a tracking step

  /** The track a detection receives is either an unmatched active track,
      which is then updated in place, or the fresh `face_{next}`, which opens
      a new track; either way one observation is appended to its history. */
  lemma AssignFaceSpec(st: TrackerState, active: seq<nat>, matched: set<nat>, face: Face, t: real)
    requires WellFormed(st) && AllIn(active, st.tracks)
    ensures var r := AssignFace(st, active, matched, face, t);
      var id := r.ids[0];
      && WellFormed(r.state)
      && r.state.history == Append(st.history, FaceId(id), Observation(t, Tagged(face, id)))
      && (|| (id in active && id in st.tracks && id !in matched && r.matched == matched + {id}
              && r.state.nextId == st.nextId
              && r.state.tracks == st.tracks[id := Track(face.bbox, st.tracks[id].firstSeen, t, st.tracks[id].count + 1)])
          || (id == st.nextId && id !in st.tracks && r.matched == matched
              && r.state.nextId == st.nextId + 1
              && r.state.tracks == st.tracks[id := Track(face.bbox, t, t, 1)]))
  {
  }

  /** The parts of `TrackAll` on a non-empty list of detections. */
  lemma TrackAllUnfold(st: TrackerState, active: seq<nat>, matched: set<nat>, faces: seq<Face>, t: real)
    requires AllIn(active, st.tracks) && faces != []
    ensures var s1 := AssignFace(st, active, matched, faces[0], t);
      var s2 := TrackAll(s1.state, active, s1.matched, faces[1..], t);
      var r := TrackAll(st, active, matched, faces, t);
      && r.state == s2.state && r.matched == s2.matched
      && r.ids == s1.ids + s2.ids
      && r.ids[0] == s1.ids[0]
      && (forall i :: 0 <= i < |s2.ids| ==> r.ids[i + 1] == s2.ids[i])
  {
  }

  lemma {:induction false} TrackAllWellFormed(st: TrackerState, active: seq<nat>, matched: set<nat>, faces: seq<Face>, t: real)
    requires WellFormed(st) && AllIn(active, st.tracks)
    ensures WellFormed(TrackAll(st, active, matched, faces, t).state)
    decreases |faces|
  {
    if faces != [] {
      var s1 := AssignFace(st, active, matched, faces[0], t);
      AssignFaceSpec(st, active, matched, faces[0], t);
      TrackAllWellFormed(s1.state, active, s1.matched, faces[1..], t);
    }
  }

  /** Every track number handed out is either an active track not matched
      before, which is matched from then on, or one that did not exist
      before. */
  lemma {:induction false} TrackAllKinds(st: TrackerState, active: seq<nat>, matched: set<nat>, faces: seq<Face>, t: real)
    requires WellFormed(st) && AllIn(active, st.tracks)
    ensures var r := TrackAll(st, active, matched, faces, t);
      && matched <= r.matched
      && forall i :: 0 <= i < |faces| ==>
           || (r.ids[i] in active && r.ids[i] !in matched && r.ids[i] in r.matched)
           || r.ids[i] !in st.tracks
    decreases |faces|
  {
    if faces != [] {
      var s1 := AssignFace(st, active, matched, faces[0], t);
      AssignFaceSpec(st, active, matched, faces[0], t);
      TrackAllUnfold(st, active, matched, faces, t);
      TrackAllKinds(s1.state, active, s1.matched, faces[1..], t);
    }
  }

  /** Within one frame no two detections receive the same track. */
  lemma {:induction false} TrackAllDistinct(st: TrackerState, active: seq<nat>, matched: set<nat>, faces: seq<Face>, t: real)
    requires WellFormed(st) && AllIn(active, st.tracks)
    ensures var r := TrackAll(st, active, matched, faces, t);
      forall i, j :: 0 <= i < j < |faces| ==> r.ids[i] != r.ids[j]
    decreases |faces|
  {
    if faces != [] {
      var s1 := AssignFace(st, active, matched, faces[0], t);
      var s2 := TrackAll(s1.state, active, s1.matched, faces[1..], t);
      var r := TrackAll(st, active, matched, faces, t);
      AssignFaceSpec(st, active, matched, faces[0], t);
      TrackAllUnfold(st, active, matched, faces, t);
      TrackAllDistinct(s1.state, active, s1.matched, faces[1..], t);
      TrackAllKinds(s1.state, active, s1.matched, faces[1..], t);
      forall j | 0 <= j < |s2.ids| ensures s2.ids[j] != s1.ids[0] {
        assert (s2.ids[j] in active && s2.ids[j] !in s1.matched) || s2.ids[j] !in s1.state.tracks;
      }
    }
  }

  /** A track that no detection receives is left as it was (or stays
      absent). */
  lemma {:induction false} TrackAllUntouched(st: TrackerState, active: seq<nat>, matched: set<nat>, faces: seq<Face>,
                                             t: real, n: nat)
    requires AllIn(active, st.tracks)
    requires var r := TrackAll(st, active, matched, faces, t);
      forall i :: 0 <= i < |faces| ==> r.ids[i] != n
    ensures var r := TrackAll(st, active, matched, faces, t);
      && (n in st.tracks ==> n in r.state.tracks && r.state.tracks[n] == st.tracks[n])
      && (n !in st.tracks ==> n !in r.state.tracks)
    decreases |faces|
  {
    if faces != [] {
      var s1 := AssignFace(st, active, matched, faces[0], t);
      TrackAllUnfold(st, active, matched, faces, t);
      TrackAllUntouched(s1.state, active, s1.matched, faces[1..], t, n);
    }
  }

  /** A history whose id no detection receives is left as it was. */
  lemma {:induction false} TrackAllHistoryUntouched(st: TrackerState, active: seq<nat>, matched: set<nat>, faces: seq<Face>,
                                                    t: real, id: string)
    requires AllIn(active, st.tracks)
    requires var r := TrackAll(st, active, matched, faces, t);
      forall i :: 0 <= i < |faces| ==> FaceId(r.ids[i]) != id
    ensures HistoryOf(TrackAll(st, active, matched, faces, t).state.history, id) == HistoryOf(st.history, id)
    decreases |faces|
  {
    if faces != [] {
      var s1 := AssignFace(st, active, matched, faces[0], t);
      TrackAllUnfold(st, active, matched, faces, t);
      TrackAllHistoryUntouched(s1.state, active, s1.matched, faces[1..], t, id);
    }
  }

  /** Track updates: a reused track gets the new box, `last_seen := t` and
      one more observation, keeping `first_seen`; a new track starts at `t`
      with count 1. Either way exactly one `(t, face)` entry is appended to
      the history of the face's id. */
  lemma {:induction false} TrackAllUpdated(st: TrackerState, active: seq<nat>, matched: set<nat>, faces: seq<Face>,
                                           t: real, i: nat)
    requires WellFormed(st) && AllIn(active, st.tracks) && i < |faces|
    ensures var r := TrackAll(st, active, matched, faces, t);
      var n := r.ids[i];
      && (n in st.tracks ==>
            r.state.tracks[n] == Track(faces[i].bbox, st.tracks[n].firstSeen, t, st.tracks[n].count + 1))
      && (n !in st.tracks ==> r.state.tracks[n] == Track(faces[i].bbox, t, t, 1))
      && HistoryOf(r.state.history, FaceId(n)) == HistoryOf(st.history, FaceId(n)) + [Observation(t, Tagged(faces[i], n))]
    decreases |faces|
  {
    var s1 := AssignFace(st, active, matched, faces[0], t);
    var s2 := TrackAll(s1.state, active, s1.matched, faces[1..], t);
    var r := TrackAll(st, active, matched, faces, t);
    AssignFaceSpec(st, active, matched, faces[0], t);
    TrackAllUnfold(st, active, matched, faces, t);
    TrackAllDistinct(st, active, matched, faces, t);
    var n0 := s1.ids[0];
    if i == 0 {
      assert forall j :: 0 <= j < |s2.ids| ==> s2.ids[j] != n0;
      TrackAllUntouched(s1.state, active, s1.matched, faces[1..], t, n0);
      FaceIdsDistinct();
      TrackAllHistoryUntouched(s1.state, active, s1.matched, faces[1..], t, FaceId(n0));
    } else {
      TrackAllUpdated(s1.state, active, s1.matched, faces[1..], t, i - 1);
      var n := r.ids[i];
      assert n == s2.ids[i - 1] && n != n0 && faces[i] == faces[1..][i - 1];
      assert n in st.tracks <==> n in s1.state.tracks;
      FaceIdInjectiveContra(n, n0);
    }
  }

  lemma FaceIdInjectiveContra(a: nat, b: nat)
    requires a != b
    ensures FaceId(a) != FaceId(b)
  {
    if FaceId(a) == FaceId(b) {
      FaceIdInjective(a, b);
    }
  }

  /** One frame of tracking: every detection gets a track, no two the same;
      a reused track was active when the frame started; and the tracks opened
      are exactly `face_{old next} .. face_{new next - 1}`. */
  lemma TrackFrameSpec(st: TrackerState, faces: seq<Face>, t: real)
    requires WellFormed(st)
    ensures var r := TrackFrame(st, faces, t);
      && WellFormed(r.state)
      && |r.ids| == |faces|
      && (forall i, j :: 0 <= i < j < |faces| ==> r.ids[i] != r.ids[j])
      && (forall i :: 0 <= i < |faces| && r.ids[i] in st.tracks ==> IsActive(st.tracks[r.ids[i]], t))
      && (forall n: nat :: n in r.state.tracks && n !in st.tracks <==> st.nextId <= n < r.state.nextId)
  {
    var active := ActiveAt(st, t);
    TrackAllWellFormed(st, active, {}, faces, t);
    TrackAllKinds(st, active, {}, faces, t);
    TrackAllDistinct(st, active, {}, faces, t);
  }

  /** How one frame changes the tracks and the history: reused tracks are
      updated in place, new tracks start at `t`, each detection's id gets one
      more observation, and every other track and history is unchanged. */
  lemma TrackFrameTracks(st: TrackerState, faces: seq<Face>, t: real)
    requires WellFormed(st)
    ensures var r := TrackFrame(st, faces, t);
      && (forall n :: n in st.tracks && (forall i :: 0 <= i < |faces| ==> r.ids[i] != n)
            ==> r.state.tracks[n] == st.tracks[n])
      && (forall id :: (forall i :: 0 <= i < |faces| ==> FaceId(r.ids[i]) != id)
            ==> HistoryOf(r.state.history, id) == HistoryOf(st.history, id))
      && (forall i :: 0 <= i < |faces| && r.ids[i] in st.tracks ==>
            r.state.tracks[r.ids[i]]
            == Track(faces[i].bbox, st.tracks[r.ids[i]].firstSeen, t, st.tracks[r.ids[i]].count + 1))
      && (forall i :: 0 <= i < |faces| && r.ids[i] !in st.tracks ==>
            r.state.tracks[r.ids[i]] == Track(faces[i].bbox, t, t, 1))
      && (forall i :: 0 <= i < |faces| ==>
            HistoryOf(r.state.history, FaceId(r.ids[i]))
            == HistoryOf(st.history, FaceId(r.ids[i])) + [Observation(t, Tagged(faces[i], r.ids[i]))])
  {
    var active := ActiveAt(st, t);
    var r := TrackFrame(st, faces, t);
    forall n | n in st.tracks && forall i :: 0 <= i < |faces| ==> r.ids[i] != n
      ensures r.state.tracks[n] == st.tracks[n]
    {
      TrackAllUntouched(st, active, {}, faces, t, n);
    }
    forall id | forall i :: 0 <= i < |faces| ==> FaceId(r.ids[i]) != id
      ensures HistoryOf(r.state.history, id) == HistoryOf(st.history, id)
    {
      TrackAllHistoryUntouched(st, active, {}, faces, t, id);
    }
    forall i | 0 <= i < |faces|
      ensures r.ids[i] in st.tracks ==>
                r.state.tracks[r.ids[i]]
                == Track(faces[i].bbox, st.tracks[r.ids[i]].firstSeen, t, st.tracks[r.ids[i]].count + 1)
      ensures r.ids[i] !in st.tracks ==> r.state.tracks[r.ids[i]] == Track(faces[i].bbox, t, t, 1)
      ensures HistoryOf(r.state.history, FaceId(r.ids[i]))
              == HistoryOf(st.history, FaceId(r.ids[i])) + [Observation(t, Tagged(faces[i], r.ids[i]))]
    {
      TrackAllUpdated(st, active, {}, faces, t, i);
    }
  }

  /** One iteration of the loop of `_track_faces`, seen from the index `i`
      of the next detection. */
  lemma TrackAllStep(st: TrackerState, active: seq<nat>, matched: set<nat>, faces: seq<Face>, i: nat, t: real,
                     done: seq<nat>, goal: seq<nat>)
    requires AllIn(active, st.tracks) && i < |faces|
    requires done + TrackAll(st, active, matched, faces[i..], t).ids == goal
    ensures var s1 := AssignFace(st, active, matched, faces[i], t);
      var r2 := TrackAll(s1.state, active, s1.matched, faces[i + 1..], t);
      && AllIn(active, s1.state.tracks)
      && r2.state == TrackAll(st, active, matched, faces[i..], t).state
      && (done + s1.ids) + r2.ids == goal
  {
    assert faces[i..][0] == faces[i] && faces[i..][1..] == faces[i + 1..];
    TrackAllUnfold(st, active, matched, faces[i..], t);
  }

  // ---------------------------------------------------------------------------
  // Lip movement

  /** `hist[-window:]` (Python's `[-0:]` is the whole list). */
  function Window<T>(s: seq<T>, window: nat): (r: seq<T>)
    ensures |r| <= |s|
    ensures window > 0 ==> |r| <= window
    ensures r == s[|s| - |r|..]
    ensures window == 0 ==> r == s
    ensures window > 0 ==> |r| == (if window < |s| then window else |s|)
  {
    if window == 0 || window >= |s| then s else s[|s| - window..]
  }

  /** The stored `lip_movement` values of the observations of `id` (the
      comprehension filters on the face's own id). */
  function RecentScores(obs: seq<Observation>, id: string): seq<real>
  {
    if obs == [] then []
    else RecentScores(obs[..|obs| - 1], id)
         + (if obs[|obs| - 1].face.faceId == id then [obs[|obs| - 1].face.lipMovement] else [])
  }

  function Mean(xs: seq<real>): real
    requires xs != []
  {
    Sum(xs) / |xs| as real
  }

  /** The normalised lip score: the distance relative to the mean of the
      history, minus one, floored at 0; 0 when there is no history or its
      mean is not positive. */
  function LipScore(distance: real, history: seq<real>): real
  {
    if history == [] then 0.0
    else
      var avg := Mean(history);
      if avg > 0.0 then Max(0.0, distance / avg - 1.0) else 0.0
  }

  lemma LipScoreNonNegative(distance: real, history: seq<real>)
    ensures LipScore(distance, history) >= 0.0
  {
  }

  lemma {:induction false} SumZeros(xs: seq<real>)
    requires forall i :: 0 <= i < |xs| ==> xs[i] == 0.0
    ensures Sum(xs) == 0.0
  {
    if xs != [] {
      SumZeros(xs[..|xs| - 1]);
    }
  }

  lemma {:induction false} RecentScoresZero(obs: seq<Observation>, id: string)
    requires forall k :: 0 <= k < |obs| ==> obs[k].face.lipMovement == 0.0
    ensures forall i :: 0 <= i < |RecentScores(obs, id)| ==> RecentScores(obs, id)[i] == 0.0
  {
    if obs != [] {
      RecentScoresZero(obs[..|obs| - 1], id);
    }
  }

  /** Whatever the measured lip distance, a history of stored scores that
      are all 0 yields score 0: the history averages scores, not distances. */
  lemma LipScoreOfZeroHistory(distance: real, history: seq<real>)
    requires forall i :: 0 <= i < |history| ==> history[i] == 0.0
    ensures LipScore(distance, history) == 0.0
  {
    if history != [] {
      SumZeros(history);
    }
  }

  /** Every stored face has lip movement 0. */
  ghost predicate HistoryScoresZero(h: map<string, seq<Observation>>)
  {
    forall id, k :: id in h && 0 <= k < |h[id]| ==> h[id][k].face.lipMovement == 0.0
  }

  /** Tracking faces whose scores are 0 keeps every stored score at 0. */
  lemma TrackFramePreservesZeroScores(st: TrackerState, faces: seq<Face>, t: real)
    requires WellFormed(st) && HistoryScoresZero(st.history)
    requires forall i :: 0 <= i < |faces| ==> faces[i].lipMovement == 0.0
    ensures HistoryScoresZero(TrackFrame(st, faces, t).state.history)
  {
    var r := TrackFrame(st, faces, t);
    TrackFrameTracks(st, faces, t);
    forall id, k | id in r.state.history && 0 <= k < |r.state.history[id]|
      ensures r.state.history[id][k].face.lipMovement == 0.0
    {
      if i :| 0 <= i < |faces| && FaceId(r.ids[i]) == id {
        assert HistoryOf(r.state.history, id) == HistoryOf(st.history, id) + [Observation(t, Tagged(faces[i], r.ids[i]))];
      } else {
        assert HistoryOf(r.state.history, id) == HistoryOf(st.history, id);
      }
    }
  }

  /** The lip score `_detect_lip_movement` gives the `i`-th face: faces with a
      face-mesh result (`i < |distances|`) are scored against the stored
      scores of the last `window` observations of their id; the rest keep
      their score. */
  function ScoredFace(face: Face, i: nat, distances: seq<real>, h: map<string, seq<Observation>>, window: nat): Face
  {
    if i < |distances| then
      face.(lipMovement := LipScore(distances[i], RecentScores(Window(HistoryOf(h, face.faceId), window), face.faceId)))
    else face
  }

  /** With every stored score 0, every face of the frame ends with score 0
      or keeps its own score. */
  lemma ScoredFaceZero(face: Face, i: nat, distances: seq<real>, h: map<string, seq<Observation>>, window: nat)
    requires HistoryScoresZero(h) && face.lipMovement == 0.0
    ensures ScoredFace(face, i, distances, h, window).lipMovement == 0.0
  {
    if i < |distances| {
      var obs := Window(HistoryOf(h, face.faceId), window);
      WindowScoresZero(h, face.faceId, window);
      RecentScoresZero(obs, face.faceId);
      LipScoreOfZeroHistory(distances[i], RecentScores(obs, face.faceId));
    }
  }

  lemma WindowScoresZero(h: map<string, seq<Observation>>, id: string, window: nat)
    requires HistoryScoresZero(h)
    ensures var obs := Window(HistoryOf(h, id), window);
      forall k :: 0 <= k < |obs| ==> obs[k].face.lipMovement == 0.0
  {
    var all := HistoryOf(h, id);
    var obs := Window(all, window);
    assert forall k :: 0 <= k < |all| ==> all[k].face.lipMovement == 0.0;
    forall k | 0 <= k < |obs| ensures obs[k].face.lipMovement == 0.0 {
      assert obs[k] == all[|all| - |obs| + k];
    }
  }

  // ---------------------------------------------------------------------------
  // Track statistics

  datatype FaceStats = FaceStats(firstSeen: real, lastSeen: real, duration: real, frameCount: nat)

  /** `get_face_statistics`: one entry per track, under its `face_N` id. */
  function FaceStatistics(tracks: map<nat, Track>): (stats: map<string, FaceStats>)
    ensures forall n :: n in tracks ==> FaceId(n) in stats
    ensures forall id :: id in stats ==> exists n :: n in tracks && id == FaceId(n)
  {
    FaceIdsDistinct();
    map n | n in tracks :: FaceId(n) :=
      FaceStats(tracks[n].firstSeen, tracks[n].lastSeen, tracks[n].lastSeen - tracks[n].firstSeen, tracks[n].count)
  }

  /** The entry for `face_N` reports track `N`'s span and observation count. */
  lemma FaceStatisticsEntry(tracks: map<nat, Track>, n: nat)
    requires n in tracks
    ensures FaceStatistics(tracks)[FaceId(n)]
            == FaceStats(tracks[n].firstSeen, tracks[n].lastSeen, tracks[n].lastSeen - tracks[n].firstSeen, tracks[n].count)
  {
    FaceIdsDistinct();
  }

  /** Every track's first sighting is no later than its last. */
  ghost predicate SpansOrdered(st: TrackerState)
  {
    forall n :: n in st.tracks ==> st.tracks[n].firstSeen <= st.tracks[n].lastSeen
  }

  /** No track was seen after `t`. */
  ghost predicate SeenBy(st: TrackerState, t: real)
  {
    forall n :: n in st.tracks ==> st.tracks[n].lastSeen <= t
  }

  /** When frames arrive in time order, tracking keeps every track's span
      ordered, so the statistics report a non-negative duration and at least
      one frame per track. */
  lemma TrackFrameKeepsStatistics(st: TrackerState, faces: seq<Face>, t: real)
    requires WellFormed(st) && SpansOrdered(st) && SeenBy(st, t)
    ensures var r := TrackFrame(st, faces, t);
      && SpansOrdered(r.state) && SeenBy(r.state, t)
      && forall n :: n in r.state.tracks ==>
           FaceStatistics(r.state.tracks)[FaceId(n)].duration >= 0.0
           && FaceStatistics(r.state.tracks)[FaceId(n)].frameCount >= 1
  {
    var active := ActiveAt(st, t);
    var r := TrackFrame(st, faces, t);
    TrackFrameTracks(st, faces, t);
    TrackAllWellFormed(st, active, {}, faces, t);
    forall n | n in r.state.tracks
      ensures r.state.tracks[n].firstSeen <= r.state.tracks[n].lastSeen <= t
    {
      if i :| 0 <= i < |faces| && r.ids[i] == n {
      } else {
        TrackAllUntouched(st, active, {}, faces, t, n);
      }
    }
    forall n | n in r.state.tracks
      ensures FaceStatistics(r.state.tracks)[FaceId(n)].duration >= 0.0
      ensures FaceStatistics(r.state.tracks)[FaceId(n)].frameCount >= 1
    {
      FaceStatisticsEntry(r.state.tracks, n);
    }
  }

  // ---------------------------------------------------------------------------
  // The tracker object

  class FaceTracker {
    var tracks: map<nat, Track>
    var nextFaceId: nat
    var history: map<string, seq<Observation>>
    const minFaceSize: real
    const lipEnabled: bool
    const lipWindowSize: nat

    function State(): TrackerState
      reads this
    {
      TrackerState(tracks, nextFaceId, history)
    }

    ghost predicate Valid()
      reads this
    {
      WellFormed(State()) && HistoryScoresZero(history)
    }

    /** The tracking state `VideoProcessor.__init__` sets up. */
    constructor (faceSize: real, lip: bool, windowSize: nat)
      ensures Valid() && State() == EmptyState()
      ensures minFaceSize == faceSize && lipEnabled == lip && lipWindowSize == windowSize
    {
      tracks, nextFaceId, history := map[], 0, map[];
      minFaceSize, lipEnabled, lipWindowSize := faceSize, lip, windowSize;
    }

    /** The size filter of `_detect_faces`, over the detector's output. */
    method DetectFaces(dets: seq<RawDetection>, frameW: int, frameH: int) returns (faces: seq<Face>)
      ensures faces == Detected(dets, frameW, frameH, minFaceSize)
    {
      faces := [];
      var minSize := Trunc(frameH as real * minFaceSize);
      var i := 0;
      while i < |dets|
        invariant 0 <= i <= |dets|
        invariant faces + Detected(dets[i..], frameW, frameH, minFaceSize) == Detected(dets, frameW, frameH, minFaceSize)
      {
        assert dets[i..][1..] == dets[i + 1..];
        var b := PixelBox(dets[i], frameW, frameH);
        if !(b.w < minSize || b.h < minSize) {
          faces := faces + [Face("temp", b, dets[i].score, 0.0)];
        }
        i := i + 1;
      }
    }

    /** The inner loop of `_track_faces`: the best unmatched active track
        for box `b`, if any beats the threshold. */
    method FindBestMatch(b: BBox, active: seq<nat>, matchedIds: set<nat>) returns (bestMatch: Option<nat>)
      requires AllIn(active, tracks)
      ensures bestMatch == BestMatch(b, active, matchedIds, tracks)
    {
      bestMatch := None;
      var bestIou := IouThreshold;
      var j := 0;
      while j < |active|
        invariant 0 <= j <= |active|
        invariant Scan(b, active[j..], matchedIds, tracks, bestIou, bestMatch)
                  == BestMatch(b, active, matchedIds, tracks)
      {
        assert active[j..][1..] == active[j + 1..];
        var trackId := active[j];
        if trackId !in matchedIds {
          var iou := Iou(b, tracks[trackId].bbox);
          if iou > bestIou {
            bestIou := iou;
            bestMatch := Some(trackId);
          }
        }
        j := j + 1;
      }
    }

    /** The body of the loop of `_track_faces` for one detection: update the
        best track in place or open `face_{next_face_id}`, then record the
        observation. */
    method AssignTrack(face: Face, active: seq<nat>, matchedIds: set<nat>, timestamp: real)
      returns (f: Face, newMatched: set<nat>, n: nat)
      requires AllIn(active, tracks)
      modifies this
      ensures Step(State(), newMatched, [n]) == AssignFace(old(State()), active, matchedIds, face, timestamp)
      ensures f == Tagged(face, n)
    {
      var bestMatch := FindBestMatch(face.bbox, active, matchedIds);
      newMatched := matchedIds;
      match bestMatch {
        case Some(id) =>
          n := id;
          tracks := tracks[id := Track(face.bbox, tracks[id].firstSeen, timestamp, tracks[id].count + 1)];
          newMatched := matchedIds + {id};
        case None =>
          n := nextFaceId;
          tracks := tracks[n := Track(face.bbox, timestamp, timestamp, 1)];
          nextFaceId := nextFaceId + 1;
      }
      f := face.(faceId := FaceId(n));
      history := Append(history, f.faceId, Observation(timestamp, f));
    }

    /** `_track_faces`. */
    method TrackFaces(faces: seq<Face>, timestamp: real) returns (matchedFaces: seq<Face>)
      requires WellFormed(State())
      modifies this
      ensures WellFormed(State())
      ensures State() == TrackFrame(old(State()), faces, timestamp).state
      ensures matchedFaces == TaggedFaces(faces, TrackFrame(old(State()), faces, timestamp).ids)
    {
      ghost var st0 := State();
      var active := ActiveAt(State(), timestamp);
      ghost var goal := TrackFrame(st0, faces, timestamp);
      var matchedIds: set<nat> := {};
      ghost var done: seq<nat> := [];
      matchedFaces := [];
      var i := 0;
      while i < |faces|
        invariant 0 <= i <= |faces| && |done| == i && |matchedFaces| == i
        invariant AllIn(active, tracks)
        invariant matchedFaces == TaggedFaces(faces[..i], done)
        invariant var r := TrackAll(State(), active, matchedIds, faces[i..], timestamp);
          r.state == goal.state && done + r.ids == goal.ids
      {
        TrackAllStep(State(), active, matchedIds, faces, i, timestamp, done, goal.ids);
        var f, n;
        f, matchedIds, n := AssignTrack(faces[i], active, matchedIds, timestamp);
        TaggedFacesStep(faces, i, done, n);
        matchedFaces := matchedFaces + [f];
        done := done + [n];
        i := i + 1;
      }
      assert faces[i..] == [] && faces[..i] == faces;
      assert done == goal.ids;
      TrackAllWellFormed(st0, active, {}, faces, timestamp);
    }

    /** The normalisation branch of `_detect_lip_movement`: `distances[i]` is
        the lip distance measured on the `i`-th face-mesh result (none when
        the mesh found no face). */
    method DetectLipMovement(faces: seq<Face>, distances: seq<real>) returns (scored: seq<Face>)
      ensures |scored| == |faces|
      ensures forall i :: 0 <= i < |faces| ==> scored[i] == ScoredFace(faces[i], i, distances, history, lipWindowSize)
    {
      scored := faces;
      if faces == [] || distances == [] {
        return;
      }
      var idx := 0;
      while idx < |faces|
        invariant 0 <= idx <= |faces| && |scored| == |faces|
        invariant forall i :: 0 <= i < idx ==> scored[i] == ScoredFace(faces[i], i, distances, history, lipWindowSize)
        invariant forall i :: idx <= i < |faces| ==> scored[i] == faces[i]
      {
        if idx >= |distances| {
          break;
        }
        var face := faces[idx];
        var recent := RecentScores(Window(HistoryOf(history, face.faceId), lipWindowSize), face.faceId);
        var score: real;
        if recent != [] {
          var avg := Mean(recent);
          if avg > 0.0 {
            score := Max(0.0, distances[idx] / avg - 1.0);
          } else {
            score := 0.0;
          }
        } else {
          score := 0.0;
        }
        scored := scored[idx := face.(lipMovement := score)];
        idx := idx + 1;
      }
    }

    /** One sampled frame of `process_video`: detect, track, then score lips
        when enabled. Every face of every frame ends with lip score 0. */
    method ProcessFrame(frameNumber: int, timestamp: real, dets: seq<RawDetection>, frameW: int, frameH: int,
                        distances: seq<real>) returns (frame: FrameData)
      requires Valid()
      modifies this
      ensures Valid()
      ensures frame.timestamp == timestamp && frame.frameNumber == frameNumber
      ensures var step := TrackFrame(old(State()), Detected(dets, frameW, frameH, minFaceSize), timestamp);
        && State() == step.state
        && frame.faces == TaggedFaces(Detected(dets, frameW, frameH, minFaceSize), step.ids)
      ensures |frame.faces| == |KeptDetections(dets, frameW, frameH, minFaceSize)|
      ensures forall i :: 0 <= i < |frame.faces| ==> frame.faces[i].lipMovement == 0.0
    {
      var faces := DetectFaces(dets, frameW, frameH);
      DetectedKeeps(dets, frameW, frameH, minFaceSize);
      ghost var st0 := State();
      var tracked := TrackFaces(faces, timestamp);
      TrackFramePreservesZeroScores(st0, faces, timestamp);
      if lipEnabled {
        ghost var unscored := tracked;
        tracked := DetectLipMovement(tracked, distances);
        forall i | 0 <= i < |tracked| ensures tracked[i] == unscored[i] {
          ScoredFaceZero(unscored[i], i, distances, history, lipWindowSize);
        }
        assert tracked == unscored;
      }
      frame := FrameData(timestamp, frameNumber, tracked);
    }
  }
}
