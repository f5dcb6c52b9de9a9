/**
 * `src/web_ui.py`, the Flask viewer: reading a labelled .srt into the
 * records the page shows, the speaker count of the metadata endpoint, and
 * the order of the video list. Routing, the HTML page and file access are
 * outside the model; the handlers are modelled on what they read.
 */
module WebUi {
  import opened Base
  import opened Text
  import opened Json
  import opened Sorting
  import opened SubRip
  import Api

  // ---------------------------------------------------------------------------
  // `_get_subtitles`

  /** One subtitle as the page receives it; unlike the REST server, the
      viewer keeps the caption whole. */
  datatype Row = Row(start: real, end: real, text: string)

  /** `_srt_time_to_seconds` of the viewer is the same conversion as the
      server's, `SrtTimeToSeconds`. */
  function RowOf(c: Cue): Row
  {
    Row(SrtTimeToSeconds(c.startText), SrtTimeToSeconds(c.endText), c.fullText)
  }

  function Rows(cues: seq<Cue>): (r: seq<Row>)
    ensures |r| == |cues| && forall k :: 0 <= k < |cues| ==> r[k] == RowOf(cues[k])
  {
    seq(|cues|, k requires 0 <= k < |cues| => RowOf(cues[k]))
  }

  /** What `_get_subtitles` returns for the lines of the file, None when
      the file does not exist. */
  function Subtitles(file: Option<seq<string>>): seq<Row>
  {
    match file
    case None => []
    case Some(lines) => Rows(Cues(StrippedAll(lines), 0))
  }

  /** The body of the loop of `_get_subtitles` at line i. */
  method ReadAt(lines: seq<string>, i: nat) returns (found: seq<Row>, next: nat)
    requires i < |lines|
    ensures found == Rows(Found(StrippedAll(lines), i))
    ensures next == Next(StrippedAll(lines), i)
  {
    ghost var s := StrippedAll(lines);
    var line := Strip(lines[i]);
    if line != [] && IsDigit(line[0]) {
      if i + 1 < |lines| {
        var timing := Strip(lines[i + 1]);
        if Contains(timing, "-->") {
          var parts := SplitOn(timing, " --> ");
          if |parts| == 2 {
            assert Timing(s, i) == Some((parts[0], parts[1]));
            var start := SrtTimeToSeconds(parts[0]);
            var end := SrtTimeToSeconds(parts[1]);
            var textLines, j := TextLines(lines, i + 2);
            found := [];
            if textLines != [] {
              found := [Row(start, end, Join(textLines, " "))];
              assert found == Rows([Cue(parts[0], parts[1], Join(textLines, " "))]);
            }
            return found, j;
          }
        }
      }
    }
    assert Timing(s, i) == None;
    return [], i + 1;
  }

  lemma RowsConcat(a: seq<Cue>, b: seq<Cue>)
    ensures Rows(a + b) == Rows(a) + Rows(b)
  {
    assert forall k :: 0 <= k < |b| ==> (a + b)[|a| + k] == b[k];
  }

  /** `_get_subtitles`: nothing for a missing file, else the blocks in file
      order. */
  method GetSubtitles(file: Option<seq<string>>) returns (subtitles: seq<Row>)
    ensures subtitles == Subtitles(file)
  {
    if file.None? {
      return [];
    }
    var lines := file.value;
    ghost var s := StrippedAll(lines);
    ghost var done: seq<Cue> := [];
    subtitles := [];
    var i := 0;
    while i < |lines|
      invariant i <= |lines|
      invariant Cues(s, 0) == done + Cues(s, i)
      invariant subtitles == Rows(done)
      decreases |lines| - i
    {
      var found, next := ReadAt(lines, i);
      ghost var cues := Found(s, i);
      Concat3(done, cues, Cues(s, next));
      RowsConcat(done, cues);
      subtitles := subtitles + found;
      done := done + cues;
      i := next;
    }
  }

  /** The viewer and the REST server read the same blocks from a file: the
      same times, and the viewer's text is the server's whole caption. */
  lemma SameBlocksAsServer(lines: seq<string>)
    ensures |Subtitles(Some(lines))| == |Api.Subtitles(lines)|
    ensures forall k :: 0 <= k < |Subtitles(Some(lines))| ==>
      var a := Api.Subtitles(lines)[k];
      Subtitles(Some(lines))[k] == Row(a.start, a.end, a.fullText)
  {
  }

  /** The viewer shows a regenerated file as its segments, each captioned
      "speaker: text". */
  lemma ShowsRegenerated(es: seq<SrtEntry>)
    requires forall k :: 0 <= k < |es| ==> Readable(es[k])
    ensures Subtitles(Some(SrtLines(Api.PrintedAll(es), 1))) ==
      seq(|es|, k requires 0 <= k < |es| => Row(es[k].start, es[k].end, CaptionLine(es[k])))
  {
    var cues := Api.PrintedAll(es);
    forall k | 0 <= k < |es| ensures Writable(cues[k]) && RowOf(cues[k]) == Row(es[k].start, es[k].end, CaptionLine(es[k])) {
      PrintedReadsBack(es[k]);
    }
    SrtRoundTrip(cues);
  }

  // ---------------------------------------------------------------------------
  // `_get_metadata`

  /** What a Python set compares a speaker by: True and 1, False and 0 are
      one element; a list or dict cannot be hashed (TypeError). */
  function HashKey(v: JValue): (r: Result<JValue>)
    ensures r.Err? <==> v.JArr? || v.JObj?
  {
    match v
    case JArr(_) => Err(TypeError)
    case JObj(_) => Err(TypeError)
    case JBool(b) => Ok(JNum(if b then 1.0 else 0.0))
    case _ => Ok(v)
  }

  /** A segment's speaker, "Unknown" when it has none. */
  function SpeakerOf(seg: map<string, JValue>): JValue
  {
    Get(seg, "speaker", JStr("Unknown"))
  }

  /** The set of speakers of some segments. */
  function SpeakerSet(segs: seq<map<string, JValue>>): (r: Result<set<JValue>>)
    ensures r.Ok? ==> |r.value| <= |segs|
    ensures r.Ok? ==> (r.value == {} <==> segs == [])
  {
    if segs == [] then Ok({})
    else
      match SpeakerSet(segs[..|segs| - 1])
      case Err(e) => Err(e)
      case Ok(ks) =>
        match HashKey(SpeakerOf(segs[|segs| - 1]))
        case Err(e) => Err(e)
        case Ok(k) => Ok(ks + {k})
  }

  /** The speaker set exists exactly when no speaker is a list or a dict. */
  lemma {:induction false} SpeakerSetOk(segs: seq<map<string, JValue>>)
    ensures SpeakerSet(segs).Ok? <==> forall i :: 0 <= i < |segs| ==> HashKey(SpeakerOf(segs[i])).Ok?
    decreases |segs|
  {
    if segs != [] {
      var init := segs[..|segs| - 1];
      SpeakerSetOk(init);
      assert forall i :: 0 <= i < |init| ==> segs[i] == init[i];
    }
  }

  /** Every segment's speaker is in the set. */
  lemma {:induction false} SpeakerSetHolds(segs: seq<map<string, JValue>>)
    requires SpeakerSet(segs).Ok?
    ensures forall i :: 0 <= i < |segs| ==> HashKey(SpeakerOf(segs[i])).Ok? && HashKey(SpeakerOf(segs[i])).value in SpeakerSet(segs).value
    decreases |segs|
  {
    if segs != [] {
      var init := segs[..|segs| - 1];
      SpeakerSetHolds(init);
      assert forall i :: 0 <= i < |init| ==> segs[i] == init[i];
    }
  }

  /** Every element of the set is some segment's speaker. */
  lemma {:induction false} SpeakerSetFrom(segs: seq<map<string, JValue>>, k: JValue)
    requires SpeakerSet(segs).Ok? && k in SpeakerSet(segs).value
    ensures exists i :: 0 <= i < |segs| && HashKey(SpeakerOf(segs[i])) == Ok(k)
    decreases |segs|
  {
    var init := segs[..|segs| - 1];
    if HashKey(SpeakerOf(segs[|segs| - 1])) != Ok(k) {
      SpeakerSetFrom(init, k);
      var i :| 0 <= i < |init| && HashKey(SpeakerOf(init[i])) == Ok(k);
      assert segs[i] == init[i];
    }
  }

  /** The counts `_get_metadata` reports; the fields it copies from the
      document unchanged are not modelled. */
  datatype Metadata = Metadata(speakerCount: nat, speakers: set<JValue>, segmentCount: nat)

  /** `_get_metadata` on the stored document (None when the file does not
      exist): 404 for a missing file; otherwise the distinct speakers and
      the number of segments, or the exception the handler turns into a
      500 response. */
  function GetMetadata(stored: Option<JValue>): (r: Result<Metadata>)
    ensures stored.None? ==> r == Err(HttpError(404))
    ensures r.Ok? ==> r.value.speakerCount == |r.value.speakers| <= r.value.segmentCount
    ensures r.Ok? ==> (r.value.speakerCount == 0 <==> r.value.segmentCount == 0)
  {
    match stored
    case None => Err(HttpError(404))
    case Some(doc) =>
      if !doc.JObj? then Err(AttributeError)
      else
        match DictItems(Get(doc.fields, "segments", JArr([])))
        case Err(e) => Err(e)
        case Ok(segs) =>
          match SpeakerSet(segs)
          case Err(e) => Err(e)
          case Ok(ks) => Ok(Metadata(|ks|, ks, |segs|))
  }

  /** Segments none of which names a speaker count as one speaker,
      "Unknown". */
  lemma AllUnknown(segs: seq<map<string, JValue>>)
    requires segs != [] && forall i :: 0 <= i < |segs| ==> "speaker" !in segs[i]
    ensures SpeakerSet(segs) == Ok({JStr("Unknown")})
  {
    var u := JStr("Unknown");
    assert forall i :: 0 <= i < |segs| ==> HashKey(SpeakerOf(segs[i])) == Ok(u);
    SpeakerSetOk(segs);
    SpeakerSetHolds(segs);
    var ks := SpeakerSet(segs).value;
    assert u in ks;
    forall k | k in ks ensures k == u {
      SpeakerSetFrom(segs, k);
      var i :| 0 <= i < |segs| && HashKey(SpeakerOf(segs[i])) == Ok(k);
    }
    assert ks == {u};
  }

  // ---------------------------------------------------------------------------
  // `_list_videos`

  /** One entry of the video list. */
  datatype Video = Video(id: string, timestamp: real)

  /** The id `_list_videos` gives the file "`stem`.json" as written:
      every "_labeled" in the stem is removed, not only the one the file
      name ends with. */
  function ListedIdAsWritten(stem: string): string
  {
    Replace(stem, "_labeled", "")
  }

  /** A video whose own id is "`a`_labeled" is listed as `a`, so the
      metadata and subtitle endpoints, which look for "`id`_labeled.json",
      do not find it under the listed id. */
  lemma {:induction false} ListedIdAsWrittenLosesId(a: string)
    requires '_' !in a
    ensures ListedIdAsWritten(a + "_labeled" + "_labeled") == a
    decreases |a|
  {
    var p := "_labeled";
    var s := a + p + p;
    if a == [] {
      assert s == p + p && s[..|p|] == p && s[|p|..] == p;
      assert Replace(p, p, "") == "";
    } else {
      assert s[0] == a[0] != p[0];
      assert s[1..] == a[1..] + p + p;
      ListedIdAsWrittenLosesId(a[1..]);
    }
  }

  /** The id of the file "`stem`.json": the stem without the "_labeled" it
      ends with, as every file the listing globs for does. */
  function ListedId(stem: string): string
  {
    if |stem| >= |"_labeled"| && stem[|stem| - |"_labeled"|..] == "_labeled" then stem[..|stem| - |"_labeled"|]
    else stem
  }

  /** The listed id names the file back: "`id`_labeled.json" is listed as
      `id`, whatever `id` holds. */
  lemma ListedIdRoundTrip(id: string)
    ensures ListedId(id + "_labeled") == id
  {
    var s := id + "_labeled";
    assert s[|s| - |"_labeled"|..] == "_labeled";
    assert s[..|s| - |"_labeled"|] == id;
  }

  /** The sort key: `reverse=True` keeps equal timestamps in their input
      order, so sorting newest first is a stable sort by the negated
      timestamp. */
  function Age(v: Video): real
  {
    -v.timestamp
  }

  /** The entries of the labelled files found, each given by its stem and
      modification time in the order the directory yields them. */
  function Listed(files: seq<(string, real)>): (vs: seq<Video>)
    ensures |vs| == |files|
    ensures forall k :: 0 <= k < |files| ==> vs[k] == Video(ListedId(files[k].0), files[k].1)
  {
    seq(|files|, k requires 0 <= k < |files| => Video(ListedId(files[k].0), files[k].1))
  }

  /** `_list_videos`: the entries, newest first. */
  function ListVideos(files: seq<(string, real)>): seq<Video>
  {
    SortBy(Listed(files), Age)
  }

  /** The list is newest first, holds one entry per file, and keeps files
      with the same time in the order they were found. */
  lemma ListVideosOrder(files: seq<(string, real)>)
    ensures var r := ListVideos(files);
      (forall i, j :: 0 <= i < j < |r| ==> r[i].timestamp >= r[j].timestamp) &&
      multiset(r) == multiset(Listed(files)) &&
      forall v :: WithKey(r, Age, v) == WithKey(Listed(files), Age, v)
  {
    var vs := Listed(files);
    SortBySortedPermutation(vs, Age);
    var r := ListVideos(files);
    forall i, j | 0 <= i < j < |r| ensures r[i].timestamp >= r[j].timestamp {
      assert Age(r[i]) <= Age(r[j]);
    }
    forall v ensures WithKey(r, Age, v) == WithKey(vs, Age, v) {
      SortByStable(vs, Age, v);
    }
  }
}
