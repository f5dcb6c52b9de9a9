/**
 * `src/audio/transcript.py`: the transcript segment type, the WebVTT
 * timestamp reader, the "Speaker: text" caption split shared by the SubRip
 * and WebVTT readers, the JSON item defaults and the dispatch on the file
 * suffix. The subtitle libraries and file reads are replaced by the records
 * they yield.
 */
module Transcript {
  import opened Base
  import opened Text
  import opened Json
  import opened Paths

  /** `TranscriptSegment`: `speaker` is the label found in the transcript,
      if any. */
  datatype TranscriptSegment = TranscriptSegment(start: real, end: real, text: string, speaker: Option<string>)

  /** The `duration` property. */
  function Duration(seg: TranscriptSegment): real
  {
    seg.end - seg.start
  }

  // ---------------------------------------------------------------------------
  // `_parse_vtt_timestamp`

  /** "HH:MM:SS.mmm" or "MM:SS.mmm" to seconds; hours and minutes go through
      `int()`, seconds through `float()`, and any other number of
      ':'-separated fields raises ValueError. */
  function ParseVttTimestamp(timestamp: string): (r: Result<real>)
    ensures r.Err? ==> r.error == ValueError
    ensures r.Ok? ==> |SplitOn(timestamp, ":")| in {2, 3}
  {
    FieldsSeconds(SplitOn(timestamp, ":"))
  }

  /** The value of the ':'-separated fields of a WebVTT time stamp. */
  function FieldsSeconds(parts: seq<string>): (r: Result<real>)
    ensures r.Err? ==> r.error == ValueError
    ensures r.Ok? ==> |parts| in {2, 3}
  {
    if |parts| == 3 then
      var h, m, s := ParseInt(parts[0]), ParseInt(parts[1]), ParseFloat(parts[2]);
      if h.Ok? && m.Ok? && s.Ok? then Ok(h.value as real * 3600.0 + m.value as real * 60.0 + s.value)
      else Err(ValueError)
    else if |parts| == 2 then
      var m, s := ParseInt(parts[0]), ParseFloat(parts[1]);
      if m.Ok? && s.Ok? then Ok(m.value as real * 60.0 + s.value)
      else Err(ValueError)
    else Err(ValueError)
  }

  /** Decimal seconds text "`ip`.`fp`" holds no ':'. */
  lemma SecondsNoColon(ip: string, fp: string)
    requires AllDigits(ip) && AllDigits(fp)
    ensures ':' !in ip + "." + fp
  {
    var s := ip + "." + fp;
    forall i | 0 <= i < |s| ensures s[i] != ':' {
      if i < |ip| { assert s[i] == ip[i]; }
      else if i > |ip| { assert s[i] == fp[i - |ip| - 1]; }
    }
  }

  lemma DigitsNoColon(d: string)
    requires AllDigits(d)
    ensures ':' !in d
  {
    forall i | 0 <= i < |d| ensures d[i] != ':' {
      assert IsDigit(d[i]);
    }
  }

  /** `s.split(":")` of three colon-free fields joined by ':'. */
  lemma SplitThreeFields(a: string, b: string, c: string)
    requires ':' !in a && ':' !in b && ':' !in c
    ensures SplitOn(a + ":" + b + ":" + c, ":") == [a, b, c]
  {
    assert a + ":" + b + ":" + c == a + ":" + (b + ":" + c);
    SplitAfterPrefix(a, ":", b + ":" + c);
    SplitAfterPrefix(b, ":", c);
    SplitNone(c, ":");
  }

  /** `s.split(":")` of two colon-free fields joined by ':'. */
  lemma SplitTwoFields(a: string, b: string)
    requires ':' !in a && ':' !in b
    ensures SplitOn(a + ":" + b, ":") == [a, b]
  {
    SplitAfterPrefix(a, ":", b);
    SplitNone(b, ":");
  }

  /** The WebVTT time stamp is the value of its ':'-separated fields. */
  lemma TimestampFields(ts: string)
    ensures ParseVttTimestamp(ts) == FieldsSeconds(SplitOn(ts, ":"))
  {
  }

  lemma ThreeFieldsValue(a: string, b: string, c: string, hv: int, mv: int, sv: real)
    requires ParseInt(a) == Ok(hv) && ParseInt(b) == Ok(mv) && ParseFloat(c) == Ok(sv)
    ensures FieldsSeconds([a, b, c]) == Ok(hv as real * 3600.0 + mv as real * 60.0 + sv)
  {
  }

  lemma TwoFieldsValue(a: string, b: string, mv: int, sv: real)
    requires ParseInt(a) == Ok(mv) && ParseFloat(b) == Ok(sv)
    ensures FieldsSeconds([a, b]) == Ok(mv as real * 60.0 + sv)
  {
  }

  /** "HH:MM:SS": three fields whose hours and minutes `int()` accepts and
      whose seconds `float()` accepts read as h·3600 + m·60 + s. */
  lemma VttHoursMinutesSeconds(ts: string, h: string, m: string, sec: string, hv: int, mv: int, sv: real)
    requires SplitOn(ts, ":") == [h, m, sec]
    requires ParseInt(h) == Ok(hv) && ParseInt(m) == Ok(mv) && ParseFloat(sec) == Ok(sv)
    ensures ParseVttTimestamp(ts) == Ok(hv as real * 3600.0 + mv as real * 60.0 + sv)
  {
    ThreeFieldsValue(h, m, sec, hv, mv, sv);
    TimestampFields(ts);
  }

  /** "MM:SS": two such fields read as m·60 + s. */
  lemma VttMinutesSeconds(ts: string, m: string, sec: string, mv: int, sv: real)
    requires SplitOn(ts, ":") == [m, sec]
    requires ParseInt(m) == Ok(mv) && ParseFloat(sec) == Ok(sv)
    ensures ParseVttTimestamp(ts) == Ok(mv as real * 60.0 + sv)
  {
    TwoFieldsValue(m, sec, mv, sv);
    TimestampFields(ts);
  }

  /** A non-integer hour or minute field raises ValueError. */
  lemma VttBadField(ts: string)
    requires var parts := SplitOn(ts, ":");
      (|parts| == 3 && (ParseInt(parts[0]).Err? || ParseInt(parts[1]).Err?))
      || (|parts| == 2 && ParseInt(parts[0]).Err?)
    ensures ParseVttTimestamp(ts) == Err(ValueError)
  {
    TimestampFields(ts);
  }

  /** The time stamps WebVTT writes, "HH:MM:SS.mmm" with digit fields, split
      into those three fields. */
  lemma HmsSplit(h: string, m: string, sec: string)
    requires AllDigits(h) && AllDigits(m) && ':' !in sec
    ensures SplitOn(h + ":" + m + ":" + sec, ":") == [h, m, sec]
  {
    DigitsNoColon(h);
    DigitsNoColon(m);
    SplitThreeFields(h, m, sec);
  }

  /** The seconds field "SS.mmm" holds no ':' and reads as its decimal
      value. */
  lemma VttSecondsField(ip: string, fp: string)
    requires AllDigits(ip) && AllDigits(fp) && ip != []
    ensures ':' !in ip + "." + fp
    ensures ParseFloat(ip + "." + fp) == Ok(DigitsValue(ip) as real + FractionValue(fp))
  {
    SecondsNoColon(ip, fp);
    ParseFloatDecimal(ip, fp);
  }

  /** A timestamp without ':' is one field, hence rejected. */
  lemma VttNoColonRejected(timestamp: string)
    requires ':' !in timestamp
    ensures ParseVttTimestamp(timestamp) == Err(ValueError)
  {
    SplitNone(timestamp, ":");
  }

  // ---------------------------------------------------------------------------
  // The "Speaker: text" split of `parse_srt` and `parse_vtt`

  /** Newlines become spaces; then, when `^([^:]+):\s*(.*)$` matches (a
      colon exists and the text does not start with one), the speaker is the
      stripped text before the first colon and the text the stripped rest.
      Returns (speaker, text). */
  function SpeakerSplit(raw: string): (r: (Option<string>, string))
  {
    var text := ReplaceChar(raw, '\n', ' ');
    match FindChar(text, ':')
    case Some(i) =>
      if i == 0 then (None, text)
      else (Some(Strip(text[..i])), Strip(text[i + 1..]))
    case None => (None, text)
  }

  /** A speaker is found exactly when the caption holds a colon but does not
      start with one; without one the text is the caption with its newlines
      turned into spaces. */
  lemma SpeakerSplitSpec(raw: string)
    ensures SpeakerSplit(raw).0.Some? <==> ':' in raw && raw[0] != ':'
    ensures SpeakerSplit(raw).0.None? ==> SpeakerSplit(raw).1 == ReplaceChar(raw, '\n', ' ')
    ensures SpeakerSplit(raw).0.Some? ==> ':' !in SpeakerSplit(raw).0.value
  {
    var text := ReplaceChar(raw, '\n', ' ');
    assert ':' in raw <==> ':' in text by {
      forall i | 0 <= i < |raw| ensures raw[i] == ':' <==> text[i] == ':' {
      }
    }
    match FindChar(text, ':')
    case None =>
    case Some(i) =>
      assert raw[0] == ':' <==> text[0] == ':';
      if i > 0 {
        StripNoNewChars(text[..i], ':');
      }
  }

  /** With no newline and a first colon at `i > 0`, the split is at `i`. */
  lemma SpeakerSplitAt(raw: string, i: nat, speaker: string, text: string)
    requires '\n' !in raw && FindChar(raw, ':') == Some(i) && i > 0
    requires Strip(raw[..i]) == speaker && Strip(raw[i + 1..]) == text
    ensures SpeakerSplit(raw) == (Some(speaker), text)
  {
    ReplaceCharAbsent(raw, '\n', ' ');
  }

  /** "`speaker`: `text`" as written by the subtitle generator reads back as
      the same speaker and text. */
  lemma SpeakerSplitCompose(speaker: string, text: string)
    requires speaker != [] && Trimmed(speaker) && Trimmed(text)
    requires ':' !in speaker && '\n' !in speaker && '\n' !in text
    ensures SpeakerSplit(speaker + ": " + text) == (Some(speaker), text)
  {
    ComposedCaption(speaker, text);
    var raw := speaker + ": " + text;
    assert Strip(raw[..|speaker|]) == speaker by { StripTrimmed(speaker); }
    assert Strip(raw[|speaker| + 1..]) == text by {
      StripSpaceBefore(text);
      StripTrimmed(text);
    }
    SpeakerSplitAt(raw, |speaker|, speaker, text);
  }

  /** Where the pieces of "`speaker`: `text`" sit. */
  lemma ComposedCaption(speaker: string, text: string)
    requires ':' !in speaker && '\n' !in speaker && '\n' !in text
    ensures '\n' !in speaker + ": " + text
    ensures FindChar(speaker + ": " + text, ':') == Some(|speaker|)
    ensures (speaker + ": " + text)[..|speaker|] == speaker
    ensures (speaker + ": " + text)[|speaker| + 1..] == " " + text
  {
    var rest := " " + text;
    assert speaker + ": " + text == speaker + ":" + rest;
    ColonJoinNoNewline(speaker, rest);
    FindCharAfter(speaker, ':', rest);
    ColonJoinPieces(speaker, rest);
  }

  lemma ColonJoinNoNewline(speaker: string, rest: string)
    requires '\n' !in speaker && '\n' !in rest
    ensures '\n' !in speaker + ":" + rest
  {
    var raw := speaker + ":" + rest;
    forall i | 0 <= i < |raw| ensures raw[i] != '\n' {
      if i < |speaker| { assert raw[i] == speaker[i]; }
      else if i > |speaker| { assert raw[i] == rest[i - |speaker| - 1]; }
    }
  }

  lemma ColonJoinPieces(speaker: string, rest: string)
    ensures (speaker + ":" + rest)[..|speaker|] == speaker
    ensures (speaker + ":" + rest)[|speaker| + 1..] == rest
  {
  }

  /** The segment a caption becomes. */
  function CaptionSegment(start: real, end: real, raw: string): TranscriptSegment
  {
    var (speaker, text) := SpeakerSplit(raw);
    TranscriptSegment(start, end, text, speaker)
  }

  // ---------------------------------------------------------------------------
  // `parse_srt`

  /** A `pysrt` time stamp. */
  datatype SrtTime = SrtTime(hours: int, minutes: int, seconds: int, milliseconds: int)

  /** A `pysrt` subtitle item. */
  datatype SrtItem = SrtItem(start: SrtTime, end: SrtTime, text: string)

  function SrtSeconds(t: SrtTime): real
  {
    t.hours as real * 3600.0 + t.minutes as real * 60.0 + t.seconds as real + t.milliseconds as real / 1000.0
  }

  /** The loop of `parse_srt` over the items `pysrt` read. */
  method ParseSrt(subs: seq<SrtItem>) returns (segments: seq<TranscriptSegment>)
    ensures |segments| == |subs|
    ensures forall i :: 0 <= i < |subs| ==>
      segments[i] == CaptionSegment(SrtSeconds(subs[i].start), SrtSeconds(subs[i].end), subs[i].text)
  {
    segments := [];
    for i := 0 to |subs|
      invariant |segments| == i
      invariant forall k :: 0 <= k < i ==>
        segments[k] == CaptionSegment(SrtSeconds(subs[k].start), SrtSeconds(subs[k].end), subs[k].text)
    {
      var start := SrtSeconds(subs[i].start);
      var end := SrtSeconds(subs[i].end);
      var speaker, text := SpeakerSplit(subs[i].text).0, SpeakerSplit(subs[i].text).1;
      segments := segments + [TranscriptSegment(start, end, text, speaker)];
    }
  }

  // ---------------------------------------------------------------------------
  // `parse_vtt`

  /** A `webvtt` caption: its time stamps are still text. */
  datatype VttCaption = VttCaption(start: string, end: string, text: string)

  function VttSegment(c: VttCaption): (r: Result<TranscriptSegment>)
    ensures r.Err? ==> r.error == ValueError
    ensures r.Ok? ==> r.value.text == SpeakerSplit(c.text).1 && r.value.speaker == SpeakerSplit(c.text).0
  {
    match (ParseVttTimestamp(c.start), ParseVttTimestamp(c.end))
    case (Ok(s), Ok(e)) => Ok(CaptionSegment(s, e, c.text))
    case (Err(err), _) => Err(err)
    case (_, Err(err)) => Err(err)
  }

  /** The segments of `parse_vtt`: one per caption, in order, and
      ValueError as soon as a time stamp is malformed. */
  lemma VttSegmentsSpec(caps: seq<VttCaption>)
    ensures Traverse(caps, VttSegment).Ok? <==> forall i :: 0 <= i < |caps| ==> VttSegment(caps[i]).Ok?
    ensures Traverse(caps, VttSegment).Err? ==> Traverse(caps, VttSegment).error == ValueError
    ensures Traverse(caps, VttSegment).Ok? ==>
      |Traverse(caps, VttSegment).value| == |caps|
      && forall i :: 0 <= i < |caps| ==> Traverse(caps, VttSegment).value[i] == VttSegment(caps[i]).value
  {
    var k := TraverseSpec(caps, VttSegment);
    if Traverse(caps, VttSegment).Err? {
      assert VttSegment(caps[k]).Err?;
    }
  }

  /** The loop of `parse_vtt` over the captions `webvtt` read. */
  method ParseVtt(caps: seq<VttCaption>) returns (r: Result<seq<TranscriptSegment>>)
    ensures r == Traverse(caps, VttSegment)
  {
    var segments: seq<TranscriptSegment> := [];
    for i := 0 to |caps|
      invariant Traverse(caps[..i], VttSegment) == Ok(segments)
    {
      assert caps[..i + 1][..i] == caps[..i];
      var start := ParseVttTimestamp(caps[i].start);
      if start.Err? {
        TraverseErrExtends(caps, VttSegment, i + 1);
        return Err(start.error);
      }
      var end := ParseVttTimestamp(caps[i].end);
      if end.Err? {
        TraverseErrExtends(caps, VttSegment, i + 1);
        return Err(end.error);
      }
      var sp := SpeakerSplit(caps[i].text);
      segments := segments + [TranscriptSegment(start.value, end.value, sp.1, sp.0)];
    }
    assert caps[..|caps|] == caps;
    return Ok(segments);
  }

  // ---------------------------------------------------------------------------
  // `parse_json`

  /** `float(v)` of a decoded JSON value. */
  function FloatOf(v: JValue): Result<real>
  {
    match v
    case JNum(n) => Ok(n)
    case JBool(b) => Ok(if b then 1.0 else 0.0)
    case JStr(s) => ParseFloat(s)
    case _ => Err(TypeError)
  }

  /** One JSON item: missing start/end are 0, a missing text is "", a
      missing or null speaker is None. A text that is not a string, or a
      speaker that is neither null nor a string, is outside the segment type
      and refused with a TypeError. */
  function JsonSegment(item: map<string, JValue>): Result<TranscriptSegment>
  {
    var text := Get(item, "text", JStr(""));
    var speaker := Get(item, "speaker", JNull);
    match (FloatOf(Get(item, "start", JNum(0.0))), FloatOf(Get(item, "end", JNum(0.0))))
    case (Err(e), _) => Err(e)
    case (_, Err(e)) => Err(e)
    case (Ok(s), Ok(e)) =>
      if !text.JStr? || !(speaker.JNull? || speaker.JStr?) then Err(TypeError)
      else Ok(TranscriptSegment(s, e, text.s, if speaker.JStr? then Some(speaker.s) else None))
  }

  /** An item with only a text gets the defaults. */
  lemma JsonSegmentDefaults(text: string)
    ensures JsonSegment(map["text" := JStr(text)]) == Ok(TranscriptSegment(0.0, 0.0, text, None))
  {
    var item := map["text" := JStr(text)];
    assert "start" !in item && "end" !in item && "speaker" !in item;
  }

  /** The item list `parse_json` iterates over: `data["segments"]` when
      `"segments" in data`, `data` itself when it is a list, ValueError for
      anything else. `in` on a string is a substring test and on a list a
      membership test, and `data["segments"]` then fails on either. */
  function JsonItems(data: JValue): (r: Result<JValue>)
    ensures data.JObj? && "segments" in data.fields ==> r == Ok(data.fields["segments"])
    ensures data.JArr? && JStr("segments") !in data.items ==> r == Ok(data)
    ensures data.JObj? && "segments" !in data.fields ==> r == Err(ValueError)
  {
    match data
    case JObj(m) => if "segments" in m then Ok(m["segments"]) else Err(ValueError)
    case JArr(a) => if JStr("segments") in a then Err(TypeError) else Ok(data)
    case JStr(s) => if Contains(s, "segments") then Err(TypeError) else Err(ValueError)
    case _ => Err(TypeError)
  }

  /** `parse_json` on the decoded document. */
  function ParseJsonSpec(data: JValue): Result<seq<TranscriptSegment>>
  {
    match JsonItems(data)
    case Err(e) => Err(e)
    case Ok(items) =>
      match DictItems(items)
      case Err(e) => Err(e)
      case Ok(objs) => Traverse(objs, JsonSegment)
  }

  /** The loop of `parse_json`. */
  method ParseJson(data: JValue) returns (r: Result<seq<TranscriptSegment>>)
    ensures r == ParseJsonSpec(data)
  {
    var items := JsonItems(data);
    if items.Err? {
      return Err(items.error);
    }
    var objs := DictItems(items.value);
    if objs.Err? {
      return Err(objs.error);
    }
    var segments: seq<TranscriptSegment> := [];
    for i := 0 to |objs.value|
      invariant Traverse(objs.value[..i], JsonSegment) == Ok(segments)
    {
      assert objs.value[..i + 1][..i] == objs.value[..i];
      var seg := JsonSegment(objs.value[i]);
      if seg.Err? {
        TraverseErrExtends(objs.value, JsonSegment, i + 1);
        return Err(seg.error);
      }
      segments := segments + [seg.value];
    }
    assert objs.value[..|objs.value|] == objs.value;
    return Ok(segments);
  }

  /** A document `{"segments": [...]}` whose items all convert yields one
      segment per item, in order. */
  lemma ParseJsonSegmentsList(items: seq<map<string, JValue>>)
    requires forall i :: 0 <= i < |items| ==> JsonSegment(items[i]).Ok?
    ensures var data := JObj(map["segments" := JArr(seq(|items|, i requires 0 <= i < |items| => JObj(items[i])))]);
      && ParseJsonSpec(data).Ok?
      && |ParseJsonSpec(data).value| == |items|
      && forall i :: 0 <= i < |items| ==> ParseJsonSpec(data).value[i] == JsonSegment(items[i]).value
  {
    var arr := seq(|items|, i requires 0 <= i < |items| => JObj(items[i]));
    var objs := DictItems(JArr(arr));
    assert objs.Ok?;
    assert objs.value == items by {
      assert |objs.value| == |items|;
      forall i | 0 <= i < |items| ensures objs.value[i] == items[i] {
        assert arr[i] == JObj(objs.value[i]);
      }
    }
    var _ := TraverseSpec(items, JsonSegment);
  }

  // ---------------------------------------------------------------------------
  // `parse`

  datatype Format = SubRip | WebVtt | JsonFormat

  /** The reader `parse` picks from the lowercased suffix, or ValueError. */
  function FormatOf(path: string): (r: Result<Format>)
    ensures r.Err? ==> r.error == ValueError
  {
    var suffix := Lower(Suffix(path));
    if suffix == ".srt" then Ok(SubRip)
    else if suffix == ".vtt" then Ok(WebVtt)
    else if suffix == ".json" then Ok(JsonFormat)
    else Err(ValueError)
  }

  /** A transcript is accepted exactly when its lowercased suffix is one of
      the three known ones. */
  lemma FormatOfSpec(path: string)
    ensures FormatOf(path).Ok? <==> Lower(Suffix(path)) in {".srt", ".vtt", ".json"}
  {
  }

  /** "`dir`/`stem`.SRT" is read as SubRip whatever the case of its
      extension. */
  lemma FormatOfSrt(dir: string, stem: string, e: string)
    requires stem != [] && '/' !in stem && Lower(e) == "srt"
    ensures FormatOf(dir + "/" + stem + "." + e) == Ok(SubRip)
  {
    SrtExtension(e);
    SuffixOfName(dir, stem, e);
  }

  /** An extension that lowers to "srt" holds neither '/' nor '.'. */
  lemma SrtExtension(e: string)
    requires Lower(e) == "srt"
    ensures '/' !in e && '.' !in e
    ensures Lower("." + e) == ".srt"
  {
    assert |e| == 3;
    forall i | 0 <= i < 3 ensures e[i] != '/' && e[i] != '.' {
      assert LowerChar(e[i]) == "srt"[i];
    }
    assert Lower("." + e) == [LowerChar('.')] + Lower(("." + e)[1..]);
    assert ("." + e)[1..] == e;
  }
}
