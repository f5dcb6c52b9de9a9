/**
 * `src/api.py`, the REST server: reading a labelled .srt into subtitle
 * records, writing it again from the labelled JSON document, renaming a
 * speaker in that document, and the extension check on uploads. HTTP
 * routing, file access and the background jobs are outside the model; the
 * handlers are modelled on the values they read and write.
 */
module Api {
  import opened Base
  import opened Text
  import opened Json
  import opened Paths
  import opened SubRip

  // ---------------------------------------------------------------------------
  // `_parse_srt`

  /** One entry of `_parse_srt`'s result. */
  datatype Subtitle = Subtitle(start: real, end: real, text: string, speaker: string, fullText: string)

  /** The speaker split of `_parse_srt`: when ": " occurs in the text, the
      speaker is what comes before its first occurrence and the text what
      comes after it (`split(": ", 1)`); otherwise the speaker is "" and the
      text is the whole text. */
  function CaptionSplit(fullText: string): (string, string)
  {
    match IndexOf(fullText, ": ")
    case None => ("", fullText)
    case Some(i) => (fullText[..i], fullText[i + 2..])
  }

  /** The split either finds no ": " and keeps the whole text, or cuts the
      text at a ": " that does not occur in the speaker part. */
  lemma CaptionSplitSpec(fullText: string)
    ensures !Contains(fullText, ": ") ==> CaptionSplit(fullText) == ("", fullText)
    ensures Contains(fullText, ": ") ==>
      var (speaker, text) := CaptionSplit(fullText);
      fullText == speaker + ": " + text && !Contains(speaker, ": ")
  {
    match IndexOf(fullText, ": ")
    case None =>
    case Some(i) =>
      var speaker := fullText[..i];
      assert fullText[i..i + 2] == ": ";
      assert fullText == speaker + ": " + fullText[i + 2..];
      forall k | OccursAt(speaker, ": ", k) ensures OccursAt(fullText, ": ", k) {
        assert speaker[k..k + 2] == fullText[k..k + 2];
      }
      ContainsIff(speaker, ": ");
  }

  /** The text line `_regenerate_srt` writes splits back into the speaker
      and the text when the speaker holds no ':'. */
  lemma CaptionLineSplit(e: SrtEntry)
    requires ':' !in e.speaker
    ensures CaptionSplit(CaptionLine(e)) == (e.speaker, e.text)
  {
    IndexOfAfterPrefix(e.speaker, ": ", e.text);
    var line := CaptionLine(e);
    assert line[..|e.speaker|] == e.speaker;
    assert line[|e.speaker| + 2..] == e.text;
  }

  /** The record `_parse_srt` makes of a block. */
  function Entry(c: Cue): Subtitle
  {
    var (speaker, text) := CaptionSplit(c.fullText);
    Subtitle(SrtTimeToSeconds(c.startText), SrtTimeToSeconds(c.endText), text, speaker, c.fullText)
  }

  /** The records of some blocks, in order. */
  function Entries(cues: seq<Cue>): (r: seq<Subtitle>)
    ensures |r| == |cues| && forall k :: 0 <= k < |cues| ==> r[k] == Entry(cues[k])
  {
    seq(|cues|, k requires 0 <= k < |cues| => Entry(cues[k]))
  }

  /** `_parse_srt` on the lines `readlines()` gives: one record per block,
      in file order. */
  function Subtitles(lines: seq<string>): seq<Subtitle>
  {
    Entries(Cues(StrippedAll(lines), 0))
  }

  /** The body of the loop of `_parse_srt` at line i: the record of the
      block line i opens, if any, and the line the loop goes on at. */
  method ParseAt(lines: seq<string>, i: nat) returns (found: seq<Subtitle>, next: nat)
    requires i < |lines|
    ensures found == Entries(Found(StrippedAll(lines), i))
    ensures next == Next(StrippedAll(lines), i)
  {
    ghost var s := StrippedAll(lines);
    var line := Strip(lines[i]);
    if line != [] && IsDigit(line[0]) && i + 1 < |lines| {
      var timing := Strip(lines[i + 1]);
      if Contains(timing, "-->") {
        var parts := SplitOn(timing, " --> ");
        if |parts| == 2 {
          assert Timing(s, i) == Some((parts[0], parts[1]));
          var start := SrtTimeToSeconds(parts[0]);
          var end := SrtTimeToSeconds(parts[1]);
          var textLines, j := TextLines(lines, i + 2);
          found := [];
          if textLines != [] {
            var fullText := Join(textLines, " ");
            var speaker, text := CaptionSplit(fullText).0, CaptionSplit(fullText).1;
            found := [Subtitle(start, end, text, speaker, fullText)];
            assert found == Entries([Cue(parts[0], parts[1], fullText)]);
          }
          return found, j;
        }
      }
    }
    assert Timing(s, i) == None;
    return [], i + 1;
  }

  /** The loop of `_parse_srt`. */
  method ParseSrt(lines: seq<string>) returns (subtitles: seq<Subtitle>)
    ensures subtitles == Subtitles(lines)
  {
    ghost var s := StrippedAll(lines);
    ghost var done: seq<Cue> := [];
    subtitles := [];
    var i := 0;
    while i < |lines|
      invariant i <= |lines|
      invariant Cues(s, 0) == done + Cues(s, i)
      invariant subtitles == Entries(done)
      decreases |lines| - i
    {
      var found, next := ParseAt(lines, i);
      ghost var cues := Found(s, i);
      Concat3(done, cues, Cues(s, next));
      EntriesConcat(done, cues);
      subtitles := subtitles + found;
      done := done + cues;
      i := next;
    }
  }

  lemma EntriesConcat(a: seq<Cue>, b: seq<Cue>)
    ensures Entries(a + b) == Entries(a) + Entries(b)
  {
    assert forall k :: 0 <= k < |b| ==> (a + b)[|a| + k] == b[k];
  }

  // ---------------------------------------------------------------------------
  // `_regenerate_srt`

  /** A time as `_format_srt_time` takes it: a number, a boolean counting
      as 0 or 1; anything else fails in `//` with TypeError. */
  function SecondsOf(v: JValue): Result<real>
  {
    match v
    case JNum(n) => Ok(n)
    case JBool(b) => Ok(if b then 1.0 else 0.0)
    case _ => Err(TypeError)
  }

  /** A value as an f-string prints it: text as it is, null as "None" and
      the booleans as "True" and "False". */
  function Str(v: JValue): Result<string>
  {
    match v
    case JStr(t) => Ok(t)
    case JNull => Ok("None")
    case JBool(b) => Ok(if b then "True" else "False")
    case _ => Err(TypeError)
  }

  /** One segment of the document: start and end default to 0, the speaker
      name to "Unknown" and the text to ""; an item that is not a dict has
      no `.get` (AttributeError). */
  function SegmentEntry(v: JValue): Result<SrtEntry>
  {
    if !v.JObj? then Err(AttributeError)
    else
      var seg := v.fields;
      match (SecondsOf(Get(seg, "start", JNum(0.0))), SecondsOf(Get(seg, "end", JNum(0.0))))
      case (Err(e), _) => Err(e)
      case (_, Err(e)) => Err(e)
      case (Ok(start), Ok(end)) =>
        match (Str(Get(seg, "speaker_name", JStr("Unknown"))), Str(Get(seg, "text", JStr(""))))
        case (Err(e), _) => Err(e)
        case (_, Err(e)) => Err(e)
        case (Ok(speaker), Ok(text)) => Ok(SrtEntry(start, end, speaker, text))
  }

  /** A segment with only a text gets the defaults. */
  lemma SegmentDefaults(text: string)
    ensures SegmentEntry(JObj(map["text" := JStr(text)])) == Ok(SrtEntry(0.0, 0.0, "Unknown", text))
  {
    var seg := map["text" := JStr(text)];
    assert "start" !in seg && "end" !in seg && "speaker_name" !in seg;
  }

  /** The segments of the labelled document, in order, or the exception
      the first bad one raises. */
  function SegmentEntries(data: map<string, JValue>): Result<seq<SrtEntry>>
  {
    match Iterated(Get(data, "segments", JArr([])))
    case Err(e) => Err(e)
    case Ok(items) => Traverse(items, SegmentEntry)
  }

  /** The blocks of some segments. */
  function PrintedAll(es: seq<SrtEntry>): (r: seq<Cue>)
    ensures |r| == |es| && forall k :: 0 <= k < |es| ==> r[k] == Printed(es[k])
  {
    seq(|es|, k requires 0 <= k < |es| => Printed(es[k]))
  }

  /** The lines `_regenerate_srt` writes, joined by "\n", for the labelled
      document. */
  function Regenerated(data: map<string, JValue>): Result<seq<string>>
  {
    match SegmentEntries(data)
    case Err(e) => Err(e)
    case Ok(es) => Ok(SrtLines(PrintedAll(es), 1))
  }

  /** Writing one more block appends its four lines. */
  lemma {:induction false} SrtLinesSnoc(cues: seq<Cue>, first: nat, c: Cue)
    ensures SrtLines(cues + [c], first) == SrtLines(cues, first) + BlockLines(first + |cues|, c)
    decreases |cues|
  {
    if cues == [] {
      assert SrtLines([c], first) == BlockLines(first, c) + SrtLines([], first + 1);
    } else {
      assert (cues + [c])[1..] == cues[1..] + [c];
      SrtLinesSnoc(cues[1..], first + 1, c);
    }
  }

  /** The four lines one segment adds: its number, its timing, its caption
      and a blank line. */
  method AppendBlock(lines: seq<string>, index: nat, e: SrtEntry) returns (r: seq<string>)
    ensures r == lines + BlockLines(index, Printed(e))
  {
    var start := FormatSrtTime(e.start);
    var end := FormatSrtTime(e.end);
    r := lines + [NatToString(index)];
    r := r + [start + " --> " + end];
    r := r + [e.speaker + ": " + e.text];
    r := r + [""];
  }

  /** One more segment extends the file by its block. */
  lemma PrintedSnoc(es: seq<SrtEntry>, e: SrtEntry)
    ensures SrtLines(PrintedAll(es + [e]), 1) == SrtLines(PrintedAll(es), 1) + BlockLines(1 + |es|, Printed(e))
  {
    PrintedAllSnoc(es, e);
    SrtLinesSnoc(PrintedAll(es), 1, Printed(e));
  }

  lemma PrintedAllSnoc(es: seq<SrtEntry>, e: SrtEntry)
    ensures PrintedAll(es + [e]) == PrintedAll(es) + [Printed(e)]
  {
    var a, b := PrintedAll(es + [e]), PrintedAll(es) + [Printed(e)];
    assert |a| == |b|;
    forall k | 0 <= k < |a| ensures a[k] == b[k] {
      if k < |es| {
        assert a[k] == Printed(es[k]);
      }
    }
  }

  /** What `_regenerate_srt`'s loop has done after `idx` segments: read
      them as `es` and written their blocks. */
  predicate RegenerateProgress(items: seq<JValue>, idx: nat, es: seq<SrtEntry>, lines: seq<string>)
  {
    idx <= |items| && |es| == idx &&
    Traverse(items[..idx], SegmentEntry) == Ok(es) && lines == SrtLines(PrintedAll(es), 1)
  }

  /** One more segment read and written. */
  lemma RegenerateStep(items: seq<JValue>, idx: nat, es: seq<SrtEntry>, lines: seq<string>, e: SrtEntry)
    requires RegenerateProgress(items, idx, es, lines) && idx < |items|
    requires SegmentEntry(items[idx]) == Ok(e)
    ensures RegenerateProgress(items, idx + 1, es + [e], lines + BlockLines(idx + 1, Printed(e)))
  {
    assert items[..idx + 1][..idx] == items[..idx];
    PrintedSnoc(es, e);
  }

  /** The `idx`-th segment fails, and so does the whole loop. */
  lemma RegenerateFails(items: seq<JValue>, idx: nat)
    requires idx < |items| && Traverse(items[..idx], SegmentEntry).Ok?
    requires SegmentEntry(items[idx]).Err?
    ensures Traverse(items, SegmentEntry) == Err(SegmentEntry(items[idx]).error)
  {
    assert items[..idx + 1][..idx] == items[..idx];
    TraverseErrExtends(items, SegmentEntry, idx + 1);
  }

  /** The loop of `_regenerate_srt`. */
  method RegenerateSrt(data: map<string, JValue>) returns (r: Result<seq<string>>)
    ensures r == Regenerated(data)
  {
    var segments := Iterated(Get(data, "segments", JArr([])));
    if segments.Err? {
      return Err(segments.error);
    }
    var items := segments.value;
    var lines: seq<string> := [];
    ghost var es: seq<SrtEntry> := [];
    for idx := 0 to |items|
      invariant RegenerateProgress(items, idx, es, lines)
    {
      var entry := SegmentEntry(items[idx]);
      if entry.Err? {
        RegenerateFails(items, idx);
        return Err(entry.error);
      }
      RegenerateStep(items, idx, es, lines, entry.value);
      lines := AppendBlock(lines, idx + 1, entry.value);
      es := es + [entry.value];
    }
    assert items[..|items|] == items;
    return Ok(lines);
  }

  /** The record a segment should read back as. */
  function Labelled(e: SrtEntry): Subtitle
  {
    Subtitle(e.start, e.end, e.text, e.speaker, CaptionLine(e))
  }

  /** A readable segment whose speaker holds no ':' reads back as itself. */
  lemma EntryOfPrinted(e: SrtEntry)
    requires Readable(e) && ':' !in e.speaker
    ensures Entry(Printed(e)) == Labelled(e)
  {
    PrintedReadsBack(e);
    CaptionLineSplit(e);
  }

  /** Round trip: `_parse_srt` reads the lines `_regenerate_srt` writes
      back as the segments they came from. */
  lemma RegenerateParse(es: seq<SrtEntry>)
    requires forall k :: 0 <= k < |es| ==> Readable(es[k]) && ':' !in es[k].speaker
    ensures Subtitles(SrtLines(PrintedAll(es), 1)) == seq(|es|, k requires 0 <= k < |es| => Labelled(es[k]))
  {
    var cues := PrintedAll(es);
    forall k | 0 <= k < |es| ensures Writable(cues[k]) && Entry(cues[k]) == Labelled(es[k]) {
      PrintedReadsBack(es[k]);
      EntryOfPrinted(es[k]);
    }
    SrtRoundTrip(cues);
  }

  /** The same for the labelled document: when its segments are readable,
      the regenerated file reads back as them. */
  lemma RegeneratedReadsBack(data: map<string, JValue>, es: seq<SrtEntry>)
    requires SegmentEntries(data) == Ok(es)
    requires forall k :: 0 <= k < |es| ==> Readable(es[k]) && ':' !in es[k].speaker
    ensures Regenerated(data).Ok?
    ensures Subtitles(Regenerated(data).value) == seq(|es|, k requires 0 <= k < |es| => Labelled(es[k]))
  {
    RegenerateParse(es);
  }

  // ---------------------------------------------------------------------------
  // `rename_speaker`

  /** The body of `rename_speaker`'s loops for one item: a dict whose
      "speaker_cluster_id" equals the speaker id gets `key` set to the new
      name, any other dict is left alone, and an item that is not a dict
      has no `.get` (AttributeError). */
  function RenameItem(speakerId: string, key: string, name: JValue, v: JValue): Result<JValue>
  {
    if !v.JObj? then Err(AttributeError)
    else if Get(v.fields, "speaker_cluster_id", JNull) == JStr(speakerId) then Ok(JObj(v.fields[key := name]))
    else Ok(v)
  }

  function Renamer(speakerId: string, key: string, name: JValue): JValue -> Result<JValue>
  {
    v => RenameItem(speakerId, key, name, v)
  }

  /** A list of the document after the loop over it: the list with its
      matching entries renamed; an empty dict or string is left as it is. */
  function RenamedList(v: JValue, speakerId: string, key: string, name: JValue): Result<JValue>
  {
    match Iterated(v)
    case Err(e) => Err(e)
    case Ok(items) =>
      match Traverse(items, Renamer(speakerId, key, name))
      case Err(e) => Err(e)
      case Ok(out) => Ok(if v.JArr? then JArr(out) else v)
  }

  /** Puts a changed list back; a key the document lacks was looped over as
      a fresh default and leaves the document as it is. */
  function Replaced(data: map<string, JValue>, key: string, v: JValue): (r: map<string, JValue>)
    ensures r.Keys == data.Keys
    ensures forall k :: k in data && k != key ==> r[k] == data[k]
    ensures key in data ==> r[key] == v
  {
    if key in data then data[key := v] else data
  }

  /** What `rename_speaker` leaves behind: the document it writes back and
      the lines `_regenerate_srt` then writes, or the exception that stops
      it after the document is written. */
  datatype Renaming = Renaming(document: map<string, JValue>, srt: Result<seq<string>>)

  /** The two loops of `rename_speaker` on the loaded document: the
      speakers list renames under "name" and the segments list under
      "speaker_name" the entries of the speaker. */
  function RenamedDocument(data: map<string, JValue>, speakerId: string, name: JValue): (r: Result<map<string, JValue>>)
    ensures r.Ok? ==> r.value.Keys == data.Keys
    ensures r.Ok? ==> forall k :: k in data && k != "speakers" && k != "segments" ==> r.value[k] == data[k]
  {
    match RenamedList(Get(data, "speakers", JArr([])), speakerId, "name", name)
    case Err(e) => Err(e)
    case Ok(speakers) =>
      var data1 := Replaced(data, "speakers", speakers);
      match RenamedList(Get(data1, "segments", JArr([])), speakerId, "speaker_name", name)
      case Err(e) => Err(e)
      case Ok(segments) => Ok(Replaced(data1, "segments", segments))
  }

  /** `rename_speaker` on the request body and the stored document (None
      when the file does not exist): a body that is not a dict fails in
      `.get`; a missing or falsy name is refused with 400 before the
      document is looked at; a missing document gives 404; a document that
      is not a dict fails in `.get`; otherwise the document is renamed,
      written back, and the subtitles regenerated from it. */
  function RenameSpeaker(body: JValue, stored: Option<JValue>, speakerId: string): (r: Result<Renaming>)
    ensures body.JObj? && !Truthy(Get(body.fields, "name", JNull)) ==> r == Err(HttpError(400))
    ensures body.JObj? && Truthy(Get(body.fields, "name", JNull)) && stored.None? ==> r == Err(HttpError(404))
    ensures r.Ok? ==> body.JObj? && stored.Some? && stored.value.JObj?
    ensures r.Ok? ==> Ok(r.value.document) == RenamedDocument(stored.value.fields, speakerId, Get(body.fields, "name", JNull))
    ensures r.Ok? ==> r.value.srt == Regenerated(r.value.document)
  {
    if !body.JObj? then Err(AttributeError)
    else
      var name := Get(body.fields, "name", JNull);
      if !Truthy(name) then Err(HttpError(400))
      else if stored.None? then Err(HttpError(404))
      else if !stored.value.JObj? then Err(AttributeError)
      else
        match RenamedDocument(stored.value.fields, speakerId, name)
        case Err(e) => Err(e)
        case Ok(doc) => Ok(Renaming(doc, Regenerated(doc)))
  }

  /** One of `rename_speaker`'s loops. */
  method RenameEntries(v: JValue, speakerId: string, key: string, name: JValue) returns (r: Result<JValue>)
    ensures r == RenamedList(v, speakerId, key, name)
  {
    var iterated := Iterated(v);
    if iterated.Err? {
      return Err(iterated.error);
    }
    var items := iterated.value;
    var out: seq<JValue> := [];
    for i := 0 to |items|
      invariant Traverse(items[..i], Renamer(speakerId, key, name)) == Ok(out)
    {
      assert items[..i + 1][..i] == items[..i];
      var item := items[i];
      if !item.JObj? {
        TraverseErrExtends(items, Renamer(speakerId, key, name), i + 1);
        return Err(AttributeError);
      }
      if Get(item.fields, "speaker_cluster_id", JNull) == JStr(speakerId) {
        out := out + [JObj(item.fields[key := name])];
      } else {
        out := out + [item];
      }
    }
    assert items[..|items|] == items;
    return Ok(if v.JArr? then JArr(out) else v);
  }

  /** The handler on its inputs. */
  method RenameSpeakerHandler(body: JValue, stored: Option<JValue>, speakerId: string) returns (r: Result<Renaming>)
    ensures r == RenameSpeaker(body, stored, speakerId)
  {
    if !body.JObj? {
      return Err(AttributeError);
    }
    var name := Get(body.fields, "name", JNull);
    if !Truthy(name) {
      return Err(HttpError(400));
    }
    if stored.None? {
      return Err(HttpError(404));
    }
    if !stored.value.JObj? {
      return Err(AttributeError);
    }
    var data := stored.value.fields;
    var speakers := RenameEntries(Get(data, "speakers", JArr([])), speakerId, "name", name);
    if speakers.Err? {
      return Err(speakers.error);
    }
    data := Replaced(data, "speakers", speakers.value);
    var segments := RenameEntries(Get(data, "segments", JArr([])), speakerId, "speaker_name", name);
    if segments.Err? {
      return Err(segments.error);
    }
    data := Replaced(data, "segments", segments.value);
    var srt := RegenerateSrt(data);
    return Ok(Renaming(data, srt));
  }

  /** Whether an entry belongs to the speaker being renamed. */
  predicate Matches(v: JValue, speakerId: string)
  {
    v.JObj? && Get(v.fields, "speaker_cluster_id", JNull) == JStr(speakerId)
  }

  /** A list is renamed exactly when all its items are dicts; then each
      entry of the speaker gets the new name under `key` and every other
      entry stays as it was. */
  lemma RenamedListSpec(items: seq<JValue>, speakerId: string, key: string, name: JValue)
    ensures RenamedList(JArr(items), speakerId, key, name).Ok? <==> forall i :: 0 <= i < |items| ==> items[i].JObj?
    ensures RenamedList(JArr(items), speakerId, key, name).Ok? ==>
      var out := RenamedList(JArr(items), speakerId, key, name).value;
      out.JArr? && |out.items| == |items| &&
      forall i :: 0 <= i < |items| ==>
        out.items[i] == (if Matches(items[i], speakerId) then JObj(items[i].fields[key := name]) else items[i])
  {
    var f := Renamer(speakerId, key, name);
    var _ := TraverseSpec(items, f);
  }

  /** Renaming again with the same name changes nothing more. */
  lemma RenamedListIdempotent(v: JValue, speakerId: string, key: string, name: JValue)
    requires key != "speaker_cluster_id"
    requires RenamedList(v, speakerId, key, name).Ok?
    ensures RenamedList(RenamedList(v, speakerId, key, name).value, speakerId, key, name) == RenamedList(v, speakerId, key, name)
  {
    var w := RenamedList(v, speakerId, key, name).value;
    if v.JArr? {
      RenamedListSpec(v.items, speakerId, key, name);
      RenamedListSpec(w.items, speakerId, key, name);
      var out := RenamedList(w, speakerId, key, name).value;
      forall i | 0 <= i < |w.items| ensures out.items[i] == w.items[i] {
        if Matches(v.items[i], speakerId) {
          assert Matches(w.items[i], speakerId);
        }
      }
      assert out.items == w.items;
    }
  }

  /** One loop of the rename leaves a list that the same loop would not
      change again. */
  lemma RenamedListFixed(d: map<string, JValue>, key: string, field: string, speakerId: string, name: JValue)
    requires field != "speaker_cluster_id"
    requires RenamedList(Get(d, key, JArr([])), speakerId, field, name).Ok?
    ensures var d' := Replaced(d, key, RenamedList(Get(d, key, JArr([])), speakerId, field, name).value);
      RenamedList(Get(d', key, JArr([])), speakerId, field, name) == Ok(Get(d', key, JArr([])))
  {
    RenamedListIdempotent(Get(d, key, JArr([])), speakerId, field, name);
    assert RenamedList(JArr([]), speakerId, field, name) == Ok(JArr([]));
  }

  /** Putting back a list as it is changes nothing. */
  lemma ReplacedSame(d: map<string, JValue>, key: string)
    ensures Replaced(d, key, Get(d, key, JArr([]))) == d
  {
  }

  /** Renaming a speaker's entries twice with the same name gives what
      renaming once gave. */
  lemma RenamedDocumentIdempotent(data: map<string, JValue>, speakerId: string, name: JValue)
    requires RenamedDocument(data, speakerId, name).Ok?
    ensures RenamedDocument(RenamedDocument(data, speakerId, name).value, speakerId, name) == RenamedDocument(data, speakerId, name)
  {
    var speakers := RenamedList(Get(data, "speakers", JArr([])), speakerId, "name", name).value;
    var data1 := Replaced(data, "speakers", speakers);
    var segments := RenamedList(Get(data1, "segments", JArr([])), speakerId, "speaker_name", name).value;
    var data2 := Replaced(data1, "segments", segments);
    RenamedListFixed(data, "speakers", "name", speakerId, name);
    RenamedListFixed(data1, "segments", "speaker_name", speakerId, name);
    assert Get(data2, "speakers", JArr([])) == Get(data1, "speakers", JArr([]));
    ReplacedSame(data2, "speakers");
    ReplacedSame(data2, "segments");
  }

  /** The handler is idempotent: a second identical request leaves the
      document and the regenerated subtitles as the first left them. */
  lemma RenameIdempotent(body: JValue, data: map<string, JValue>, speakerId: string)
    requires RenameSpeaker(body, Some(JObj(data)), speakerId).Ok?
    ensures var once := RenameSpeaker(body, Some(JObj(data)), speakerId).value;
      RenameSpeaker(body, Some(JObj(once.document)), speakerId) == Ok(once)
  {
    RenamedDocumentIdempotent(data, speakerId, Get(body.fields, "name", JNull));
  }

  /** The segments list of a renamed document. */
  lemma RenamedSegments(data: map<string, JValue>, speakerId: string, name: JValue)
    requires "segments" in data && data["segments"].JArr?
    requires RenamedDocument(data, speakerId, name).Ok?
    ensures var out := RenamedDocument(data, speakerId, name).value["segments"];
      var items := data["segments"].items;
      out.JArr? && |out.items| == |items| &&
      forall i :: 0 <= i < |items| ==>
        out.items[i] == (if Matches(items[i], speakerId) then JObj(items[i].fields["speaker_name" := name]) else items[i])
  {
    var items := data["segments"].items;
    var speakers := RenamedList(Get(data, "speakers", JArr([])), speakerId, "name", name).value;
    var data1 := Replaced(data, "speakers", speakers);
    assert Get(data1, "segments", JArr([])) == JArr(items);
    RenamedListSpec(items, speakerId, "speaker_name", name);
  }

  /** A segment renamed to a text is written under that name. */
  lemma RenamedEntry(seg: map<string, JValue>, name: string)
    requires SegmentEntry(JObj(seg["speaker_name" := JStr(name)])).Ok?
    ensures SegmentEntry(JObj(seg["speaker_name" := JStr(name)])).value.speaker == name
  {
    assert Get(seg["speaker_name" := JStr(name)], "speaker_name", JStr("Unknown")) == JStr(name);
  }

  /** After a rename, every segment of the speaker carries the new name in
      the records `_regenerate_srt` writes; the others keep theirs. */
  lemma RenamedSegmentsNamed(name: string, data: map<string, JValue>, speakerId: string, es: seq<SrtEntry>)
    requires "segments" in data && data["segments"].JArr?
    requires RenamedDocument(data, speakerId, JStr(name)).Ok?
    requires SegmentEntries(RenamedDocument(data, speakerId, JStr(name)).value) == Ok(es)
    ensures |es| == |data["segments"].items|
    ensures forall i :: 0 <= i < |es| && Matches(data["segments"].items[i], speakerId) ==> es[i].speaker == name
    ensures forall i :: 0 <= i < |es| && !Matches(data["segments"].items[i], speakerId) ==>
      Ok(es[i]) == SegmentEntry(data["segments"].items[i])
  {
    var items := data["segments"].items;
    var out := RenamedDocument(data, speakerId, JStr(name)).value["segments"];
    RenamedSegments(data, speakerId, JStr(name));
    assert Traverse(out.items, SegmentEntry) == Ok(es);
    var _ := TraverseSpec(out.items, SegmentEntry);
    forall i | 0 <= i < |es| && Matches(items[i], speakerId) ensures es[i].speaker == name {
      RenamedEntry(items[i].fields, name);
    }
  }

  // ---------------------------------------------------------------------------
  // `upload_file`

  /** The extensions an upload may have. */
  const UploadExtensions: set<string> := {".mp4", ".mkv", ".avi", ".mov", ".mp3", ".wav"}

  /** Where an accepted upload is stored: the video id and the file name. */
  datatype Upload = Upload(videoId: string, safeName: string)

  /** The checks of `upload_file` on the client's file name: an empty name
      and a lowercased suffix outside `UploadExtensions` are refused with
      400; otherwise the video id is the stem, "_" and `token` (the first
      eight hex digits of a random UUID, a parameter here) and the stored
      name adds the lowercased suffix. */
  function UploadCheck(filename: string, token: string): (r: Result<Upload>)
    ensures r.Ok? <==> filename != [] && Lower(Suffix(filename)) in UploadExtensions
    ensures r.Err? ==> r.error == HttpError(400)
    ensures r.Ok? ==> r.value.safeName == r.value.videoId + Lower(Suffix(filename))
  {
    if filename == [] then Err(HttpError(400))
    else
      var ext := Lower(Suffix(filename));
      if ext !in UploadExtensions then Err(HttpError(400))
      else
        var videoId := Stem(filename) + "_" + token;
        Ok(Upload(videoId, videoId + ext))
  }

  /** Lowercasing keeps the characters that are not letters. */
  lemma LowerKeeps(s: string, c: char)
    requires !('A' <= c <= 'Z') && !('a' <= c <= 'z')
    ensures c in Lower(s) <==> c in s
  {
    var l := Lower(s);
    if c in s {
      var i :| 0 <= i < |s| && s[i] == c;
      assert l[i] == c;
    }
    if c in l {
      var i :| 0 <= i < |l| && l[i] == c;
      assert s[i] == c;
    }
  }

  /** A trailing '/' on the client's name changes nothing: "clip.mp4/" is
      accepted and stored like "clip.mp4". */
  lemma UploadTrailingSlash(filename: string, token: string)
    requires filename != []
    ensures UploadCheck(filename + "/", token) == UploadCheck(filename, token)
  {
    NameTrailing(filename);
  }

  /** A lowercased suffix is still a suffix. */
  lemma LowerSuffix(ext: string)
    requires |ext| >= 2 && ext[0] == '.' && '.' !in ext[1..] && '/' !in ext
    ensures var l := Lower(ext); |l| >= 2 && l[0] == '.' && '.' !in l[1..] && '/' !in l
  {
    var l := Lower(ext);
    LowerKeeps(ext, '/');
    assert l[1..] == Lower(ext[1..]);
    LowerKeeps(ext[1..], '.');
  }

  /** A stem has no '/'. */
  lemma StemPlain(path: string)
    ensures '/' !in Stem(path)
  {
    var n, t := Name(path), Stem(path);
    forall i | 0 <= i < |t| ensures t[i] != '/' {
      assert n[i] == t[i];
    }
  }

  /** The stored file keeps the accepted extension: in the upload directory
      its suffix is again the lowercased suffix of the client's name. */
  lemma UploadKeepsExtension(dir: string, filename: string, token: string)
    requires UploadCheck(filename, token).Ok?
    requires '/' !in token
    ensures Suffix(dir + "/" + UploadCheck(filename, token).value.safeName) == Lower(Suffix(filename))
  {
    var stem, ext := Stem(filename), Lower(Suffix(filename));
    var id := stem + "_" + token;
    StemPlain(filename);
    assert '/' !in id by {
      forall i | 0 <= i < |id| ensures id[i] != '/' {
        if i < |stem| { assert id[i] == stem[i]; }
        else if i > |stem| { assert id[i] == token[i - |stem| - 1]; }
      }
    }
    LowerSuffix(Suffix(filename));
    SuffixOfStored(dir, id, ext);
  }

  /** A file named "`stem`.`e`" is accepted exactly when "`.e`" lowercased is
      an allowed extension. */
  lemma UploadByExtension(stem: string, e: string, token: string)
    requires stem != [] && '/' !in stem && '/' !in e && '.' !in e && e != []
    ensures UploadCheck(stem + "." + e, token).Ok? <==> Lower("." + e) in UploadExtensions
  {
    assert stem + "." + e == stem + ("." + e);
    SuffixOfPlain(stem, "." + e);
  }
}
