/**
 * The SubRip (.srt) text the REST server writes and both web front ends read
 * back: "HH:MM:SS,mmm" time stamps, and blocks made of an index line, a
 * "start --> end" timing line, text lines and a blank separator line.
 */
module SubRip {
  import opened Base
  import opened Text
  import Transcript

  // ---------------------------------------------------------------------------
  // Time stamps

  /** `_srt_time_to_seconds`: ',' becomes '.', the text is split on ':', and
      the first three fields go through `int()`, `int()` and `float()`; a
      missing field (IndexError) or a field those reject (ValueError) gives
      0.0. Fields after the third are never looked at. */
  function SrtTimeToSeconds(timeStr: string): real
  {
    var parts := SplitOn(ReplaceChar(timeStr, ',', '.'), ":");
    if |parts| < 3 then 0.0
    else
      var h, m, s := ParseInt(parts[0]), ParseInt(parts[1]), ParseFloat(parts[2]);
      if h.Ok? && m.Ok? && s.Ok? then h.value as real * 3600.0 + m.value as real * 60.0 + s.value
      else 0.0
  }

  /** Python's `t % d` on reals for a positive divisor: `t - d * (t // d)`. */
  function FMod(t: real, d: real): real
    requires d > 0.0
  {
    t - d * (t / d).Floor as real
  }

  /** `_format_srt_time` on exact reals: hours ⌊t/3600⌋, minutes
      ⌊(t mod 3600)/60⌋, seconds ⌊t mod 60⌋ and milliseconds
      ⌊(t mod 1)·1000⌋, each printed with `:02d` (`:03d` for milliseconds). */
  function FormatSrtTime(seconds: real): string
  {
    var h := (seconds / 3600.0).Floor;
    var m := (FMod(seconds, 3600.0) / 60.0).Floor;
    var s := FMod(seconds, 60.0).Floor;
    var ms := (FMod(seconds, 1.0) * 1000.0).Floor;
    PadInt(h, 2) + ":" + PadInt(m, 2) + ":" + PadInt(s, 2) + "," + PadInt(ms, 3)
  }

  /** "HH:MM:SS,mmm" printed from non-negative fields. */
  function ClockText(h: nat, m: nat, s: nat, ms: nat): string
  {
    ZeroPad(h, 2) + ":" + ZeroPad(m, 2) + ":" + ZeroPad(s, 2) + "," + ZeroPad(ms, 3)
  }

  /** A time that is a whole, non-negative number of milliseconds. */
  predicate WholeMillis(t: real)
  {
    t >= 0.0 && (t * 1000.0).Floor as real == t * 1000.0
  }

  /** The digits of n: hours, minutes below 60, seconds below 60 and
      milliseconds below 1000 add back up to n milliseconds. */
  lemma MillisFields(n: nat)
    ensures n % 3600000 / 60000 < 60 && n % 60000 / 1000 < 60 && n % 1000 < 1000
    ensures n == n / 3600000 * 3600000 + n % 3600000 / 60000 * 60000 + n % 60000 / 1000 * 1000 + n % 1000
  {
    var h, r1 := n / 3600000, n % 3600000;
    var m, r2 := r1 / 60000, r1 % 60000;
    var s, r3 := r2 / 1000, r2 % 1000;
    assert n == (h * 60 + m) * 60000 + r2;
    assert n % 60000 == r2;
    assert n == ((h * 60 + m) * 60 + s) * 1000 + r3;
    assert n % 1000 == r3;
  }

  /** The hours field of n milliseconds. */
  lemma HoursOfMillis(n: nat)
    ensures (n as real / 1000.0 / 3600.0).Floor == n / 3600000
    ensures FMod(n as real / 1000.0, 3600.0) == (n % 3600000) as real / 1000.0
  {
    assert n as real == (n / 3600000) as real * 3600000.0 + (n % 3600000) as real;
  }

  /** The minutes field of r < 3600000 milliseconds into the hour. */
  lemma MinutesOfMillis(r: nat)
    ensures (r as real / 1000.0 / 60.0).Floor == r / 60000
  {
    assert r as real == (r / 60000) as real * 60000.0 + (r % 60000) as real;
  }

  /** n/1000 seconds modulo a minute. */
  lemma MinuteRemainder(n: nat)
    ensures FMod(n as real / 1000.0, 60.0) == (n % 60000) as real / 1000.0
  {
    assert n as real == (n / 60000) as real * 60000.0 + (n % 60000) as real;
    assert (n as real / 1000.0 / 60.0).Floor == n / 60000;
  }

  /** The whole seconds in r milliseconds. */
  lemma WholeSeconds(r: nat)
    ensures (r as real / 1000.0).Floor == r / 1000
  {
    assert r as real == (r / 1000) as real * 1000.0 + (r % 1000) as real;
  }

  /** The milliseconds field of n milliseconds. */
  lemma FractionOfMillis(n: nat)
    ensures (FMod(n as real / 1000.0, 1.0) * 1000.0).Floor == n % 1000
  {
    assert n as real == (n / 1000) as real * 1000.0 + (n % 1000) as real;
    assert (n as real / 1000.0 / 1.0).Floor == n / 1000;
  }

  /** Printing n/1000 seconds prints the fields of n milliseconds. */
  lemma FormatMillis(n: nat)
    ensures FormatSrtTime(n as real / 1000.0)
            == ClockText(n / 3600000, n % 3600000 / 60000, n % 60000 / 1000, n % 1000)
  {
    var t := n as real / 1000.0;
    HoursOfMillis(n);
    MinutesOfMillis(n % 3600000);
    MinuteRemainder(n);
    WholeSeconds(n % 60000);
    FractionOfMillis(n);
    var h, m := (t / 3600.0).Floor, (FMod(t, 3600.0) / 60.0).Floor;
    var s, ms := FMod(t, 60.0).Floor, (FMod(t, 1.0) * 1000.0).Floor;
    assert h == n / 3600000 && m == n % 3600000 / 60000;
    assert s == n % 60000 / 1000 && ms == n % 1000;
    PadNatural(h, 2);
    PadNatural(m, 2);
    PadNatural(s, 2);
    PadNatural(ms, 3);
  }

  lemma PadNatural(n: int, width: nat)
    requires n >= 0
    ensures PadInt(n, width) == ZeroPad(n, width)
  {
  }

  /** A number below 1000 prints in exactly three digits with `:03d`. */
  lemma ThreeDigits(ms: nat)
    requires ms < 1000
    ensures |ZeroPad(ms, 3)| == 3
  {
    var d := NatToString(ms);
    if ms >= 10 {
      assert NatToString(ms / 10) == d[..|d| - 1];
      if ms / 10 >= 10 {
        assert |NatToString(ms / 10 / 10)| == 1;
      }
    }
  }

  /** Three digits after the point are that many thousandths. */
  lemma ThousandthsValue(d: string)
    requires AllDigits(d) && |d| == 3
    ensures FractionValue(d) == DigitsValue(d) as real / 1000.0
  {
    assert d[1..][1..] == d[2..] && d[2..][1..] == [];
    var a, b, c := DigitValue(d[0]), DigitValue(d[1]), DigitValue(d[2]);
    assert DigitsValue(d[..1]) == a by {
      assert d[..1][..0] == [];
    }
    assert DigitsValue(d[..2]) == a * 10 + b by {
      assert d[..2][..1] == d[..1];
    }
    assert DigitsValue(d) == (a * 10 + b) * 10 + c;
    assert FractionValue(d) == (a as real + (b as real + c as real / 10.0) / 10.0) / 10.0;
  }

  /** The `:03d` milliseconds field read back after a decimal point. */
  lemma MillisFraction(ms: nat)
    requires ms < 1000
    ensures FractionValue(ZeroPad(ms, 3)) == ms as real / 1000.0
  {
    ThreeDigits(ms);
    ThousandthsValue(ZeroPad(ms, 3));
    ZeroPadValue(ms, 3);
  }

  /** Digits and ':' hold no ','. */
  lemma ClockNoComma(a: string, b: string, c: string)
    requires AllDigits(a) && AllDigits(b) && AllDigits(c)
    ensures ',' !in a + ":" + b + ":" + c
  {
    var x := a + ":" + b + ":" + c;
    forall i | 0 <= i < |x| ensures x[i] != ',' {
      if i < |a| { assert x[i] == a[i]; }
      else if i == |a| || i == |a| + 1 + |b| { }
      else if i < |a| + 1 + |b| { assert x[i] == b[i - |a| - 1]; }
      else { assert x[i] == c[i - |a| - |b| - 2]; }
    }
  }

  /** Replacing the only ',' by '.'. */
  lemma CommaToPoint(x: string, y: string)
    requires ',' !in x && ',' !in y
    ensures ReplaceChar(x + "," + y, ',', '.') == x + "." + y
  {
    var s, t := x + "," + y, x + "." + y;
    var r := ReplaceChar(s, ',', '.');
    forall i | 0 <= i < |r| ensures r[i] == t[i] {
      if i < |x| {
        assert s[i] == x[i] && t[i] == x[i];
      } else if i == |x| {
        assert s[i] == ',' && t[i] == '.';
      } else {
        assert s[i] == y[i - |x| - 1] && t[i] == y[i - |x| - 1];
      }
    }
  }

  /** "a:b:c.d" splits on ':' into the hours, the minutes and the seconds. */
  lemma ClockFields(a: string, b: string, c: string, d: string)
    requires AllDigits(a) && AllDigits(b) && ':' !in c + "." + d
    ensures SplitOn(a + ":" + b + ":" + c + "." + d, ":") == [a, b, c + "." + d]
  {
    assert a + ":" + b + ":" + c + "." + d == a + ":" + b + ":" + (c + "." + d);
    Transcript.HmsSplit(a, b, c + "." + d);
  }

  /** The decimal comma of "a:b:c,d" becomes a point. */
  lemma ClockReplace(a: string, b: string, c: string, d: string)
    requires AllDigits(a) && AllDigits(b) && AllDigits(c) && AllDigits(d)
    ensures ReplaceChar(a + ":" + b + ":" + c + "," + d, ',', '.') == a + ":" + b + ":" + c + "." + d
  {
    ClockNoComma(a, b, c);
    CommaToPoint(a + ":" + b + ":" + c, d);
  }

  /** "HH:MM:SS,mmm" reads back as h·3600 + m·60 + s + ms/1000 seconds. */
  lemma ClockTextValue(h: nat, m: nat, s: nat, ms: nat)
    requires ms < 1000
    ensures SrtTimeToSeconds(ClockText(h, m, s, ms))
            == h as real * 3600.0 + m as real * 60.0 + s as real + ms as real / 1000.0
  {
    ParseIntZeroPad(h, 2);
    ParseIntZeroPad(m, 2);
    ZeroPadValue(s, 2);
    MillisFraction(ms);
    ClockReplace(ZeroPad(h, 2), ZeroPad(m, 2), ZeroPad(s, 2), ZeroPad(ms, 3));
    Transcript.VttSecondsField(ZeroPad(s, 2), ZeroPad(ms, 3));
    ClockFields(ZeroPad(h, 2), ZeroPad(m, 2), ZeroPad(s, 2), ZeroPad(ms, 3));
  }

  /** Round trip: a whole number of milliseconds printed by
      `_format_srt_time` reads back exactly by `_srt_time_to_seconds`. */
  lemma SrtTimeRoundTrip(t: real)
    requires WholeMillis(t)
    ensures SrtTimeToSeconds(FormatSrtTime(t)) == t
  {
    var n := (t * 1000.0).Floor;
    assert n >= 0;
    assert t == n as real / 1000.0;
    FormatMillis(n);
    MillisFields(n);
    ClockTextValue(n / 3600000, n % 3600000 / 60000, n % 60000 / 1000, n % 1000);
  }

  /** Text without ':' is a single field: not a time stamp, so 0.0. */
  lemma SrtTimeNoColon(timeStr: string)
    requires ':' !in timeStr
    ensures SrtTimeToSeconds(timeStr) == 0.0
  {
    var r := ReplaceChar(timeStr, ',', '.');
    assert ':' !in r by {
      forall i | 0 <= i < |r| ensures r[i] != ':' {
        assert r[i] == '.' || r[i] == timeStr[i];
      }
    }
    SplitNone(r, ":");
  }

  /** An hours field that `int()` rejects makes the whole stamp 0.0. */
  lemma SrtTimeBadHours(a: string, rest: string)
    requires ':' !in a && ',' !in a && ParseInt(a).Err?
    ensures SrtTimeToSeconds(a + ":" + rest) == 0.0
  {
    var r := ReplaceChar(rest, ',', '.');
    var x := ReplaceChar(a + ":" + rest, ',', '.');
    assert x == a + ":" + r by {
      forall i | 0 <= i < |x| ensures x[i] == (a + ":" + r)[i] {
        if i < |a| { assert (a + ":" + rest)[i] == a[i]; }
        else if i > |a| { assert (a + ":" + rest)[i] == rest[i - |a| - 1]; }
      }
    }
    SplitAfterPrefix(a, ":", r);
  }

  /** Printed time text: no space, a digit at both ends. */
  predicate TimeText(a: string)
  {
    a != [] && ' ' !in a && IsDigit(a[0]) && IsDigit(a[|a| - 1])
  }

  /** Printed time stamps hold no space and start and end with a digit. */
  lemma ClockTextShape(h: nat, m: nat, s: nat, ms: nat)
    ensures TimeText(ClockText(h, m, s, ms))
  {
    var a, b, x, d := ZeroPad(h, 2), ZeroPad(m, 2), ZeroPad(s, 2), ZeroPad(ms, 3);
    var c := ClockText(h, m, s, ms);
    assert c[0] == a[0] && c[|c| - 1] == d[|d| - 1];
    forall i | 0 <= i < |c| ensures c[i] != ' ' {
      var p := a + ":" + b + ":" + x + ",";
      if i >= |p| { assert c[i] == d[i - |p|]; }
      else if i < |a| { assert c[i] == a[i]; }
      else if i == |a| || i == |a| + 1 + |b| || i == |p| - 1 { }
      else if i < |a| + 1 + |b| { assert c[i] == b[i - |a| - 1]; }
      else { assert c[i] == x[i - |a| - |b| - 2]; }
    }
  }

  /** The same for any printed whole number of milliseconds. */
  lemma FormatShape(t: real)
    requires WholeMillis(t)
    ensures TimeText(FormatSrtTime(t))
  {
    var n := (t * 1000.0).Floor;
    assert t == n as real / 1000.0;
    FormatMillis(n);
    ClockTextShape(n / 3600000, n % 3600000 / 60000, n % 60000 / 1000, n % 1000);
  }

  // ---------------------------------------------------------------------------
  // Reading blocks: the line loop shared by `_parse_srt` and `_get_subtitles`
  //
  // The loop looks at every line only through `line.strip()`, so the reading
  // is specified on the stripped lines.

  /** A subtitle block as read: the text of its two times and its text
      lines joined by single spaces. */
  datatype Cue = Cue(startText: string, endText: string, fullText: string)

  /** Each line stripped. */
  function StrippedAll(lines: seq<string>): (r: seq<string>)
    ensures |r| == |lines|
    ensures forall k :: 0 <= k < |lines| ==> r[k] == Strip(lines[k])
  {
    seq(|lines|, k requires 0 <= k < |lines| => Strip(lines[k]))
  }

  /** Where the text lines starting at `j` end: the first blank line at or
      after `j`, or the end of the file. */
  function TextEnd(s: seq<string>, j: nat): (k: nat)
    requires j <= |s|
    ensures j <= k <= |s|
    decreases |s| - j
  {
    if j == |s| || s[j] == [] then j else TextEnd(s, j + 1)
  }

  /** A stripped line followed by a stripped timing line opens a block when
      it is non-blank and starts with a digit and the timing line holds
      "-->" and splits on " --> " into exactly two parts, which are
      returned. */
  function Header(line: string, timing: string): Option<(string, string)>
  {
    if line != [] && IsDigit(line[0]) then
      var parts := SplitOn(timing, " --> ");
      if Contains(timing, "-->") && |parts| == 2 then Some((parts[0], parts[1])) else None
    else None
  }

  /** Stripped line `i` opens a block (a line must follow it). */
  function Timing(s: seq<string>, i: nat): (r: Option<(string, string)>)
    requires i < |s|
    ensures r.Some? ==> i + 1 < |s|
  {
    if i + 1 < |s| then Header(s[i], s[i + 1]) else None
  }

  /** Where reading goes on after line `i`: past the block's text lines
      when line `i` opens a block, else the next line. */
  function Next(s: seq<string>, i: nat): (next: nat)
    requires i < |s|
    ensures i < next <= |s|
  {
    match Timing(s, i)
    case None => i + 1
    case Some(_) => TextEnd(s, i + 2)
  }

  /** The cue read at line `i`, if any: only a block with at least one text
      line gives one. */
  function Found(s: seq<string>, i: nat): seq<Cue>
    requires i < |s|
  {
    match Timing(s, i)
    case None => []
    case Some((a, b)) =>
      var text := s[i + 2..TextEnd(s, i + 2)];
      if text == [] then [] else [Cue(a, b, Join(text, " "))]
  }

  /** The cues of the stripped lines `s` from line `i` on, in file order. */
  function Cues(s: seq<string>, i: nat): seq<Cue>
    requires i <= |s|
    decreases |s| - i
  {
    if i == |s| then [] else Found(s, i) + Cues(s, Next(s, i))
  }

  /** The inner loop of `_parse_srt` and `_get_subtitles`: the stripped
      lines from line j0 up to the first blank one, and where it stops. */
  method TextLines(lines: seq<string>, j0: nat) returns (textLines: seq<string>, j: nat)
    requires j0 <= |lines|
    ensures j == TextEnd(StrippedAll(lines), j0)
    ensures textLines == StrippedAll(lines)[j0..j]
  {
    ghost var s := StrippedAll(lines);
    textLines := [];
    j := j0;
    while j < |lines| && Strip(lines[j]) != []
      invariant j0 <= j <= |lines|
      invariant TextEnd(s, j0) == TextEnd(s, j)
      invariant textLines == s[j0..j]
      decreases |lines| - j
    {
      assert s[j] == Strip(lines[j]) && s[j0..j + 1] == s[j0..j] + [s[j]];
      textLines := textLines + [Strip(lines[j])];
      j := j + 1;
    }
    assert TextEnd(s, j) == j;
  }

  lemma Concat3<T>(a: seq<T>, b: seq<T>, c: seq<T>)
    ensures a + (b + c) == (a + b) + c
  {
  }

  /** Every cue has at least one text line behind it, so its text is not
      empty. */
  lemma {:induction false} CuesNonBlank(s: seq<string>, i: nat)
    requires i <= |s|
    ensures forall c :: c in Cues(s, i) ==> c.fullText != []
    decreases |s| - i
  {
    if i < |s| {
      CuesNonBlank(s, Next(s, i));
      FoundNonBlank(s, i);
    }
  }

  lemma FoundNonBlank(s: seq<string>, i: nat)
    requires i < |s|
    ensures forall c :: c in Found(s, i) ==> c.fullText != []
  {
    match Timing(s, i)
    case None =>
    case Some((a, b)) =>
      var text := s[i + 2..TextEnd(s, i + 2)];
      if text != [] {
        assert text[0] != [] by {
          assert TextEnd(s, i + 2) > i + 2;
        }
        JoinNonBlank(text);
      }
  }

  lemma JoinNonBlank(text: seq<string>)
    requires text != [] && text[0] != []
    ensures Join(text, " ") != []
  {
  }

  /** The text lines of a cue are the non-blank stripped lines after its
      timing line, up to the first blank one. */
  lemma {:induction false} TextLinesNonBlank(s: seq<string>, j: nat)
    requires j <= |s|
    ensures forall k :: j <= k < TextEnd(s, j) ==> s[k] != []
    ensures TextEnd(s, j) < |s| ==> s[TextEnd(s, j)] == []
    decreases |s| - j
  {
    if j < |s| && s[j] != [] {
      TextLinesNonBlank(s, j + 1);
    }
  }

  // ---------------------------------------------------------------------------
  // Writing blocks: the lines `_regenerate_srt` builds

  /** The four lines of block number `index`: the index, the timing line
      "start --> end", the text line and an empty separator. */
  function BlockLines(index: nat, c: Cue): seq<string>
  {
    [NatToString(index), c.startText + " --> " + c.endText, c.fullText, ""]
  }

  /** All blocks, numbered from `first`. */
  function SrtLines(cues: seq<Cue>, first: nat): (lines: seq<string>)
    ensures |lines| == 4 * |cues|
  {
    if cues == [] then [] else BlockLines(first, cues[0]) + SrtLines(cues[1..], first + 1)
  }

  /** Text that a file reader sees as one line: it holds no line break
      ('\n', or '\r', which universal newlines turns into one). */
  predicate OneLine(s: string)
  {
    '\n' !in s && '\r' !in s
  }

  /** A cue whose block reads back as written: printed time texts and a
      non-empty single text line without whitespace at its ends. */
  predicate Writable(c: Cue)
  {
    TimeText(c.startText) && TimeText(c.endText) && c.fullText != [] && Trimmed(c.fullText) && OneLine(c.fullText)
  }

  /** "a --> c" has no whitespace at its ends. */
  lemma TimingTrimmed(a: string, c: string)
    requires TimeText(a) && TimeText(c)
    ensures Trimmed(a + " --> " + c)
  {
    var line := a + " --> " + c;
    assert line[0] == a[0] && line[|line| - 1] == c[|c| - 1];
  }

  lemma TimingArrow(a: string, c: string)
    ensures Contains(a + " --> " + c, "-->")
  {
    var line := a + " --> " + c;
    assert OccursAt(line, "-->", |a| + 1) by {
      assert line[|a| + 1..|a| + 4] == "-->";
    }
    ContainsIff(line, "-->");
  }

  lemma TimingSplit(a: string, c: string)
    requires ' ' !in a && ' ' !in c
    ensures SplitOn(a + " --> " + c, " --> ") == [a, c]
  {
    SplitAfterPrefix(a, " --> ", c);
    SplitNone(c, " --> ");
  }

  /** An index line and a timing line of two printed times open a block
      that gives back those times. */
  lemma HeaderOf(index: string, a: string, c: string)
    requires AllDigits(index) && index != [] && TimeText(a) && TimeText(c)
    ensures Header(index, a + " --> " + c) == Some((a, c))
  {
    TimingArrow(a, c);
    TimingSplit(a, c);
  }

  /** The lines of the block of a writable cue are left alone by `strip()`. */
  lemma BlockTrimmed(index: nat, c: Cue)
    requires Writable(c)
    ensures forall k :: 0 <= k < 4 ==> Trimmed(BlockLines(index, c)[k])
  {
    AllDigitsNoSpace(NatToString(index));
    TimingTrimmed(c.startText, c.endText);
  }

  lemma {:induction false} SrtLinesTrimmed(cues: seq<Cue>, first: nat)
    requires forall k :: 0 <= k < |cues| ==> Writable(cues[k])
    ensures forall k :: 0 <= k < |SrtLines(cues, first)| ==> Trimmed(SrtLines(cues, first)[k])
  {
    if cues != [] {
      var block, rest := BlockLines(first, cues[0]), SrtLines(cues[1..], first + 1);
      BlockTrimmed(first, cues[0]);
      SrtLinesTrimmed(cues[1..], first + 1);
      assert forall k :: 0 <= k < |rest| ==> (block + rest)[4 + k] == rest[k];
    }
  }

  /** Stripping lines that have no whitespace at their ends changes none. */
  lemma StrippedTrimmed(lines: seq<string>)
    requires forall k :: 0 <= k < |lines| ==> Trimmed(lines[k])
    ensures StrippedAll(lines) == lines
  {
    forall k | 0 <= k < |lines| ensures StrippedAll(lines)[k] == lines[k] {
      StripTrimmed(lines[k]);
    }
  }

  /** The steps of reading a block of an index, a timing line, one text
      line and an empty line at line i. */
  lemma BlockSteps(s: seq<string>, i: nat, a: string, c: string)
    requires i + 3 < |s| && AllDigits(s[i]) && s[i] != [] && TimeText(a) && TimeText(c)
    requires s[i + 1] == a + " --> " + c && s[i + 2] != [] && s[i + 3] == []
    ensures Timing(s, i) == Some((a, c))
    ensures TextEnd(s, i + 2) == i + 3
    ensures Timing(s, i + 3) == None
  {
    HeaderOf(s[i], a, c);
    assert TextEnd(s, i + 3) == i + 3;
  }

  /** Such a block reads back as one cue, and reading then goes on after
      it. */
  lemma OneBlock(s: seq<string>, i: nat, a: string, c: string)
    requires i + 3 < |s| && AllDigits(s[i]) && s[i] != [] && TimeText(a) && TimeText(c)
    requires s[i + 1] == a + " --> " + c && s[i + 2] != [] && s[i + 3] == []
    ensures Cues(s, i) == [Cue(a, c, s[i + 2])] + Cues(s, i + 4)
  {
    BlockSteps(s, i, a, c);
    assert s[i + 2..i + 3] == [s[i + 2]];
    assert Found(s, i) == [Cue(a, c, s[i + 2])];
    assert Cues(s, i + 3) == Cues(s, i + 4);
  }

  /** Block k of the written lines is the block of cue k. */
  lemma {:induction false} SrtLinesAt(cues: seq<Cue>, first: nat, k: nat)
    requires k < |cues|
    ensures SrtLines(cues, first)[4 * k..4 * k + 4] == BlockLines(first + k, cues[k])
  {
    if k > 0 {
      SrtLinesAt(cues[1..], first + 1, k - 1);
      var rest := SrtLines(cues[1..], first + 1);
      assert SrtLines(cues, first) == BlockLines(first, cues[0]) + rest;
      assert SrtLines(cues, first)[4 * k..4 * k + 4] == rest[4 * (k - 1)..4 * (k - 1) + 4];
    }
  }

  /** The block of a writable cue, wherever it stands in the lines, reads
      back as that cue, and reading then goes on at the next block. */
  lemma ReadBlock(s: seq<string>, i: nat, n: nat, c: Cue)
    requires i + 3 < |s| && s[i..i + 4] == BlockLines(n, c) && Writable(c)
    ensures Cues(s, i) == [c] + Cues(s, i + 4)
  {
    assert s[i] == s[i..i + 4][0] == NatToString(n);
    assert s[i + 1] == s[i..i + 4][1] == c.startText + " --> " + c.endText;
    assert s[i + 2] == s[i..i + 4][2] == c.fullText;
    assert s[i + 3] == s[i..i + 4][3] == [];
    OneBlock(s, i, c.startText, c.endText);
  }

  /** A reading `read` that takes each block of four lines to the next cue
      of `cues`, from block k on, reads `cues[k..]` there. */
  lemma {:induction false} BlocksRead(read: nat -> seq<Cue>, cues: seq<Cue>, k: nat)
    requires k <= |cues| && read(4 * |cues|) == []
    requires forall x :: k <= x < |cues| ==> read(4 * x) == [cues[x]] + read(4 * x + 4)
    ensures read(4 * k) == cues[k..]
    decreases |cues| - k
  {
    if k < |cues| {
      BlocksRead(read, cues, k + 1);
      assert read(4 * (k + 1)) == read(4 * k + 4);
      assert cues[k..] == [cues[k]] + cues[k + 1..];
    }
  }

  /** From block k on, the lines `s` are the blocks of `cues`, numbered
      from `first`. */
  predicate BlocksFrom(s: seq<string>, cues: seq<Cue>, first: nat, k: nat)
    requires k <= |cues| && |s| == 4 * |cues|
    decreases |cues| - k
  {
    k == |cues| ||
    (s[4 * k..4 * k + 4] == BlockLines(first + k, cues[k]) && BlocksFrom(s, cues, first, k + 1))
  }

  lemma {:induction false} BlocksFromAt(s: seq<string>, cues: seq<Cue>, first: nat, k: nat, x: nat)
    requires k <= x < |cues| && |s| == 4 * |cues| && BlocksFrom(s, cues, first, k)
    ensures s[4 * x..4 * x + 4] == BlockLines(first + x, cues[x])
    decreases x - k
  {
    if k < x {
      BlocksFromAt(s, cues, first, k + 1, x);
    }
  }

  /** The written lines are the blocks of their cues. */
  lemma {:induction false} WrittenBlocks(cues: seq<Cue>, first: nat, k: nat)
    requires k <= |cues|
    ensures BlocksFrom(SrtLines(cues, first), cues, first, k)
    decreases |cues| - k
  {
    if k < |cues| {
      SrtLinesAt(cues, first, k);
      WrittenBlocks(cues, first, k + 1);
    }
  }

  /** Lines made of the blocks of writable cues, numbered from `first`,
      read back as those cues. */
  lemma ReadBlocks(s: seq<string>, cues: seq<Cue>, first: nat)
    requires |s| == 4 * |cues| && BlocksFrom(s, cues, first, 0)
    requires forall x :: 0 <= x < |cues| ==> Writable(cues[x])
    ensures Cues(s, 0) == cues
  {
    var read := (i: nat) => if i <= |s| then Cues(s, i) else [];
    forall x | 0 <= x < |cues| ensures read(4 * x) == [cues[x]] + read(4 * x + 4) {
      ReadBlockAt(s, cues, first, x);
    }
    BlocksRead(read, cues, 0);
  }

  /** Block x of such lines reads back as cue x. */
  lemma ReadBlockAt(s: seq<string>, cues: seq<Cue>, first: nat, x: nat)
    requires |s| == 4 * |cues| && BlocksFrom(s, cues, first, 0)
    requires x < |cues| && Writable(cues[x])
    ensures Cues(s, 4 * x) == [cues[x]] + Cues(s, 4 * x + 4)
  {
    var c, i := cues[x], 4 * x;
    assert s[i..i + 4] == BlockLines(first + x, c) && Writable(c) by {
      BlocksFromAt(s, cues, first, 0, x);
    }
    ReadBlock(s, i, first + x, c);
  }

  /** Round trip: reading the lines written for writable cues gives back
      exactly those cues, in order. */
  lemma SrtRoundTrip(cues: seq<Cue>)
    requires forall k :: 0 <= k < |cues| ==> Writable(cues[k])
    ensures Cues(StrippedAll(SrtLines(cues, 1)), 0) == cues
  {
    var s := SrtLines(cues, 1);
    SrtLinesTrimmed(cues, 1);
    StrippedTrimmed(s);
    WrittenBlocks(cues, 1, 0);
    ReadBlocks(s, cues, 1);
  }

  // ---------------------------------------------------------------------------
  // Segments as `_regenerate_srt` prints them

  /** One labelled segment's start, end, speaker name and text. */
  datatype SrtEntry = SrtEntry(start: real, end: real, speaker: string, text: string)

  /** The text line of a block, "speaker: text". */
  function CaptionLine(e: SrtEntry): string
  {
    e.speaker + ": " + e.text
  }

  /** The block `_regenerate_srt` prints for a segment. */
  function Printed(e: SrtEntry): Cue
  {
    Cue(FormatSrtTime(e.start), FormatSrtTime(e.end), CaptionLine(e))
  }

  /** A segment whose block reads back as written: whole-millisecond
      non-negative times, and a text line without whitespace at its ends
      (the speaker does not start and the text does not end with
      whitespace, and the text is not empty), with no line break in the
      speaker or the text. */
  predicate Readable(e: SrtEntry)
  {
    && WholeMillis(e.start) && WholeMillis(e.end)
    && OneLine(e.speaker) && OneLine(e.text)
    && (e.speaker == [] || !IsSpace(e.speaker[0]))
    && e.text != [] && !IsSpace(e.text[|e.text| - 1])
  }

  /** A printed whole-millisecond time is time text that reads back as
      that time. */
  lemma PrintedTime(t: real)
    requires WholeMillis(t)
    ensures TimeText(FormatSrtTime(t)) && SrtTimeToSeconds(FormatSrtTime(t)) == t
  {
    FormatShape(t);
    SrtTimeRoundTrip(t);
  }

  lemma CaptionTrimmed(e: SrtEntry)
    requires Readable(e)
    ensures CaptionLine(e) != [] && Trimmed(CaptionLine(e)) && OneLine(CaptionLine(e))
  {
    var line := CaptionLine(e);
    forall i | 0 <= i < |line| ensures line[i] != '\n' && line[i] != '\r' {
      if i < |e.speaker| {
        assert line[i] == e.speaker[i];
      } else if i >= |e.speaker| + 2 {
        assert line[i] == e.text[i - |e.speaker| - 2];
      }
    }
    assert line[0] == (if e.speaker == [] then ':' else e.speaker[0]);
    assert line[|line| - 1] == e.text[|e.text| - 1];
  }

  /** The block of a readable segment is writable, and its time texts read
      back as the segment's start and end. */
  lemma PrintedReadsBack(e: SrtEntry)
    requires Readable(e)
    ensures Writable(Printed(e))
    ensures SrtTimeToSeconds(Printed(e).startText) == e.start
    ensures SrtTimeToSeconds(Printed(e).endText) == e.end
  {
    PrintedTime(e.start);
    PrintedTime(e.end);
    CaptionTrimmed(e);
  }
}
