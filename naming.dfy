/**
 * Speaker naming (`src/naming/extractor.py`): introductions are picked out
 * of the opening minutes of the transcript, names are read from them, each
 * name goes to the cluster that overlaps its introduction most (the first
 * claim on a cluster wins), and every cluster left over gets a "Speaker N"
 * label, so that each cluster of the fused segments is named exactly once.
 * The name-matching regular expressions are a parameter.
 */
module Naming {
  import opened Base
  import opened Text
  import opened Tally
  import Transcript
  import Fusion

  type TranscriptSegment = Transcript.TranscriptSegment
  type SpeakerSegment = Fusion.SpeakerSegment

  /** `NamedSpeaker`. */
  datatype NamedSpeaker = NamedSpeaker(speakerClusterId: string, name: string, confidence: real, faceId: Option<string>)

  /** A `(name, confidence, original_text)` candidate. */
  datatype Candidate = Candidate(name: string, confidence: real, originalText: string)

  const DefaultMaxIntroTime: real := 300.0
  const DefaultMinIntroDuration: real := 2.0
  const DefaultIntroPatterns: seq<string> := ["I'm", "I am", "My name is", "This is", "Hi, I'm", "Hello, I'm"]

  /** The confidence of a name read from an introduction. */
  const PatternConfidence: real := 0.8

  /** The number of name-matching regular expressions. */
  const PatternCount: nat := 3

  /** Capitalised words that the patterns pick up but are not names. */
  const CommonWords: seq<string> := [
    "Today", "Yesterday", "Tomorrow", "Everyone", "Everybody", "Please", "Thank", "Thanks",
    "Welcome", "Good", "Morning", "Afternoon", "Evening", "Meeting", "Team", "All"
  ]

  /** `w in words`, one word at a time. */
  predicate InWords(w: string, words: seq<string>)
    decreases |words|
  {
    words != [] && (words[0] == w || InWords(w, words[1..]))
  }

  lemma {:induction false} InWordsMembers(w: string, words: seq<string>)
    decreases |words|
    ensures InWords(w, words) <==> w in words
  {
    if words != [] {
      InWordsMembers(w, words[1..]);
      assert words == [words[0]] + words[1..];
    }
  }

  function ClusterIds(named: seq<NamedSpeaker>): (ids: seq<string>)
    ensures |ids| == |named|
    ensures forall i :: 0 <= i < |named| ==> ids[i] == named[i].speakerClusterId
  {
    seq(|named|, i requires 0 <= i < |named| => named[i].speakerClusterId)
  }

  /** The distinct clusters of the fused segments. */
  function FusedClusters(fused: seq<SpeakerSegment>): set<string>
  {
    set s | s in fused :: s.speakerClusterId
  }

  // ---------------------------------------------------------------------------
  // `_extract_intro_segments`

  /** Some pattern occurs in the text, both lowered. */
  predicate Mentions(text: string, patterns: seq<string>)
  {
    exists k :: 0 <= k < |patterns| && Contains(Lower(text), Lower(patterns[k]))
  }

  predicate KeepsIntro(seg: TranscriptSegment, minDuration: real, patterns: seq<string>)
  {
    Transcript.Duration(seg) >= minDuration && Mentions(seg.text, patterns)
  }

  function KeepTest(minDuration: real, patterns: seq<string>): TranscriptSegment -> bool
  {
    seg => KeepsIntro(seg, minDuration, patterns)
  }

  /** The introductions among `segs`: the walk stops at the first segment
      starting after `maxTime`. */
  function Intros(segs: seq<TranscriptSegment>, maxTime: real, minDuration: real, patterns: seq<string>)
    : seq<TranscriptSegment>
  {
    if segs == [] || segs[0].start > maxTime then []
    else
      (if KeepsIntro(segs[0], minDuration, patterns) then [segs[0]] else [])
      + Intros(segs[1..], maxTime, minDuration, patterns)
  }

  /** Where the introduction window ends: the first segment starting after
      `maxTime`, or the end of the list. */
  function Cut(segs: seq<TranscriptSegment>, maxTime: real): (k: nat)
    ensures k <= |segs|
    ensures forall j :: 0 <= j < k ==> segs[j].start <= maxTime
    ensures k < |segs| ==> segs[k].start > maxTime
  {
    if segs == [] || segs[0].start > maxTime then 0 else 1 + Cut(segs[1..], maxTime)
  }

  /** The introductions are the segments of the window that are long enough
      and mention a pattern, in their order. */
  lemma {:induction false} IntrosFilter(segs: seq<TranscriptSegment>, maxTime: real, minDuration: real, patterns: seq<string>)
    ensures Intros(segs, maxTime, minDuration, patterns)
            == Filter(segs[..Cut(segs, maxTime)], KeepTest(minDuration, patterns))
  {
    if segs != [] && segs[0].start <= maxTime {
      var p := KeepTest(minDuration, patterns);
      var rest := segs[1..];
      IntrosFilter(rest, maxTime, minDuration, patterns);
      var k := Cut(segs, maxTime);
      assert segs[..k] == [segs[0]] + rest[..k - 1];
      FilterAppend([segs[0]], rest[..k - 1], p);
      FilterSnoc([], segs[0], p);
      assert [] + [segs[0]] == [segs[0]];
    }
  }

  /** One step of the walk: the segment at `i`, inside the window, joins the
      introductions found so far when it is kept. */
  lemma IntrosStep(segs: seq<TranscriptSegment>, i: nat, found: seq<TranscriptSegment>,
                   maxTime: real, minDuration: real, patterns: seq<string>)
    requires i < |segs| && segs[i].start <= maxTime
    requires Intros(segs, maxTime, minDuration, patterns) == found + Intros(segs[i..], maxTime, minDuration, patterns)
    ensures Intros(segs, maxTime, minDuration, patterns)
            == (found + if KeepsIntro(segs[i], minDuration, patterns) then [segs[i]] else [])
               + Intros(segs[i + 1..], maxTime, minDuration, patterns)
  {
    IntrosUnfold(segs, i, maxTime, minDuration, patterns);
    AppendAssoc(found, if KeepsIntro(segs[i], minDuration, patterns) then [segs[i]] else [],
                Intros(segs[i + 1..], maxTime, minDuration, patterns));
  }

  lemma IntrosUnfold(segs: seq<TranscriptSegment>, i: nat, maxTime: real, minDuration: real, patterns: seq<string>)
    requires i < |segs| && segs[i].start <= maxTime
    ensures Intros(segs[i..], maxTime, minDuration, patterns)
            == (if KeepsIntro(segs[i], minDuration, patterns) then [segs[i]] else [])
               + Intros(segs[i + 1..], maxTime, minDuration, patterns)
  {
    assert segs[i..][1..] == segs[i + 1..];
  }

  // ---------------------------------------------------------------------------
  // `_is_valid_name`

  /** Two to fifty characters, a capital first, and not a common word. */
  predicate IsValidName(name: string)
  {
    if |name| < 2 || |name| > 50 then false
    else if !IsUpper(name[0]) then false
    else !InWords(name, CommonWords)
  }

  /** A name is valid exactly when it has two to fifty characters, starts
      with a capital and is not in the stoplist. */
  lemma ValidNameCases(name: string)
    ensures IsValidName(name) <==> 2 <= |name| <= 50 && IsUpper(name[0]) && name !in CommonWords
  {
    InWordsMembers(name, CommonWords);
  }

  // ---------------------------------------------------------------------------
  // `_parse_names_from_intros`

  /** The candidates one pattern's matches give: each match stripped, kept
      if it is a valid name, with the base confidence. */
  function MatchCandidates(matches: seq<string>, text: string): seq<Candidate>
  {
    if matches == [] then []
    else
      var name := Strip(matches[|matches| - 1]);
      MatchCandidates(matches[..|matches| - 1], text)
      + (if IsValidName(name) then [Candidate(name, PatternConfidence, text)] else [])
  }

  /** The candidates of the first `k` patterns on one text; `finder(p,
      text)` lists what pattern `p` captures in `text`, left to right. */
  function SegmentCandidates(text: string, finder: (nat, string) -> seq<string>, k: nat): seq<Candidate>
  {
    if k == 0 then [] else SegmentCandidates(text, finder, k - 1) + MatchCandidates(finder(k - 1, text), text)
  }

  /** All candidates, segment by segment, pattern by pattern. */
  function Candidates(intros: seq<TranscriptSegment>, finder: (nat, string) -> seq<string>): seq<Candidate>
  {
    if intros == [] then []
    else Candidates(intros[..|intros| - 1], finder) + SegmentCandidates(intros[|intros| - 1].text, finder, PatternCount)
  }

  lemma AppendAssoc<T>(a: seq<T>, b: seq<T>, c: seq<T>)
    ensures (a + b) + c == a + (b + c)
  {
  }

  /** A candidate read from `text`: a valid name with the base confidence. */
  predicate ReadFrom(c: Candidate, text: string)
  {
    c.confidence == PatternConfidence && IsValidName(c.name) && c.originalText == text
  }

  /** Every candidate of the list was read from `text`. */
  predicate AllReadFrom(cs: seq<Candidate>, text: string)
  {
    forall c :: c in cs ==> ReadFrom(c, text)
  }

  lemma ReadFromConcat(a: seq<Candidate>, b: seq<Candidate>, text: string)
    requires AllReadFrom(a, text) && AllReadFrom(b, text)
    ensures AllReadFrom(a + b, text)
  {
    forall c | c in a + b ensures ReadFrom(c, text) {
      if c !in a {
        assert c in b;
      }
    }
  }

  /** At most one candidate per match, each a valid name read from `text`. */
  lemma {:induction false} MatchCandidatesSpec(matches: seq<string>, text: string)
    ensures |MatchCandidates(matches, text)| <= |matches|
    ensures AllReadFrom(MatchCandidates(matches, text), text)
  {
    if matches != [] {
      var init := matches[..|matches| - 1];
      var name := Strip(matches[|matches| - 1]);
      MatchCandidatesSpec(init, text);
      ReadFromConcat(MatchCandidates(init, text),
                     if IsValidName(name) then [Candidate(name, PatternConfidence, text)] else [], text);
    }
  }

  lemma {:induction false} SegmentCandidatesSpec(text: string, finder: (nat, string) -> seq<string>, k: nat)
    ensures AllReadFrom(SegmentCandidates(text, finder, k), text)
  {
    if k > 0 {
      var matches := finder(k - 1, text);
      var earlier := SegmentCandidates(text, finder, k - 1);
      SegmentCandidatesSpec(text, finder, k - 1);
      assert AllReadFrom(earlier, text);
      MatchCandidatesSpec(matches, text);
      ReadFromConcat(earlier, MatchCandidates(matches, text), text);
    }
  }

  /** Every candidate is a valid name with confidence 0.8, read from the
      text of one of the introductions. */
  lemma {:induction false} CandidatesSpec(intros: seq<TranscriptSegment>, finder: (nat, string) -> seq<string>)
    ensures forall c :: c in Candidates(intros, finder) ==>
              exists j :: 0 <= j < |intros| && ReadFrom(c, intros[j].text)
  {
    if intros != [] {
      var n := |intros| - 1;
      CandidatesSpec(intros[..n], finder);
      SegmentCandidatesSpec(intros[n].text, finder, PatternCount);
      assert forall j :: 0 <= j < n ==> intros[..n][j] == intros[j];
    }
  }

  // ---------------------------------------------------------------------------
  // `_find_speaker_for_intro`

  /** The closed intervals meet. */
  predicate Overlaps(intro: TranscriptSegment, s: SpeakerSegment)
  {
    !(s.end < intro.start || s.start > intro.end)
  }

  function OverlapTest(intro: TranscriptSegment): SpeakerSegment -> bool
  {
    (s: SpeakerSegment) => Overlaps(intro, s)
  }

  /** How long the two intervals share. */
  function Amount(intro: TranscriptSegment, s: SpeakerSegment): real
  {
    Min(s.end, intro.end) - Max(s.start, intro.start)
  }

  function OverlapAmount(intro: TranscriptSegment): SpeakerSegment -> real
  {
    (s: SpeakerSegment) => Amount(intro, s)
  }

  /** The cluster of the first overlapping segment with the largest overlap. */
  function FindSpeakerForIntro(intro: TranscriptSegment, fused: seq<SpeakerSegment>): Option<string>
  {
    var overlapping := Filter(fused, OverlapTest(intro));
    if overlapping == [] then None
    else Some(ArgMax(overlapping, OverlapAmount(intro)).speakerClusterId)
  }

  /** No cluster when nothing overlaps; otherwise the cluster of the
      overlapping segment at `k` among the overlapping ones, which no
      overlapping segment beats and which beats every one before it. */
  lemma FindSpeakerSpec(intro: TranscriptSegment, fused: seq<SpeakerSegment>) returns (k: nat)
    ensures FindSpeakerForIntro(intro, fused).None? <==> forall j :: 0 <= j < |fused| ==> !Overlaps(intro, fused[j])
    ensures FindSpeakerForIntro(intro, fused).Some? ==>
              var overlapping := Filter(fused, OverlapTest(intro));
              && k < |overlapping|
              && overlapping[k].speakerClusterId == FindSpeakerForIntro(intro, fused).value
              && overlapping[k] in fused && Overlaps(intro, overlapping[k])
              && (forall s :: s in fused && Overlaps(intro, s) ==> Amount(intro, s) <= Amount(intro, overlapping[k]))
              && (forall j :: 0 <= j < k ==> Amount(intro, overlapping[j]) < Amount(intro, overlapping[k]))
  {
    var overlapping := Filter(fused, OverlapTest(intro));
    FilterMembers(fused, OverlapTest(intro));
    k := 0;
    if overlapping == [] {
      forall j | 0 <= j < |fused| ensures !Overlaps(intro, fused[j]) {
        assert fused[j] !in overlapping;
      }
    } else {
      assert overlapping[0] in fused;
      k := ArgMaxSpec(overlapping, OverlapAmount(intro));
      assert overlapping[k] in overlapping;
      forall s | s in fused && Overlaps(intro, s)
        ensures Amount(intro, s) <= Amount(intro, overlapping[k])
      {
        assert s in overlapping;
      }
    }
  }

  /** The cluster a speaker id names, if any, is one of the fused clusters. */
  lemma FindSpeakerFused(intro: TranscriptSegment, fused: seq<SpeakerSegment>)
    ensures FindSpeakerForIntro(intro, fused).Some? ==> FindSpeakerForIntro(intro, fused).value in FusedClusters(fused)
  {
    var k := FindSpeakerSpec(intro, fused);
    if FindSpeakerForIntro(intro, fused).Some? {
      var s := Filter(fused, OverlapTest(intro))[k];
      assert s in fused;
    }
  }

  // ---------------------------------------------------------------------------
  // `_map_names_to_clusters`

  /** The first introduction whose text contains `text`. */
  function FirstContaining(intros: seq<TranscriptSegment>, text: string): (r: Option<TranscriptSegment>)
    ensures r.None? <==> forall k :: 0 <= k < |intros| ==> !Contains(intros[k].text, text)
    ensures r.Some? ==> exists k :: 0 <= k < |intros| && intros[k] == r.value && Contains(r.value.text, text)
                          && forall j :: 0 <= j < k ==> !Contains(intros[j].text, text)
  {
    if intros == [] then None
    else if Contains(intros[0].text, text) then Some(intros[0])
    else
      var r := FirstContaining(intros[1..], text);
      assert forall k :: 0 < k < |intros| ==> intros[k] == intros[1..][k - 1];
      r
  }

  /** The face of the first segment of cluster `c` that has one. */
  function FirstFace(fused: seq<SpeakerSegment>, c: string): (r: Option<string>)
    ensures r.None? <==> forall k :: 0 <= k < |fused| ==> !Fusion.Supports(c, fused[k])
    ensures r.Some? ==> exists k :: 0 <= k < |fused| && Fusion.Supports(c, fused[k]) && fused[k].faceId == r
                          && forall j :: 0 <= j < k ==> !Fusion.Supports(c, fused[j])
  {
    if fused == [] then None
    else if Fusion.Supports(c, fused[0]) then fused[0].faceId
    else
      var r := FirstFace(fused[1..], c);
      assert forall k :: 0 < k < |fused| ==> fused[k] == fused[1..][k - 1];
      r
  }

  /** The cluster a candidate claims: the best speaker of the first
      introduction containing its text, unless there is none or its id is
      empty. */
  function ClusterFor(cand: Candidate, intros: seq<TranscriptSegment>, fused: seq<SpeakerSegment>): Option<string>
  {
    match FirstContaining(intros, cand.originalText)
    case None => None
    case Some(seg) =>
      var id := FindSpeakerForIntro(seg, fused);
      if id.Some? && id.value != "" then id else None
  }

  function Claim(c: string, cand: Candidate, fused: seq<SpeakerSegment>): NamedSpeaker
  {
    NamedSpeaker(c, cand.name, cand.confidence, FirstFace(fused, c))
  }

  /** The named speakers of the candidates: a candidate names its cluster
      unless an earlier one already did. */
  function Assigned(cands: seq<Candidate>, intros: seq<TranscriptSegment>, fused: seq<SpeakerSegment>)
    : seq<NamedSpeaker>
  {
    if cands == [] then []
    else
      var prev := Assigned(cands[..|cands| - 1], intros, fused);
      var cand := cands[|cands| - 1];
      match ClusterFor(cand, intros, fused)
      case None => prev
      case Some(c) => if c in ClusterIds(prev) then prev else prev + [Claim(c, cand, fused)]
  }

  lemma AssignedStep(cands: seq<Candidate>, i: nat, intros: seq<TranscriptSegment>, fused: seq<SpeakerSegment>)
    requires i < |cands|
    ensures var prev := Assigned(cands[..i], intros, fused);
      Assigned(cands[..i + 1], intros, fused)
      == match ClusterFor(cands[i], intros, fused)
         case None => prev
         case Some(c) => if c in ClusterIds(prev) then prev else prev + [Claim(c, cands[i], fused)]
  {
    assert cands[..i + 1][..i] == cands[..i];
  }

  lemma ClusterIdsSnoc(named: seq<NamedSpeaker>, ns: NamedSpeaker)
    ensures ClusterIds(named + [ns]) == ClusterIds(named) + [ns.speakerClusterId]
  {
  }

  /** Assigned unfolded at its last candidate. */
  lemma AssignedLast(cands: seq<Candidate>, intros: seq<TranscriptSegment>, fused: seq<SpeakerSegment>)
    requires cands != []
    ensures var n := |cands| - 1;
      var prev := Assigned(cands[..n], intros, fused);
      Assigned(cands, intros, fused)
      == match ClusterFor(cands[n], intros, fused)
         case None => prev
         case Some(c) => if c in ClusterIds(prev) then prev else prev + [Claim(c, cands[n], fused)]
  {
  }

  /** No cluster is named twice. */
  lemma {:induction false} AssignedDistinct(cands: seq<Candidate>, intros: seq<TranscriptSegment>, fused: seq<SpeakerSegment>)
    ensures Distinct(ClusterIds(Assigned(cands, intros, fused)))
  {
    if cands != [] {
      var n := |cands| - 1;
      var prev := Assigned(cands[..n], intros, fused);
      AssignedDistinct(cands[..n], intros, fused);
      AssignedLast(cands, intros, fused);
      var cl := ClusterFor(cands[n], intros, fused);
      if cl.Some? && cl.value !in ClusterIds(prev) {
        ClusterIdsSnoc(prev, Claim(cl.value, cands[n], fused));
      }
    }
  }

  /** Naming keeps the clusters named so far. */
  lemma AssignedKeeps(cands: seq<Candidate>, intros: seq<TranscriptSegment>, fused: seq<SpeakerSegment>)
    requires cands != []
    ensures forall c :: c in ClusterIds(Assigned(cands[..|cands| - 1], intros, fused)) ==>
              c in ClusterIds(Assigned(cands, intros, fused))
  {
    var n := |cands| - 1;
    var prev := Assigned(cands[..n], intros, fused);
    AssignedLast(cands, intros, fused);
    var cl := ClusterFor(cands[n], intros, fused);
    if cl.Some? && cl.value !in ClusterIds(prev) {
      ClusterIdsSnoc(prev, Claim(cl.value, cands[n], fused));
    }
  }

  /** Every claimed cluster is named. */
  lemma {:induction false} AssignedComplete(cands: seq<Candidate>, intros: seq<TranscriptSegment>, fused: seq<SpeakerSegment>)
    ensures forall j :: 0 <= j < |cands| && ClusterFor(cands[j], intros, fused).Some? ==>
              ClusterFor(cands[j], intros, fused).value in ClusterIds(Assigned(cands, intros, fused))
  {
    if cands != [] {
      var n := |cands| - 1;
      var prev := Assigned(cands[..n], intros, fused);
      AssignedComplete(cands[..n], intros, fused);
      AssignedKeeps(cands, intros, fused);
      forall j | 0 <= j < |cands| && ClusterFor(cands[j], intros, fused).Some?
        ensures ClusterFor(cands[j], intros, fused).value in ClusterIds(Assigned(cands, intros, fused))
      {
        if j < n {
          assert cands[..n][j] == cands[j];
        } else {
          var c := ClusterFor(cands[n], intros, fused).value;
          if c !in ClusterIds(prev) {
            AssignedLast(cands, intros, fused);
            ClusterIdsSnoc(prev, Claim(c, cands[n], fused));
          }
        }
      }
    }
  }

  /** The candidate that names a cluster claims it, and no earlier
      candidate does: the first claim wins. */
  predicate FirstClaim(cands: seq<Candidate>, intros: seq<TranscriptSegment>, fused: seq<SpeakerSegment>,
                       ns: NamedSpeaker, j: int)
  {
    && 0 <= j < |cands|
    && ClusterFor(cands[j], intros, fused) == Some(ns.speakerClusterId)
    && ns == Claim(ns.speakerClusterId, cands[j], fused)
    && forall j' :: 0 <= j' < j ==> ClusterFor(cands[j'], intros, fused) != Some(ns.speakerClusterId)
  }

  /** Each named speaker comes from the first candidate claiming its
      cluster. */
  lemma {:induction false} AssignedFirstClaim(cands: seq<Candidate>, intros: seq<TranscriptSegment>, fused: seq<SpeakerSegment>)
    ensures forall ns :: ns in Assigned(cands, intros, fused) ==> exists j :: FirstClaim(cands, intros, fused, ns, j)
  {
    if cands != [] {
      var n := |cands| - 1;
      var init := cands[..n];
      var prev := Assigned(init, intros, fused);
      AssignedFirstClaim(init, intros, fused);
      forall ns | ns in Assigned(cands, intros, fused) ensures exists j :: FirstClaim(cands, intros, fused, ns, j) {
        if ns in prev {
          var j :| FirstClaim(init, intros, fused, ns, j);
          FirstClaimExtends(cands, n, intros, fused, ns, j);
        } else {
          NewClaimFirst(cands, intros, fused, ns);
        }
      }
    }
  }

  lemma FirstClaimExtends(cands: seq<Candidate>, n: nat, intros: seq<TranscriptSegment>, fused: seq<SpeakerSegment>,
                          ns: NamedSpeaker, j: int)
    requires n <= |cands| && FirstClaim(cands[..n], intros, fused, ns, j)
    ensures FirstClaim(cands, intros, fused, ns, j)
  {
    assert forall j' :: 0 <= j' <= j ==> cands[..n][j'] == cands[j'];
  }

  /** A cluster named by the last candidate was claimed by no earlier one. */
  lemma NewClaimFirst(cands: seq<Candidate>, intros: seq<TranscriptSegment>, fused: seq<SpeakerSegment>, ns: NamedSpeaker)
    requires cands != []
    requires ns in Assigned(cands, intros, fused) && ns !in Assigned(cands[..|cands| - 1], intros, fused)
    ensures FirstClaim(cands, intros, fused, ns, |cands| - 1)
  {
    var n := |cands| - 1;
    var init := cands[..n];
    var prev := Assigned(init, intros, fused);
    AssignedLast(cands, intros, fused);
    AssignedComplete(init, intros, fused);
    var c := ClusterFor(cands[n], intros, fused).value;
    forall j' | 0 <= j' < n ensures ClusterFor(cands[j'], intros, fused) != Some(c) {
      assert init[j'] == cands[j'];
    }
  }

  /** Every named cluster is a cluster of the fused segments. */
  lemma {:induction false} AssignedFused(cands: seq<Candidate>, intros: seq<TranscriptSegment>, fused: seq<SpeakerSegment>)
    ensures forall ns :: ns in Assigned(cands, intros, fused) ==> ns.speakerClusterId in FusedClusters(fused)
    ensures forall ns :: ns in Assigned(cands, intros, fused) ==> ns.faceId == FirstFace(fused, ns.speakerClusterId)
  {
    if cands != [] {
      var n := |cands| - 1;
      AssignedFused(cands[..n], intros, fused);
      match FirstContaining(intros, cands[n].originalText)
      case None =>
      case Some(seg) => FindSpeakerFused(seg, fused);
    }
  }

  // ---------------------------------------------------------------------------
  // `extract_names`: the clusters nobody claimed

  /** `f"Speaker {n}"`. */
  function FallbackLabel(n: nat): string
  {
    "Speaker " + NatToString(n)
  }

  lemma FallbackLabelInjective(a: nat, b: nat)
    requires FallbackLabel(a) == FallbackLabel(b)
    ensures a == b
  {
    assert NatToString(a) == FallbackLabel(a)[8..];
    assert NatToString(b) == FallbackLabel(b)[8..];
    NatToStringInjective(a, b);
  }

  /** `m` comes before every other member of `s`. */
  predicate IsLeast(s: set<string>, m: string)
  {
    m in s && forall x :: x in s && x != m ==> LexLess(m, x)
  }

  /** A non-empty set of strings has exactly one least element. */
  lemma {:induction false} LeastExists(s: set<string>)
    requires s != {}
    ensures exists m :: IsLeast(s, m)
    ensures forall m, m' :: IsLeast(s, m) && IsLeast(s, m') ==> m == m'
    decreases |s|
  {
    forall m, m' | IsLeast(s, m) && IsLeast(s, m') ensures m == m' {
      if m != m' {
        LexTransitive(m, m', m);
        LexIrreflexive(m);
      }
    }
    var y :| y in s;
    if s != {y} {
      LeastExists(s - {y});
      var m :| IsLeast(s - {y}, m);
      if LexLess(y, m) {
        forall x | x in s && x != y ensures LexLess(y, x) {
          if x != m {
            LexTransitive(y, m, x);
          }
        }
        assert IsLeast(s, y);
      } else {
        LexTotal(y, m);
        assert IsLeast(s, m);
      }
    } else {
      assert IsLeast(s, y);
    }
  }

  /** `sorted(s)` for a set of strings. */
  function SortedIds(s: set<string>): (r: seq<string>)
    ensures forall x :: x in r <==> x in s
    ensures LexSorted(r)
    decreases |s|
  {
    if s == {} then []
    else
      LeastExists(s);
      var m :| IsLeast(s, m);
      [m] + SortedIds(s - {m})
  }

  lemma LexSortedDistinct(s: seq<string>)
    requires LexSorted(s)
    ensures Distinct(s)
  {
    forall i, j | 0 <= i < j < |s| ensures s[i] != s[j] {
      if s[i] == s[j] {
        LexIrreflexive(s[i]);
      }
    }
  }

  // ---------------------------------------------------------------------------
  // `create_speaker_mapping`

  /** `{ns.speaker_cluster_id: ns.name for ns in named}`: a later entry
      overrides an earlier one. */
  function SpeakerMapping(named: seq<NamedSpeaker>): map<string, string>
  {
    if named == [] then map[]
    else
      var last := named[|named| - 1];
      SpeakerMapping(named[..|named| - 1])[last.speakerClusterId := last.name]
  }

  /** The mapping's keys are exactly the clusters of the list. */
  lemma {:induction false} SpeakerMappingKeys(named: seq<NamedSpeaker>)
    ensures forall c :: c in SpeakerMapping(named) <==> c in ClusterIds(named)
  {
    if named != [] {
      var n := |named| - 1;
      SpeakerMappingKeys(named[..n]);
      assert ClusterIds(named) == ClusterIds(named[..n]) + [named[n].speakerClusterId];
    }
  }

  /** With distinct clusters, each cluster maps to its own entry's name. */
  lemma {:induction false} SpeakerMappingNames(named: seq<NamedSpeaker>)
    requires Distinct(ClusterIds(named))
    ensures forall i :: 0 <= i < |named| ==> named[i].speakerClusterId in SpeakerMapping(named)
    ensures forall i :: 0 <= i < |named| ==> SpeakerMapping(named)[named[i].speakerClusterId] == named[i].name
  {
    SpeakerMappingKeys(named);
    if named != [] {
      var n := |named| - 1;
      var init := named[..n];
      assert ClusterIds(init) == ClusterIds(named)[..n];
      SpeakerMappingNames(init);
      forall i | 0 <= i < n ensures SpeakerMapping(named)[named[i].speakerClusterId] == named[i].name {
        assert ClusterIds(named)[i] != ClusterIds(named)[n];
        assert init[i] == named[i];
      }
    }
  }

  // ---------------------------------------------------------------------------
  // The namer

  class SpeakerNamer {
    const maxIntroTime: real
    const minIntroDuration: real
    const introPatterns: seq<string>

    /** The `intro_detection` settings, each defaulted when absent. */
    constructor (maxIntroTime: Option<real>, minIntroDuration: Option<real>, introPatterns: Option<seq<string>>)
      ensures this.maxIntroTime == if maxIntroTime.Some? then maxIntroTime.value else DefaultMaxIntroTime
      ensures this.minIntroDuration == if minIntroDuration.Some? then minIntroDuration.value else DefaultMinIntroDuration
      ensures this.introPatterns == if introPatterns.Some? then introPatterns.value else DefaultIntroPatterns
    {
      this.maxIntroTime := if maxIntroTime.Some? then maxIntroTime.value else DefaultMaxIntroTime;
      this.minIntroDuration := if minIntroDuration.Some? then minIntroDuration.value else DefaultMinIntroDuration;
      this.introPatterns := if introPatterns.Some? then introPatterns.value else DefaultIntroPatterns;
    }

    /** The pattern-named speakers for a transcript. */
    function Claimed(transcript: seq<TranscriptSegment>, fused: seq<SpeakerSegment>,
                     finder: (nat, string) -> seq<string>): seq<NamedSpeaker>
    {
      var intros := Intros(transcript, maxIntroTime, minIntroDuration, introPatterns);
      Assigned(Candidates(intros, finder), intros, fused)
    }

    method ExtractIntroSegments(segments: seq<TranscriptSegment>) returns (intros: seq<TranscriptSegment>)
      ensures intros == Intros(segments, maxIntroTime, minIntroDuration, introPatterns)
    {
      intros := [];
      for i := 0 to |segments|
        invariant Intros(segments, maxIntroTime, minIntroDuration, introPatterns)
                  == intros + Intros(segments[i..], maxIntroTime, minIntroDuration, introPatterns)
      {
        var segment := segments[i];
        if segment.start > maxIntroTime {
          assert Intros(segments[i..], maxIntroTime, minIntroDuration, introPatterns) == [];
          break;
        }
        IntrosStep(segments, i, intros, maxIntroTime, minIntroDuration, introPatterns);
        if Transcript.Duration(segment) < minIntroDuration {
          continue;
        }
        if Mentions(segment.text, introPatterns) {
          intros := intros + [segment];
        }
      }
    }

    method ParseNamesFromIntros(intros: seq<TranscriptSegment>, finder: (nat, string) -> seq<string>)
      returns (candidates: seq<Candidate>)
      ensures candidates == Candidates(intros, finder)
    {
      candidates := [];
      for i := 0 to |intros|
        invariant candidates == Candidates(intros[..i], finder)
      {
        var found := SegmentNames(intros[i].text, finder);
        assert intros[..i + 1][..i] == intros[..i];
        candidates := candidates + found;
      }
      assert intros[..|intros|] == intros;
    }

    /** The loop over the patterns for one introduction. */
    method SegmentNames(text: string, finder: (nat, string) -> seq<string>) returns (candidates: seq<Candidate>)
      ensures candidates == SegmentCandidates(text, finder, PatternCount)
    {
      candidates := [];
      for p := 0 to PatternCount
        invariant candidates == SegmentCandidates(text, finder, p)
      {
        var found := ValidMatches(finder(p, text), text);
        candidates := candidates + found;
      }
    }

    /** The innermost loop of `_parse_names_from_intros`: the valid names
        among one pattern's matches. */
    method ValidMatches(matches: seq<string>, text: string) returns (found: seq<Candidate>)
      ensures found == MatchCandidates(matches, text)
    {
      found := [];
      for m := 0 to |matches|
        invariant found == MatchCandidates(matches[..m], text)
      {
        assert matches[..m + 1][..m] == matches[..m];
        var name := Strip(matches[m]);
        if IsValidName(name) {
          found := found + [Candidate(name, PatternConfidence, text)];
        }
      }
      assert matches[..|matches|] == matches;
    }

    /** `for seg in intro_segments: if original_text in seg.text: ... break`. */
    method FindIntro(intros: seq<TranscriptSegment>, text: string) returns (introSeg: Option<TranscriptSegment>)
      ensures introSeg == FirstContaining(intros, text)
    {
      introSeg := None;
      for i := 0 to |intros|
        invariant introSeg == None
        invariant FirstContaining(intros, text) == FirstContaining(intros[i..], text)
      {
        assert intros[i..][1..] == intros[i + 1..];
        if Contains(intros[i].text, text) {
          introSeg := Some(intros[i]);
          break;
        }
      }
    }

    /** `for seg in fused_segments: if ... and seg.face_id: ... break`. */
    method FindFace(fused: seq<SpeakerSegment>, speakerId: string) returns (faceId: Option<string>)
      ensures faceId == FirstFace(fused, speakerId)
    {
      faceId := None;
      for i := 0 to |fused|
        invariant faceId == None
        invariant FirstFace(fused, speakerId) == FirstFace(fused[i..], speakerId)
      {
        assert fused[i..][1..] == fused[i + 1..];
        if fused[i].speakerClusterId == speakerId && Fusion.HasFace(fused[i].faceId) {
          faceId := fused[i].faceId;
          break;
        }
      }
    }

    method MapNamesToClusters(candidates: seq<Candidate>, intros: seq<TranscriptSegment>,
                              fused: seq<SpeakerSegment>, transcript: seq<TranscriptSegment>)
      returns (named: seq<NamedSpeaker>)
      ensures named == Assigned(candidates, intros, fused)
    {
      named := [];
      var usedClusters: set<string> := {};
      for i := 0 to |candidates|
        invariant named == Assigned(candidates[..i], intros, fused)
        invariant forall c :: c in usedClusters <==> c in ClusterIds(named)
      {
        var cand := candidates[i];
        AssignedStep(candidates, i, intros, fused);
        var introSeg := FindIntro(intros, cand.originalText);
        if introSeg.None? {
          continue;
        }
        var speakerId := FindSpeakerForIntro(introSeg.value, fused);
        if speakerId.Some? && speakerId.value != "" && speakerId.value !in usedClusters {
          var faceId := FindFace(fused, speakerId.value);
          ClusterIdsSnoc(named, NamedSpeaker(speakerId.value, cand.name, cand.confidence, faceId));
          named := named + [NamedSpeaker(speakerId.value, cand.name, cand.confidence, faceId)];
          usedClusters := usedClusters + {speakerId.value};
        }
      }
      assert candidates[..|candidates|] == candidates;
    }

    /** The pattern-named speakers come first, then one "Speaker N" entry
        with confidence 0 for each remaining cluster in sorted order, with
        N = 2i - k + 1 for the entry at index i after k named ones; every
        cluster of the fused segments is named exactly once and no other
        cluster is, and each entry carries the cluster's first face. */
    method ExtractNames(transcript: seq<TranscriptSegment>, fused: seq<SpeakerSegment>,
                        finder: (nat, string) -> seq<string>)
      returns (named: seq<NamedSpeaker>)
      ensures |Claimed(transcript, fused, finder)| <= |named|
      ensures named[..|Claimed(transcript, fused, finder)|] == Claimed(transcript, fused, finder)
      ensures LexSorted(ClusterIds(named[|Claimed(transcript, fused, finder)|..]))
      ensures FallbackLabelled(named, |Claimed(transcript, fused, finder)|)
      ensures Distinct(ClusterIds(named))
      ensures forall ns :: ns in named ==> ns.speakerClusterId in FusedClusters(fused)
      ensures forall s :: s in fused ==> s.speakerClusterId in ClusterIds(named)
      ensures forall ns :: ns in named ==> ns.faceId == FirstFace(fused, ns.speakerClusterId)
    {
      var intros := ExtractIntroSegments(transcript);
      var candidates := ParseNamesFromIntros(intros, finder);
      named := MapNamesToClusters(candidates, intros, fused, transcript);
      ghost var claimed := named;
      assert claimed == Claimed(transcript, fused, finder);
      AssignedDistinct(candidates, intros, fused);
      AssignedFused(candidates, intros, fused);

      var allSpeakers := FusedClusters(fused);
      var namedIds := ClusterSet(named);
      var missing := SortedIds(allSpeakers - namedIds);
      named := AddFallbacks(named, missing, fused);
      FallbacksShape(claimed, missing, fused, named);
      FallbacksCover(claimed, missing, fused, named);
    }

    /** The `for idx, speaker_id in enumerate(sorted(missing))` loop of
        `extract_names`. */
    method AddFallbacks(claimed: seq<NamedSpeaker>, missing: seq<string>, fused: seq<SpeakerSegment>)
      returns (named: seq<NamedSpeaker>)
      ensures named == claimed + Fallbacks(missing, |claimed|, fused)
    {
      named := claimed;
      for idx := 0 to |missing|
        invariant named == claimed + Fallbacks(missing[..idx], |claimed|, fused)
      {
        var faceId := FindFace(fused, missing[idx]);
        assert Fallbacks(missing[..idx + 1], |claimed|, fused)
               == Fallbacks(missing[..idx], |claimed|, fused)
                  + [NamedSpeaker(missing[idx], FallbackLabel(idx + |named| + 1), 0.0, faceId)];
        AppendAssoc(claimed, Fallbacks(missing[..idx], |claimed|, fused),
                    [NamedSpeaker(missing[idx], FallbackLabel(idx + |named| + 1), 0.0, faceId)]);
        named := named + [NamedSpeaker(missing[idx], FallbackLabel(idx + |named| + 1), 0.0, faceId)];
      }
      assert missing[..|missing|] == missing;
    }
  }

  /** The set of clusters a list of named speakers holds. */
  function ClusterSet(named: seq<NamedSpeaker>): set<string>
  {
    set ns | ns in named :: ns.speakerClusterId
  }

  /** From index `k` on, the entry at index `i` is labelled
      "Speaker 2i - k + 1" with confidence 0. */
  predicate FallbackLabelled(named: seq<NamedSpeaker>, k: nat)
  {
    forall i :: k <= i < |named| ==> named[i].name == FallbackLabel(2 * i - k + 1) && named[i].confidence == 0.0
  }

  /** The entries `extract_names` adds for the clusters in `ids` after `k`
      named ones: the list grows by one per entry, so the label of entry
      `i` is `i + (k + i) + 1`. */
  function Fallbacks(ids: seq<string>, k: nat, fused: seq<SpeakerSegment>): (r: seq<NamedSpeaker>)
    ensures |r| == |ids|
  {
    seq(|ids|, i requires 0 <= i < |ids| => NamedSpeaker(ids[i], FallbackLabel(i + (k + i) + 1), 0.0, FirstFace(fused, ids[i])))
  }

  /** Appending the fallback entries keeps the named prefix, appends the
      clusters in order, and labels the entry at index `i` after `k` named
      ones "Speaker 2i - k + 1". */
  lemma FallbacksShape(claimed: seq<NamedSpeaker>, ids: seq<string>, fused: seq<SpeakerSegment>,
                       named: seq<NamedSpeaker>)
    requires named == claimed + Fallbacks(ids, |claimed|, fused)
    ensures |claimed| <= |named|
    ensures named[..|claimed|] == claimed
    ensures ClusterIds(named) == ClusterIds(claimed) + ids
    ensures ClusterIds(named[|claimed|..]) == ids
    ensures FallbackLabelled(named, |claimed|)
  {
    assert named[..|claimed|] == claimed;
    FallbacksIds(claimed, ids, fused, named);
    FallbacksLabels(claimed, ids, fused, named);
  }

  lemma FallbacksIds(claimed: seq<NamedSpeaker>, ids: seq<string>, fused: seq<SpeakerSegment>,
                     named: seq<NamedSpeaker>)
    requires named == claimed + Fallbacks(ids, |claimed|, fused)
    ensures ClusterIds(named) == ClusterIds(claimed) + ids
    ensures ClusterIds(named[|claimed|..]) == ids
  {
    assert named[|claimed|..] == Fallbacks(ids, |claimed|, fused);
  }

  lemma FallbacksLabels(claimed: seq<NamedSpeaker>, ids: seq<string>, fused: seq<SpeakerSegment>,
                        named: seq<NamedSpeaker>)
    requires named == claimed + Fallbacks(ids, |claimed|, fused)
    ensures FallbackLabelled(named, |claimed|)
  {
    var k := |claimed|;
    forall i | k <= i < |named|
      ensures named[i].name == FallbackLabel(2 * i - k + 1) && named[i].confidence == 0.0
    {
      var j: nat := i - k;
      assert named[i] == Fallbacks(ids, k, fused)[j];
      assert j + (k + j) + 1 == 2 * i - k + 1;
    }
  }

  lemma DistinctConcat(a: seq<string>, b: seq<string>)
    requires Distinct(a) && Distinct(b)
    requires forall x :: x in b ==> x !in a
    ensures Distinct(a + b)
  {
    forall i, j | 0 <= i < j < |a + b| ensures (a + b)[i] != (a + b)[j] {
      if i < |a| && j >= |a| {
        assert (a + b)[j] == b[j - |a|];
        assert (a + b)[j] in b;
      }
    }
  }

  /** The clusters of the entries a list of named speakers holds. */
  lemma ClusterIdsMembers(named: seq<NamedSpeaker>)
    ensures forall c :: c in ClusterIds(named) <==> c in ClusterSet(named)
  {
    forall c | c in ClusterSet(named) ensures c in ClusterIds(named) {
      var ns :| ns in named && ns.speakerClusterId == c;
      var i :| 0 <= i < |named| && named[i] == ns;
      assert ClusterIds(named)[i] == c;
    }
  }

  /** The named clusters followed by the sorted missing ones cover every
      fused cluster exactly once, and no other cluster. */
  lemma FallbacksCover(claimed: seq<NamedSpeaker>, missing: seq<string>, fused: seq<SpeakerSegment>,
                       named: seq<NamedSpeaker>)
    requires Distinct(ClusterIds(claimed))
    requires forall ns :: ns in claimed ==> ns.speakerClusterId in FusedClusters(fused)
    requires forall ns :: ns in claimed ==> ns.faceId == FirstFace(fused, ns.speakerClusterId)
    requires LexSorted(missing)
    requires forall x :: x in missing <==> x in FusedClusters(fused) - ClusterSet(claimed)
    requires named == claimed + Fallbacks(missing, |claimed|, fused)
    ensures Distinct(ClusterIds(named))
    ensures forall ns :: ns in named ==> ns.speakerClusterId in FusedClusters(fused)
    ensures forall s :: s in fused ==> s.speakerClusterId in ClusterIds(named)
    ensures forall ns :: ns in named ==> ns.faceId == FirstFace(fused, ns.speakerClusterId)
  {
    FallbacksShape(claimed, missing, fused, named);
    ClusterIdsMembers(claimed);
    LexSortedDistinct(missing);
    DistinctConcat(ClusterIds(claimed), missing);
    forall i | 0 <= i < |named|
      ensures named[i].speakerClusterId in FusedClusters(fused)
      ensures named[i].faceId == FirstFace(fused, named[i].speakerClusterId)
    {
      if i < |claimed| {
        assert named[i] == claimed[i] && claimed[i] in claimed;
      } else {
        var j := i - |claimed|;
        assert named[i] == Fallbacks(missing, |claimed|, fused)[j];
        assert named[i].speakerClusterId == missing[j] && missing[j] in missing;
      }
    }
    forall s | s in fused ensures s.speakerClusterId in ClusterIds(named) {
      assert s.speakerClusterId in FusedClusters(fused);
    }
  }

  /** The speaker mapping of the extracted names has an entry for every
      fused cluster. */
  lemma MappingCoversClusters(named: seq<NamedSpeaker>, fused: seq<SpeakerSegment>)
    requires forall s :: s in fused ==> s.speakerClusterId in ClusterIds(named)
    ensures forall s :: s in fused ==> s.speakerClusterId in SpeakerMapping(named)
  {
    SpeakerMappingKeys(named);
  }

  /** Fallback labels never repeat. */
  lemma FallbackLabelsDistinct(named: seq<NamedSpeaker>, k: nat)
    requires k <= |named|
    requires FallbackLabelled(named, k)
    ensures forall i, j :: k <= i < j < |named| ==> named[i].name != named[j].name
  {
    forall i, j | k <= i < j < |named| ensures named[i].name != named[j].name {
      if named[i].name == named[j].name {
        FallbackLabelInjective(2 * i - k + 1, 2 * j - k + 1);
      }
    }
  }
}
