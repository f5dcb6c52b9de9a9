# Teams recording subtitle generator: a verified model of the speaker-attribution core

The Python program turns a meeting recording into a subtitled video whose
captions name the speaker. This project models its deterministic core in Dafny.

- **Face tracker.** The IoU face tracker of `VideoProcessor` is a class that holds
  the `face_tracks` map, the `next_face_id` counter and the `face_history` lists.
  The model also covers face boxes and their IoU, the minimum-size filter, the
  lip-score normalisation and the per-face statistics.
- **Audio-visual fusion.** Diarization segments are matched with the frames
  around them. The model covers how the speaking face is picked and gated, the
  speaker-to-face mapping and the fusion statistics.
- **Speaker naming.** The model covers the introduction window, name validation,
  candidates (with the regular expressions as an abstract matcher), and how
  names are assigned to clusters (first claim wins). It also covers the fallback
  "Speaker N" names and the final mapping.
- **Audio.** The model covers the diarization turn filter and the per-speaker
  statistics.
- **Transcripts.** The model covers the WebVTT time stamp, the "Speaker: text"
  split, the JSON item defaults and format dispatch by suffix.
- **SubRip files.** The REST server formats SubRip time stamps and reads them
  back. The model covers `_parse_srt` and `_regenerate_srt` of the REST server,
  the speaker rename, and the upload extension check.
- **Flask viewer.** The model covers its subtitle reader, its speaker count and
  its video list.
- **Visualizer.** The model covers the caption and word wrap, the box colour,
  both timelines, and the lookup of what to show at a time.
- **Configuration and LLM.** The model covers the nested configuration lookup
  with its memoised global instance, and which LLM client a provider gets.

Each mutating loop of the source is a `method` with a loop. It is proved against a
pure specification function, and the properties the program promises are lemmas
about those functions. The modules are:

- `base.dfy`: `Option`, `Result` and the Python exception kinds.
- `text.dfy`: the `str` operations the core uses.
- `json.dfy`: decoded JSON and YAML values.
- `paths.dfy`: `PurePosixPath.name/suffix/stem`, with empty and "." components dropped as pathlib does.
- `sorting.dfy`: the stable `sorted`.
- `tally.dfy`: filters and dict tallies.
- `video.dfy`, `fusion.dfy`, `naming.dfy`, `audio.dfy`, `transcript.dfy`,
  `srt.dfy`, `api.dfy`, `web_ui.dfy`, `visualizer.dfy`, `config.dfy`, `llm.dfy`:
  one per source file, or per shared format in the case of `srt.dfy`.

Times and scores are exact `real`s and boxes are `int`s.

A fallback speaker is labelled `"Speaker {idx + len(named_speakers) + 1}"`. The
list grows inside that loop, so after k named speakers the fallback labels run
k+1, k+3, k+5, … The model keeps these labels as the code computes them
(`Naming.FallbacksShape`). They are still distinct (`Naming.FallbackLabelsDistinct`),
so nothing downstream depends on them being consecutive.

## Model

| member | source | states |
|---|---|---|
| Base.TraverseSpec | src/api.py:499-507 | a loop that converts each item succeeds exactly when every item converts, keeps the order, and otherwise raises the first item's error |
| Base.TraverseErrExtends | src/api.py:499-507 | once an item of a prefix fails, the whole loop fails with that error |
| Json.Get | src/api.py:500-503 | `d.get(key, default)` is the stored value when the key is present, the default otherwise |
| Json.Iterated | src/api.py:249-256 | `for item in v` meets a list's items, nothing for an empty dict or string, and raises for other values |
| Json.DictItems | src/api.py:249-256 | iterating items that must be dicts succeeds exactly on lists of dicts, item for item |
| Text.Lower | src/api.py:51 | `str.lower` keeps the length and lowers each character |
| Text.LowerIdempotent | src/audio/transcript.py:281 | lowering twice is lowering once |
| Text.StripEmptyIffBlank | src/api.py:460 | `s.strip()` is empty exactly when `s` is all whitespace, which is the blank-line test of the .srt readers |
| Text.IndexOf | src/api.py:467-468 | `s.find(sub)` returns the first occurrence, or none when `sub` never occurs |
| Text.FindChar | src/audio/transcript.py:125 | the first position of a character, and none exactly when it is absent |
| Text.SplitOn | src/api.py:454 | `s.split(sep)` always yields at least one part |
| Text.JoinSplit | src/api.py:454 | splitting and re-joining on the same separator gives the text back |
| Text.JoinSnoc | src/api.py:510 | joining one more line appends the separator and the line |
| Text.SplitAfterPrefix | src/api.py:468 | splitting `a + sep + b` where `sep` cannot start inside `a` cuts right after `a` |
| Text.ReplaceChar | src/api.py:489 | `s.replace(a, b)` on characters keeps the length and swaps only `a` |
| Text.NatToStringValue | src/video/processor.py:291 | `str(n)` is the decimal digits of `n` |
| Text.NatToStringInjective | src/video/processor.py:291 | distinct numbers print differently |
| Text.ZeroPadValue | src/api.py:519 | `f"{n:0Wd}"` prints digits of value `n` |
| Text.ParseIntZeroPad | src/api.py:490 | `int()` reads back a zero-padded number |
| Text.ParseIntDigits | src/audio/transcript.py:259-260 | `int()` of a non-empty digit string is its value |
| Text.ParseFloatDecimal | src/audio/transcript.py:261 | `float()` of "ip.fp" is the integer part plus the fraction |
| Text.FractionValue | src/api.py:490 | the digits after a point are worth between 0 and 1 |
| Text.LexIrreflexive | src/naming/extractor.py:87 | string `<` is irreflexive, as `sorted` needs |
| Text.LexTransitive | src/naming/extractor.py:87 | string `<` is transitive |
| Text.LexTotal | src/naming/extractor.py:87 | distinct strings are ordered one way or the other |
| Paths.RFind | src/api.py:51 | the last position of a character, none exactly when absent |
| Paths.Name | src/api.py:51 | the name is the last component left once empty and "." components are dropped: it holds no '/' and is never "." |
| Paths.NameTrailing | src/api.py:51 | a trailing '/' or "/." does not change the name |
| Paths.Suffix | src/api.py:51 | a suffix is empty or a '.' followed by at least one character, with no further '.' or '/' |
| Paths.Stem | src/api.py:58 | the stem followed by the suffix is the name |
| Paths.NameOfJoin | src/api.py:60 | the name of `dir/n` is `n` for a component `n` |
| Paths.SuffixOfName | src/audio/transcript.py:281 | `dir/stem.e` has suffix `.e` |
| Paths.SuffixOfStored | src/api.py:59-60 | a file stored as `dir/(stem + ext)` has suffix `ext` |
| Paths.NoDotNoSuffix | src/api.py:51 | a name without '.' has no suffix |
| Sorting.SortBySortedPermutation | src/web_ui.py:650-652 | `sorted` returns an ordered permutation of its input |
| Sorting.SortByStable | src/web_ui.py:650-652 | elements with equal keys keep their input order |
| Sorting.InsertSorted | src/web_ui.py:650-652 | inserting into a sorted list keeps it sorted and adds exactly that element |
| Sorting.MapSeq | src/visualizer.py:313-316 | a comprehension keeps the length and maps each element |
| Sorting.SortByMap | src/visualizer.py:313-316 | mapping a sorted list by a key-preserving function is sorting the mapped list |
| Tally.FilterMembers | src/fusion/processor.py:256 | a filtering comprehension keeps exactly the elements that pass |
| Tally.FilterAppend | src/fusion/processor.py:256 | filtering distributes over concatenation, so order is kept |
| Tally.KeysSpec | src/audio/processor.py:195-201 | the keys a dict collects are distinct and are exactly the keys of the elements |
| Tally.TallySnoc | src/audio/processor.py:196-204 | one more element changes only its own key's count and total |
| Tally.CountPositive | src/audio/processor.py:207-210 | a key has positive count exactly when present, so no average divides by zero |
| Tally.CountsSum | src/audio/processor.py:203-204 | the counts of all keys add up to the number of elements |
| Tally.KeysCount | src/fusion/processor.py:257-258 | `len(set(...))` is the number of dict keys and at most the list length |
| Tally.ArgMaxSpec | src/fusion/processor.py:237 | `max` picks a present key that no key outweighs, and the first such |
| Tally.BestAboveSpec | src/fusion/processor.py:194-201 | the strict running maximum keeps nothing when no key beats the floor, else the first heaviest key and its weight |
| Tally.BestKeySpec | src/fusion/processor.py:194-201 | the same, stated over the elements of the list: the kept key beats the floor, belongs to an element, no element outweighs it, and it occurs at or before every element of equal weight |
| Tally.ArgMaxKeySpec | src/fusion/processor.py:237 | `max` over a non-empty dict gives the key of an element that no element's key outweighs |
| Tally.KeysOrigin | src/fusion/processor.py:231 | every dict key is some element's key |
| Video.CenterInside | src/video/processor.py:26-37 | the centre of a box with non-negative sides lies in the box, and the area is non-negative |
| Video.IouDisjoint | src/video/processor.py:394-400 | disjoint or edge-touching boxes have IoU 0 |
| Video.IouBounds | src/video/processor.py:390-412 | IoU of boxes with non-negative sides is in [0, 1] |
| Video.IouSymmetric | src/video/processor.py:390-412 | IoU does not depend on argument order |
| Video.IouSelf | src/video/processor.py:390-412 | a non-empty box has IoU 1 with itself |
| Video.Detected | src/video/processor.py:219-239 | at most one face per raw detection, each with the id "temp", lip score 0 and both sides at least `int(h * min_face_size)` |
| Video.DetectedKeeps | src/video/processor.py:219-239 | the faces are the kept detections one for one and in order, each with its own truncated pixel box and its own score |
| Video.KeptDetectionsMembers | src/video/processor.py:219-231 | a detection is kept exactly when both sides of its pixel box reach `int(h * min_face_size)` |
| Video.KeptDetectionsAppend | src/video/processor.py:224-239 | the filter keeps the order of the detections |
| Video.FaceIdInjective | src/video/processor.py:291 | `face_N` ids of distinct counters differ |
| Video.FaceIdsDistinct | src/video/processor.py:291 | ids are never reused |
| Video.EmptyState | src/video/processor.py:90-92 | the initial tracker state satisfies the tracker invariant |
| Video.ActiveIds | src/video/processor.py:254-258 | the active tracks are exactly the tracks last seen less than a second ago |
| Video.ActiveIdsFilter | src/video/processor.py:254-258 | the active ids are the comprehension over the ids in creation order that keeps the tracks last seen less than a second ago, so they keep that order |
| Video.Scan | src/video/processor.py:266-277 | the inner scan returns only an unmatched candidate when it changes the best |
| Video.ScanWinner | src/video/processor.py:266-277 | the scan returns the first open candidate of maximal IoU when it strictly beats the threshold, else nothing |
| Video.BestMatch | src/video/processor.py:266-277 | a match is an active, unmatched track |
| Video.BestMatchSpec | src/video/processor.py:266-277 | no match exactly when no unmatched active track has IoU above 0.3; else the first track of maximal IoU |
| Video.AssignFace | src/video/processor.py:278-303 | one detection only adds tracks and advances the counter, and its id is a track |
| Video.AssignFaceSpec | src/video/processor.py:278-299 | a detection either reuses its best open track or gets the new track `next_face_id` with first = last = t and count 1 |
| Video.TrackAll | src/video/processor.py:265-305 | one id per detection, each naming a track |
| Video.ActiveAt | src/video/processor.py:255-259 | the active ids of a state are tracks |
| Video.TaggedFaces | src/video/processor.py:280-303 | the returned faces are the detections in order, each with its assigned id |
| Video.TrackAllWellFormed | src/video/processor.py:265-305 | tracking keeps the invariant that the tracks are exactly `face_0 .. face_{next-1}` |
| Video.TrackAllKinds | src/video/processor.py:278-299 | each assigned track is an active track or one created in this frame |
| Video.TrackAllDistinct | src/video/processor.py:269-288 | within a frame no two detections get the same track |
| Video.TrackAllUntouched | src/video/processor.py:280-288 | a track no detection receives is unchanged |
| Video.TrackAllHistoryUntouched | src/video/processor.py:302 | the history of an id no detection receives is unchanged |
| Video.TrackAllUpdated | src/video/processor.py:280-299 | a reused track gets the new box, `last_seen := t` and `count + 1` with `first_seen` kept; a new one starts at t with count 1 |
| Video.TrackFrameSpec | src/video/processor.py:243-305 | one frame keeps the invariant; every detection gets a track, no two the same; a reused track was active; the new tracks are exactly those numbered from the old counter on |
| Video.TrackFrameTracks | src/video/processor.py:280-302 | how one frame changes tracks and history: reused tracks updated, new tracks created, each id's history grows by its faces |
| Video.Window | src/video/processor.py:357-359 | `hist[-w:]` is the suffix of `min(w, len)` items, and the whole list for w = 0 |
| Video.LipScoreNonNegative | src/video/processor.py:363-372 | the normalised lip score is never negative |
| Video.RecentScoresZero | src/video/processor.py:355-361 | a history of zero scores yields only zero scores |
| Video.LipScoreOfZeroHistory | src/video/processor.py:363-372 | whatever the lip distance, a history of zero scores gives score 0 |
| Video.TrackFramePreservesZeroScores | src/video/processor.py:302 | tracking faces whose score is 0 keeps every stored score 0 |
| Video.ScoredFaceZero | src/video/processor.py:333-372 | with every stored score 0 every face of the frame ends with score 0 |
| Video.WindowScoresZero | src/video/processor.py:355-361 | the windowed history of a zero-score history scores 0 |
| Video.FaceStatistics | src/video/processor.py:421-430 | one statistics entry per track, under its `face_N` id, and no other |
| Video.FaceStatisticsEntry | src/video/processor.py:424-430 | the entry of track N has its first/last sighting, duration = last − first and frame_count = count |
| Video.TrackFrameKeepsStatistics | src/video/processor.py:280-299 | with frames in time order every track's first sighting stays at or before its last, so durations are non-negative and counts positive |
| Video.FaceTracker.constructor | src/video/processor.py:61-92 | the tracker starts empty with the configured size filter and lip window |
| Video.FaceTracker.DetectFaces | src/video/processor.py:215-241 | the size-filter loop returns the specified detections |
| Video.FaceTracker.FindBestMatch | src/video/processor.py:266-277 | the inner loop returns the specified best match |
| Video.FaceTracker.AssignTrack | src/video/processor.py:278-303 | the loop body updates the state as specified and returns the tagged face |
| Video.FaceTracker.TrackFaces | src/video/processor.py:243-305 | `_track_faces` leaves the specified state, keeps the invariant and returns the tagged detections in order |
| Video.FaceTracker.DetectLipMovement | src/video/processor.py:321-374 | each face gets the specified score; faces past the landmark count keep theirs |
| Video.FaceTracker.ProcessFrame | src/video/processor.py:155-176 | one sampled frame keeps the invariant; the new tracker state is the tracking step over the detected faces, and the frame's faces are those faces tagged with the ids that step assigns, one per kept detection, every lip score 0 |
| Fusion.OverlappingSpec | src/fusion/processor.py:134-143 | the kept frames are exactly those with start − tol ≤ t ≤ end + tol, in input order |
| Fusion.ObservationsFrom | src/fusion/processor.py:164-173 | every observed face comes from one of the frames |
| Fusion.SpeakingFaceSpec | src/fusion/processor.py:157-210 | the result keeps `SpeakingChoice` over the frames' faces: confidence is `min(1, best / 3)` (best mean, or 0), kept below the threshold; a face is returned exactly when some mean is positive and the confidence reaches the threshold; (None, 0) with no faces; the face was seen in a frame, has the largest mean and is the first seen among equals |
| Fusion.SpeakingOfSpec | src/fusion/processor.py:190-210 | the same promises over a list of observed faces |
| Fusion.BestMean | src/fusion/processor.py:193-201 | the running maximum of the means: 0 and no face when no mean is positive; otherwise an observed face of largest, positive mean, first seen among equals |
| Fusion.ConfidenceOfBest | src/fusion/processor.py:204 | `min(1, best / 3)` lies in [0, 1] and is the largest `min(1, mean / 3)` of the faces |
| Fusion.SpeakingFaceNoFaceWhenEmpty | src/fusion/processor.py:190-191 | frames without faces give (None, 0.0) |
| Fusion.FuseOneSpec | src/fusion/processor.py:76-110 | a fused segment copies speaker, times and diarization confidence; its face and alignment keep `SpeakingChoice` over the nearby frames, so alignment lies in [0, 1]; face_detection is 1 exactly when a face is kept; no nearby frame gives no face and zero scores; a kept face was seen in the window |
| Fusion.SupportNonEmpty | src/fusion/processor.py:235-237 | a mapped cluster has at least one face |
| Fusion.MappingDomain | src/fusion/processor.py:227-238 | the mapping's clusters are exactly those with a face-bearing segment |
| Fusion.SpeakerFaceMappingSpec | src/fusion/processor.py:227-238 | each mapped cluster maps to one of its faces whose accumulated weight (alignment × duration) no other face of the cluster beats |
| Fusion.MappedFaceSpec | src/fusion/processor.py:235-238 | the face chosen for one cluster is seen with it and has maximal weight |
| Fusion.StatisticsCounts | src/fusion/processor.py:254-258 | total = length; with-face ≤ total; distinct speakers ≤ total and ≥ 1 for a non-empty list; distinct faces ≤ with-face |
| Fusion.StatisticsAlignment | src/fusion/processor.py:263-265 | the mean alignment of scores in [0, 1] is in [0, 1] |
| Fusion.NoFacesTallied | src/fusion/processor.py:190 | the score dict is empty exactly when no face was seen |
| Fusion.AudioVisualFusion.constructor | src/fusion/processor.py:45-50 | the tolerance and thresholds are the configured ones |
| Fusion.AudioVisualFusion.GetOverlappingFrames | src/fusion/processor.py:132-143 | the loop returns the specified window |
| Fusion.AudioVisualFusion.ScoreFace | src/fusion/processor.py:174-185 | an observation scores lip·2 (only when positive) + area/10⁶·0.5 + confidence·0.5 |
| Fusion.AudioVisualFusion.AddFace | src/fusion/processor.py:187-188 | adding one face keeps the tally of the faces seen |
| Fusion.AudioVisualFusion.AddFaces | src/fusion/processor.py:173-188 | the inner loop tallies a frame's faces |
| Fusion.AudioVisualFusion.TallyFrames | src/fusion/processor.py:164-188 | the accumulation loop tallies exactly the observations of the frames |
| Fusion.AudioVisualFusion.SelectBest | src/fusion/processor.py:194-201 | the selection loop returns the strict running maximum of the mean scores |
| Fusion.AudioVisualFusion.IdentifySpeakingFace | src/fusion/processor.py:145-210 | `_identify_speaking_face` returns the specified face and confidence |
| Fusion.AudioVisualFusion.Fuse | src/fusion/processor.py:74-117 | one fused segment per diarization segment, in order, each the specified one |
| Naming.InWordsMembers | src/naming/extractor.py:198-217 | stoplist membership by walking the list is `in` |
| Naming.Cut | src/naming/extractor.py:127-128 | the window ends at the first segment starting after `max_intro_time` |
| Naming.IntrosFilter | src/naming/extractor.py:125-137 | the introductions are the window's segments long enough and mentioning a lowercased pattern, in order |
| Naming.ValidNameCases | src/naming/extractor.py:190-219 | a name is valid exactly when it has 2–50 characters, starts upper-case and is not in the stoplist |
| Naming.MatchCandidatesSpec | src/naming/extractor.py:166-172 | at most one candidate per match, each a valid name with confidence 0.8 read from that text |
| Naming.SegmentCandidatesSpec | src/naming/extractor.py:164-172 | every candidate of one introduction is read from its text |
| Naming.CandidatesSpec | src/naming/extractor.py:163-177 | every candidate is a valid name with confidence 0.8 from one of the introductions |
| Naming.FindSpeakerSpec | src/naming/extractor.py:293-308 | no cluster exactly when nothing overlaps; else the cluster of the first overlapping segment of maximal overlap |
| Naming.FindSpeakerFused | src/naming/extractor.py:293-308 | the cluster found is a fused cluster |
| Naming.FirstContaining | src/naming/extractor.py:246-249 | the first introduction containing the text, none exactly when none does |
| Naming.FirstFace | src/naming/extractor.py:259-263 | the face of the first segment of the cluster that has one, none exactly when none does |
| Naming.AssignedDistinct | src/naming/extractor.py:257-273 | no cluster is named twice |
| Naming.AssignedComplete | src/naming/extractor.py:243-273 | every cluster some candidate claims is named |
| Naming.AssignedFirstClaim | src/naming/extractor.py:257-273 | each named speaker comes from the first candidate claiming its cluster |
| Naming.AssignedFused | src/naming/extractor.py:255-263 | named clusters are fused clusters and carry their first face |
| Naming.LeastExists | src/naming/extractor.py:87 | a non-empty set of ids has one least element |
| Naming.SortedIds | src/naming/extractor.py:87 | `sorted(set)` holds the set's members in ascending order |
| Naming.LexSortedDistinct | src/naming/extractor.py:87 | an ascending list has no repeats |
| Naming.SpeakerMappingKeys | src/naming/extractor.py:322 | the mapping's keys are exactly the named clusters |
| Naming.SpeakerMappingNames | src/naming/extractor.py:322 | with distinct clusters each maps to its own entry's name |
| Naming.Fallbacks | src/naming/extractor.py:87-102 | one fallback entry per missing cluster |
| Naming.FallbacksShape | src/naming/extractor.py:87-102 | fallbacks keep the named prefix, append the missing clusters in order, labelled "Speaker 2i − k + 1" with confidence 0 |
| Naming.FallbacksCover | src/naming/extractor.py:83-102 | named plus fallback clusters cover every fused cluster exactly once and no other, each with its first face |
| Naming.MappingCoversClusters | src/naming/extractor.py:322 | the speaker mapping has an entry for every fused cluster |
| Naming.FallbackLabelsDistinct | src/naming/extractor.py:98 | fallback labels never repeat |
| Naming.FallbackLabelInjective | src/naming/extractor.py:98 | distinct numbers give distinct "Speaker N" labels |
| Naming.SpeakerNamer.constructor | src/naming/extractor.py:40-46 | each intro setting is the configured one or its default (300, 2.0, the six patterns) |
| Naming.SpeakerNamer.ExtractIntroSegments | src/naming/extractor.py:123-140 | the loop returns the specified introductions |
| Naming.SpeakerNamer.ParseNamesFromIntros | src/naming/extractor.py:154-177 | the loops return the specified candidates |
| Naming.SpeakerNamer.SegmentNames | src/naming/extractor.py:164-172 | the pattern loop for one introduction returns its candidates |
| Naming.SpeakerNamer.ValidMatches | src/naming/extractor.py:166-172 | the match loop keeps the valid names |
| Naming.SpeakerNamer.FindIntro | src/naming/extractor.py:245-249 | the search loop finds the first introduction containing the text |
| Naming.SpeakerNamer.FindFace | src/naming/extractor.py:259-263 | the search loop finds the cluster's first face |
| Naming.SpeakerNamer.MapNamesToClusters | src/naming/extractor.py:240-275 | the loop returns the first-claim assignment |
| Naming.SpeakerNamer.AddFallbacks | src/naming/extractor.py:87-102 | the loop appends the specified fallback entries |
| Naming.SpeakerNamer.ExtractNames | src/naming/extractor.py:54-109 | pattern names first, then sorted fallbacks; every fused cluster named exactly once and no other; each with its first face |
| Audio.ToSegment | src/audio/processor.py:163-168 | a turn's segment keeps speaker and times with confidence 1.0 |
| Audio.ConvertTurns | src/audio/processor.py:159-169 | the conversion loop returns the specified segments |
| Audio.ConvertedSpec | src/audio/processor.py:160-169 | every segment comes from a turn at least `min_segment_duration` long with confidence 1.0, and every such turn yields one |
| Audio.ConvertedAppend | src/audio/processor.py:160-169 | the conversion keeps turn order |
| Audio.AccumulateSpeakers | src/audio/processor.py:193-204 | the first loop creates one entry per speaker, in order of first sight, with its total and count |
| Audio.AddAverages | src/audio/processor.py:207-210 | the second loop writes each speaker's average |
| Audio.GetSpeakerStatistics | src/audio/processor.py:180-212 | keys are exactly the speakers of the segments, each entry the speaker's statistics with count ≥ 1 |
| Audio.AveragedEntry | src/audio/processor.py:207-210 | a tallied entry plus its average is the speaker's statistics |
| Audio.StatisticsCountAll | src/audio/processor.py:203-204 | the counts add up to the number of segments |
| Audio.StatisticsKeys | src/audio/processor.py:195-204 | every segment's speaker has an entry, and every entry has a segment |
| Transcript.ParseVttTimestamp | src/audio/transcript.py:253-268 | only two or three ':' fields are accepted; every failure is ValueError |
| Transcript.FieldsSeconds | src/audio/transcript.py:255-268 | the value of the fields, ValueError for any other count |
| Transcript.TimestampFields | src/audio/transcript.py:253 | the time stamp is its fields' value |
| Transcript.VttHoursMinutesSeconds | src/audio/transcript.py:255-262 | "HH:MM:SS" reads as h·3600 + m·60 + s |
| Transcript.VttMinutesSeconds | src/audio/transcript.py:263-266 | "MM:SS" reads as m·60 + s |
| Transcript.VttBadField | src/audio/transcript.py:259-260 | a non-integer hour or minute raises ValueError |
| Transcript.VttSecondsField | src/audio/transcript.py:261 | "SS.mmm" reads as its decimal value |
| Transcript.VttNoColonRejected | src/audio/transcript.py:267-268 | a stamp without ':' raises ValueError |
| Transcript.SpeakerSplitSpec | src/audio/transcript.py:122-128 | a speaker is found exactly when the caption has a colon not at its start; otherwise the text is the caption with newlines as spaces |
| Transcript.SpeakerSplitAt | src/audio/transcript.py:125-128 | the split is at the first colon |
| Transcript.SpeakerSplitCompose | src/audio/transcript.py:125-128 | "speaker: text" reads back as that speaker and text |
| Transcript.ParseSrt | src/audio/transcript.py:106-135 | one segment per subtitle, in order, with times in seconds and the speaker split |
| Transcript.VttSegment | src/audio/transcript.py:162-179 | a caption's segment carries the split text and speaker, or ValueError |
| Transcript.VttSegmentsSpec | src/audio/transcript.py:160-179 | one segment per caption in order, ValueError as soon as a stamp is malformed |
| Transcript.ParseVtt | src/audio/transcript.py:158-182 | the loop returns the specified segments |
| Transcript.JsonSegmentDefaults | src/audio/transcript.py:228-233 | a text-only item gets start 0, end 0 and no speaker |
| Transcript.JsonItems | src/audio/transcript.py:220-225 | `data["segments"]` when present, a bare list as is, ValueError otherwise |
| Transcript.ParseJson | src/audio/transcript.py:217-236 | the loop returns the specified segments |
| Transcript.ParseJsonSegmentsList | src/audio/transcript.py:220-233 | `{"segments": [...]}` yields one segment per item, in order |
| Transcript.FormatOf | src/audio/transcript.py:281-290 | an unknown suffix raises ValueError |
| Transcript.FormatOfSpec | src/audio/transcript.py:281-290 | a transcript is accepted exactly when its lowercased suffix is .srt, .vtt or .json |
| Transcript.FormatOfSrt | src/audio/transcript.py:281-284 | `stem.SRT` in any case is read as SubRip |
| SubRip.MillisFields | src/api.py:515-518 | hours, minutes < 60, seconds < 60 and ms < 1000 add back up to the time |
| SubRip.FormatMillis | src/api.py:513-519 | printing a whole number of milliseconds prints those fields |
| SubRip.ThreeDigits | src/api.py:519 | a number below 1000 prints in exactly three digits |
| SubRip.ClockTextValue | src/api.py:489-490 | "HH:MM:SS,mmm" reads back as h·3600 + m·60 + s + ms/1000 |
| SubRip.SrtTimeRoundTrip | src/api.py:486-519 | a whole non-negative number of milliseconds printed by `_format_srt_time` reads back exactly |
| SubRip.SrtTimeNoColon | src/api.py:491-492 | text without ':' gives 0.0 |
| SubRip.SrtTimeBadHours | src/api.py:490-492 | an hours field `int()` rejects gives 0.0 |
| SubRip.FormatShape | src/api.py:519 | printed stamps hold no space and start and end with a digit |
| SubRip.TextEnd | src/api.py:459-462 | the text lines end at the first blank line at or after j, or the end |
| SubRip.Next | src/api.py:449-482 | reading always moves forward: past the block's text or to the next line |
| SubRip.TextLines | src/api.py:458-462 | the inner loop collects the stripped lines up to the first blank one |
| SubRip.CuesNonBlank | src/api.py:463 | every block read has a non-empty text |
| SubRip.TextLinesNonBlank | src/api.py:460-461 | a block's text lines are the non-blank stripped lines after its timing line |
| SubRip.SrtLines | src/api.py:499-507 | four lines per cue, numbered on |
| SubRip.HeaderOf | src/api.py:451-457 | an index line and a timing line of two printed times open a block with those times |
| SubRip.BlockTrimmed | src/api.py:504-507 | the lines of a writable block are unchanged by `strip()` |
| SubRip.ReadBlock | src/api.py:449-482 | a written block, wherever it stands, reads back as its cue and reading resumes at the next block |
| SubRip.ReadBlocks | src/api.py:449-482 | lines made of written blocks read back as their cues |
| SubRip.SrtRoundTrip | src/api.py:442-519 | reading the lines written for writable cues gives exactly those cues in order |
| SubRip.PrintedTime | src/api.py:486-519 | a printed whole-millisecond time reads back as itself |
| SubRip.PrintedReadsBack | src/api.py:500-506 | a readable segment's block is writable and its times read back |
| Api.CaptionSplitSpec | src/api.py:465-470 | no ": " keeps the whole text with speaker ""; else the cut is at a ": " absent from the speaker |
| Api.CaptionLineSplit | src/api.py:467-470 | the caption `_regenerate_srt` writes splits back into its speaker and text when the speaker holds no ':' |
| Api.Entries | src/api.py:471-479 | one record per block, in order |
| Api.ParseAt | src/api.py:450-482 | the loop body yields the record of the block line i opens, if any, and a later line to go on at |
| Api.ParseSrt | src/api.py:442-483 | `_parse_srt` returns the records of the blocks of the file, in order |
| Api.EntriesConcat | src/api.py:471-479 | records of concatenated blocks concatenate |
| Api.SegmentDefaults | src/api.py:500-503 | a segment with only a text gets start 0, end 0 and speaker "Unknown" |
| Api.PrintedAll | src/api.py:499-507 | one block per segment |
| Api.AppendBlock | src/api.py:504-507 | a segment adds its number, its timing, "speaker: text" and a blank line |
| Api.PrintedAllSnoc | src/api.py:499-507 | one more segment appends its block |
| Api.RegenerateStep | src/api.py:499-507 | one more segment read and written |
| Api.RegenerateFails | src/api.py:499-503 | a failing segment fails the whole regeneration |
| Api.RegenerateSrt | src/api.py:495-510 | the loop produces the specified file lines, or the first segment's error |
| Api.EntryOfPrinted | src/api.py:449-507 | a readable segment whose speaker has no ':' reads back as itself |
| Api.RegenerateParse | src/api.py:442-510 | `_parse_srt` reads the lines `_regenerate_srt` writes back as the segments |
| Api.RegeneratedReadsBack | src/api.py:442-510 | a labelled document's regenerated file reads back as its segments |
| Api.Replaced | src/api.py:249-256 | putting a renamed list back changes only that key |
| Api.RenamedDocument | src/api.py:248-256 | the rename keeps the document's keys and leaves all keys but "speakers" and "segments" unchanged |
| Api.RenameSpeaker | src/api.py:236-262 | a falsy name is refused with 400 before the document is read; a missing document gives 404; success stores the renamed document and regenerates from it |
| Api.RenameEntries | src/api.py:249-256 | the rename loop produces the specified list |
| Api.RenameSpeakerHandler | src/api.py:233-264 | the handler returns the specified outcome |
| Api.RenamedListSpec | src/api.py:249-256 | a list is renamed exactly when all items are dicts; the speaker's entries get the name, others are unchanged |
| Api.RenamedListIdempotent | src/api.py:249-256 | renaming again changes nothing more |
| Api.RenamedDocumentIdempotent | src/api.py:248-256 | renaming a document twice is renaming once |
| Api.RenameIdempotent | src/api.py:233-264 | a repeated request leaves the document and the subtitles as the first left them |
| Api.RenamedEntry | src/api.py:255-256 | a renamed segment is written under the new name |
| Api.RenamedSegmentsNamed | src/api.py:254-262 | after a rename every segment of the speaker is written with the new name, the others keep theirs |
| Api.UploadCheck | src/api.py:48-59 | accepted exactly when the name is non-empty and its lowercased suffix is allowed; refusals are 400; the stored name is the id plus that suffix |
| Api.UploadTrailingSlash | src/api.py:51-59 | a trailing '/' on the client's name ("clip.mp4/") changes nothing |
| Api.UploadKeepsExtension | src/api.py:51-60 | the stored file's suffix is the lowercased suffix of the client's name |
| Api.UploadByExtension | src/api.py:51-56 | "stem.e" is accepted exactly when ".e" lowercased is one of the six extensions |
| WebUi.Rows | src/web_ui.py:717-723 | one row per block, with the block's times and text |
| WebUi.ReadAt | src/web_ui.py:697-728 | the loop body yields the row of the block line i opens, if any, and a later line |
| WebUi.GetSubtitles | src/web_ui.py:683-734 | nothing for a missing file, else the rows of the blocks in file order |
| WebUi.ShowsRegenerated | src/web_ui.py:699-723 | a regenerated file is shown as its segments, captioned "speaker: text" |
| WebUi.HashKey | src/web_ui.py:665-667 | True and 1, False and 0 are one set element; lists and dicts raise TypeError |
| WebUi.SpeakerSet | src/web_ui.py:665-667 | no more speakers than segments, and none exactly when there are no segments |
| WebUi.SpeakerSetOk | src/web_ui.py:665-667 | the set exists exactly when no speaker is a list or dict |
| WebUi.SpeakerSetHolds | src/web_ui.py:665-667 | every segment's speaker, "Unknown" when missing, is in the set |
| WebUi.SpeakerSetFrom | src/web_ui.py:665-667 | every member of the set is some segment's speaker |
| WebUi.GetMetadata | src/web_ui.py:654-681 | 404 for a missing file; speaker_count is the number of distinct speakers, at most segment_count, zero exactly when there are no segments |
| WebUi.AllUnknown | src/web_ui.py:665-667 | segments that name no speaker count as one, "Unknown" |
| WebUi.ListedIdAsWrittenLosesId | src/web_ui.py:643 | the video "a_labeled" is listed under the id "a" |
| WebUi.ListedIdRoundTrip | src/web_ui.py:642-643 | with only the trailing "_labeled" removed, the listed id names its file back |
| WebUi.Listed | src/web_ui.py:641-648 | one entry per labelled file, in directory order, under the corrected id of "## Findings" (only the trailing "_labeled" removed), not the replace-all as written |
| WebUi.ListVideosOrder | src/web_ui.py:650-652 | newest first, one entry per file, equal times in directory order (the entries carry the corrected id of "## Findings") |
| Visualizer.BoxColour | src/visualizer.py:192-197 | high colour exactly from 0.8, medium exactly in [0.6, 0.8), low exactly below 0.6 |
| Visualizer.BoxColourMonotone | src/visualizer.py:192-197 | a more confident face never gets a worse colour |
| Visualizer.Caption | src/visualizer.py:241-248 | the caption is empty exactly when speaker and text are |
| Visualizer.CaptionSplitsBack | src/visualizer.py:241-242 | "speaker: text" splits back into its parts as the .srt reader does |
| Visualizer.Wrap | src/visualizer.py:255-260 | at most one line per word, none exactly when there are no words |
| Visualizer.WrapLines | src/visualizer.py:254-260 | the wrap loop returns the specified lines |
| Visualizer.WrapJoin | src/visualizer.py:255-260 | the lines joined by spaces are the words joined by spaces |
| Visualizer.WrapRoundTrip | src/visualizer.py:255-260 | the lines joined by spaces are the subtitle |
| Visualizer.WrapLong | src/visualizer.py:257-260 | a line over 80 characters is a single word |
| Visualizer.DrawSubtitle | src/visualizer.py:241-264 | the drawing step returns the specified lines |
| Visualizer.DrawnLinesSpec | src/visualizer.py:250-264 | at most 3 lines, none for an empty subtitle, each a wrap line in order, over 80 only as one word; at most 3 lines spell the whole subtitle |
| Visualizer.BuildSpeakerTimeline | src/visualizer.py:298-306 | the loop and sort return the specified timeline |
| Visualizer.SpeakerTimelineSpec | src/visualizer.py:298-306 | sorted by start, one span per segment named from the mapping or "Speaker id", equal starts in input order |
| Visualizer.TranscriptTimelineSpec | src/visualizer.py:313-316 | sorting then mapping is mapping then sorting: ordered by start, one span per segment, stable |
| Visualizer.FirstCovering | src/visualizer.py:324-338 | the first span with start ≤ t ≤ end, none exactly when no span covers t |
| Visualizer.GetLabelAtTime | src/visualizer.py:324-338 | the lookup returns the first covering span's label, "" when none |
| Configuration.Find | src/utils/config.py:48-56 | no keys gives the whole config; with keys a found value is never None |
| Configuration.FindAppend | src/utils/config.py:49-55 | a lookup by several keys is a lookup by the first ones, then the rest |
| Configuration.FindPath | src/utils/config.py:48-56 | a lookup reaches v exactly when v is stored under the keys, so 0, False or {} are returned and only None or a missing key gives the default |
| Configuration.Config.constructor | src/utils/config.py:11-24 | the path and loaded configuration are stored |
| Configuration.Config.Get | src/utils/config.py:34-56 | `Config.get` returns the lookup's value or the default |
| Configuration.Config.Section | src/utils/config.py:58-84 | each accessor returns its section, {} when absent, AttributeError when the config is not a dict |
| Configuration.SectionLookup | src/utils/config.py:58-84 | a present non-None section is what a one-key lookup gives |
| Configuration.Registry.constructor | src/utils/config.py:88 | no instance at start |
| Configuration.Registry.GetConfig | src/utils/config.py:101-104 | the first call creates the instance and later calls return that same one whatever path they pass; a missing file raises FileNotFoundError |
| Configuration.Registry.ReloadConfig | src/utils/config.py:114-115 | always replaces the instance; a missing file raises before the assignment |
| Llm.GetLlmClient | src/llm/__init__.py:11-38 | "openai"/"anthropic" get their own client exactly when external calls are allowed, Ollama otherwise; every other provider gets Ollama |
| Llm.LocalByDefault | src/llm/__init__.py:23-25 | without a privacy section or the flag, every provider gets Ollama |

## Left out

- Video, audio and ML libraries are not modelled: OpenCV and MediaPipe detection and face mesh, pyannote diarization, Whisper and FFmpeg are foreign calls. Detections, landmark distances, diarization turns, SRT and WebVTT items and decoded JSON/YAML documents are inputs instead.
- File I/O, HTTP routing, upload streaming, SSE, background jobs and the embedded HTML page are not modelled. The file contents a handler reads are inputs, with `None` when a file is absent.
- `readlines` is not modelled: a file is its sequence of lines. `_regenerate_srt` writes `"\n".join(lines)`, and that file's lines are the model's lines only when no speaker or text holds a line break ('\n' or '\r'). The round-trip lemmas (SubRip.SrtRoundTrip, Api.RegenerateParse, Api.RegeneratedReadsBack, WebUi.ShowsRegenerated) require that through `Readable` and `Writable`; a speaker renamed to "A\nB" is written as two lines and does not read back, which the model does not describe.
- Floating point is not modelled: times and scores are exact reals. `_format_srt_time` is proved on non-negative whole milliseconds only, and negative times are outside the round trip. `np.mean` of an empty list (NaN) is `None`.
- Character classes cover ASCII (plus the Latin-1 spaces for `strip`). `int()`/`float()` accept decimal text with a sign and an optional fraction, but no exponents, `inf`, `nan` or underscores.
- The naming regular expressions are an abstract matcher function. Only validation, confidence and order are proved.
- Video.FaceTracker.DetectLipMovement: the lip distance is an input. The write-back of `face.lip_movement` into objects aliased by `face_history` is not modelled. That score is 0 both before and after, so the history is unaffected.
- The visualizer's drawing calls (boxes, text, backgrounds) and video re-encoding are left out. `_draw_subtitle` is modelled up to the lines it would draw.
- Api.RenameSpeaker: the in-place dict mutation is modelled on values, as the renamed document. `_regenerate_srt` runs after the JSON is written, so its failure does not undo the stored document. Only one direction of the 404 case is stated.
- Api.SegmentEntry: `str()` of a speaker or text that is not a string (a number, list or dict) is a TypeError in the model. Python would print it.
- Api.UploadCheck: the random `uuid4().hex[:8]` token is a parameter.
- Transcript.JsonSegment: a segment's text is a string and its speaker a string or `None`, so an item whose "text" is not a string (`{"text": null}`, `{"text": 5}`) or whose "speaker" is neither null nor a string (`{"speaker": 3}`) is a TypeError in the model. `parse_json` stores such values unchecked in the segment.
- Transcript.ParseJson: because of that, one such item fails the whole file in the model, where Python returns every segment.
- WebUi.Listed: the listing uses the corrected id recorded under "## Findings" (only the trailing "_labeled" removed), not the replace-all of src/web_ui.py:643. WebUi.ListedIdAsWrittenLosesId models the code as written.
- The REST server's own `list_videos` (src/api.py:160-190), with its speaker counts read from each file, is not modelled. It has the same id bug as the viewer's list.
- WebUi.GetMetadata: the order of `list(set(...))` is not modelled (the speakers are a set), nor are the other metadata fields, which are copied unchanged. Only one direction of the 404 case is stated.
- Configuration.Config.constructor: resolving the default path to the project root, and YAML parsing, are not modelled. The loaded document is an input.
- The LLM client classes (Ollama, OpenAI, Anthropic) are network clients: only the routing to them is modelled.

## Findings

| source | as written | input that shows it | evidently intended | confidence | as-written member | corrected member |
|---|---|---|---|---|---|---|
| src/web_ui.py:643 | the id is `json_file.stem.replace("_labeled", "")`, which removes every "_labeled" in the stem | a video with id "talk_labeled" is stored as "talk_labeled_labeled.json" and listed as "talk", so its metadata and subtitles are looked up under the wrong file | remove only the trailing "_labeled" that the file naming added | not executed | WebUi.ListedIdAsWrittenLosesId | WebUi.ListedIdRoundTrip |
