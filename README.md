# srt-voiceover in Dafny

This project models the deterministic core of **srt-voiceover**, a tool that turns SubRip
(SRT) subtitles into a voiceover track and, in the other direction, turns transcriptions into
subtitles and word-timing exports. It covers these parts:

- **Subtitle parsing and timeline assembly** (`core.py`):
  - parsing `Name: text` speaker labels;
  - picking a voice per speaker;
  - converting SRT times to milliseconds;
  - padding or trimming each synthesised segment to its subtitle's duration;
  - placing segments on one track, with silence filling the gaps.
- **Per-voice speech-rate arithmetic** (`voice_profiles.py`):
  - the table of 19 voice profiles;
  - the words-per-minute to rate-percentage conversion, with clamping and smoothing;
  - the sorted voice listing.
- **Word alignment** (`word_alignment.py`):
  - tokenising subtitle text;
  - greedy fuzzy matching of tokens to the transcribed word timings inside a time window;
  - the confidence score and the timing strategy chosen from it.
- **The quality report** (`quality.py`):
  - per-segment metrics and their issue rules;
  - the report object that accumulates them;
  - its summary, statistics and confidence histogram.
- **Speaker detection** (`speaker_detection.py`):
  - the advanced label parser, with continuation from the previous speaker;
  - speaker-name validation and speaker counts;
  - the `SpeakerContext` history object.
- **Transcription post-processing** (`transcribe.py`):
  - decomposing seconds into an SRT time;
  - grouping words into segments by duration and gap;
  - the alternating speaker heuristic;
  - the loop that turns transcript segments into numbered subtitle items.
- **Timing exporters** (`export.py`):
  - the WebVTT and SRT time strings;
  - the VTT, SRT and CSV word exporters, with files modelled as the text or rows written;
  - the Final Cut Pro frame timecode.

### Layout

- **`wrappers.dfy`**: `Option` and `Result`.
- **`text.dfy`**: the Python string operations the code relies on:
  - `strip`;
  - `splitlines`, kept to its non-blank stripped lines;
  - `join`, `replace(c, "")` and an ASCII-only `lower`;
  - ASCII `isupper`/`isalpha`;
  - maximal runs of characters.
- **`numbers.dfy`**: Python's `int()` (truncation), `//` and `%` (flooring), `abs`, and `sum`/`min`/`max` with mean bounds.
- **`timings.dfy`**: a word-timing dictionary as a record of optional fields, with the `.get` defaults.
- **One module per source file:**
  - `core.dfy`, `voice_profiles.dfy` and `word_alignment.dfy`;
  - `quality.dfy`, `speaker_detection.dfy` and `transcribe.dfy`;
  - `export.dfy`.

### Modelling choices

- Seconds, words per minute and confidences are exact `real`s. Milliseconds and rates are `int`s.
- Audio is a sequence of milliseconds, each `Silent` or `Voiced`.
- Speech synthesis is a function parameter `synth` from text and voice to audio.
- `difflib.SequenceMatcher(...).ratio()` is a function parameter `sim`.
  - Nothing is assumed about it.
  - Properties that need its values to lie in [0, 1] take that as the hypothesis `SimBounded(sim)`.
- Loops that build a value step by step (fuzzy matching, token matching, word grouping, segment conversion, the VTT/SRT/CSV writers, the speaker count, the timeline) are `method`s. Each one is proved equal to a recursive specification function, and the properties are proved about that function.
- Objects whose fields the source updates are classes:
  - `SegmentQualityMetrics`;
  - `SyncQualityReport`;
  - `SpeakerContext`.

### Where the documentation and the code disagree

- **`_split_text_into_words`** (`word_alignment.py:166-191`): the docstring says `"It's a test (example)"` gives four words. The code deletes the parenthesised aside first, so the result is `["It's", "a", "test"]`. The model follows the code; see `WordAlignment.SplitTextIntoWordsDropsAside`.

## Model

Source paths are relative to the repository root.

| member | source | states |
|---|---|---|
| Core.SrtTimeExample | src/srt_voiceover/core.py:28-31 | 0:01:02,345 converts to 62345 milliseconds |
| Core.SrtTimeDecomposes | src/srt_voiceover/core.py:18-32 | for a time whose minutes, seconds and milliseconds are in range, the millisecond count is non-negative and gives the fields back by `%`/`//`, so the conversion loses nothing |
| Core.SplitAtColonMeaning | src/srt_voiceover/core.py:66-67 | `split(":", 1)` succeeds exactly when the line has a colon; the line is then the part before, a colon and the rest, and the part before has no colon |
| Core.SplitAtColonOf | src/srt_voiceover/core.py:66-67 | splitting `before:after` at the first colon gives back `before` and `after` when `before` has no colon |
| Core.SpeakerLabelAsWritten | src/srt_voiceover/core.py:71 | the label test holds iff the candidate is non-empty, starts with an uppercase letter and is all letters once spaces are removed |
| Core.LettersAndSpacesRemoveChar | src/srt_voiceover/core.py:71 | a string has only letters and spaces exactly when removing its spaces leaves only letters |
| Core.CapitalisedWordIsLabel | src/srt_voiceover/core.py:71 | a capitalised run of letters passes the label test |
| Core.SpeakerLabelHasNoColon | src/srt_voiceover/core.py:66-72 | an accepted speaker label never contains a colon |
| Core.ParseSpeakerAndTextMeaning | src/srt_voiceover/core.py:35-83 | blank input gives `(None, "")`; the speaker is the label of the first line when it qualifies; without one the text is the non-blank stripped lines joined by spaces; with one it is the rest of line 1 followed by the other lines; the text is always stripped |
| Core.ParseLabelled | src/srt_voiceover/core.py:66-82 | with a qualifying label, the result is that label and the labelled content joined by spaces, stripped and colon-free in the name |
| Core.ParseUnlabelled | src/srt_voiceover/core.py:57-82 | without a qualifying label, the speaker is None and the text is the lines joined by single spaces |
| Core.TwoNonBlankLines | src/srt_voiceover/core.py:57 | two stripped lines joined by a newline split back into exactly those two lines |
| Core.LabelledTwoLines | src/srt_voiceover/core.py:73-82 | with a label on line 1 of two lines, the content is the rest of line 1, a space and line 2 |
| Core.ParseLabelledTwoLines | src/srt_voiceover/core.py:35-83 | `"Name: rest\nb"` parses to `(Name, "rest b")`, as with "Nicole: Hello\nHow are you?" |
| Core.LabelledLine | src/srt_voiceover/core.py:61-73 | a `Name: rest` line is one stripped line whose split gives the name and what follows, and its content after the label is `rest` |
| Core.ParseUnlabelledLine | src/srt_voiceover/core.py:57-82 | a single stripped colon-free line parses to no speaker and itself |
| Core.ParseExampleWithoutLabel | src/srt_voiceover/core.py:35-83 | "No speaker line" parses to `(None, "No speaker line")` |
| Core.AlignSegmentDuration | src/srt_voiceover/core.py:178-195 | unchanged when the target is ≤ 0, the segment is empty or within tolerance; otherwise exactly the target length: the segment then silence when padding, a prefix of the segment when trimming |
| Core.AlignKeepsHead | src/srt_voiceover/core.py:190-195 | alignment never changes the audio both versions share: only the tail is padded or cut |
| Core.RenderVoice | src/srt_voiceover/core.py:103-105 | a subtitle with text left after parsing is spoken in its label's mapped voice when the label is a key of the voice map, and in the default voice when it has no label or an unmapped one, placed at its start and fitted to its slot |
| Core.RenderParsed | src/srt_voiceover/core.py:235-270 | rendering a subtitle is speaking its parsed speaker and text with the chosen voice, aligned to its duration |
| Core.Place | src/srt_voiceover/core.py:249-273 | placing a segment keeps the track as a prefix; a later start adds silence up to exactly the start and then the segment; otherwise the segment is appended |
| Core.PlaceIsPadThenAppend | src/srt_voiceover/core.py:249-273 | placement is "pad to the start if behind, then append" |
| Core.AssembleStep | src/srt_voiceover/core.py:234-273 | each subtitle either leaves the track unchanged (skipped) or places its segment on it |
| Core.AssembleGrows | src/srt_voiceover/core.py:234-273 | the track only grows: the track after any number of subtitles is a prefix of the final one |
| Core.PlacedSegmentIntact | src/srt_voiceover/core.py:249-273 | every spoken segment appears intact in the final track, starting no earlier than its subtitle's start time |
| Core.SegmentInTrack | src/srt_voiceover/core.py:249-273 | a segment placed on a track survives in any track the placed one is a prefix of |
| Core.LeadingSilence | src/srt_voiceover/core.py:249-252 | when nothing was spoken before, the first spoken subtitle's start is filled with silence |
| Core.NoSpokenNoAudio | src/srt_voiceover/core.py:235-241 | subtitles whose raw or cleaned text is empty add nothing, so a file of them gives empty audio |
| Core.RenderSubtitle | src/srt_voiceover/core.py:235-270 | the loop body's skip decision, start time and aligned segment agree with the rendering function |
| Core.BuildVoiceover | src/srt_voiceover/core.py:231-273 | the loop's final audio is the assembled timeline and `current_position_ms` equals its length |
| Core.PlaceSegment | src/srt_voiceover/core.py:249-273 | one step pads and appends as `Place` says and keeps the position equal to the audio length |
| VoiceProfiles.VoiceTableWellFormed | src/srt_voiceover/voice_profiles.py:12-186 | the table has 19 entries with distinct ids, each with a positive baseline and `min_rate < 0 < max_rate` |
| VoiceProfiles.LookupMeaning | src/srt_voiceover/voice_profiles.py:201-202 | the lookup fails exactly for an id absent from the table and otherwise returns that id's entry |
| VoiceProfiles.GetVoiceProfileKnown | src/srt_voiceover/voice_profiles.py:201-202 | a known id gets its own table entry |
| VoiceProfiles.GetVoiceProfileUnknown | src/srt_voiceover/voice_profiles.py:205-212 | an unknown id gets the default profile named by the id: baseline 150, range −35..+35 |
| VoiceProfiles.GetVoiceProfileSane | src/srt_voiceover/voice_profiles.py:189-212 | every profile returned, known or default, has a positive baseline and a range around 0 |
| VoiceProfiles.RawRateAtBaseline | src/srt_voiceover/voice_profiles.py:239-240 | speaking at the baseline words per minute gives rate 0 |
| VoiceProfiles.RawRateMonotone | src/srt_voiceover/voice_profiles.py:239-240 | a faster pace never gives a lower raw rate |
| VoiceProfiles.Clamp | src/srt_voiceover/voice_profiles.py:243 | the clamped rate lies in the range, is the rate itself when in range, and the nearer bound otherwise |
| VoiceProfiles.SegmentRateInRange | src/srt_voiceover/voice_profiles.py:239-243 | with no previous rate, the result lies in the voice's `[min_rate, max_rate]` |
| VoiceProfiles.SmoothMeaning | src/srt_voiceover/voice_profiles.py:246-252 | the result never moves more than `max_change` from the previous rate; it is unchanged when within that distance and otherwise moves exactly `max_change` toward the target |
| VoiceProfiles.SmoothInRange | src/srt_voiceover/voice_profiles.py:246-252 | smoothing between two values of a range stays in the range |
| VoiceProfiles.SegmentRateSmoothed | src/srt_voiceover/voice_profiles.py:215-254 | with a previous rate, the change is at most `max_change`; a clamped rate within reach is returned unchanged; a previous rate in range keeps the result in range |
| VoiceProfiles.DefaultSmoothedRates | src/srt_voiceover/voice_profiles.py:215-254 | with the default `max_change_per_segment` of 15, fed-back rates stay in the voice's range and move by at most 15 points per segment |
| VoiceProfiles.SmoothedRates | src/srt_voiceover/voice_profiles.py:215-254 | feeding each output back as the next `prev_rate` gives rates that all stay in the voice's range and move by at most `max_change` per segment |
| VoiceProfiles.Summaries | src/srt_voiceover/voice_profiles.py:265-271 | one summary per table entry, in table order |
| VoiceProfiles.LexLeTotal | src/srt_voiceover/voice_profiles.py:272 | any two display names are ordered one way or the other |
| VoiceProfiles.LexLeTransitive | src/srt_voiceover/voice_profiles.py:272 | the name order is transitive |
| VoiceProfiles.InsertPermutes | src/srt_voiceover/voice_profiles.py:272 | inserting an entry adds exactly that entry |
| VoiceProfiles.InsertSorted | src/srt_voiceover/voice_profiles.py:272 | inserting into a sorted list keeps it sorted by display name |
| VoiceProfiles.SortByNameCorrect | src/srt_voiceover/voice_profiles.py:272 | the sort gives a list sorted by display name that is a permutation of its input |
| VoiceProfiles.ListAvailableVoices | src/srt_voiceover/voice_profiles.py:257-272 | the listing is exactly one summary per table id (a permutation of the table's summaries), sorted by display name |
| VoiceProfiles.CollectSummaries | src/srt_voiceover/voice_profiles.py:265-271 | the collection loop appends every entry's summary in table order |
| WordAlignment.BestInMeaning | src/srt_voiceover/word_alignment.py:29-49 | the best score is the maximum similarity over non-empty candidate words (0.0 if none is positive); the chosen index is the earliest with that score, because later ties lose to strict `>` |
| WordAlignment.FuzzyMatch | src/srt_voiceover/word_alignment.py:13-55 | a returned match is one of the candidates |
| WordAlignment.FuzzyMatchMeaning | src/srt_voiceover/word_alignment.py:13-55 | the score bounds every non-empty candidate's similarity to the lowercased, stripped word; a match is returned exactly when the score reaches the threshold (and is positive), and it is the earliest candidate with that score; a bounded similarity gives a score ≤ 1 |
| WordAlignment.FuzzyMatchWord | src/srt_voiceover/word_alignment.py:29-55 | the loop that updates `best_match`/`best_score` computes the fuzzy-match result |
| WordAlignment.CandidatesInWindow | src/srt_voiceover/word_alignment.py:91-94 | the candidates are a filter of the word timings |
| WordAlignment.CandidatesInWindowMeaning | src/srt_voiceover/word_alignment.py:91-94 | a word is a candidate exactly when its start (default 0) lies in the closed window `[start, end]` |
| WordAlignment.Available | src/srt_voiceover/word_alignment.py:116-119 | the available positions are in bounds and unused |
| WordAlignment.AvailableEmpty | src/srt_voiceover/word_alignment.py:121-123 | nothing is available exactly when every candidate index is used |
| WordAlignment.FirstEqual | src/srt_voiceover/word_alignment.py:140-143 | the index marked used is the first available position holding the matched word |
| WordAlignment.Step | src/srt_voiceover/word_alignment.py:114-145 | a matched token's candidate index was not yet used and holds the matched word |
| WordAlignment.StepScore | src/srt_voiceover/word_alignment.py:129-137 | a matched token's score reaches the threshold, is positive, and is at most 1 for a bounded similarity |
| WordAlignment.Run | src/srt_voiceover/word_alignment.py:114-145 | the greedy pass gives one outcome per token |
| WordAlignment.MatchOne | src/srt_voiceover/word_alignment.py:114-145 | one loop iteration produces the step's outcome and adds exactly the matched index to `used_indices` |
| WordAlignment.MatchTokens | src/srt_voiceover/word_alignment.py:109-145 | the matching loop's three lists are the matched words, scores and unmatched tokens of the greedy pass |
| WordAlignment.MatchWordsToSegment | src/srt_voiceover/word_alignment.py:58-163 | no candidates or no tokens give `([], 0.0, [])`; otherwise the result is the greedy pass's matched and unmatched words with confidence `(matched/total) × mean(scores)` |
| WordAlignment.ConfidenceOf | src/srt_voiceover/word_alignment.py:148-156 | the confidence computation agrees with its definition |
| WordAlignment.RunMatches | src/srt_voiceover/word_alignment.py:114-145 | across the whole pass, every match uses a distinct candidate index, holds that candidate, reaches the threshold, and its score is in (0, 1] for a bounded similarity |
| WordAlignment.RunUsedCount | src/srt_voiceover/word_alignment.py:139-143 | the used-index set has exactly one element per matched word |
| WordAlignment.Partition | src/srt_voiceover/word_alignment.py:114-145 | each token lands in exactly one of the matched and unmatched lists |
| WordAlignment.ScoresBounded | src/srt_voiceover/word_alignment.py:136-137 | every recorded match score is positive, and at most 1 for a bounded similarity |
| WordAlignment.ConfidenceBounds | src/srt_voiceover/word_alignment.py:148-156 | the confidence is 0 exactly when nothing matched, never negative, and at most 1 for bounded scores |
| WordAlignment.MatchResultMeaning | src/srt_voiceover/word_alignment.py:109-156 | matched plus unmatched is the token count; no candidate is used twice, so there are no more matches than candidates; each match holds its candidate with a score at the threshold or above; the confidence is 0 iff nothing matched and lies in [0, 1] for bounded similarity |
| WordAlignment.RemoveGroups | src/srt_voiceover/word_alignment.py:184-185 | removing bracketed groups never lengthens the text |
| WordAlignment.RemoveGroupsLeavesNoGroup | src/srt_voiceover/word_alignment.py:184-185 | after removal no opening bracket is followed by a matching closing one |
| WordAlignment.RemoveGroupsKeepsAbsent | src/srt_voiceover/word_alignment.py:184-185 | a closing bracket absent from the input is absent from the result |
| WordAlignment.RemoveGroupsAbsent | src/srt_voiceover/word_alignment.py:184-185 | text with no opening bracket is left unchanged |
| WordAlignment.RemoveGroupsSkipsGroup | src/srt_voiceover/word_alignment.py:184-185 | an opening bracket closed later is removed up to and including the first closing bracket, and the removal continues on the text after it |
| WordAlignment.RemoveGroupsUnclosed | src/srt_voiceover/word_alignment.py:184-185 | text with no closing bracket is left unchanged, even after an opening bracket that is never closed |
| WordAlignment.SplitTextIntoWordsTokens | src/srt_voiceover/word_alignment.py:189-191 | every token is non-empty and made of ASCII letters and apostrophes only |
| WordAlignment.SplitTextIntoWordsLeadingWord | src/srt_voiceover/word_alignment.py:180-191 | a leading run of letters and apostrophes ended by a separator that opens no group is exactly the first word, and the rest of the text gives the other words |
| WordAlignment.SplitTextIntoWordsSingleWord | src/srt_voiceover/word_alignment.py:180-191 | a text made only of letters and apostrophes is one word, never split |
| WordAlignment.SplitTextIntoWordsExample | src/srt_voiceover/word_alignment.py:171 | "Don't do it!" gives ["Don't", "do", "it"] |
| WordAlignment.SplitTextIntoWordsDropsGroup | src/srt_voiceover/word_alignment.py:184-189 | a trailing parenthesised aside contributes no tokens |
| WordAlignment.SplitTextIntoWordsSkipsAside | src/srt_voiceover/word_alignment.py:184-189 | a parenthesised aside followed by more text contributes no tokens: the words are those of the text after it |
| WordAlignment.SplitTextIntoWordsLeadingAside | src/srt_voiceover/word_alignment.py:184-189 | "(laughs) Hello there" gives ["Hello", "there"] |
| WordAlignment.SplitTextIntoWordsDropsAside | src/srt_voiceover/word_alignment.py:172-185 | "It's a test (example)" gives ["It's", "a", "test"] |
| WordAlignment.TimingStrategyMeaning | src/srt_voiceover/word_alignment.py:204-247 | the level is HIGH above 0.9, MEDIUM above 0.7, LOW above 0.5 and NONE otherwise, with rate changes 10/15/20/30; word and elastic timing are on iff confidence > 0.7, time stretch iff > 0.9, and rate smoothing is always on |
| WordAlignment.TimingStrategyMonotone | src/srt_voiceover/word_alignment.py:204-247 | higher confidence never allows a larger rate change or switches word timing or time stretch off |
| Quality.SegmentQualityMetrics.constructor | src/srt_voiceover/quality.py:15-29 | a new record holds the given fields, no issues, and `has_issues` false |
| Quality.SegmentQualityMetrics.AddIssue | src/srt_voiceover/quality.py:31-34 | appends the issue, sets the flag, changes nothing else, and keeps `has_issues` iff the list is non-empty |
| Quality.RateChange | src/srt_voiceover/quality.py:96-98 | there is a rate change exactly when a previous rate is given, and then `prev_rate + change == rate` |
| Quality.WithIssuesTwice | src/srt_voiceover/quality.py:119-151 | adding issues in two steps is adding them at once, and adding issues does not change what any rule reports |
| Quality.IssuesForMeaning | src/srt_voiceover/quality.py:122-139 | a low-confidence issue iff confidence < 0.5, a high-rate issue iff rate > 40, a low-rate issue iff rate < −40 |
| Quality.IssuesForRateJump | src/srt_voiceover/quality.py:126-131 | with a rate change, a rate-jump issue iff its absolute value exceeds 25; without one, no rate-jump issue |
| Quality.IssuesForWordMatch | src/srt_voiceover/quality.py:141-151 | a no-match issue iff there are words and none matched; a low-ratio issue iff there are words and fewer than half matched |
| Quality.MatchRatioBelowHalf | src/srt_voiceover/quality.py:147-148 | `matched / total < 0.5` is the integer test `2·matched < total` |
| Quality.IssuesForOrdered | src/srt_voiceover/quality.py:119-151 | the issues come in rule order, each rule contributing at most once, so there are at most six |
| Quality.ZeroMatchesFlaggedTwice | src/srt_voiceover/quality.py:141-151 | a segment with words and no matches ends with both the no-match and the low-ratio issue |
| Quality.ConfidenceToLevelMeaning | src/srt_voiceover/quality.py:188-197 | EXCELLENT iff > 0.9, GOOD iff in (0.75, 0.9], FAIR iff in (0.6, 0.75], POOR iff ≤ 0.6 |
| Quality.ConfidenceToLevelMonotone | src/srt_voiceover/quality.py:188-197 | a higher confidence never gives a lower level |
| Quality.Problematic | src/srt_voiceover/quality.py:263-270 | the problematic segments are a sub-list |
| Quality.ProblematicMeaning | src/srt_voiceover/quality.py:263-270 | a segment is problematic exactly when it is in the report and flagged; the filter keeps order (it distributes over concatenation) |
| Quality.CountedConfidencesMeaning | src/srt_voiceover/quality.py:167 | the confidences averaged are exactly those of segments with at least one word |
| Quality.AbsRateChangesCover | src/srt_voiceover/quality.py:168 | every segment's absolute rate change is among the collected ones, and all are non-negative |
| Quality.IssueCounts | src/srt_voiceover/quality.py:322-323 | flagged segments are at most the total number of issues, and there are none iff there are no issues |
| Quality.Bucket | src/srt_voiceover/quality.py:287-297 | every confidence falls in exactly one of five buckets split at 0.2, 0.4, 0.6 and 0.8 |
| Quality.HistogramTotal | src/srt_voiceover/quality.py:279-299 | the five bucket counts add up to the number of segments |
| Quality.SummaryMeaning | src/srt_voiceover/quality.py:153-186 | an empty report gives the empty summary; otherwise the total is the segment count, the average confidence lies between the least and greatest counted confidence (0.0 with none), its level matches, flagged segments are counted, the percentage is in [0, 100], and the maximum absolute rate change is 0 when no segment has a rate change and otherwise is some segment's absolute change that bounds every other one and the average |
| Quality.SummaryConfidence | src/srt_voiceover/quality.py:167-180 | the summary's average confidence lies between the least and greatest counted confidence, or is 0.0 with none counted |
| Quality.SummaryIssues | src/srt_voiceover/quality.py:169-182 | the summary counts the flagged segments, and their percentage is in [0, 100] |
| Quality.PercentageBetween | src/srt_voiceover/quality.py:182 | `100·part/whole` for `part ≤ whole` lies in [0, 100] |
| Quality.SummaryRates | src/srt_voiceover/quality.py:168-184 | the maximum rate change is the largest absolute rate change of a segment (attained by one of them and bounding every one), 0 when no segment has a rate change, and bounds the average |
| Quality.AbsRateChangesFrom | src/srt_voiceover/quality.py:168 | every collected absolute rate change is that of some segment |
| Quality.MaxRateChangeAttained | src/srt_voiceover/quality.py:172 | the largest collected absolute rate change belongs to some segment |
| Quality.RateChangeBounds | src/srt_voiceover/quality.py:168-173 | over the collected absolute changes the maximum is non-negative and bounds the mean |
| Quality.StatisticsMeaning | src/srt_voiceover/quality.py:301-324 | an empty report gives empty statistics; otherwise min ≤ avg ≤ max for rates (both attained) and for counted confidences; the issue count is the flagged count, at most the total issues and 0 iff they are |
| Quality.SyncQualityReport.constructor | src/srt_voiceover/quality.py:58-61 | a new report is empty, with a zero segment count |
| Quality.SyncQualityReport.CheckForIssues | src/srt_voiceover/quality.py:119-151 | the record afterwards carries exactly the rule issues, in rule order |
| Quality.SyncQualityReport.CheckConfidence | src/srt_voiceover/quality.py:122-124 | adds the low-confidence issue exactly when the rule fires |
| Quality.SyncQualityReport.CheckRateJump | src/srt_voiceover/quality.py:126-131 | adds the rate-jump issue exactly when the rule fires |
| Quality.SyncQualityReport.CheckHighRate | src/srt_voiceover/quality.py:133-135 | adds the high-rate issue exactly when the rule fires |
| Quality.SyncQualityReport.CheckLowRate | src/srt_voiceover/quality.py:137-139 | adds the low-rate issue exactly when the rule fires |
| Quality.SyncQualityReport.CheckNoMatch | src/srt_voiceover/quality.py:141-143 | adds the no-match issue exactly when the rule fires |
| Quality.SyncQualityReport.CheckMatchRatio | src/srt_voiceover/quality.py:145-151 | adds the low-ratio issue exactly when the rule fires |
| Quality.SyncQualityReport.AddSegment | src/srt_voiceover/quality.py:64-117 | appends exactly one new, checked record with the computed rate change, increments the count, and keeps `total_segments == len(segments)` |
| Quality.SyncQualityReport.GetConfidenceHistogram | src/srt_voiceover/quality.py:272-299 | the counting loop gives the histogram of the report's segments |
| SpeakerDetection.AdvancedBlank | src/srt_voiceover/speaker_detection.py:38-43 | empty or whitespace-only input gives `(None, "")` whatever the previous speaker |
| SpeakerDetection.ExplicitLabel | src/srt_voiceover/speaker_detection.py:50-63 | an explicit label comes from a first line that has a colon |
| SpeakerDetection.NoColonNoUrl | src/srt_voiceover/speaker_detection.py:63 | a colon-free label cannot contain "://", so that test never rejects a candidate |
| SpeakerDetection.AdvancedLinesAgree | src/srt_voiceover/speaker_detection.py:45-91 | with no previous speaker, the advanced and the basic parser agree on a set of lines iff the basic label, if any, is at most 30 characters |
| SpeakerDetection.AdvancedAgreesWithBasic | src/srt_voiceover/speaker_detection.py:15-91 | on raw text with no previous speaker, both parsers agree iff the basic parser's label, if any, is at most 30 characters |
| SpeakerDetection.PreviousSpeakerRule | src/srt_voiceover/speaker_detection.py:65-91 | the text never depends on the previous speaker; an explicit label wins; without one, a named previous speaker is kept iff the text looks like a continuation, and otherwise the speaker is None |
| SpeakerDetection.ContinuationExample | src/srt_voiceover/speaker_detection.py:80-86 | "and so on" looks like a continuation |
| SpeakerDetection.FirstWordOf | src/srt_voiceover/speaker_detection.py:85 | the first word is the lowercased text before the first space |
| SpeakerDetection.DetectSpeakerFromPatterns | src/srt_voiceover/speaker_detection.py:94-139 | returns None for every input |
| SpeakerDetection.ValidateSpeakerNameMeaning | src/srt_voiceover/speaker_detection.py:142-168 | valid iff 1 to 50 characters long, with an uppercase first character and only letters, spaces and hyphens |
| SpeakerDetection.Bump | src/srt_voiceover/speaker_detection.py:186 | increments the speaker's count, adding it with count 1 at the end when new, and leaves the other counts alone |
| SpeakerDetection.BumpDistinct | src/srt_voiceover/speaker_detection.py:186 | incrementing keeps keys distinct |
| SpeakerDetection.CountsOf | src/srt_voiceover/speaker_detection.py:181-188 | the counts have one entry per key |
| SpeakerDetection.CountsMeaning | src/srt_voiceover/speaker_detection.py:181-188 | each key is a non-empty speaker and its count is its number of occurrences (positive); every speaker that occurs is a key |
| SpeakerDetection.OccurrencesMeaning | src/srt_voiceover/speaker_detection.py:183-186 | a speaker has occurrences exactly when some segment names it |
| SpeakerDetection.CountsInFirstSeenOrder | src/srt_voiceover/speaker_detection.py:181-188 | keys are in the order the speakers first appear (dictionary insertion order) |
| SpeakerDetection.CountsTotal | src/srt_voiceover/speaker_detection.py:181-188 | the counts add up to the number of segments with a speaker |
| SpeakerDetection.NamedPlusUnnamed | src/srt_voiceover/speaker_detection.py:204-206 | segments with and without a speaker add up to the total |
| SpeakerDetection.GetUniqueSpeakers | src/srt_voiceover/speaker_detection.py:171-188 | the dictionary-filling loop computes the counts |
| SpeakerDetection.MaxIndex | src/srt_voiceover/speaker_detection.py:210 | `max` by count picks a greatest count, the first one on ties |
| SpeakerDetection.SpeakerStatisticsMeaning | src/srt_voiceover/speaker_detection.py:191-211 | with plus without equals total; the counts sum to the named segments; multiple speakers iff more than one key; a primary speaker iff some segment is named, and it has the greatest count, ties going to the earliest seen |
| SpeakerDetection.SliceBound | src/srt_voiceover/speaker_detection.py:244 | a Python slice bound is clipped into the list |
| SpeakerDetection.LastSpeakerMeaning | src/srt_voiceover/speaker_detection.py:246-251 | none iff no history entry has a speaker; otherwise the speaker of the latest entry that has one |
| SpeakerDetection.SpeakerContext.constructor | src/srt_voiceover/speaker_detection.py:221-223 | starts with empty history and no speakers seen |
| SpeakerDetection.SpeakerContext.AddSegment | src/srt_voiceover/speaker_detection.py:225-229 | appends one history entry, adds a named speaker to the seen set, and makes it the last speaker (an unnamed entry keeps the previous one) |
| SpeakerDetection.SpeakerContext.GetContextWindow | src/srt_voiceover/speaker_detection.py:231-244 | the slice of history from `max(0, c−w)` to `min(len, c+w+1)`: the entries in between when the end is past the start, empty when a non-negative end is at or before the start, and up to `len + end` when a negative end wraps; at most `2w+1` entries unless it wraps, and it holds the centre entry when the centre is in range |
| SpeakerDetection.SpeakerContext.ContextWindowWraps | src/srt_voiceover/speaker_detection.py:242-244 | with 10 entries, centre −10 and size 5 the window is `history[0:-4]`, the first six entries |
| SpeakerDetection.SpeakerContext.ContextWindowPastEnd | src/srt_voiceover/speaker_detection.py:242-244 | a window starting at or past the end of the history is empty |
| SpeakerDetection.SpeakerContext.GetLastSpeaker | src/srt_voiceover/speaker_detection.py:246-251 | the backward scan returns the latest named speaker |
| SpeakerDetection.SpeakerContext.GetSpeakerAtIndex | src/srt_voiceover/speaker_detection.py:253-257 | the entry's speaker for an index in range (negative indices from the end), None at or past the end, and an index error below `−len` |
| SpeakerDetection.SpeakerContext.Clear | src/srt_voiceover/speaker_detection.py:259-262 | empties both the history and the seen set |
| Transcribe.SecondsToSrtTime | src/srt_voiceover/transcribe.py:206-213 | minutes and seconds are below 60 and milliseconds below 1000; hours are non-negative iff the input is |
| Transcribe.SecondsToSrtTimeRoundTrip | src/srt_voiceover/transcribe.py:208-211 | converting the decomposed time back to milliseconds gives `floor(seconds·1000)` |
| Transcribe.SecondsToSrtTimeNormalised | src/srt_voiceover/transcribe.py:206-213 | a non-negative time decomposes into in-range fields |
| Transcribe.Texts | src/srt_voiceover/transcribe.py:234-240 | each word's text is its `word`, else its `text`, else "" |
| Transcribe.Advance | src/srt_voiceover/transcribe.py:237-257 | one word either closes the current segment and opens a new one or joins it, and no run is ever empty |
| Transcribe.SegmentsOf | src/srt_voiceover/transcribe.py:231-257 | one segment per run, in order |
| Transcribe.GroupWords | src/srt_voiceover/transcribe.py:227-228 | no words give no segments |
| Transcribe.GroupWordsIntoSegments | src/srt_voiceover/transcribe.py:216-263 | the loop that mutates `current_segment` computes the grouping |
| Transcribe.RunsPartition | src/srt_voiceover/transcribe.py:231-261 | the runs, joined, are exactly the input words in order |
| Transcribe.RunsBreakExactly | src/srt_voiceover/transcribe.py:243-257 | a word starts a new segment exactly when its end minus the segment start exceeds `max_duration` or its gap from the segment end exceeds 1.0 |
| Transcribe.NewRunBreaksExactly | src/srt_voiceover/transcribe.py:246-253 | when a word breaks the segment, the break rule still holds with the word in a fresh segment |
| Transcribe.LongerRunBreaksExactly | src/srt_voiceover/transcribe.py:254-257 | when a word joins the segment, the break rule still holds with the longer segment |
| Transcribe.AdvanceBreaksExactly | src/srt_voiceover/transcribe.py:243-257 | one step of the loop preserves the break rule |
| Transcribe.GroupWordsMeaning | src/srt_voiceover/transcribe.py:216-263 | the segments come from runs partitioning the words; every segment spans its run (first start to last end, texts joined by spaces); only the last run is dropped, exactly when its text is empty; no more segments than words |
| Transcribe.GroupWordsExample | src/srt_voiceover/transcribe.py:216-263 | Hello/there/world with `max_duration` 1.0 gives two segments, "Hello there" and "world" |
| Transcribe.GroupWordsLength | src/srt_voiceover/transcribe.py:216-263 | there are never more segments than words |
| Transcribe.DetectSpeakerHeuristic | src/srt_voiceover/transcribe.py:266-290 | always returns a speaker |
| Transcribe.DetectSpeakerHeuristicMeaning | src/srt_voiceover/transcribe.py:286-290 | "Speaker A" iff an even index without '?' or an odd index with one, else "Speaker B" |
| Transcribe.DetectSpeakerHeuristicAlternates | src/srt_voiceover/transcribe.py:289-290 | consecutive segments whose texts agree on containing '?' get different speakers |
| Transcribe.SegmentsOfTranscript | src/srt_voiceover/transcribe.py:93-104 | given segments are used as they are; otherwise the words give exactly the segments of grouping them with a 5-second limit, one raw segment per group with its start, end and text; otherwise one 0–10 s segment holds the full text |
| Transcribe.ConvertSegments | src/srt_voiceover/transcribe.py:106-130 | the conversion loop builds the item list of its specification |
| Transcribe.ConvertSegment | src/srt_voiceover/transcribe.py:107-129 | one iteration makes the item (or the skip) of its specification |
| Transcribe.ItemForShape | src/srt_voiceover/transcribe.py:109-125 | a segment gives an item exactly when its stripped text is non-empty, and the item is numbered by position + 1 |
| Transcribe.ItemsMeaning | src/srt_voiceover/transcribe.py:106-130 | items are the non-blank segments' items in order, numbered by original position + 1 (with gaps), which increase strictly; there are no more items than segments |
| Transcribe.ItemTimes | src/srt_voiceover/transcribe.py:107-116 | an item's start is the segment start (default 0) and its end the segment end, defaulting to start + 5 |
| Transcribe.ItemText | src/srt_voiceover/transcribe.py:109-122 | an item's text is the stripped text, prefixed with "Speaker X: " only when detection is enabled |
| Export.DecimalDigits | src/srt_voiceover/export.py:27 | a number's decimal digits are digits with no leading zero |
| Export.DecimalDigitsValue | src/srt_voiceover/export.py:27 | the digits read back as the number |
| Export.FormatIntMeaning | src/srt_voiceover/export.py:27 | `{n:0Wd}` of a non-negative number reads back as the number and is at least W digits long, exactly W when the number has at most W digits |
| Export.PadMeaning | src/srt_voiceover/export.py:27 | zero-padding keeps the value of a digit string and reaches the width |
| Export.FormatFixed | src/srt_voiceover/export.py:27 | a number below 10^W is written with exactly W digits that read back as it |
| Export.ClockTextLayout | src/srt_voiceover/export.py:22-27 | a time string is the hours, then `:MM:SS`, the separator and `mmm`, each field a fixed-width rendering of its part |
| Export.VttAndSrtDifferInSeparator | src/srt_voiceover/export.py:12-45 | the VTT and SRT strings of a time have equal length and differ only at the separator before the milliseconds, '.' versus ',' |
| Export.VttTimeReadsBack | src/srt_voiceover/export.py:12-27 | for non-negative seconds the VTT string reads back as hours (two digits or more), two-digit minutes, two-digit seconds and three-digit milliseconds of the decomposed time |
| Export.ClockTextReadsBack | src/srt_voiceover/export.py:22-45 | every field of a time string reads back as the field of the time it renders |
| Export.MarkedMeaning | src/srt_voiceover/export.py:72-77 | the chosen positions increase strictly and are exactly those whose flag is set |
| Export.SpokenMeaning | src/srt_voiceover/export.py:72-77 | the written words are exactly the words with non-empty stripped text, in input order |
| Export.ExportWordTimingsVtt | src/srt_voiceover/export.py:48-86 | the text written is "WEBVTT\n\n" followed by one `start --> end\ntext\n\n` cue per written word, in order |
| Export.WriteVttCue | src/srt_voiceover/export.py:73-81 | a word with text adds its times line and text line; a blank word adds nothing |
| Export.ExportWordTimingsSrt | src/srt_voiceover/export.py:89-129 | the text written is one block per written word, numbered by its 1-based input position |
| Export.WriteSrtBlock | src/srt_voiceover/export.py:114-124 | a word with text adds its number, times and text; a blank word adds nothing |
| Export.SrtNumberingSkipsBlankWords | src/srt_voiceover/export.py:113-124 | with a blank middle word the blocks are numbered 1 and 3, leaving a gap |
| Export.SrtBlocksOfTwo | src/srt_voiceover/export.py:113-124 | two written words give their two blocks in order |
| Export.BlankWordsExportNothing | src/srt_voiceover/export.py:70-124 | words with no text give only the VTT header and an empty SRT file |
| Export.MissingEndIsStart | src/srt_voiceover/export.py:74-75 | a word without `end` gets its start as end, so its cue runs from start to start |
| Export.CsvRowOf | src/srt_voiceover/export.py:195-201 | a row holds the number, stripped word, start, end (defaulting to start) and `end − start` |
| Export.ExportWordTimingsCsv | src/srt_voiceover/export.py:162-206 | the header, then one row per input word, blank words included, numbered from 1 |
| Export.FcpPartsMeaning | src/srt_voiceover/export.py:235-245 | the decomposition fails exactly when `int(fps)` is 0; otherwise hours, minutes, seconds and frames recombine to `int(seconds·fps)` frames, with minutes and seconds below 60 and frames below `int(fps)` |
| Export.FcpTimeZeroRate | src/srt_voiceover/export.py:238 | a frame rate below 1 makes the timecode fail with a division by zero |
| Numbers.Trunc | src/srt_voiceover/voice_profiles.py:240 | `int(x)` rounds toward zero: the result is within one of `x` on the side of zero |
| Numbers.TruncMonotone | src/srt_voiceover/voice_profiles.py:240 | truncation preserves order |
| Numbers.FloorDiv | src/srt_voiceover/transcribe.py:208-209 | float `//` is the floor of the quotient |
| Numbers.FloorMod | src/srt_voiceover/transcribe.py:209-211 | float `%` by a positive divisor lies in `[0, y)` and `x == (x // y)·y + x % y` |
| Numbers.IntFloorDiv | src/srt_voiceover/export.py:238-242 | integer `//` rounds toward minus infinity |
| Numbers.IntFloorMod | src/srt_voiceover/export.py:239-243 | integer `%` takes the divisor's sign and recombines with `//` |
| Numbers.MeanBetween | src/srt_voiceover/quality.py:171 | the mean of a non-empty list lies between its least and greatest element |
| Numbers.IntMeanBetween | src/srt_voiceover/quality.py:319 | the true-division mean of a non-empty integer list lies between its least and greatest element |
| Numbers.MinMaxAttained | src/srt_voiceover/quality.py:317-318 | `min` and `max` are elements of the list |
| Numbers.IntMin | src/srt_voiceover/quality.py:320 | `min` of integers is one of them, at most every one, and equals the float `min` of their values |
| Numbers.IntMax | src/srt_voiceover/quality.py:321 | `max` of integers is one of them, at least every one, and equals the float `max` of their values |
| Text.NonBlankLines | src/srt_voiceover/core.py:57 | every kept line is non-empty and stripped |
| Text.LinePiecesOfLine | src/srt_voiceover/core.py:57 | a text without a line break is one line |
| Text.LinePiecesOfTwoLines | src/srt_voiceover/core.py:57 | two texts without line breaks joined by one line break are exactly those two lines |
| Text.StripBlank | src/srt_voiceover/core.py:57 | a string strips to empty exactly when it is all whitespace |
| Text.JoinStripped | src/srt_voiceover/core.py:82 | joining stripped non-empty lines with spaces gives a stripped string, so the final `.strip()` changes nothing |
| Text.RemoveChar | src/srt_voiceover/core.py:71 | `replace(c, "")` removes every `c` and keeps every other character |
| Text.Runs | src/srt_voiceover/word_alignment.py:189 | each found run is non-empty and made of kept characters only |
| Text.RunsSkip | src/srt_voiceover/word_alignment.py:189 | a character that is not kept belongs to no run and is skipped |
| Text.RunsOfWord | src/srt_voiceover/word_alignment.py:189 | a non-empty kept run ended by a character that is not kept is exactly the first run |
| Text.RunsOfKept | src/srt_voiceover/word_alignment.py:189 | a non-empty string of kept characters is a single run; with RunsSkip, RunsOfWord and the empty string having no runs, this fixes the result on every string |
| Text.RunsConcat | src/srt_voiceover/word_alignment.py:189 | the runs, joined, are exactly the kept characters of the text |

## Left out

- **I/O.** Reading and saving SRT files, writing export files (modelled as the text or rows written), pydub's `export`, the output-format pick, and the `verbose` printing.
- **Synthesis.** `synthesize_speech_segment` and `_synthesize_async` are a network text-to-speech call. The model replaces them with the `synth` parameter. `build_voiceover_from_srt` keeps only the timeline loop; it reads the subtitles as a list given to it.
- **Transcription back ends.** `_transcribe_local` and `_transcribe_via_api`, which need Whisper and HTTP. `transcribe_audio_to_srt` keeps only the response dispatch and the conversion loop; the file check and the save are left out.
- **Audio-file wrappers.** `convert_audio_format`, `extract_audio_from_video` and `audio_to_voiceover_workflow` are ffmpeg/pydub I/O and glue.
- `translation.py` (an HTTP client), `cli.py` (argument and configuration handling) and `__init__.py` are not part of this model.
- **Presentation.** `print_report`, `print_voice_profiles`, `export_json` and `to_dict`.
- **Clock.** The `datetime`-based `processing_time`: the summary has no time field.
- `export_word_timings_json` is a `json.dump`. `export_word_timings_fcpxml` keeps only its nested timecode helper; the XML document is not modelled. `export_word_timings_multi` is path handling and exception fan-out.
- `_get_speaker_at_time`, which a test calls, does not exist in the source, so there is nothing to model.
- **Float behaviour.** Seconds, rates and confidences are exact reals, so IEEE rounding (`seconds % 1 * 1000`, `int(fps)` of 29.97 computed in floats) is not modelled. `round(...)` in the summary is left out: the model keeps the unrounded values. Percent and `:.3f` renderings are left out.
- Quality.SyncQualityReport.AddSegment: the report keeps `seq<Metrics>` values, so it stores a copy of the checked record it returns. In the source the list and the caller share one object, so a later `add_issue` on the returned record would show in `segments`, the summary and the problematic list; no code in the source does that.
- Quality.IssuesFor: issue messages are structured `Issue` values carrying the numbers the message shows, not the formatted text. The same holds for the `Check*` methods.
- Export.ExportWordTimingsCsv: rows are records of numbers and text. CSV quoting and the `:.3f` rendering of the numbers are not modelled.
- Export.VttTimeReadsBack: stated for non-negative seconds. A negative time gives negative hours, which the model renders Python's way, but no read-back is proved for it.
- WordAlignment.FuzzyMatchMeaning: `SequenceMatcher.ratio` is the uninterpreted parameter `sim`. The [0, 1] bounds of scores and confidence hold under the hypothesis `SimBounded(sim)`, not for every function.
- SpeakerDetection.DetectSpeakerFromPatterns: the question and greeting regexes are not modelled, since the function returns None on every path.
- SpeakerDetection.ParseSpeakerAndTextAdvanced: the `use_heuristic` argument is accepted but unused, as in the source.
- Text.Lower: ASCII capitals only. Python's `lower` also lowercases non-ASCII capitals, so "École" and "école" differ here: WordAlignment.FuzzyMatch's exact-match branch and SpeakerDetection.FirstWordOf's lowercase first word follow the ASCII behaviour.
- Text.IsUpper: ASCII upper case only. Python's `isupper` also accepts non-ASCII capitals, which count as non-upper here.
- Text.IsAlpha: ASCII letters only. Python's `isalpha` accepts non-ASCII letters, which count as non-letters here in the label and name tests.
- Text.NonBlankLines: `splitlines` splits at every Python line-break character separately. This gives the same non-blank stripped lines, because every line-break character is also whitespace.
- VoiceProfiles.SortByName: Python's `sorted` is modelled as a stable insertion sort on display names. Its result is proved sorted and a permutation, which determines it up to the order of equal names.
