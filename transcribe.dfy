/**
  Turning a recogniser's output into subtitle items: the seconds-to-timestamp conversion,
  grouping timed words into segments, the placeholder speaker heuristic, and the loop that
  numbers the non-blank segments as subtitle items.

  Seconds are exact reals; the recogniser itself is not modelled, its result is the input.
*/
module Transcribe {
  import opened Wrappers
  import opened Text
  import opened Numbers
  import opened Timings
  import opened Core

  // ---------------------------------------------------------------- seconds to timestamps

  /** `_seconds_to_srt_time`: hours, minutes, whole seconds and milliseconds of a time in
      seconds, each from Python's floor `//` and `%` and a truncating `int`. */
  function SecondsToSrtTime(seconds: real): (t: SrtTime)
    ensures 0 <= t.minutes < 60 && 0 <= t.seconds < 60 && 0 <= t.milliseconds < 1000
    ensures t.hours >= 0 <==> seconds >= 0.0
  {
    var hours := Trunc(FloorDiv(seconds, 3600.0) as real);
    var minutes := Trunc(FloorDiv(FloorMod(seconds, 3600.0), 60.0) as real);
    var secs := Trunc(FloorMod(seconds, 60.0));
    var millis := Trunc(FloorMod(seconds, 1.0) * 1000.0);
    TruncOfInt(FloorDiv(seconds, 3600.0));
    TruncOfInt(FloorDiv(FloorMod(seconds, 3600.0), 60.0));
    MinutesInHour(FloorMod(seconds, 3600.0));
    HoursSign(seconds);
    SrtTime(hours, minutes, secs, millis)
  }

  lemma MinutesInHour(r: real)
    requires 0.0 <= r < 3600.0
    ensures 0 <= FloorDiv(r, 60.0) < 60
  {
    var q := FloorDiv(r, 60.0);
    FloorDivBounds(r, 60.0);
  }

  lemma HoursSign(x: real)
    ensures FloorDiv(x, 3600.0) >= 0 <==> x >= 0.0
  {
    FloorDivBounds(x, 3600.0);
  }

  /** A division with a remainder in range determines the floor quotient and remainder. */
  lemma FloorDivUnique(x: real, y: real, q: int, r: real)
    requires y > 0.0 && 0.0 <= r < y && x == q as real * y + r
    ensures FloorDiv(x, y) == q && FloorMod(x, y) == r
  {
    var t := r / y;
    assert t * y == r;
    if t >= 1.0 {
      MulMonotone(1.0, t, y);
    }
    assert 0.0 <= t < 1.0;
    var d := q as real + t;
    assert d * y == q as real * y + t * y;
    assert d * y == x;
    DivOfProduct(d, y);
  }

  lemma DivOfProduct(d: real, y: real)
    requires y != 0.0
    ensures (d * y) / y == d
  {
  }

  /** Moving a whole number out of a floor. */
  lemma FloorShift(n: int, y: real)
    ensures (n as real + y).Floor == n + y.Floor
  {
  }

  /** A time converted and then read back as milliseconds is the time's milliseconds,
      rounded down: the conversion loses only the fraction of a millisecond. */
  lemma SecondsToSrtTimeRoundTrip(seconds: real)
    ensures SrtTimeToMilliseconds(SecondsToSrtTime(seconds)) == (seconds * 1000.0).Floor
  {
    var h, r1 := FloorDiv(seconds, 3600.0), FloorMod(seconds, 3600.0);
    var m, r2 := FloorDiv(r1, 60.0), FloorMod(r1, 60.0);
    assert seconds == (h * 60 + m) as real * 60.0 + r2;
    FloorDivUnique(seconds, 60.0, h * 60 + m, r2);
    var s := r2.Floor;
    var f := r2 - s as real;
    assert seconds == ((h * 60 + m) * 60 + s) as real * 1.0 + f;
    FloorDivUnique(seconds, 1.0, (h * 60 + m) * 60 + s, f);
    var t := SecondsToSrtTime(seconds);
    assert t.hours == h && t.minutes == m && t.seconds == s;
    assert t.milliseconds == (f * 1000.0).Floor;
    var k := (h * 3600 + m * 60 + s) * 1000;
    assert seconds * 1000.0 == k as real + f * 1000.0;
    FloorShift(k, f * 1000.0);
  }

  /** A non-negative time converts to a normalised timestamp. */
  lemma SecondsToSrtTimeNormalised(seconds: real)
    requires seconds >= 0.0
    ensures Normalised(SecondsToSrtTime(seconds))
  {
  }

  // ---------------------------------------------------------------- grouping words

  /** A segment dictionary of `_group_words_into_segments`: every key is present. */
  datatype Segment = Segment(start: real, end: real, text: string)

  /** `word.get('start', 0)`. */
  function WordStart(w: WordTiming): real {
    StartOr(w, 0.0)
  }

  /** `word.get('end', word_start)`, the end of every word after the first. */
  function WordEnd(w: WordTiming): real {
    EndOr(w, WordStart(w))
  }

  /** `word.get('word', word.get('text', ''))`. */
  function WordText(w: WordTiming): string {
    WordOr(w, w.text.GetOr(""))
  }

  /** The texts of a run of words. */
  function Texts(ws: seq<WordTiming>): (r: seq<string>)
    ensures |r| == |ws| && forall i :: 0 <= i < |ws| ==> r[i] == WordText(ws[i])
  {
    if ws == [] then [] else Texts(ws[..|ws| - 1]) + [WordText(ws[|ws| - 1])]
  }

  /** The segment a non-empty run of words makes: it starts at the first word's start, ends
      at the last word's end and holds the words' texts joined by single spaces. The very
      first word of the input reads a missing end as 0, later words as their own start. */
  function SegmentOf(run: seq<WordTiming>, first: bool): (s: Segment)
    requires run != []
  {
    Segment(
      WordStart(run[0]),
      if |run| == 1 && first then EndOr(run[0], 0.0) else WordEnd(run[|run| - 1]),
      Join(Texts(run), " "))
  }

  /** Whether word `w` opens a new segment after `current`: the segment would grow longer
      than `maxDuration`, or the pause before the word is longer than a second. */
  predicate Breaks(current: Segment, w: WordTiming, maxDuration: real) {
    WordEnd(w) - current.start > maxDuration || WordStart(w) - current.end > 1.0
  }

  /** Runs already closed, then the run still open. */
  type RunState = (seq<seq<WordTiming>>, seq<WordTiming>)

  predicate NonEmptyRuns(st: RunState) {
    st.1 != [] && forall j :: 0 <= j < |st.0| ==> st.0[j] != []
  }

  /** One more word either opens a new run, closing the open one, or joins the open one. */
  function Advance(st: RunState, w: WordTiming, maxDuration: real): (r: RunState)
    requires NonEmptyRuns(st)
    ensures NonEmptyRuns(r)
  {
    var (closed, open) := st;
    if Breaks(SegmentOf(open, closed == []), w, maxDuration) then (closed + [open], [w])
    else (closed, open + [w])
  }

  /** The runs of words the grouping forms from a non-empty input. */
  function Runs(words: seq<WordTiming>, maxDuration: real): (r: RunState)
    requires words != []
    ensures NonEmptyRuns(r)
  {
    if |words| == 1 then ([], words)
    else Advance(Runs(words[..|words| - 1], maxDuration), words[|words| - 1], maxDuration)
  }

  /** The segments of a list of non-empty runs, the first of them being the input's first. */
  function SegmentsOf(runs: seq<seq<WordTiming>>): (r: seq<Segment>)
    requires forall j :: 0 <= j < |runs| ==> runs[j] != []
    ensures |r| == |runs| && forall j :: 0 <= j < |runs| ==> r[j] == SegmentOf(runs[j], j == 0)
  {
    if runs == [] then [] else SegmentsOf(runs[..|runs| - 1]) + [SegmentOf(runs[|runs| - 1], |runs| == 1)]
  }

  /** What `_group_words_into_segments` returns: no segments for no words; otherwise one per
      run, the last kept only when its text is not empty. */
  function GroupWords(words: seq<WordTiming>, maxDuration: real): (r: seq<Segment>)
    ensures words == [] ==> r == []
  {
    if words == [] then []
    else
      var (closed, open) := Runs(words, maxDuration);
      var last := SegmentOf(open, closed == []);
      SegmentsOf(closed) + (if last.text != [] then [last] else [])
  }

  /** `_group_words_into_segments`. */
  method GroupWordsIntoSegments(words: seq<WordTiming>, maxDuration: real) returns (segments: seq<Segment>)
    ensures segments == GroupWords(words, maxDuration)
  {
    if |words| == 0 {
      return [];
    }
    segments := [];
    var current := Segment(WordStart(words[0]), EndOr(words[0], 0.0), WordText(words[0]));
    assert words[..1] == [words[0]];
    for i := 1 to |words|
      invariant var st := Runs(words[..i], maxDuration);
        segments == SegmentsOf(st.0) && current == SegmentOf(st.1, st.0 == [])
    {
      RunsSnoc(words, i, maxDuration);
      AdvanceSegments(Runs(words[..i], maxDuration), words[i], maxDuration);
      var w := words[i];
      var wordStart := WordStart(w);
      var wordEnd := EndOr(w, wordStart);
      var wordText := WordText(w);
      var segmentDuration := wordEnd - current.start;
      var timeGap := wordStart - current.end;
      if segmentDuration > maxDuration || timeGap > 1.0 {
        segments := segments + [current];
        current := Segment(wordStart, wordEnd, wordText);
      } else {
        current := current.(end := wordEnd, text := current.text + " " + wordText);
      }
    }
    assert words[..|words|] == words;
    if current.text != [] {
      segments := segments + [current];
    }
  }

  lemma RunsSnoc(words: seq<WordTiming>, i: nat, maxDuration: real)
    requires 1 <= i < |words|
    ensures Runs(words[..i + 1], maxDuration) == Advance(Runs(words[..i], maxDuration), words[i], maxDuration)
  {
    assert words[..i + 1][..i] == words[..i];
  }

  /** The segments of the runs after one more word, from those before it. */
  lemma AdvanceSegments(st: RunState, w: WordTiming, maxDuration: real)
    requires NonEmptyRuns(st)
    ensures var st', current := Advance(st, w, maxDuration), SegmentOf(st.1, st.0 == []);
      && SegmentsOf(st'.0) == (if Breaks(current, w, maxDuration) then SegmentsOf(st.0) + [current] else SegmentsOf(st.0))
      && SegmentOf(st'.1, st'.0 == []) ==
           if Breaks(current, w, maxDuration) then Segment(WordStart(w), WordEnd(w), WordText(w))
           else current.(end := WordEnd(w), text := current.text + " " + WordText(w))
  {
    if Breaks(SegmentOf(st.1, st.0 == []), w, maxDuration) {
      SegmentsOfSnoc(st.0, st.1);
    } else {
      SegmentOfSnoc(st.1, w, st.0 == []);
    }
  }

  lemma SegmentsOfSnoc(runs: seq<seq<WordTiming>>, run: seq<WordTiming>)
    requires run != [] && forall j :: 0 <= j < |runs| ==> runs[j] != []
    ensures SegmentsOf(runs + [run]) == SegmentsOf(runs) + [SegmentOf(run, runs == [])]
  {
    assert (runs + [run])[..|runs|] == runs;
  }

  /** A word joining a run moves the run's end to that word's end and appends its text after
      one space. */
  lemma SegmentOfSnoc(run: seq<WordTiming>, w: WordTiming, first: bool)
    requires run != []
    ensures SegmentOf(run + [w], first)
      == SegmentOf(run, first).(end := WordEnd(w), text := SegmentOf(run, first).text + " " + WordText(w))
  {
    assert (run + [w])[..|run|] == run;
    assert Texts(run + [w]) == Texts(run) + [WordText(w)];
    JoinSnoc(Texts(run), WordText(w), " ");
  }

  /** Flattening a list of lists. */
  function Flatten<T>(xss: seq<seq<T>>): (r: seq<T>) {
    if xss == [] then [] else Flatten(xss[..|xss| - 1]) + xss[|xss| - 1]
  }

  lemma {:induction false} FlattenNonEmpty<T>(xss: seq<seq<T>>)
    requires forall j :: 0 <= j < |xss| ==> xss[j] != []
    ensures |xss| <= |Flatten(xss)|
  {
    if xss != [] {
      FlattenNonEmpty(xss[..|xss| - 1]);
    }
  }

  lemma FlattenSnoc<T>(xss: seq<seq<T>>, xs: seq<T>)
    ensures Flatten(xss + [xs]) == Flatten(xss) + xs
  {
    assert (xss + [xs])[..|xss|] == xss;
  }

  /** One more word extends the flattened runs by that word. */
  lemma AdvanceFlatten(st: RunState, w: WordTiming, maxDuration: real)
    requires NonEmptyRuns(st)
    ensures var st' := Advance(st, w, maxDuration); Flatten(st'.0 + [st'.1]) == Flatten(st.0 + [st.1]) + [w]
  {
    var (closed, open) := st;
    FlattenSnoc(closed, open);
    if Breaks(SegmentOf(open, closed == []), w, maxDuration) {
      FlattenSnoc(closed + [open], [w]);
    } else {
      FlattenSnoc(closed, open + [w]);
    }
  }

  /** The runs split the words in order: read one after the other they are the input. */
  lemma {:induction false} RunsPartition(words: seq<WordTiming>, maxDuration: real)
    requires words != []
    ensures var st := Runs(words, maxDuration); Flatten(st.0 + [st.1]) == words
  {
    if |words| == 1 {
      FlattenSnoc([], words);
      assert Runs(words, maxDuration) == ([], words);
    } else {
      var init, w := words[..|words| - 1], words[|words| - 1];
      RunsPartition(init, maxDuration);
      assert init + [w] == words;
      PartitionStep(Runs(init, maxDuration), init, w, maxDuration);
    }
  }

  lemma PartitionStep(st: RunState, init: seq<WordTiming>, w: WordTiming, maxDuration: real)
    requires NonEmptyRuns(st) && Flatten(st.0 + [st.1]) == init
    ensures var st' := Advance(st, w, maxDuration); Flatten(st'.0 + [st'.1]) == init + [w]
  {
    AdvanceFlatten(st, w, maxDuration);
  }

  /** Each run's segment is broken by the word after it, and no word inside a run breaks the
      segment of the words before it in that run. */
  predicate BreaksExactly(runs: seq<seq<WordTiming>>, maxDuration: real)
    requires forall j :: 0 <= j < |runs| ==> runs[j] != []
  {
    && (forall j :: 0 <= j < |runs| - 1 ==> Breaks(SegmentOf(runs[j], j == 0), runs[j + 1][0], maxDuration))
    && (forall j, k :: 0 <= j < |runs| && 0 < k < |runs[j]| ==>
          !Breaks(SegmentOf(runs[j][..k], j == 0), runs[j][k], maxDuration))
  }

  lemma AdvanceBreaksExactly(st: RunState, w: WordTiming, maxDuration: real)
    requires NonEmptyRuns(st) && BreaksExactly(st.0 + [st.1], maxDuration)
    ensures var st' := Advance(st, w, maxDuration); BreaksExactly(st'.0 + [st'.1], maxDuration)
  {
    var (closed, open) := st;
    if Breaks(SegmentOf(open, closed == []), w, maxDuration) {
      assert Advance(st, w, maxDuration) == (closed + [open], [w]);
      NewRunBreaksExactly(closed, open, w, maxDuration);
    } else {
      assert Advance(st, w, maxDuration) == (closed, open + [w]);
      LongerRunBreaksExactly(closed, open, w, maxDuration);
    }
  }

  /** A word that breaks the open run's segment starts a run of its own. */
  lemma NewRunBreaksExactly(closed: seq<seq<WordTiming>>, open: seq<WordTiming>, w: WordTiming,
                            maxDuration: real)
    requires NonEmptyRuns((closed, open)) && BreaksExactly(closed + [open], maxDuration)
    requires Breaks(SegmentOf(open, closed == []), w, maxDuration)
    ensures BreaksExactly(closed + [open] + [[w]], maxDuration)
  {
    var runs := closed + [open];
    var runs' := runs + [[w]];
    forall j | 0 <= j < |runs'| - 1
      ensures Breaks(SegmentOf(runs'[j], j == 0), runs'[j + 1][0], maxDuration)
    {
      if j < |runs| - 1 {
        assert runs'[j] == runs[j] && runs'[j + 1] == runs[j + 1];
      } else {
        assert runs'[j] == open && runs'[j + 1] == [w] && (j == 0 <==> closed == []);
      }
    }
    forall j, k | 0 <= j < |runs'| && 0 < k < |runs'[j]|
      ensures !Breaks(SegmentOf(runs'[j][..k], j == 0), runs'[j][k], maxDuration)
    {
      assert j < |runs| && runs'[j] == runs[j];
    }
  }

  /** A word that does not break the open run's segment joins that run. */
  lemma LongerRunBreaksExactly(closed: seq<seq<WordTiming>>, open: seq<WordTiming>, w: WordTiming,
                               maxDuration: real)
    requires NonEmptyRuns((closed, open)) && BreaksExactly(closed + [open], maxDuration)
    requires !Breaks(SegmentOf(open, closed == []), w, maxDuration)
    ensures BreaksExactly(closed + [open + [w]], maxDuration)
  {
    var runs := closed + [open];
    var open' := open + [w];
    var runs' := closed + [open'];
    forall j | 0 <= j < |runs'| - 1
      ensures Breaks(SegmentOf(runs'[j], j == 0), runs'[j + 1][0], maxDuration)
    {
      assert runs'[j] == runs[j] && runs'[j + 1][0] == runs[j + 1][0];
    }
    forall j, k | 0 <= j < |runs'| && 0 < k < |runs'[j]|
      ensures !Breaks(SegmentOf(runs'[j][..k], j == 0), runs'[j][k], maxDuration)
    {
      if j < |closed| {
        assert runs'[j] == runs[j];
      } else if k < |open| {
        assert runs'[j][..k] == open[..k] && runs'[j][k] == open[k] && runs[j] == open;
      } else {
        assert runs'[j][..k] == open && runs'[j][k] == w && (j == 0 <==> closed == []);
      }
    }
  }

  /** The runs break exactly where the rule says. */
  lemma {:induction false} RunsBreakExactly(words: seq<WordTiming>, maxDuration: real)
    requires words != []
    ensures var st := Runs(words, maxDuration); BreaksExactly(st.0 + [st.1], maxDuration)
  {
    if |words| > 1 {
      var init := words[..|words| - 1];
      RunsBreakExactly(init, maxDuration);
      AdvanceBreaksExactly(Runs(init, maxDuration), words[|words| - 1], maxDuration);
    } else {
      assert Runs(words, maxDuration).0 + [Runs(words, maxDuration).1] == [words];
    }
  }

  /** The grouping, stated through the runs: the runs cover the words in order, segment `j`
      is the segment of run `j`, and only the last run can be missing, exactly when its text
      is empty; so there are never more segments than words. */
  lemma GroupWordsMeaning(words: seq<WordTiming>, maxDuration: real)
    requires words != []
    ensures var (closed, open) := Runs(words, maxDuration); var runs := closed + [open];
      var r := GroupWords(words, maxDuration);
      && Flatten(runs) == words
      && (forall j :: 0 <= j < |r| ==> r[j] == SegmentOf(runs[j], j == 0))
      && (|r| == |runs| <==> SegmentOf(open, closed == []).text != [])
      && (|r| == |runs| - 1 <==> SegmentOf(open, closed == []).text == [])
      && |r| <= |words|
  {
    var st := Runs(words, maxDuration);
    RunsPartition(words, maxDuration);
    SegmentsWithLast(st.0, st.1);
    FlattenNonEmpty(st.0 + [st.1]);
  }

  /** The segments of closed runs followed by the last run's segment when its text is not empty. */
  lemma SegmentsWithLast(closed: seq<seq<WordTiming>>, open: seq<WordTiming>)
    requires forall j :: 0 <= j < |closed| ==> closed[j] != []
    requires open != []
    ensures var runs, last := closed + [open], SegmentOf(open, closed == []);
      var r := SegmentsOf(closed) + (if last.text != [] then [last] else []);
      && (forall j :: 0 <= j < |r| ==> r[j] == SegmentOf(runs[j], j == 0))
      && (|r| == |runs| <==> last.text != [])
      && (|r| == |runs| - 1 <==> last.text == [])
  {
    var runs, last := closed + [open], SegmentOf(open, closed == []);
    var r := SegmentsOf(closed) + (if last.text != [] then [last] else []);
    forall j | 0 <= j < |r| ensures r[j] == SegmentOf(runs[j], j == 0) {
      if j < |closed| {
        assert r[j] == SegmentsOf(closed)[j] && runs[j] == closed[j];
      } else {
        assert r[j] == last && runs[j] == open && (j == 0) == (closed == []);
      }
    }
  }

  /** Three words in which the third comes a second after the second: two segments, the first
      "Hello there". */
  lemma GroupWordsExample()
    ensures var words := [
        WordTiming(Some("Hello"), None, Some(0.0), Some(0.4)),
        WordTiming(Some("there"), None, Some(0.5), Some(0.9)),
        WordTiming(Some("world"), None, Some(2.0), Some(2.4))];
      var r := GroupWords(words, 1.0);
      |r| == 2 && r[0].text == "Hello there" && r[1].text == "world"
  {
    var hello := WordTiming(Some("Hello"), None, Some(0.0), Some(0.4));
    var there := WordTiming(Some("there"), None, Some(0.5), Some(0.9));
    var world := WordTiming(Some("world"), None, Some(2.0), Some(2.4));
    var words := [hello, there, world];
    assert words[..2][..1] == [hello];
    assert Runs([hello], 1.0) == ([], [hello]);
    assert !Breaks(SegmentOf([hello], true), there, 1.0);
    assert [hello] + [there] == [hello, there];
    assert Advance(([], [hello]), there, 1.0) == ([], [hello, there]);
    assert Runs(words[..2], 1.0) == ([], [hello, there]);
    assert Texts([hello, there]) == ["Hello", "there"] by {
      assert [hello, there][..1] == [hello];
    }
    JoinCons("Hello", ["there"], " ");
    assert ["Hello", "there"] == ["Hello"] + ["there"];
    assert SegmentOf([hello, there], true) == Segment(0.0, 0.9, "Hello there");
    assert Breaks(SegmentOf([hello, there], true), world, 1.0);
    var none: seq<seq<WordTiming>> := [];
    assert none + [[hello, there]] == [[hello, there]];
    assert Advance((none, [hello, there]), world, 1.0) == ([[hello, there]], [world]);
    assert Runs(words, 1.0) == ([[hello, there]], [world]);
  }

  // ---------------------------------------------------------------- speaker heuristic

  /** `_detect_speaker_heuristic`: speakers A and B take turns by segment index, and a
      question hands the turn to the other one. */
  function DetectSpeakerHeuristic(text: string, segmentIndex: nat): (r: Option<string>)
    ensures r.Some?
  {
    if Contains(text, '?') then Some(if segmentIndex % 2 == 0 then "Speaker B" else "Speaker A")
    else Some(if segmentIndex % 2 == 0 then "Speaker A" else "Speaker B")
  }

  /** Speaker A speaks exactly when the index is even and the text asks no question, or the
      index is odd and it does; speaker B otherwise. */
  lemma DetectSpeakerHeuristicMeaning(text: string, segmentIndex: nat)
    ensures var r := DetectSpeakerHeuristic(text, segmentIndex).value;
      && (r == "Speaker A" || r == "Speaker B")
      && (r == "Speaker A" <==> ((segmentIndex % 2 == 0) != Contains(text, '?')))
  {
  }

  /** Consecutive segments with the same kind of text get different speakers. */
  lemma DetectSpeakerHeuristicAlternates(text: string, other: string, segmentIndex: nat)
    requires Contains(text, '?') == Contains(other, '?')
    ensures DetectSpeakerHeuristic(text, segmentIndex) != DetectSpeakerHeuristic(other, segmentIndex + 1)
  {
    assert (segmentIndex % 2 == 0) != ((segmentIndex + 1) % 2 == 0);
  }

  // ---------------------------------------------------------------- recogniser result to items

  /** A segment dictionary from the recogniser, whose keys may be missing. */
  datatype RawSegment = RawSegment(start: Option<real>, end: Option<real>, text: Option<string>)

  /** The recogniser's result: it may hold segments, words, a full text, or none of them. */
  datatype Transcript = Transcript(
    segments: Option<seq<RawSegment>>,
    words: Option<seq<WordTiming>>,
    text: Option<string>)

  /** The segments the result is converted from: its own segments when it has them, else its
      words grouped into segments of at most five seconds, else one segment from 0 to 10
      seconds holding the full text. */
  function SegmentsOfTranscript(result: Transcript): (r: seq<RawSegment>)
    ensures result.segments.Some? ==> r == result.segments.value
    ensures result.segments.None? && result.words.Some? ==>
      var g := GroupWords(result.words.value, 5.0);
      |r| == |g| && |r| <= |result.words.value| &&
      forall i :: 0 <= i < |g| ==> r[i] == RawSegment(Some(g[i].start), Some(g[i].end), Some(g[i].text))
    ensures result.segments.None? && result.words.None? ==>
      r == [RawSegment(Some(0.0), Some(10.0), Some(result.text.GetOr("")))]
  {
    if result.segments.Some? then result.segments.value
    else if result.words.Some? then
      var grouped := GroupWords(result.words.value, 5.0);
      GroupWordsLength(result.words.value, 5.0);
      seq(|grouped|, i requires 0 <= i < |grouped| =>
        RawSegment(Some(grouped[i].start), Some(grouped[i].end), Some(grouped[i].text)))
    else [RawSegment(Some(0.0), Some(10.0), Some(result.text.GetOr("")))]
  }

  lemma GroupWordsLength(words: seq<WordTiming>, maxDuration: real)
    ensures |GroupWords(words, maxDuration)| <= |words|
  {
    if words != [] {
      GroupWordsMeaning(words, maxDuration);
    }
  }

  /** A subtitle item: its number, times and text. */
  datatype SrtItem = SrtItem(index: int, start: SrtTime, end: SrtTime, text: string)

  /** The item for segment `i`, or None when its stripped text is empty. A missing start is 0,
      a missing end five seconds after the start; with speaker detection the text gets the
      heuristic speaker's "Name: " prefix. */
  function ItemFor(segment: RawSegment, i: nat, detectSpeakers: bool): Option<SrtItem> {
    var startTime := segment.start.GetOr(0.0);
    var endTime := segment.end.GetOr(startTime + 5.0);
    var text := Strip(segment.text.GetOr(""));
    if text == [] then None
    else
      var speaker := if detectSpeakers then DetectSpeakerHeuristic(text, i) else None;
      var labelled := if speaker.Some? && speaker.value != [] then speaker.value + ": " + text else text;
      Some(SrtItem(i + 1, SecondsToSrtTime(startTime), SecondsToSrtTime(endTime), labelled))
  }

  /** The items of the conversion loop over the first segments. */
  function Items(segments: seq<RawSegment>, detectSpeakers: bool): seq<SrtItem> {
    if segments == [] then []
    else
      var n := |segments| - 1;
      Items(segments[..n], detectSpeakers) + ItemList(ItemFor(segments[n], n, detectSpeakers))
  }

  /** The conversion loop of `transcribe_audio_to_srt`. */
  method ConvertSegments(segments: seq<RawSegment>, detectSpeakers: bool) returns (subs: seq<SrtItem>)
    ensures subs == Items(segments, detectSpeakers)
  {
    subs := [];
    for i := 0 to |segments|
      invariant subs == Items(segments[..i], detectSpeakers)
    {
      ItemsSnoc(segments, i, detectSpeakers);
      var item := ConvertSegment(segments[i], i, detectSpeakers);
      if item.Some? {
        subs := subs + [item.value];
      }
    }
    assert segments[..|segments|] == segments;
  }

  /** One turn of the conversion loop: the item for segment `i`, or None where the loop
      skips the segment. */
  method ConvertSegment(segment: RawSegment, i: nat, detectSpeakers: bool) returns (item: Option<SrtItem>)
    ensures item == ItemFor(segment, i, detectSpeakers)
  {
    var startTime := segment.start.GetOr(0.0);
    var endTime := segment.end.GetOr(startTime + 5.0);
    var text := Strip(segment.text.GetOr(""));
    if text == [] {
      return None;
    }
    var start := SecondsToSrtTime(startTime);
    var end := SecondsToSrtTime(endTime);
    if detectSpeakers {
      var speaker := DetectSpeakerHeuristic(text, i);
      if speaker.Some? && speaker.value != [] {
        text := speaker.value + ": " + text;
      }
    }
    item := Some(SrtItem(i + 1, start, end, text));
  }

  /** The item of an optional item. */
  function ItemList(item: Option<SrtItem>): seq<SrtItem> {
    match item
    case Some(x) => [x]
    case None => []
  }

  lemma ItemsSnoc(segments: seq<RawSegment>, i: nat, detectSpeakers: bool)
    requires i < |segments|
    ensures Items(segments[..i + 1], detectSpeakers)
      == Items(segments[..i], detectSpeakers) + ItemList(ItemFor(segments[i], i, detectSpeakers))
  {
    assert segments[..i + 1][..i] == segments[..i];
  }

  /** An item exists exactly for a segment with non-blank text, and carries its number. */
  lemma ItemForShape(segment: RawSegment, i: nat, detectSpeakers: bool)
    ensures ItemFor(segment, i, detectSpeakers).Some? <==> Strip(segment.text.GetOr("")) != []
    ensures ItemFor(segment, i, detectSpeakers).Some? ==> ItemFor(segment, i, detectSpeakers).value.index == i + 1
  {
  }

  /** Items numbered after the positions of the segments they come from: increasing numbers
      from 1 to the number of segments, each item being its segment's, and one item for every
      segment with non-blank text. */
  predicate Numbered(items: seq<SrtItem>, segments: seq<RawSegment>, detectSpeakers: bool) {
    && NumbersInRange(items, |segments|)
    && NumbersIncrease(items)
    && ItemsOfSegments(items, segments, detectSpeakers)
    && CoversNonBlank(items, segments)
  }

  predicate NumbersInRange(items: seq<SrtItem>, n: nat) {
    forall j :: 0 <= j < |items| ==> 1 <= items[j].index <= n
  }

  predicate NumbersIncrease(items: seq<SrtItem>) {
    forall j, k :: 0 <= j < k < |items| ==> items[j].index < items[k].index
  }

  /** What the loop makes of each segment, by position. */
  function Outcomes(segments: seq<RawSegment>, detectSpeakers: bool): (r: seq<Option<SrtItem>>)
    ensures |r| == |segments| && forall i :: 0 <= i < |segments| ==> r[i] == ItemFor(segments[i], i, detectSpeakers)
  {
    seq(|segments|, i requires 0 <= i < |segments| => ItemFor(segments[i], i, detectSpeakers))
  }

  predicate ItemsOfSegments(items: seq<SrtItem>, segments: seq<RawSegment>, detectSpeakers: bool) {
    ItemsAmong(items, Outcomes(segments, detectSpeakers))
  }

  /** Each item is the outcome at the position its number names. */
  predicate ItemsAmong(items: seq<SrtItem>, outcomes: seq<Option<SrtItem>>) {
    forall j :: 0 <= j < |items| && 1 <= items[j].index <= |outcomes| ==> outcomes[items[j].index - 1] == Some(items[j])
  }

  predicate HasNumber(items: seq<SrtItem>, number: int) {
    exists j :: 0 <= j < |items| && items[j].index == number
  }

  predicate CoversNonBlank(items: seq<SrtItem>, segments: seq<RawSegment>) {
    forall i :: 0 <= i < |segments| ==> (Strip(segments[i].text.GetOr("")) != [] <==> HasNumber(items, i + 1))
  }

  lemma NumberedSnoc(before: seq<SrtItem>, init: seq<RawSegment>, segment: RawSegment, detectSpeakers: bool)
    requires Numbered(before, init, detectSpeakers)
    ensures Numbered(before + ItemList(ItemFor(segment, |init|, detectSpeakers)), init + [segment], detectSpeakers)
  {
    var o := ItemFor(segment, |init|, detectSpeakers);
    ItemForShape(segment, |init|, detectSpeakers);
    NumbersSnoc(before, |init|, o);
    ItemsOfSegmentsSnoc(before, init, segment, detectSpeakers);
    CoversSnoc(before, init, segment, o);
  }

  lemma NumbersSnoc(before: seq<SrtItem>, n: nat, o: Option<SrtItem>)
    requires NumbersInRange(before, n) && NumbersIncrease(before)
    requires o.Some? ==> o.value.index == n + 1
    ensures NumbersInRange(before + ItemList(o), n + 1) && NumbersIncrease(before + ItemList(o))
  {
  }

  lemma ItemsOfSegmentsSnoc(before: seq<SrtItem>, init: seq<RawSegment>, segment: RawSegment, detectSpeakers: bool)
    requires NumbersInRange(before, |init|) && ItemsOfSegments(before, init, detectSpeakers)
    ensures ItemsOfSegments(before + ItemList(ItemFor(segment, |init|, detectSpeakers)), init + [segment], detectSpeakers)
  {
    var o := ItemFor(segment, |init|, detectSpeakers);
    ItemForShape(segment, |init|, detectSpeakers);
    OutcomesSnoc(init, segment, detectSpeakers);
    ItemsAmongSnoc(before, Outcomes(init, detectSpeakers), o);
  }

  lemma OutcomesSnoc(init: seq<RawSegment>, segment: RawSegment, detectSpeakers: bool)
    ensures Outcomes(init + [segment], detectSpeakers) == Outcomes(init, detectSpeakers) + [ItemFor(segment, |init|, detectSpeakers)]
  {
    var segments := init + [segment];
    forall i | 0 <= i < |init| ensures segments[i] == init[i] {}
  }

  lemma ItemsAmongSnoc(before: seq<SrtItem>, outcomes: seq<Option<SrtItem>>, o: Option<SrtItem>)
    requires NumbersInRange(before, |outcomes|) && ItemsAmong(before, outcomes)
    requires o.Some? ==> o.value.index == |outcomes| + 1
    ensures ItemsAmong(before + ItemList(o), outcomes + [o])
  {
    var items := before + ItemList(o);
    forall j | 0 <= j < |items| && 1 <= items[j].index <= |outcomes| + 1
      ensures (outcomes + [o])[items[j].index - 1] == Some(items[j])
    {
      if j < |before| {
        assert items[j] == before[j];
      }
    }
  }

  lemma CoversSnoc(before: seq<SrtItem>, init: seq<RawSegment>, segment: RawSegment, o: Option<SrtItem>)
    requires NumbersInRange(before, |init|) && CoversNonBlank(before, init)
    requires (o.Some? <==> Strip(segment.text.GetOr("")) != []) && (o.Some? ==> o.value.index == |init| + 1)
    ensures CoversNonBlank(before + ItemList(o), init + [segment])
  {
    var n := |init|;
    var segments := init + [segment];
    var items := before + ItemList(o);
    forall i | 0 <= i < |segments|
      ensures Strip(segments[i].text.GetOr("")) != [] <==> HasNumber(items, i + 1)
    {
      if i < n {
        assert segments[i] == init[i];
        if HasNumber(items, i + 1) {
          var j :| 0 <= j < |items| && items[j].index == i + 1;
          assert j < |before|;
          assert before[j].index == i + 1;
        }
        if HasNumber(before, i + 1) {
          var j :| 0 <= j < |before| && before[j].index == i + 1;
          assert items[j].index == i + 1;
        }
      } else {
        if HasNumber(items, i + 1) {
          var j :| 0 <= j < |items| && items[j].index == i + 1;
          assert j == |before|;
        }
        if o.Some? {
          assert items[|before|].index == i + 1;
        }
      }
    }
  }

  /** The conversion loop numbers its items by the position of their segment, counting from
      1, in increasing order; there is an item numbered `i + 1` exactly when segment `i` has
      non-blank text, and that item is the segment's. */
  lemma {:induction false} ItemsMeaning(segments: seq<RawSegment>, detectSpeakers: bool)
    ensures Numbered(Items(segments, detectSpeakers), segments, detectSpeakers)
    ensures |Items(segments, detectSpeakers)| <= |segments|
  {
    if segments != [] {
      var n := |segments| - 1;
      var init := segments[..n];
      assert init + [segments[n]] == segments;
      ItemsMeaning(init, detectSpeakers);
      NumberedSnoc(Items(init, detectSpeakers), init, segments[n], detectSpeakers);
    }
  }

  /** An item's times: the segment's start, and its end or else five seconds later. */
  lemma ItemTimes(segment: RawSegment, i: nat, detectSpeakers: bool)
    requires ItemFor(segment, i, detectSpeakers).Some?
    ensures var item := ItemFor(segment, i, detectSpeakers).value;
      && item.start == SecondsToSrtTime(segment.start.GetOr(0.0))
      && (segment.end.None? ==> item.end == SecondsToSrtTime(segment.start.GetOr(0.0) + 5.0))
      && (segment.end.Some? ==> item.end == SecondsToSrtTime(segment.end.value))
  {
  }

  /** Without speaker detection an item holds the stripped text; with it, the text behind the
      heuristic speaker's label, which the label parser reads back. */
  lemma ItemText(segment: RawSegment, i: nat)
    requires Strip(segment.text.GetOr("")) != []
    ensures var text := Strip(segment.text.GetOr(""));
      && ItemFor(segment, i, false).value.text == text
      && ItemFor(segment, i, true).value.text == DetectSpeakerHeuristic(text, i).value + ": " + text
  {
  }
}
