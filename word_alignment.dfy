/**
  Word-level alignment of subtitle text against recognised word timings: tokenising the
  text, keeping the words inside the subtitle's time window, greedily matching each token
  to its most similar unused word, the resulting confidence, and the timing strategy that
  confidence selects.

  The string similarity (`difflib.SequenceMatcher(None, a, b).ratio()`) is the function
  parameter `sim`; where its range matters, `SimBounded(sim)` is a hypothesis.
*/
module WordAlignment {
  import opened Wrappers
  import opened Text
  import opened Timings
  import opened Numbers

  /** What the similarity ratio promises: a value between 0 and 1. */
  ghost predicate SimBounded(sim: (string, string) -> real) {
    forall a, b :: 0.0 <= sim(a, b) <= 1.0
  }

  // ---------------------------------------------------------------- fuzzy_match_word

  /** `word.get('word', '').lower().strip()`: what a candidate is compared by. */
  function Key(w: WordTiming): string {
    Strip(Lower(WordOr(w, "")))
  }

  /** The keys of all candidates, in order. */
  function Keys(ws: seq<WordTiming>): (r: seq<string>)
    ensures |r| == |ws| && forall k :: 0 <= k < |ws| ==> r[k] == Key(ws[k])
  {
    seq(|ws|, k requires 0 <= k < |ws| => Key(ws[k]))
  }

  /** The scan of `fuzzy_match_word` over the candidates' keys: the position of the best
      candidate so far and its score, starting from no match and 0.0. An empty key is skipped;
      a later candidate replaces the best only with a strictly higher similarity. */
  function BestIn(seg: string, keys: seq<string>, sim: (string, string) -> real): (r: (Option<nat>, real))
    ensures r.0.Some? ==> r.0.value < |keys|
    decreases |keys|
  {
    if keys == [] then (None, 0.0)
    else
      var before := BestIn(seg, keys[..|keys| - 1], sim);
      var cand := keys[|keys| - 1];
      if cand == [] then before
      else
        var s := sim(seg, cand);
        if s > before.1 then (Some(|keys| - 1), s) else before
  }

  /** The score is the largest similarity of a non-empty key, or 0.0; a best candidate
      exists exactly when that score is positive, and it is the earliest one reaching it. */
  lemma {:induction false} BestInMeaning(seg: string, keys: seq<string>, sim: (string, string) -> real)
    ensures var r := BestIn(seg, keys, sim);
      && r.1 >= 0.0
      && (forall k :: 0 <= k < |keys| && keys[k] != [] ==> sim(seg, keys[k]) <= r.1)
      && (r.0.None? ==> r.1 == 0.0)
      && (r.0.Some? ==>
            && keys[r.0.value] != [] && sim(seg, keys[r.0.value]) == r.1 && r.1 > 0.0
            && forall j :: 0 <= j < r.0.value && keys[j] != [] ==> sim(seg, keys[j]) < r.1)
    decreases |keys|
  {
    if keys != [] {
      var n := |keys| - 1;
      var init := keys[..n];
      BestInMeaning(seg, init, sim);
      forall k | 0 <= k < n ensures init[k] == keys[k] {
      }
    }
  }

  /** `fuzzy_match_word`: the best candidate and its score, the candidate only when the score
      reaches the threshold. */
  function FuzzyMatch(segmentWord: string, ws: seq<WordTiming>, threshold: real,
                      sim: (string, string) -> real): (r: (Option<WordTiming>, real))
    ensures r.0.Some? ==> r.0.value in ws
  {
    var best := BestIn(Strip(Lower(segmentWord)), Keys(ws), sim);
    if best.1 >= threshold then
      (if best.0.Some? then Some(ws[best.0.value]) else None, best.1)
    else
      (None, best.1)
  }

  /** A match is returned exactly when the score is positive and reaches the threshold; the
      score bounds every candidate's similarity, and the match is the earliest candidate
      attaining it (`Keys(ws)[k]` is candidate `k`'s key). */
  lemma FuzzyMatchMeaning(segmentWord: string, ws: seq<WordTiming>, threshold: real,
                          sim: (string, string) -> real)
    ensures var r, seg, keys := FuzzyMatch(segmentWord, ws, threshold, sim), Strip(Lower(segmentWord)), Keys(ws);
      && r.1 >= 0.0
      && (forall k :: 0 <= k < |ws| && keys[k] != [] ==> sim(seg, keys[k]) <= r.1)
      && (r.0.Some? <==> r.1 >= threshold && r.1 > 0.0)
      && (r.0.Some? ==>
            exists k :: (0 <= k < |ws| && ws[k] == r.0.value
              && keys[k] != [] && sim(seg, keys[k]) == r.1
              && forall j :: 0 <= j < k && keys[j] != [] ==> sim(seg, keys[j]) < r.1))
      && (SimBounded(sim) ==> r.1 <= 1.0)
  {
    var seg, keys := Strip(Lower(segmentWord)), Keys(ws);
    BestInMeaning(seg, keys, sim);
    var best := BestIn(seg, keys, sim);
    if best.0.Some? {
      var k := best.0.value;
      assert ws[k] == ws[k];
    }
  }

  /** The scan one candidate further on. */
  lemma BestInSnoc(seg: string, ws: seq<WordTiming>, i: nat, sim: (string, string) -> real)
    requires i < |ws|
    ensures var before, key := BestIn(seg, Keys(ws[..i]), sim), Key(ws[i]);
      BestIn(seg, Keys(ws[..i + 1]), sim) ==
        if key == [] then before
        else if sim(seg, key) > before.1 then (Some(i), sim(seg, key))
        else before
  {
    var keys := Keys(ws[..i + 1]);
    assert keys[..i] == Keys(ws[..i]);
  }

  /** The loop of `fuzzy_match_word`. */
  method FuzzyMatchWord(segmentWord: string, candidateWords: seq<WordTiming>, threshold: real,
                        sim: (string, string) -> real)
    returns (bestMatch: Option<WordTiming>, bestScore: real)
    ensures (bestMatch, bestScore) == FuzzyMatch(segmentWord, candidateWords, threshold, sim)
  {
    bestMatch := None;
    bestScore := 0.0;
    ghost var bestIndex: Option<nat> := None;
    var segmentWordLower := Strip(Lower(segmentWord));
    for i := 0 to |candidateWords|
      invariant (bestIndex, bestScore) == BestIn(segmentWordLower, Keys(candidateWords[..i]), sim)
      invariant bestMatch == if bestIndex.Some? then Some(candidateWords[bestIndex.value]) else None
    {
      BestInSnoc(segmentWordLower, candidateWords, i, sim);
      var word := candidateWords[i];
      var candidateWord := Strip(Lower(WordOr(word, "")));
      if candidateWord == [] {
        continue;
      }
      var similarity := sim(segmentWordLower, candidateWord);
      if similarity > bestScore {
        bestScore := similarity;
        bestMatch := Some(word);
        bestIndex := Some(i);
      }
    }
    assert candidateWords[..|candidateWords|] == candidateWords;
    if bestScore < threshold {
      bestMatch := None;
    }
  }

  // ---------------------------------------------------------------- match_words_to_segment

  /** `[w for w in word_timings if segment_start_s <= w.get('start', 0) <= segment_end_s]`. */
  function CandidatesInWindow(ws: seq<WordTiming>, startS: real, endS: real): (r: seq<WordTiming>)
    ensures |r| <= |ws|
  {
    if ws == [] then []
    else
      var before := CandidatesInWindow(ws[..|ws| - 1], startS, endS);
      var w := ws[|ws| - 1];
      if startS <= StartOr(w, 0.0) <= endS then before + [w] else before
  }

  /** The candidates are exactly the words whose start (0 when missing) lies in the closed
      window. */
  lemma {:induction false} CandidatesInWindowMeaning(ws: seq<WordTiming>, startS: real, endS: real)
    ensures forall w :: w in CandidatesInWindow(ws, startS, endS) <==> w in ws && startS <= StartOr(w, 0.0) <= endS
  {
    if ws != [] {
      var init := ws[..|ws| - 1];
      CandidatesInWindowMeaning(init, startS, endS);
      assert ws == init + [ws[|ws| - 1]];
    }
  }

  /** The candidate positions below `n` not in `used`, in increasing order
      (`[(i, w) for i, w in enumerate(candidate_words) if i not in used_indices]`). */
  function Available(n: nat, used: set<nat>): (r: seq<nat>)
    ensures forall k :: 0 <= k < |r| ==> r[k] < n && r[k] !in used
  {
    if n == 0 then [] else Available(n - 1, used) + (if n - 1 in used then [] else [n - 1])
  }

  /** No position is available exactly when all of them are used. */
  lemma {:induction false} AvailableEmpty(n: nat, used: set<nat>)
    ensures Available(n, used) == [] <==> forall i :: 0 <= i < n ==> i in used
  {
    if n > 0 {
      AvailableEmpty(n - 1, used);
    }
  }

  /** The candidates at the given positions. */
  function Pick(cands: seq<WordTiming>, positions: seq<nat>): (r: seq<WordTiming>)
    requires forall k :: 0 <= k < |positions| ==> positions[k] < |cands|
    ensures |r| == |positions|
    ensures forall k :: 0 <= k < |positions| ==> r[k] == cands[positions[k]]
  {
    seq(|positions|, k requires 0 <= k < |positions| => cands[positions[k]])
  }

  /** The position of the first element equal to `x`. */
  function FirstEqual(ws: seq<WordTiming>, x: WordTiming): (i: nat)
    requires x in ws
    ensures i < |ws| && ws[i] == x
    ensures forall j :: 0 <= j < i ==> ws[j] != x
  {
    if ws[0] == x then 0 else 1 + FirstEqual(ws[1..], x)
  }

  /** What happened to one token: matched to the candidate at `index` with `score`, or not. */
  datatype Outcome = Matched(index: nat, word: WordTiming, score: real) | Unmatched

  /** One turn of the token loop: the best unused candidate, if any reaches the threshold. The
      position marked used is that of the first available candidate equal to the match.
      (`if best_match:` tests a dictionary for being non-empty; a match always has a
      non-empty `word`, so the test is the same as testing for a match.) */
  function Step(cands: seq<WordTiming>, used: set<nat>, token: string, threshold: real,
                sim: (string, string) -> real): (o: Outcome)
    ensures o.Matched? ==> o.index < |cands| && o.index !in used && o.word == cands[o.index]
  {
    var available := Available(|cands|, used);
    if available == [] then Unmatched
    else
      var dicts := Pick(cands, available);
      var found := FuzzyMatch(token, dicts, threshold, sim);
      if found.0.None? then Unmatched
      else Matched(available[FirstEqual(dicts, found.0.value)], found.0.value, found.1)
  }

  /** A match scores at least the threshold and more than 0, and at most 1 for a bounded
      similarity. */
  lemma StepScore(cands: seq<WordTiming>, used: set<nat>, token: string, threshold: real,
                  sim: (string, string) -> real)
    ensures var o := Step(cands, used, token, threshold, sim);
      o.Matched? ==> o.score >= threshold && o.score > 0.0 && (SimBounded(sim) ==> o.score <= 1.0)
  {
    var available := Available(|cands|, used);
    if available != [] {
      FuzzyMatchMeaning(token, Pick(cands, available), threshold, sim);
    }
  }

  /** The outcomes of the token loop over `tokens` and the positions it has used, in order. */
  function Run(cands: seq<WordTiming>, tokens: seq<string>, threshold: real,
               sim: (string, string) -> real): (r: (seq<Outcome>, set<nat>))
    ensures |r.0| == |tokens|
    decreases |tokens|
  {
    if tokens == [] then ([], {})
    else
      var before := Run(cands, tokens[..|tokens| - 1], threshold, sim);
      var o := Step(cands, before.1, tokens[|tokens| - 1], threshold, sim);
      (before.0 + [o], if o.Matched? then before.1 + {o.index} else before.1)
  }

  /** `matched_words`: the matched candidates, in token order. */
  function MatchedWords(os: seq<Outcome>): seq<WordTiming> {
    if os == [] then []
    else
      var last := os[|os| - 1];
      MatchedWords(os[..|os| - 1]) + (if last.Matched? then [last.word] else [])
  }

  /** `match_scores`: the scores of the matches, in token order. */
  function Scores(os: seq<Outcome>): (r: seq<real>)
    ensures |r| == |MatchedWords(os)|
  {
    if os == [] then []
    else
      var last := os[|os| - 1];
      Scores(os[..|os| - 1]) + (if last.Matched? then [last.score] else [])
  }

  /** `unmatched_words`: the tokens that found no match, in token order. */
  function UnmatchedWords(tokens: seq<string>, os: seq<Outcome>): seq<string>
    requires |tokens| == |os|
  {
    if os == [] then []
    else
      var n := |os| - 1;
      UnmatchedWords(tokens[..n], os[..n]) + (if os[n].Unmatched? then [tokens[n]] else [])
  }

  /** `(matched / total) * mean(scores)`, with a mean of 0.0 for no scores and 0.0 for no
      tokens. */
  function Confidence(matchedCount: nat, total: nat, scores: seq<real>): real {
    if total > 0 then (matchedCount as real / total as real) * MeanScore(scores) else 0.0
  }

  /** The mean of the scores, 0.0 for none. */
  function MeanScore(scores: seq<real>): real {
    if scores != [] then Sum(scores) / |scores| as real else 0.0
  }

  /** One turn of the token loop, as the source runs it: list the available candidates, match
      against them, and mark the first available position holding the match. */
  method MatchOne(cands: seq<WordTiming>, used: set<nat>, token: string, threshold: real,
                  sim: (string, string) -> real)
    returns (o: Outcome, usedAfter: set<nat>)
    ensures o == Step(cands, used, token, threshold, sim)
    ensures usedAfter == if o.Matched? then used + {o.index} else used
  {
    var available := Available(|cands|, used);
    if available == [] {
      return Unmatched, used;
    }
    var candidateDicts := Pick(cands, available);
    var bestMatch, score := FuzzyMatchWord(token, candidateDicts, threshold, sim);
    if bestMatch.None? {
      return Unmatched, used;
    }
    var i := 0;
    while candidateDicts[i] != bestMatch.value
      invariant i <= FirstEqual(candidateDicts, bestMatch.value)
      decreases |candidateDicts| - i
    {
      i := i + 1;
    }
    assert i == FirstEqual(candidateDicts, bestMatch.value);
    usedAfter := used + {available[i]};
    o := Matched(available[i], bestMatch.value, score);
  }

  /** The token loop of `match_words_to_segment`. */
  method MatchTokens(candidateWords: seq<WordTiming>, textWords: seq<string>, threshold: real,
                     sim: (string, string) -> real)
    returns (matchedWords: seq<WordTiming>, matchScores: seq<real>, unmatchedWords: seq<string>)
    ensures var os := Run(candidateWords, textWords, threshold, sim).0;
      && matchedWords == MatchedWords(os)
      && matchScores == Scores(os)
      && unmatchedWords == UnmatchedWords(textWords, os)
  {
    matchedWords, matchScores, unmatchedWords := [], [], [];
    var usedIndices: set<nat> := {};
    ghost var outcomes: seq<Outcome> := [];
    for t := 0 to |textWords|
      invariant (outcomes, usedIndices) == Run(candidateWords, textWords[..t], threshold, sim)
      invariant |outcomes| == t
      invariant matchedWords == MatchedWords(outcomes)
      invariant unmatchedWords == UnmatchedWords(textWords[..t], outcomes)
      invariant matchScores == Scores(outcomes)
    {
      var textWord := textWords[t];
      var o, usedAfter := MatchOne(candidateWords, usedIndices, textWord, threshold, sim);
      RunSnoc(candidateWords, textWords, t, threshold, sim);
      OutcomesSnoc(outcomes, o);
      UnmatchedSnoc(textWords, t, outcomes, o);
      if o.Matched? {
        matchedWords := matchedWords + [o.word];
        matchScores := matchScores + [o.score];
      } else {
        unmatchedWords := unmatchedWords + [textWord];
      }
      usedIndices := usedAfter;
      outcomes := outcomes + [o];
    }
    assert textWords[..|textWords|] == textWords;
  }

  /** The token loop one token further on. */
  lemma RunSnoc(cands: seq<WordTiming>, tokens: seq<string>, t: nat, threshold: real,
                sim: (string, string) -> real)
    requires t < |tokens|
    ensures var before := Run(cands, tokens[..t], threshold, sim);
      var o := Step(cands, before.1, tokens[t], threshold, sim);
      Run(cands, tokens[..t + 1], threshold, sim) == (before.0 + [o], if o.Matched? then before.1 + {o.index} else before.1)
  {
    assert tokens[..t + 1][..t] == tokens[..t];
  }

  /** One more outcome adds its word and score to the matches when it is a match. */
  lemma OutcomesSnoc(os: seq<Outcome>, o: Outcome)
    ensures MatchedWords(os + [o]) == MatchedWords(os) + (if o.Matched? then [o.word] else [])
    ensures Scores(os + [o]) == Scores(os) + (if o.Matched? then [o.score] else [])
  {
    assert (os + [o])[..|os|] == os;
  }

  /** One more outcome adds its token to the unmatched ones when it is not a match. */
  lemma UnmatchedSnoc(tokens: seq<string>, t: nat, os: seq<Outcome>, o: Outcome)
    requires t < |tokens| && |os| == t
    ensures UnmatchedWords(tokens[..t + 1], os + [o]) ==
      UnmatchedWords(tokens[..t], os) + (if o.Unmatched? then [tokens[t]] else [])
  {
    assert (os + [o])[..t] == os;
    assert tokens[..t + 1][..t] == tokens[..t];
  }

  /** `match_words_to_segment`: with no candidate in the window or no token, nothing is matched,
      nothing is reported unmatched and the confidence is 0.0; otherwise the lists and the
      confidence are those of the token loop (`Run`). */
  method MatchWordsToSegment(segmentText: string, wordTimings: seq<WordTiming>, startS: real, endS: real,
                             threshold: real, sim: (string, string) -> real)
    returns (matchedWords: seq<WordTiming>, confidence: real, unmatchedWords: seq<string>)
    ensures var cands, tokens := CandidatesInWindow(wordTimings, startS, endS), SplitTextIntoWords(segmentText);
      if cands == [] || tokens == [] then matchedWords == [] && confidence == 0.0 && unmatchedWords == []
      else
        var os := Run(cands, tokens, threshold, sim).0;
        && matchedWords == MatchedWords(os)
        && unmatchedWords == UnmatchedWords(tokens, os)
        && confidence == Confidence(|matchedWords|, |tokens|, Scores(os))
  {
    var candidateWords := CandidatesInWindow(wordTimings, startS, endS);
    if candidateWords == [] {
      return [], 0.0, [];
    }
    var textWords := SplitTextIntoWords(segmentText);
    if textWords == [] {
      return [], 0.0, [];
    }
    var matchScores;
    matchedWords, matchScores, unmatchedWords := MatchTokens(candidateWords, textWords, threshold, sim);
    confidence := ConfidenceOf(|matchedWords|, |textWords|, matchScores);
  }

  /** The confidence computation at the end of `match_words_to_segment`. */
  method ConfidenceOf(matchedCount: nat, totalWords: nat, matchScores: seq<real>) returns (confidence: real)
    ensures confidence == Confidence(matchedCount, totalWords, matchScores)
  {
    if totalWords > 0 {
      var avgMatchScore := if matchScores != [] then Sum(matchScores) / |matchScores| as real else 0.0;
      confidence := (matchedCount as real / totalWords as real) * avgMatchScore;
    } else {
      confidence := 0.0;
    }
  }

  /** No two matches name the same candidate. */
  ghost predicate DistinctMatches(os: seq<Outcome>) {
    forall j, k :: 0 <= j < k < |os| && os[j].Matched? && os[k].Matched? ==> os[j].index != os[k].index
  }

  /** Each match names an in-range candidate at a position marked used, and scores at least
      the threshold and more than 0 (at most 1 when `bounded`); marked positions are in range. */
  ghost predicate MatchFacts(os: seq<Outcome>, used: set<nat>, cands: seq<WordTiming>, threshold: real,
                             bounded: bool)
  {
    && (forall k :: 0 <= k < |os| && os[k].Matched? ==>
          && os[k].index in used && os[k].index < |cands| && os[k].word == cands[os[k].index]
          && os[k].score >= threshold && os[k].score > 0.0 && (bounded ==> os[k].score <= 1.0))
    && (forall i :: i in used ==> i < |cands|)
  }

  /** One more outcome at a fresh position keeps the facts and the distinctness. */
  lemma ExtendMatches(os: seq<Outcome>, used: set<nat>, o: Outcome, cands: seq<WordTiming>,
                      threshold: real, bounded: bool)
    requires MatchFacts(os, used, cands, threshold, bounded) && DistinctMatches(os)
    requires o.Matched? ==> && o.index < |cands| && o.index !in used && o.word == cands[o.index]
                            && o.score >= threshold && o.score > 0.0 && (bounded ==> o.score <= 1.0)
    ensures var used' := if o.Matched? then used + {o.index} else used;
      MatchFacts(os + [o], used', cands, threshold, bounded) && DistinctMatches(os + [o])
  {
    var os' := os + [o];
    forall j, k | 0 <= j < k < |os'| && os'[j].Matched? && os'[k].Matched?
      ensures os'[j].index != os'[k].index
    {
      assert os'[j] == os[j];
      if k == |os| {
        assert os[j].index in used;
      } else {
        assert os'[k] == os[k];
      }
    }
  }

  /** The outcomes of a run satisfy the match facts against its used positions, and no
      candidate is matched twice. */
  lemma {:induction false} RunMatches(cands: seq<WordTiming>, tokens: seq<string>, threshold: real,
                                      sim: (string, string) -> real)
    ensures var r := Run(cands, tokens, threshold, sim);
      MatchFacts(r.0, r.1, cands, threshold, SimBounded(sim)) && DistinctMatches(r.0)
    decreases |tokens|
  {
    if tokens != [] {
      var n := |tokens| - 1;
      var before := Run(cands, tokens[..n], threshold, sim);
      RunMatches(cands, tokens[..n], threshold, sim);
      StepScore(cands, before.1, tokens[n], threshold, sim);
      var o := Step(cands, before.1, tokens[n], threshold, sim);
      ExtendMatches(before.0, before.1, o, cands, threshold, SimBounded(sim));
    }
  }

  /** The used positions are as many as the matches. */
  lemma {:induction false} RunUsedCount(cands: seq<WordTiming>, tokens: seq<string>, threshold: real,
                                        sim: (string, string) -> real)
    ensures var r := Run(cands, tokens, threshold, sim);
      |r.1| == |MatchedWords(r.0)|
    decreases |tokens|
  {
    if tokens != [] {
      var n := |tokens| - 1;
      var before := Run(cands, tokens[..n], threshold, sim);
      RunUsedCount(cands, tokens[..n], threshold, sim);
      var os := Run(cands, tokens, threshold, sim).0;
      assert os[..n] == before.0;
    }
  }

  /** A set of positions below `n` has at most `n` elements. */
  lemma {:induction false} BoundedSetSize(s: set<nat>, n: nat)
    requires forall i :: i in s ==> i < n
    ensures |s| <= n
  {
    if n > 0 {
      BoundedSetSize(s - {n - 1}, n - 1);
    } else {
      assert s == {};
    }
  }

  /** Every token is either matched or unmatched. */
  lemma {:induction false} Partition(tokens: seq<string>, os: seq<Outcome>)
    requires |tokens| == |os|
    ensures |MatchedWords(os)| + |UnmatchedWords(tokens, os)| == |tokens|
  {
    if os != [] {
      var n := |os| - 1;
      Partition(tokens[..n], os[..n]);
    }
  }

  /** The scores inherit the bounds of the matches they come from. */
  lemma {:induction false} ScoresBounded(os: seq<Outcome>, bounded: bool)
    requires forall k :: 0 <= k < |os| && os[k].Matched? ==> os[k].score > 0.0 && (bounded ==> os[k].score <= 1.0)
    ensures forall i :: 0 <= i < |Scores(os)| ==> Scores(os)[i] > 0.0 && (bounded ==> Scores(os)[i] <= 1.0)
  {
    if os != [] {
      var n := |os| - 1;
      var init := os[..n];
      forall k | 0 <= k < n ensures init[k] == os[k] {
      }
      ScoresBounded(init, bounded);
    }
  }

  /** Positive scores have a positive sum, and scores of at most 1 sum to at most their number. */
  lemma {:induction false} SumBounds(xs: seq<real>, bounded: bool)
    requires forall i :: 0 <= i < |xs| ==> xs[i] > 0.0 && (bounded ==> xs[i] <= 1.0)
    ensures xs != [] ==> Sum(xs) > 0.0
    ensures bounded ==> Sum(xs) <= |xs| as real
  {
    if xs != [] {
      var n := |xs| - 1;
      var init := xs[..n];
      forall i | 0 <= i < n ensures init[i] == xs[i] {
      }
      SumBounds(init, bounded);
    }
  }

  /** The confidence is 0 exactly when nothing matched, and lies in [0, 1] for a bounded
      similarity. */
  lemma ConfidenceBounds(matchedCount: nat, total: nat, scores: seq<real>, bounded: bool)
    requires matchedCount <= total && |scores| == matchedCount
    requires forall i :: 0 <= i < |scores| ==> scores[i] > 0.0 && (bounded ==> scores[i] <= 1.0)
    ensures var c := Confidence(matchedCount, total, scores);
      && (c == 0.0 <==> matchedCount == 0)
      && c >= 0.0
      && (bounded ==> c <= 1.0)
  {
    SumBounds(scores, bounded);
    if matchedCount > 0 {
      var ratio, avg := matchedCount as real / total as real, MeanScore(scores);
      assert Confidence(matchedCount, total, scores) == ratio * avg;
      DivBetween(0.0, matchedCount as real, 1.0, total);
      DivPositive(matchedCount as real, total as real);
      DivPositive(Sum(scores), |scores| as real);
      if bounded {
        DivBetween(0.0, Sum(scores), 1.0, |scores|);
      }
      ProductBounds(ratio, avg);
    }
  }

  lemma ProductBounds(ratio: real, avg: real)
    requires 0.0 < ratio <= 1.0 && avg > 0.0
    ensures ratio * avg > 0.0 && (avg <= 1.0 ==> ratio * avg <= 1.0)
  {
    MulStrict(0.0, ratio, avg);
    if avg <= 1.0 {
      MulMonotone(ratio, 1.0, avg);
    }
  }

  /** What the result of `match_words_to_segment` satisfies when there are candidates and
      tokens: every token is matched or unmatched, no candidate is matched twice (so there are
      at most as many matches as candidates), every match is a candidate scoring at least the
      threshold, and the confidence is 0 exactly when nothing matched and within [0, 1] for a
      bounded similarity. */
  lemma MatchResultMeaning(cands: seq<WordTiming>, tokens: seq<string>, threshold: real,
                           sim: (string, string) -> real)
    requires tokens != []
    ensures var os := Run(cands, tokens, threshold, sim).0;
      var matched, c := MatchedWords(os), Confidence(|MatchedWords(os)|, |tokens|, Scores(os));
      && |matched| + |UnmatchedWords(tokens, os)| == |tokens|
      && |matched| <= |cands|
      && DistinctMatches(os)
      && (forall k :: 0 <= k < |os| && os[k].Matched? ==>
            os[k].index < |cands| && os[k].word == cands[os[k].index] && os[k].score >= threshold)
      && (c == 0.0 <==> matched == [])
      && c >= 0.0
      && (SimBounded(sim) ==> c <= 1.0)
  {
    var r := Run(cands, tokens, threshold, sim);
    RunMatches(cands, tokens, threshold, sim);
    RunUsedCount(cands, tokens, threshold, sim);
    BoundedSetSize(r.1, |cands|);
    Partition(tokens, r.0);
    ScoresBounded(r.0, SimBounded(sim));
    ConfidenceBounds(|MatchedWords(r.0)|, |tokens|, Scores(r.0), SimBounded(sim));
  }

  // ---------------------------------------------------------------- _split_text_into_words

  /** `re.sub(r'\([^)]*\)', '', s)` for an opening and a closing character: an opening character
      with a closing one somewhere after it is removed together with everything up to and
      including the first such closing character. */
  function RemoveGroups(s: string, open: char, close: char): (r: string)
    ensures |r| <= |s|
    decreases |s|
  {
    if s == [] then []
    else if s[0] == open && Contains(s[1..], close) then
      RemoveGroups(s[1..][IndexOf(s[1..], close) + 1..], open, close)
    else
      [s[0]] + RemoveGroups(s[1..], open, close)
  }

  /** After the removal no opening character is followed, anywhere later, by a closing one. */
  lemma {:induction false} RemoveGroupsLeavesNoGroup(s: string, open: char, close: char)
    requires open != close
    ensures var r := RemoveGroups(s, open, close);
      forall i, j :: 0 <= i < j < |r| && r[i] == open ==> r[j] != close
    decreases |s|
  {
    if s == [] {
    } else if s[0] == open && Contains(s[1..], close) {
      var after := s[1..][IndexOf(s[1..], close) + 1..];
      assert RemoveGroups(s, open, close) == RemoveGroups(after, open, close);
      RemoveGroupsLeavesNoGroup(after, open, close);
    } else {
      var rest := RemoveGroups(s[1..], open, close);
      RemoveGroupsLeavesNoGroup(s[1..], open, close);
      var r := [s[0]] + rest;
      if s[0] == open {
        forall j | 0 < j < |r| ensures r[j] != close {
          RemoveGroupsKeepsAbsent(s[1..], open, close);
          assert r[j] == rest[j - 1];
        }
      }
      forall i, j | 0 < i < j < |r| && r[i] == open ensures r[j] != close {
        assert r[i] == rest[i - 1] && r[j] == rest[j - 1];
      }
    }
  }

  /** A character absent from the text is absent after the removal. */
  lemma {:induction false} RemoveGroupsKeepsAbsent(s: string, open: char, close: char)
    requires !Contains(s, close)
    ensures !Contains(RemoveGroups(s, open, close), close)
    decreases |s|
  {
    if s != [] {
      assert !Contains(s[1..], close) by {
        forall k | 0 <= k < |s[1..]| ensures s[1..][k] != close {
          assert s[1..][k] == s[k + 1];
        }
      }
      RemoveGroupsKeepsAbsent(s[1..], open, close);
      var rest := RemoveGroups(s[1..], open, close);
      var r := [s[0]] + rest;
      forall k | 0 <= k < |r| ensures r[k] != close {
        if k > 0 {
          assert r[k] == rest[k - 1];
        }
      }
    }
  }

  /** The characters `[a-zA-Z']`. */
  predicate IsWordChar(c: char) {
    IsLetter(c) || c == '\''
  }

  /** `_split_text_into_words`: parenthesised and bracketed asides removed, then the maximal
      runs of ASCII letters and apostrophes. */
  function SplitTextIntoWords(text: string): seq<string> {
    if text == [] then []
    else Runs(RemoveGroups(RemoveGroups(text, '(', ')'), '[', ']'), IsWordChar)
  }

  /** Every token is a non-empty run of letters and apostrophes. */
  lemma SplitTextIntoWordsTokens(text: string)
    ensures var ws := SplitTextIntoWords(text);
      forall k :: 0 <= k < |ws| ==> ws[k] != [] && forall j :: 0 <= j < |ws[k]| ==> IsWordChar(ws[k][j])
  {
  }

  /** The words are the maximal runs: a leading run of word characters ended by a separator
      (neither a word character nor an opening bracket) is exactly the first word, and the
      rest of the text gives the remaining words. */
  lemma SplitTextIntoWordsLeadingWord(w: string, c: char, rest: string)
    requires w != [] && forall k :: 0 <= k < |w| ==> IsWordChar(w[k])
    requires !IsWordChar(c) && c != '(' && c != '['
    ensures SplitTextIntoWords(w + [c] + rest) == [w] + SplitTextIntoWords(rest)
  {
    var a := w + [c];
    assert !Contains(a, '(') && !Contains(a, '[') by {
      forall k | 0 <= k < |a| ensures a[k] != '(' && a[k] != '[' {
        if k < |w| { assert a[k] == w[k]; }
      }
    }
    RemoveGroupsPrefix(a, rest, '(', ')');
    var r1 := RemoveGroups(rest, '(', ')');
    RemoveGroupsPrefix(a, r1, '[', ']');
    RunsOfWord(w, c, RemoveGroups(r1, '[', ']'), IsWordChar);
  }

  /** A text made only of word characters is a single word. */
  lemma SplitTextIntoWordsSingleWord(w: string)
    requires w != [] && forall k :: 0 <= k < |w| ==> IsWordChar(w[k])
    ensures SplitTextIntoWords(w) == [w]
  {
    assert !Contains(w, '(') && !Contains(w, '[') by {
      forall k | 0 <= k < |w| ensures w[k] != '(' && w[k] != '[' {
        assert IsWordChar(w[k]);
      }
    }
    RemoveGroupsAbsent(w, '(', ')');
    RemoveGroupsAbsent(w, '[', ']');
    RunsOfKept(w, IsWordChar);
  }

  /** Text without an opening character passes through the removal unchanged in front. */
  lemma {:induction false} RemoveGroupsPrefix(a: string, b: string, open: char, close: char)
    requires !Contains(a, open)
    ensures RemoveGroups(a + b, open, close) == a + RemoveGroups(b, open, close)
  {
    if a != [] {
      assert a[0] != open;
      assert !Contains(a[1..], open) by {
        forall k | 0 <= k < |a[1..]| ensures a[1..][k] != open {
          assert a[1..][k] == a[k + 1];
        }
      }
      assert (a + b)[1..] == a[1..] + b;
      RemoveGroupsPrefix(a[1..], b, open, close);
    } else {
      assert a + b == b;
    }
  }

  lemma RemoveGroupsAbsent(a: string, open: char, close: char)
    requires !Contains(a, open)
    ensures RemoveGroups(a, open, close) == a
  {
    RemoveGroupsPrefix(a, [], open, close);
    assert a + [] == a;
  }

  /** Contractions stay whole and punctuation separates words. */
  lemma SplitTextIntoWordsExample()
    ensures SplitTextIntoWords("Don't do it!") == ["Don't", "do", "it"]
  {
    var text := "Don't do it!";
    assert !Contains(text, '(') && !Contains(text, '[');
    RemoveGroupsAbsent(text, '(', ')');
    RemoveGroupsAbsent(text, '[', ']');
    RunsOfExample();
  }

  lemma RunsOfExample()
    ensures Runs("Don't do it!", IsWordChar) == ["Don't", "do", "it"]
  {
    assert "Don't do it!" == "Don't" + [' '] + "do" + [' '] + "it" + ['!'];
    RunsOfThreeWords("Don't", ' ', "do", ' ', "it", '!', IsWordChar);
  }

  /** Three kept runs, each ended by a character that is not kept. */
  lemma RunsOfThreeWords(w1: string, c1: char, w2: string, c2: char, w3: string, c3: char,
                         keep: char -> bool)
    requires w1 != [] && w2 != [] && w3 != [] && !keep(c1) && !keep(c2) && !keep(c3)
    requires forall k :: 0 <= k < |w1| ==> keep(w1[k])
    requires forall k :: 0 <= k < |w2| ==> keep(w2[k])
    requires forall k :: 0 <= k < |w3| ==> keep(w3[k])
    ensures Runs(w1 + [c1] + w2 + [c2] + w3 + [c3], keep) == [w1, w2, w3]
  {
    var r2 := w2 + [c2] + w3 + [c3];
    assert w1 + [c1] + w2 + [c2] + w3 + [c3] == w1 + [c1] + r2;
    RunsOfWord(w1, c1, r2, keep);
    RunsOfTwoWords(w2, c2, w3, c3, keep);
  }

  lemma RunsOfTwoWords(w2: string, c2: char, w3: string, c3: char, keep: char -> bool)
    requires w2 != [] && w3 != [] && !keep(c2) && !keep(c3)
    requires forall k :: 0 <= k < |w2| ==> keep(w2[k])
    requires forall k :: 0 <= k < |w3| ==> keep(w3[k])
    ensures Runs(w2 + [c2] + w3 + [c3], keep) == [w2, w3]
  {
    var r3 := w3 + [c3];
    assert w2 + [c2] + w3 + [c3] == w2 + [c2] + r3;
    RunsOfWord(w2, c2, r3, keep);
    assert r3 == w3 + [c3] + [];
    RunsOfWord(w3, c3, [], keep);
  }

  /** A parenthesised aside at the end of the text is dropped, not kept as words. */
  lemma SplitTextIntoWordsDropsGroup(kept: string, aside: string)
    requires !Contains(kept, '(') && !Contains(kept, '[')
    requires |aside| >= 2 && aside[0] == '(' && aside[|aside| - 1] == ')'
    requires forall k :: 1 <= k < |aside| - 1 ==> aside[k] != ')'
    ensures SplitTextIntoWords(kept + aside) == Runs(kept, IsWordChar)
  {
    RemoveGroupsPrefix(kept, aside, '(', ')');
    RemoveWholeGroup(aside, '(', ')');
    assert kept + [] == kept;
    RemoveGroupsAbsent(kept, '[', ']');
  }

  /** The aside in "It's a test (example)" is not a word. */
  lemma SplitTextIntoWordsDropsAside()
    ensures SplitTextIntoWords("It's a test (example)") == ["It's", "a", "test"]
  {
    var kept, aside := "It's a test ", "(example)";
    assert "It's a test (example)" == kept + aside;
    assert !Contains(kept, '(') && !Contains(kept, '[');
    SplitTextIntoWordsDropsGroup(kept, aside);
    RunsOfAsideExample();
  }

  /** A group that closes only at its last character is removed entirely. */
  lemma RemoveWholeGroup(g: string, open: char, close: char)
    requires |g| >= 2 && g[0] == open && g[|g| - 1] == close
    requires forall k :: 1 <= k < |g| - 1 ==> g[k] != close
    ensures RemoveGroups(g, open, close) == []
  {
    var inner := g[1..];
    IndexOfFirst(inner, close, |inner| - 1);
    assert inner[|inner|..] == [];
  }

  /** A closed group is removed up to its first closing character, and the removal goes on
      with the text after it. */
  lemma RemoveGroupsSkipsGroup(g: string, rest: string, open: char, close: char)
    requires !Contains(g, close)
    ensures RemoveGroups([open] + g + [close] + rest, open, close) == RemoveGroups(rest, open, close)
  {
    var s := [open] + g + [close] + rest;
    var inner := s[1..];
    assert inner == g + [close] + rest;
    assert inner[|g|] == close;
    forall k | 0 <= k < |g| ensures inner[k] != close {
      assert inner[k] == g[k];
    }
    IndexOfFirst(inner, close, |g|);
    assert inner[|g| + 1..] == rest;
  }

  /** Without any closing character nothing is removed, even after an opening one. */
  lemma {:induction false} RemoveGroupsUnclosed(s: string, open: char, close: char)
    requires !Contains(s, close)
    ensures RemoveGroups(s, open, close) == s
    decreases |s|
  {
    if s != [] {
      assert !Contains(s[1..], close) by {
        forall k | 0 <= k < |s[1..]| ensures s[1..][k] != close {
          assert s[1..][k] == s[k + 1];
        }
      }
      RemoveGroupsUnclosed(s[1..], open, close);
      assert [s[0]] + s[1..] == s;
    }
  }

  /** A parenthesised aside contributes no words, wherever it stands: the words are those of
      the text after it. */
  lemma SplitTextIntoWordsSkipsAside(g: string, rest: string)
    requires !Contains(g, ')')
    ensures SplitTextIntoWords(['('] + g + [')'] + rest) == SplitTextIntoWords(rest)
  {
    RemoveGroupsSkipsGroup(g, rest, '(', ')');
    if rest == [] {
      assert RemoveGroups(rest, '(', ')') == [];
      assert RemoveGroups([], '[', ']') == [];
    }
  }

  /** A leading sound cue contributes no words. */
  lemma SplitTextIntoWordsLeadingAside()
    ensures SplitTextIntoWords("(laughs) Hello there") == ["Hello", "there"]
  {
    var rest := " Hello there";
    assert "(laughs) Hello there" == ['('] + "laughs" + [')'] + rest;
    assert !Contains("laughs", ')');
    SplitTextIntoWordsSkipsAside("laughs", rest);
    SplitTextIntoWordsHelloThere();
  }

  lemma SplitTextIntoWordsHelloThere()
    ensures SplitTextIntoWords(" Hello there") == ["Hello", "there"]
  {
    var rest := " Hello there";
    assert !Contains(rest, '(') && !Contains(rest, '[');
    RemoveGroupsAbsent(rest, '(', ')');
    RemoveGroupsAbsent(rest, '[', ']');
    RunsHelloThere();
  }

  lemma RunsHelloThere()
    ensures Runs(" Hello there", IsWordChar) == ["Hello", "there"]
  {
    assert " Hello there" == [' '] + "Hello" + [' '] + "there";
    RunsOfSpacedPair(' ', "Hello", ' ', "there", IsWordChar);
  }

  /** A separator, a kept run, a separator and a final kept run give the two runs. */
  lemma RunsOfSpacedPair(c0: char, w1: string, c1: char, w2: string, keep: char -> bool)
    requires w1 != [] && w2 != [] && !keep(c0) && !keep(c1)
    requires forall k :: 0 <= k < |w1| ==> keep(w1[k])
    requires forall k :: 0 <= k < |w2| ==> keep(w2[k])
    ensures Runs([c0] + w1 + [c1] + w2, keep) == [w1, w2]
  {
    var tail := w1 + [c1] + w2;
    assert [c0] + w1 + [c1] + w2 == [c0] + tail;
    RunsSkip(c0, tail, keep);
    RunsOfWord(w1, c1, w2, keep);
    RunsOfKept(w2, keep);
  }

  lemma RunsOfAsideExample()
    ensures Runs("It's a test ", IsWordChar) == ["It's", "a", "test"]
  {
    assert "It's a test " == "It's" + [' '] + "a" + [' '] + "test" + [' '];
    RunsOfThreeWords("It's", ' ', "a", ' ', "test", ' ', IsWordChar);
  }

  // ---------------------------------------------------------------- get_timing_strategy

  datatype Level = High | Medium | Low | NoConfidence

  datatype Strategy = Strategy(
    level: Level,
    useWordTiming: bool,
    elasticTiming: bool,
    rateSmoothing: bool,
    maxRateChange: int,
    enableTimeStretch: bool,
    description: string)

  /** The confidence band `get_timing_strategy` branches on. */
  function LevelOf(confidence: real): Level {
    if confidence > 0.9 then High
    else if confidence > 0.7 then Medium
    else if confidence > 0.5 then Low
    else NoConfidence
  }

  /** The recommendation returned for each band. */
  function StrategyFor(level: Level): Strategy {
    match level
    case High =>
      Strategy(High, true, true, true, 10, true, "High confidence - using aggressive timing optimization")
    case Medium =>
      Strategy(Medium, true, true, true, 15, false, "Medium confidence - using conservative timing")
    case Low =>
      Strategy(Low, false, false, true, 20, false, "Low confidence - minimal dynamic adjustment")
    case NoConfidence =>
      Strategy(NoConfidence, false, false, true, 30, false, "No confidence - using static timing only")
  }

  /** `get_timing_strategy`. */
  function GetTimingStrategy(confidence: real): Strategy {
    StrategyFor(LevelOf(confidence))
  }

  /** The thresholds: above 0.9, 0.7 and 0.5 the levels High, Medium and Low with rate
      changes of 10, 15 and 20; otherwise no dynamic timing and 30. Word timing and elastic
      timing are on exactly above 0.7, time stretching exactly above 0.9, smoothing always. */
  lemma TimingStrategyMeaning(confidence: real)
    ensures var s := GetTimingStrategy(confidence);
      && (s.level == High <==> confidence > 0.9)
      && (s.level == Medium <==> 0.7 < confidence <= 0.9)
      && (s.level == Low <==> 0.5 < confidence <= 0.7)
      && (s.level == NoConfidence <==> confidence <= 0.5)
      && s.maxRateChange == (match s.level case High => 10 case Medium => 15 case Low => 20 case NoConfidence => 30)
      && (s.useWordTiming <==> confidence > 0.7)
      && (s.elasticTiming <==> confidence > 0.7)
      && (s.enableTimeStretch <==> confidence > 0.9)
      && s.rateSmoothing
  {
    if confidence > 0.9 {
      assert LevelOf(confidence) == High;
    } else if confidence > 0.7 {
      assert LevelOf(confidence) == Medium;
    } else if confidence > 0.5 {
      assert LevelOf(confidence) == Low;
    } else {
      assert LevelOf(confidence) == NoConfidence;
    }
  }

  /** More confidence never allows a larger rate change, and never turns word timing or
      time stretching off. */
  lemma TimingStrategyMonotone(c1: real, c2: real)
    requires c1 <= c2
    ensures GetTimingStrategy(c2).maxRateChange <= GetTimingStrategy(c1).maxRateChange
    ensures GetTimingStrategy(c1).useWordTiming ==> GetTimingStrategy(c2).useWordTiming
    ensures GetTimingStrategy(c1).enableTimeStretch ==> GetTimingStrategy(c2).enableTimeStretch
  {
    TimingStrategyMeaning(c1);
    TimingStrategyMeaning(c2);
  }
}
