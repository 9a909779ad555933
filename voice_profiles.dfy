/**
  Per-voice speaking-rate profiles: the table of known voices, the lookup with its default,
  the words-per-minute to rate-percentage conversion with clamping and smoothing, and the
  sorted voice listing.
*/
module VoiceProfiles {
  import opened Wrappers
  import opened Numbers

  datatype VoiceProfile = VoiceProfile(
    displayName: string,
    baselineWpm: int,
    minRate: int,
    maxRate: int,
    naturalPauseThreshold: real,
    characteristics: string)

  /** `VOICE_PROFILES`, in the dictionary's insertion order. */
  const VoiceTable: seq<(string, VoiceProfile)> := [
      ("en-US-AndrewMultilingualNeural", VoiceProfile("Andrew (US Male, Multilingual)", 155, -35, 35, 0.3, "Clear, professional, neutral")),
      ("en-US-GuyNeural", VoiceProfile("Guy (US Male)", 150, -40, 40, 0.35, "Young, professional")),
      ("en-US-EmmaMultilingualNeural", VoiceProfile("Emma (US Female, Multilingual)", 160, -40, 40, 0.25, "Clear, engaging, professional")),
      ("en-US-JennyNeural", VoiceProfile("Jenny (US Female)", 165, -35, 35, 0.25, "Friendly, conversational")),
      ("en-US-AriaNeural", VoiceProfile("Aria (US Female)", 158, -38, 38, 0.28, "Natural, expressive")),
      ("en-GB-RyanNeural", VoiceProfile("Ryan (UK Male)", 145, -40, 35, 0.4, "Friendly, approachable")),
      ("en-GB-LibbyNeural", VoiceProfile("Libby (UK Female)", 150, -40, 35, 0.35, "Clear, friendly")),
      ("en-AU-DuncanNeural", VoiceProfile("Duncan (AU Male)", 152, -35, 35, 0.32, "Casual, friendly")),
      ("en-AU-NatashaNeural", VoiceProfile("Natasha (AU Female)", 155, -35, 35, 0.3, "Friendly, professional")),
      ("en-IN-NeerjaNeural", VoiceProfile("Neerja (India Female)", 160, -30, 40, 0.25, "Expressive, engaging")),
      ("en-IN-PrabhatNeural", VoiceProfile("Prabhat (India Male)", 158, -35, 35, 0.28, "Professional, clear")),
      ("es-ES-AlvaroNeural", VoiceProfile("\U{C1}lvaro (Spain Male)", 148, -40, 35, 0.35, "Formal, professional")),
      ("es-MX-JorgeNeural", VoiceProfile("Jorge (Mexico Male)", 155, -35, 40, 0.3, "Friendly, casual")),
      ("fr-FR-HenriNeural", VoiceProfile("Henri (France Male)", 140, -40, 35, 0.4, "Formal, educated")),
      ("fr-FR-DeniseNeural", VoiceProfile("Denise (France Female)", 145, -40, 35, 0.38, "Professional, clear")),
      ("de-DE-KayanNeural", VoiceProfile("Kayan (Germany Male)", 135, -40, 30, 0.45, "Professional, formal")),
      ("it-IT-DiegoNeural", VoiceProfile("Diego (Italy Male)", 150, -35, 35, 0.3, "Expressive, warm")),
      ("ja-JP-KeitaNeural", VoiceProfile("Keita (Japan Male)", 130, -30, 40, 0.4, "Clear, professional")),
      ("zh-CN-YunxiNeural", VoiceProfile("Yunxi (China Male)", 125, -30, 40, 0.35, "Clear, professional"))
    ]

  predicate DistinctIds(table: seq<(string, VoiceProfile)>) {
    forall i, j :: 0 <= i < j < |table| ==> table[i].0 != table[j].0
  }

  /** A usable profile: a positive baseline and a range that allows slowing down and speeding up. */
  predicate Sane(p: VoiceProfile) {
    p.baselineWpm > 0 && p.minRate < 0 < p.maxRate
  }

  /** The table is a dictionary (no id twice) and every entry is usable. */
  lemma VoiceTableWellFormed()
    ensures |VoiceTable| == 19
    ensures DistinctIds(VoiceTable)
    ensures forall k :: 0 <= k < |VoiceTable| ==> Sane(VoiceTable[k].1)
  {
    VoiceTableDistinct();
    VoiceTableSane();
  }

  lemma VoiceTableDistinct()
    ensures DistinctIds(VoiceTable)
  {
    VoiceTableDistinctFrom(0, 5);
    VoiceTableDistinctFrom(5, 10);
    VoiceTableDistinctFrom(10, 19);
  }

  /** Rows `lo` to `hi` differ from every later row; proved a band at a time. */
  lemma VoiceTableDistinctFrom(lo: nat, hi: nat)
    requires lo <= hi <= |VoiceTable|
    ensures forall i, j :: lo <= i < hi && i < j < |VoiceTable| ==> VoiceTable[i].0 != VoiceTable[j].0
  {
  }

  lemma VoiceTableSane()
    ensures forall k :: 0 <= k < |VoiceTable| ==> Sane(VoiceTable[k].1)
  {
  }

  // ---------------------------------------------------------------- lookup

  /** `VOICE_PROFILES[voice_id]` when the key is present. */
  function Lookup(table: seq<(string, VoiceProfile)>, id: string): Option<VoiceProfile> {
    if table == [] then None
    else if table[0].0 == id then Some(table[0].1)
    else Lookup(table[1..], id)
  }

  /** The lookup misses exactly when no entry has the id, and otherwise yields that entry. */
  lemma {:induction false} LookupMeaning(table: seq<(string, VoiceProfile)>, id: string)
    requires DistinctIds(table)
    ensures Lookup(table, id).None? <==> forall k :: 0 <= k < |table| ==> table[k].0 != id
    ensures forall k :: 0 <= k < |table| && table[k].0 == id ==> Lookup(table, id) == Some(table[k].1)
  {
    if table != [] {
      var tail := table[1..];
      assert DistinctIds(tail) by {
        forall i, j | 0 <= i < j < |tail| ensures tail[i].0 != tail[j].0 {
          assert tail[i] == table[i + 1] && tail[j] == table[j + 1];
        }
      }
      LookupMeaning(tail, id);
      forall k | 1 <= k < |table| ensures table[k] == tail[k - 1] {
      }
    }
  }

  /** The profile used for a voice that is not in the table. */
  function DefaultProfile(id: string): VoiceProfile {
    VoiceProfile(id, 150, -35, 35, 0.3, "Unknown voice (using default)")
  }

  /** `get_voice_profile`. */
  function GetVoiceProfile(id: string): VoiceProfile {
    match Lookup(VoiceTable, id)
    case Some(p) => p
    case None => DefaultProfile(id)
  }

  /** A known voice gets its own table entry. */
  lemma GetVoiceProfileKnown(k: nat)
    requires k < |VoiceTable|
    ensures GetVoiceProfile(VoiceTable[k].0) == VoiceTable[k].1
  {
    VoiceTableWellFormed();
    LookupMeaning(VoiceTable, VoiceTable[k].0);
  }

  /** Any other voice gets the default: its id as display name, 150 words per minute, -35..+35. */
  lemma GetVoiceProfileUnknown(id: string)
    requires forall k :: 0 <= k < |VoiceTable| ==> VoiceTable[k].0 != id
    ensures var p := GetVoiceProfile(id);
      p == DefaultProfile(id) && p.displayName == id
      && p.baselineWpm == 150 && p.minRate == -35 && p.maxRate == 35
  {
    VoiceTableWellFormed();
    LookupMeaning(VoiceTable, id);
  }

  /** Whatever the id, the profile is usable, so the rate arithmetic never divides by zero. */
  lemma GetVoiceProfileSane(id: string)
    ensures Sane(GetVoiceProfile(id))
  {
    VoiceTableWellFormed();
    LookupMeaning(VoiceTable, id);
    if Lookup(VoiceTable, id).Some? {
      var k :| 0 <= k < |VoiceTable| && VoiceTable[k].0 == id;
      assert GetVoiceProfile(id) == VoiceTable[k].1;
    }
  }

  // ---------------------------------------------------------------- rates

  /** `int((wpm / baseline - 1.0) * 100)`: the rate change, in percent, truncated toward zero. */
  function RawRate(wpm: real, baseline: int): int
    requires baseline > 0
  {
    Trunc((wpm / baseline as real - 1.0) * 100.0)
  }

  /** Speaking at the baseline asks for no change. */
  lemma RawRateAtBaseline(baseline: int)
    requires baseline > 0
    ensures RawRate(baseline as real, baseline) == 0
  {
    assert baseline as real / baseline as real == 1.0;
  }

  /** Faster speech never asks for a lower rate. */
  lemma RawRateMonotone(wpm1: real, wpm2: real, baseline: int)
    requires baseline > 0 && wpm1 <= wpm2
    ensures RawRate(wpm1, baseline) <= RawRate(wpm2, baseline)
  {
    var b := baseline as real;
    DivMonotone(wpm1, wpm2, b);
    MulMonotone(wpm1 / b - 1.0, wpm2 / b - 1.0, 100.0);
    TruncMonotone((wpm1 / b - 1.0) * 100.0, (wpm2 / b - 1.0) * 100.0);
  }

  /** `max(lo, min(hi, x))`. */
  function Clamp(lo: int, hi: int, x: int): (r: int)
    ensures lo <= hi ==> lo <= r <= hi
    ensures lo <= x <= hi ==> r == x
    ensures x < lo ==> r == lo
    ensures lo <= hi < x ==> r == hi
  {
    var capped := if hi < x then hi else x;
    if lo > capped then lo else capped
  }

  /** The smoothing step: a change from `prev` larger than `maxChange` is cut to `maxChange`. */
  function Smooth(rate: int, prev: Option<int>, maxChange: int): int {
    match prev
    case None => rate
    case Some(p) =>
      var change := rate - p;
      if (if change < 0 then -change else change) > maxChange then
        if change > 0 then p + maxChange else p - maxChange
      else rate
  }

  /** The default `max_change_per_segment`. */
  const DefaultMaxChange := 15

  /** `calculate_segment_rate_with_voice_profile`. */
  function CalculateSegmentRate(id: string, wpm: real, prev: Option<int>, maxChange: int): int {
    var p := GetVoiceProfile(id);
    GetVoiceProfileSane(id);
    Smooth(Clamp(p.minRate, p.maxRate, RawRate(wpm, p.baselineWpm)), prev, maxChange)
  }

  /** The clamped rate before smoothing. */
  function ClampedRate(id: string, wpm: real): int {
    var p := GetVoiceProfile(id);
    GetVoiceProfileSane(id);
    Clamp(p.minRate, p.maxRate, RawRate(wpm, p.baselineWpm))
  }

  /** With no previous rate the result is the clamped rate, inside the voice's range. */
  lemma SegmentRateInRange(id: string, wpm: real, maxChange: int)
    ensures var r, p := CalculateSegmentRate(id, wpm, None, maxChange), GetVoiceProfile(id);
      r == ClampedRate(id, wpm) && p.minRate <= r <= p.maxRate
  {
    GetVoiceProfileSane(id);
  }

  /** Smoothing keeps within `maxChange` of `prev`, leaves a small enough change alone, and
      otherwise moves from `prev` toward the rate by exactly `maxChange`. */
  lemma SmoothMeaning(rate: int, prev: int, maxChange: int)
    requires maxChange >= 0
    ensures var r := Smooth(rate, Some(prev), maxChange);
      && -maxChange <= r - prev <= maxChange
      && (-maxChange <= rate - prev <= maxChange ==> r == rate)
      && (rate - prev > maxChange ==> r == prev + maxChange && prev <= r < rate)
      && (prev - rate > maxChange ==> r == prev - maxChange && rate < r <= prev)
  {
  }

  /** A smoothed rate between two in-range rates is in range. */
  lemma SmoothInRange(rate: int, prev: int, maxChange: int, lo: int, hi: int)
    requires maxChange >= 0 && lo <= rate <= hi && lo <= prev <= hi
    ensures lo <= Smooth(rate, Some(prev), maxChange) <= hi
  {
    SmoothMeaning(rate, prev, maxChange);
  }

  /** With a previous rate, the change is capped, and the result stays in the voice's range
      when the previous rate was in it. */
  lemma SegmentRateSmoothed(id: string, wpm: real, prev: int, maxChange: int)
    requires maxChange >= 0
    ensures var r, c, p := CalculateSegmentRate(id, wpm, Some(prev), maxChange), ClampedRate(id, wpm), GetVoiceProfile(id);
      && -maxChange <= r - prev <= maxChange
      && (-maxChange <= c - prev <= maxChange ==> r == c)
      && (p.minRate <= prev <= p.maxRate ==> p.minRate <= r <= p.maxRate)
  {
    var c, p := ClampedRate(id, wpm), GetVoiceProfile(id);
    GetVoiceProfileSane(id);
    assert CalculateSegmentRate(id, wpm, Some(prev), maxChange) == Smooth(c, Some(prev), maxChange);
    SmoothMeaning(c, prev, maxChange);
    if p.minRate <= prev <= p.maxRate {
      SmoothInRange(c, prev, maxChange, p.minRate, p.maxRate);
    }
  }

  /** Feeding each output back in as the next `prev_rate` gives rates that all lie in the voice's
      range and never change by more than `maxChange` from one segment to the next. */
  lemma {:induction false} SmoothedRates(id: string, wpms: seq<real>, rates: seq<int>, maxChange: int)
    requires maxChange >= 0 && |rates| == |wpms| && |rates| > 0
    requires rates[0] == CalculateSegmentRate(id, wpms[0], None, maxChange)
    requires forall i :: 0 < i < |rates| ==> rates[i] == CalculateSegmentRate(id, wpms[i], Some(rates[i - 1]), maxChange)
    ensures var p := GetVoiceProfile(id);
      forall i :: 0 <= i < |rates| ==> p.minRate <= rates[i] <= p.maxRate
    ensures forall i :: 0 < i < |rates| ==> -maxChange <= rates[i] - rates[i - 1] <= maxChange
  {
    var p := GetVoiceProfile(id);
    if |rates| == 1 {
      SegmentRateInRange(id, wpms[0], maxChange);
    } else {
      var n := |rates| - 1;
      SmoothedRates(id, wpms[..n], rates[..n], maxChange);
      assert rates[..n][n - 1] == rates[n - 1];
      SegmentRateSmoothed(id, wpms[n], rates[n - 1], maxChange);
      forall i | 0 <= i < n ensures p.minRate <= rates[i] <= p.maxRate
        && (0 < i ==> -maxChange <= rates[i] - rates[i - 1] <= maxChange) {
        assert rates[i] == rates[..n][i];
        if 0 < i {
          assert rates[i - 1] == rates[..n][i - 1];
        }
      }
    }
  }

  /** With the default `max_change_per_segment` of 15, rates fed back segment by segment
      stay in the voice's range and move by at most 15 points between segments. */
  lemma DefaultSmoothedRates(id: string, wpms: seq<real>, rates: seq<int>)
    requires |rates| == |wpms| && |rates| > 0
    requires rates[0] == CalculateSegmentRate(id, wpms[0], None, DefaultMaxChange)
    requires forall i :: 0 < i < |rates| ==> rates[i] == CalculateSegmentRate(id, wpms[i], Some(rates[i - 1]), DefaultMaxChange)
    ensures var p := GetVoiceProfile(id);
      forall i :: 0 <= i < |rates| ==> p.minRate <= rates[i] <= p.maxRate
    ensures forall i :: 0 < i < |rates| ==> -15 <= rates[i] - rates[i - 1] <= 15
  {
    SmoothedRates(id, wpms, rates, DefaultMaxChange);
  }

  // ---------------------------------------------------------------- listing

  /** One entry of `list_available_voices`. */
  datatype VoiceSummary = VoiceSummary(id: string, displayName: string, baselineWpm: int, characteristics: string)

  function Summary(entry: (string, VoiceProfile)): VoiceSummary {
    VoiceSummary(entry.0, entry.1.displayName, entry.1.baselineWpm, entry.1.characteristics)
  }

  /** The summaries in table order, before sorting. */
  function Summaries(table: seq<(string, VoiceProfile)>): (r: seq<VoiceSummary>)
    ensures |r| == |table|
    ensures forall k :: 0 <= k < |table| ==> r[k] == Summary(table[k])
  {
    if table == [] then [] else [Summary(table[0])] + Summaries(table[1..])
  }

  /** Python's string `<=`: lexicographic by code point. */
  predicate LexLe(a: string, b: string) {
    a == [] || (b != [] && (a[0] < b[0] || (a[0] == b[0] && LexLe(a[1..], b[1..]))))
  }

  lemma {:induction false} LexLeTotal(a: string, b: string)
    ensures LexLe(a, b) || LexLe(b, a)
  {
    if a != [] && b != [] && a[0] == b[0] {
      LexLeTotal(a[1..], b[1..]);
    }
  }

  lemma {:induction false} LexLeTransitive(a: string, b: string, c: string)
    requires LexLe(a, b) && LexLe(b, c)
    ensures LexLe(a, c)
  {
    if a != [] && a[0] == b[0] && b[0] == c[0] {
      LexLeTransitive(a[1..], b[1..], c[1..]);
    }
  }

  predicate SortedByName(s: seq<VoiceSummary>) {
    forall i, j :: 0 <= i < j < |s| ==> LexLe(s[i].displayName, s[j].displayName)
  }

  /** Inserts `x` before the first entry that does not sort below it, keeping equal names in
      their original order. */
  function Insert(x: VoiceSummary, s: seq<VoiceSummary>): seq<VoiceSummary> {
    if s == [] || LexLe(x.displayName, s[0].displayName) then [x] + s
    else [s[0]] + Insert(x, s[1..])
  }

  /** `sorted(voices, key=lambda x: x['display_name'])`, as an insertion sort. */
  function SortByName(s: seq<VoiceSummary>): seq<VoiceSummary> {
    if s == [] then [] else Insert(s[0], SortByName(s[1..]))
  }

  lemma {:induction false} InsertPermutes(x: VoiceSummary, s: seq<VoiceSummary>)
    ensures multiset(Insert(x, s)) == multiset([x] + s)
  {
    if !(s == [] || LexLe(x.displayName, s[0].displayName)) {
      InsertPermutes(x, s[1..]);
      assert s == [s[0]] + s[1..];
    }
  }

  lemma {:induction false} InsertSorted(x: VoiceSummary, s: seq<VoiceSummary>)
    requires SortedByName(s)
    ensures SortedByName(Insert(x, s))
  {
    if s == [] {
      assert Insert(x, s) == [x];
    } else if LexLe(x.displayName, s[0].displayName) {
      SortedSplit(s);
      forall j | 0 <= j < |s| ensures LexLe(x.displayName, s[j].displayName) {
        if j > 0 {
          assert s[1..][j - 1] == s[j];
          LexLeTransitive(x.displayName, s[0].displayName, s[j].displayName);
        }
      }
      ConsSorted(x, s);
    } else {
      var tail := s[1..];
      SortedSplit(s);
      InsertSorted(x, tail);
      InsertPermutes(x, tail);
      LexLeTotal(x.displayName, s[0].displayName);
      assert NoneBelow(s[0].displayName, [x] + tail);
      NoneBelowPermuted(s[0].displayName, Insert(x, tail), [x] + tail);
      ConsSorted(s[0], Insert(x, tail));
    }
  }

  /** No entry sorts strictly below `name`. */
  predicate NoneBelow(name: string, s: seq<VoiceSummary>) {
    forall j :: 0 <= j < |s| ==> LexLe(name, s[j].displayName)
  }

  /** A sorted list is its first entry, below all the rest, followed by a sorted list. */
  lemma SortedSplit(s: seq<VoiceSummary>)
    requires SortedByName(s) && s != []
    ensures SortedByName(s[1..]) && NoneBelow(s[0].displayName, s[1..])
  {
    var tail := s[1..];
    forall i, j | 0 <= i < j < |tail| ensures LexLe(tail[i].displayName, tail[j].displayName) {
      assert tail[i] == s[i + 1] && tail[j] == s[j + 1];
    }
    forall j | 0 <= j < |tail| ensures LexLe(s[0].displayName, tail[j].displayName) {
      assert tail[j] == s[j + 1];
    }
  }

  /** An entry below all of a sorted list can go in front of it. */
  lemma ConsSorted(y: VoiceSummary, s: seq<VoiceSummary>)
    requires SortedByName(s) && NoneBelow(y.displayName, s)
    ensures SortedByName([y] + s)
  {
    var r := [y] + s;
    forall i, j | 0 <= i < j < |r| ensures LexLe(r[i].displayName, r[j].displayName) {
      if i == 0 {
        assert r[j] == s[j - 1];
      } else {
        assert r[i] == s[i - 1] && r[j] == s[j - 1];
      }
    }
  }

  /** A rearrangement keeps every entry at or above a bound. */
  lemma NoneBelowPermuted(name: string, a: seq<VoiceSummary>, b: seq<VoiceSummary>)
    requires multiset(a) == multiset(b) && NoneBelow(name, b)
    ensures NoneBelow(name, a)
  {
    forall j | 0 <= j < |a| ensures LexLe(name, a[j].displayName) {
      assert a[j] in multiset(b);
      var m :| 0 <= m < |b| && b[m] == a[j];
    }
  }

  /** The sorted list is ordered by display name and holds exactly the same entries. */
  lemma {:induction false} SortByNameCorrect(s: seq<VoiceSummary>)
    ensures SortedByName(SortByName(s))
    ensures multiset(SortByName(s)) == multiset(s)
  {
    if s != [] {
      SortByNameCorrect(s[1..]);
      InsertSorted(s[0], SortByName(s[1..]));
      InsertPermutes(s[0], SortByName(s[1..]));
      assert s == [s[0]] + s[1..];
    }
  }

  /** `list_available_voices`: one summary per table entry, built in table order, then sorted by
      display name. */
  method ListAvailableVoices() returns (voices: seq<VoiceSummary>)
    ensures voices == SortByName(Summaries(VoiceTable))
    ensures SortedByName(voices) && multiset(voices) == multiset(Summaries(VoiceTable))
  {
    var listed := CollectSummaries(VoiceTable);
    voices := SortByName(listed);
    SortByNameCorrect(listed);
  }

  /** The loop that appends one summary per entry. */
  method CollectSummaries(table: seq<(string, VoiceProfile)>) returns (listed: seq<VoiceSummary>)
    ensures listed == Summaries(table)
  {
    listed := [];
    for i := 0 to |table|
      invariant |listed| == i
      invariant forall k :: 0 <= k < i ==> listed[k] == Summary(table[k])
    {
      listed := listed + [Summary(table[i])];
    }
  }
}
