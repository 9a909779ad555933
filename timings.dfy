/**
  A word-timing record as the recognisers and exporters pass it around: a dictionary whose
  keys `word`, `text`, `start` and `end` may each be missing. Seconds are exact reals.
*/
module Timings {
  import opened Wrappers

  datatype WordTiming = WordTiming(
    word: Option<string>,
    text: Option<string>,
    start: Option<real>,
    end: Option<real>)

  /** `w.get('word', default)`. */
  function WordOr(w: WordTiming, default: string): string {
    w.word.GetOr(default)
  }

  /** `w.get('start', default)`. */
  function StartOr(w: WordTiming, default: real): real {
    w.start.GetOr(default)
  }

  /** `w.get('end', default)`. */
  function EndOr(w: WordTiming, default: real): real {
    w.end.GetOr(default)
  }
}
