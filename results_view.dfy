/** The figures the results dialog derives from a test result
    (client/src/components/modals/ResultsModal.tsx). */
module ResultsView {
  import opened Js
  import TypingSession

  /** A number as displayed: a finite value, or `Infinity`/`NaN` from a
      division by a zero duration. */
  datatype Displayed = Finite(value: int) | NotFinite

  /** `Math.round((characters / 5) / (duration / 60))`, that is
      `Math.round(12 * characters / duration)`: gross speed counting every
      typed character. */
  function RawWpm(characters: int, duration: int): (r: Displayed)
    ensures r.NotFinite? <==> duration == 0
    ensures duration > 0 ==> 2 * duration * r.value <= 24 * characters + duration < 2 * duration * r.value + 2 * duration
    ensures duration < 0 ==>
      2 * -duration * r.value <= -24 * characters - duration < 2 * -duration * r.value - 2 * duration
  {
    if duration == 0 then NotFinite
    else if duration > 0 then Finite(Round(12 * characters, duration))
    else Finite(Round(-12 * characters, -duration))
  }

  /** `characters - errors`. */
  function CorrectChars(result: TypingSession.TestResult): int {
    result.characters - result.errors
  }

  /** `mode.charAt(0).toUpperCase() + mode.slice(1)`. */
  function FormatMode(mode: string): (f: string)
    ensures |f| == |mode|
    ensures |mode| > 0 ==> f[0] == UpperAscii(mode[0]) && f[1..] == mode[1..]
  {
    if mode == "" then "" else [UpperAscii(mode[0])] + mode[1..]
  }

  datatype Summary = Summary(rawWpm: Displayed, correctChars: int, formattedMode: string)

  /** Nothing is rendered without a result. */
  function View(result: Option<TypingSession.TestResult>): (v: Option<Summary>)
    ensures v.None? <==> result.None?
    ensures result.Some? ==> v.value.correctChars == CorrectChars(result.value)
    ensures result.Some? ==> |v.value.formattedMode| == |result.value.mode|
    ensures result.Some? ==>
      && v.value.rawWpm == RawWpm(result.value.characters, result.value.duration)
      && v.value.formattedMode == FormatMode(result.value.mode)
  {
    if result.None? then None
    else
      var r := result.value;
      Some(Summary(RawWpm(r.characters, r.duration), CorrectChars(r), FormatMode(r.mode)))
  }

  /** For a result the session produced, the dialog's correct-character
      count is the number of positions typed correctly. */
  lemma CorrectCharsOfSessionResult(s: TypingSession.TypingState, stats: TypingSession.TypingStats,
                                    now: int, duration: int)
    requires TypingSession.Partitioned(s)
    ensures var r := TypingSession.EndResult(s, stats, now, duration);
      r.Some? ==> CorrectChars(r.value) == |s.correctChars|
  {
  }

  lemma DivCancels(a: int, b: int, k: int)
    requires b > 0 && k > 0
    ensures (k * a) / (k * b) == a / b
  {
    var q, r := a / b, a % b;
    assert a == q * b + r && 0 <= r < b;
    assert k * a == q * (k * b) + k * r;
    MulMonotone(k, r + 1, b);
    MulMonotone(k, 0, r);
    DivUnique(k * a, k * b, q, k * r);
  }

  lemma DivUnique(x: int, m: int, q: int, r: int)
    requires m > 0 && x == q * m + r && 0 <= r < m
    ensures x / m == q
  {
    var q', r' := x / m, x % m;
    assert x == q' * m + r' && 0 <= r' < m;
    assert (q - q') * m == r' - r;
    if q > q' {
      MulMonotone(m, 1, q - q');
      assert false;
    } else if q < q' {
      MulMonotone(m, 1, q' - q);
      assert false;
    }
  }

  lemma RoundCancels(n: int, d: int, k: int)
    requires d > 0 && k > 0
    ensures Round(k * n, k * d) == Round(n, d)
  {
    DivCancels(2 * n + d, 2 * d, k);
    assert k * (2 * n + d) == 2 * (k * n) + k * d;
    assert k * (2 * d) == 2 * (k * d);
  }

  /** Over whole seconds, raw WPM is the live WPM formula applied to every
      typed character instead of only the correct ones. */
  lemma RawWpmMatchesLiveFormula(characters: nat, duration: int)
    requires duration > 0
    ensures RawWpm(characters, duration) == Finite(TypingSession.Wpm(characters, 1000 * duration))
  {
    RoundCancels(12 * characters, duration, 1000);
    assert 1000 * (12 * characters) == 12000 * characters;
  }

  /** Capitalising is idempotent and leaves an already capitalised mode alone. */
  lemma FormatModeIdempotent(mode: string)
    ensures FormatMode(FormatMode(mode)) == FormatMode(mode)
  {
  }
}
