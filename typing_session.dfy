/** The typing session of `useTypingTest` (client/src/lib/hooks/useTypingTest.ts):
    one record updated by key presses, clicks, the one-second timer, the
    live-stats refresh, text arrivals, mode changes and resets. Each React
    updater becomes a function from the old record to the new one; the clock
    (`Date.now()`) is a parameter `now` in milliseconds, and the hook's
    `duration` prop is a parameter too. */
module TypingSession {
  import opened Js

  datatype TypingState = TypingState(
    isActive: bool,
    mode: string,
    text: string,
    currentPosition: nat,
    correctChars: seq<int>,
    incorrectChars: seq<int>,
    startTime: Option<int>,
    timeRemaining: int)

  datatype TypingStats = TypingStats(wpm: int, accuracy: int)

  datatype TestResult = TestResult(
    wpm: int, accuracy: int, duration: int, mode: string, characters: int, errors: int)

  /** What one event produces: the new record, the new live stats, the result
      handed to `onComplete` (if any), and whether a fresh text was requested
      with `getTextForTest(mode, duration)` (it arrives later as `TextArrived`). */
  datatype Outcome = Outcome(state: TypingState, stats: TypingStats, result: Option<TestResult>, fetch: bool)

  datatype Event =
    | KeyDown(key: string, ctrl: bool, alt: bool, now: int)
    | Click(now: int)
    | TimerTick
    | StatsTick(now: int)
    | TextArrived(text: string)
    | ChangeMode(mode: string)
    | Reset
    | DurationSync

  /** The state the hook mounts with. */
  function Initial(duration: int): TypingState {
    TypingState(false, "normal", "", 0, [], [], None, duration)
  }

  const InitialStats := TypingStats(0, 100)

  // ----- the position lists -----

  /** `xs.filter(pos => pos !== v)`. */
  function Without(xs: seq<int>, v: int): (r: seq<int>)
    ensures forall x :: x in r <==> x in xs && x != v
    ensures NoDup(xs) ==> NoDup(r)
    ensures NoDup(xs) && v in xs ==> |r| == |xs| - 1
    ensures v !in xs ==> r == xs
  {
    if xs == [] then []
    else
      var init, last := xs[..|xs| - 1], xs[|xs| - 1];
      assert xs == init + [last];
      var r := Without(init, v) + (if last == v then [] else [last]);
      assert NoDup(xs) ==> last !in init;
      r
  }

  /** The session invariant: every position before the cursor was typed
      exactly once, as correct or as incorrect, and nothing else was. */
  ghost predicate Partitioned(s: TypingState) {
    && NoDup(s.correctChars) && NoDup(s.incorrectChars)
    && (forall i :: i in s.correctChars ==> i !in s.incorrectChars)
    && (forall i :: i in s.correctChars || i in s.incorrectChars <==> 0 <= i < s.currentPosition)
    && |s.correctChars| + |s.incorrectChars| == s.currentPosition
  }

  /** `Partitioned`, and an idle session sits at the start with nothing typed. */
  ghost predicate Valid(s: TypingState) {
    Partitioned(s) && (!s.isActive ==> s.currentPosition == 0)
  }

  /** The mount state satisfies the session invariant, and is idle at the
      start of an empty text with the full duration on the clock. */
  lemma InitialIsValid(duration: int)
    ensures Valid(Initial(duration))
    ensures !Initial(duration).isActive && Initial(duration).timeRemaining == duration
  {
  }

  // ----- metrics -----

  /** `Math.round((correct / 5) / ((now - startTime) / 60000))`, which is
      `Math.round(12000 * correct / elapsedMs)`. */
  function Wpm(correct: nat, elapsedMs: int): (w: int)
    requires elapsedMs > 0
    ensures w >= 0
    ensures correct == 0 ==> w == 0
    ensures 2 * elapsedMs * w <= 24000 * correct + elapsedMs < 2 * elapsedMs * w + 2 * elapsedMs
  {
    Round(12000 * correct, elapsedMs)
  }

  /** `Math.round((correct / total) * 100)`: the percentage of typed
      characters that were right, rounded half up. */
  function Accuracy(correct: nat, total: nat): (a: int)
    requires 0 < total && correct <= total
    ensures 0 <= a <= 100
    ensures a == 0 <==> 200 * correct < total
    ensures a == 100 <==> 200 * (total - correct) <= total
  {
    PercentBounds(correct, total);
    Round(100 * correct, total)
  }

  lemma PercentBounds(correct: nat, total: nat)
    requires 0 < total && correct <= total
    ensures var a := Round(100 * correct, total);
      && 0 <= a <= 100
      && (a == 0 <==> 200 * correct < total)
      && (a == 100 <==> 200 * (total - correct) <= total)
  {
    var a := Round(100 * correct, total);
    PercentBelow(correct, total, a);
    PercentAbove(correct, total, a);
  }

  lemma PercentBelow(c: nat, t: nat, a: int)
    requires 0 < t && c <= t && 2 * t * a <= 200 * c + t
    ensures a <= 100
    ensures a >= 1 ==> 200 * c >= t
    ensures a == 100 ==> 200 * (t - c) <= t
  {
    if a > 100 {
      MulMonotone(2 * t, 101, a);
    }
    if a >= 1 {
      MulMonotone(2 * t, 1, a);
    }
  }

  lemma PercentAbove(c: nat, t: nat, a: int)
    requires 0 < t && c <= t && 200 * c + t < 2 * t * a + 2 * t
    ensures a >= 0
    ensures a == 0 ==> 200 * c < t
    ensures 200 * (t - c) <= t ==> a >= 100
  {
    if a < 0 {
      MulMonotone(2 * t, a, -1);
    }
    if a < 100 {
      MulMonotone(2 * t, a + 1, 100);
    }
  }

  /** The accuracy formula as written, `Math.round(...) || 100`: a rounded 0
      is falsy and turns into 100. */
  function AccuracyAsWritten(correct: nat, total: nat): (a: int)
    requires 0 < total && correct <= total
    ensures 200 * correct >= total ==> a == Accuracy(correct, total)
    ensures 200 * correct < total ==> a == 100
  {
    PercentBounds(correct, total);
    var rounded := Round(100 * correct, total);
    if rounded == 0 then 100 else rounded
  }

  /** Typing nothing but wrong characters is reported as perfect accuracy. */
  lemma AllWrongReportsFullAccuracy(total: nat)
    requires total > 0
    ensures AccuracyAsWritten(0, total) == 100
    ensures Accuracy(0, total) == 0
  {
  }

  /** The live-stats interval (every 100 ms while active with a start time):
      once something is typed and time has passed, both figures are
      recomputed; otherwise the stats are left alone. */
  function RefreshStats(s: TypingState, stats: TypingStats, now: int): (r: TypingStats)
    requires Partitioned(s)
  {
    var total := |s.correctChars| + |s.incorrectChars|;
    if s.isActive && s.startTime.Some? && total > 0 && now - s.startTime.value > 0 then
      TypingStats(Wpm(|s.correctChars|, now - s.startTime.value), Accuracy(|s.correctChars|, total))
    else
      stats
  }

  lemma RefreshStatsSpec(s: TypingState, stats: TypingStats, now: int)
    requires Partitioned(s)
    ensures var r := RefreshStats(s, stats, now);
      && (s.currentPosition == 0 || !s.isActive || s.startTime.None? || now <= s.startTime.value ==> r == stats)
      && (s.currentPosition > 0 && s.isActive && s.startTime.Some? && now > s.startTime.value ==>
            && r.wpm == Wpm(|s.correctChars|, now - s.startTime.value)
            && r.accuracy == Accuracy(|s.correctChars|, s.currentPosition)
            && 0 <= r.wpm && 0 <= r.accuracy <= 100
            && (r.accuracy == 100 <==> 200 * |s.incorrectChars| <= s.currentPosition)
            && (r.accuracy == 0 <==> 200 * |s.correctChars| < s.currentPosition))
  {
  }

  // ----- transitions -----

  /** `startTest`. */
  function Start(s: TypingState, now: int, duration: int): (r: TypingState)
    ensures r.isActive && r.startTime == Some(now) && r.timeRemaining == duration
    ensures r.(isActive := s.isActive, startTime := s.startTime, timeRemaining := s.timeRemaining) == s
  {
    s.(isActive := true, startTime := Some(now), timeRemaining := duration)
  }

  /** Back to the start of the same text, keeping the mode. */
  function Cleared(s: TypingState, duration: int): (r: TypingState)
    ensures Valid(r) && !r.isActive && r.currentPosition == 0
    ensures r.correctChars == [] && r.incorrectChars == [] && r.startTime.None?
    ensures r.mode == s.mode && r.text == s.text && r.timeRemaining == duration
  {
    s.(isActive := false, currentPosition := 0, correctChars := [], incorrectChars := [],
       startTime := None, timeRemaining := duration)
  }

  /** A printable key while the cursor is inside the text. */
  function TypeChar(s: TypingState, key: string): (r: TypingState)
    requires s.currentPosition < |s.text|
    ensures r.currentPosition == s.currentPosition + 1
    ensures key == [s.text[s.currentPosition]] ==>
      r.correctChars == s.correctChars + [s.currentPosition] && r.incorrectChars == s.incorrectChars
    ensures key != [s.text[s.currentPosition]] ==>
      r.incorrectChars == s.incorrectChars + [s.currentPosition] && r.correctChars == s.correctChars
    ensures r.(currentPosition := s.currentPosition, correctChars := s.correctChars,
               incorrectChars := s.incorrectChars) == s
  {
    var pos := s.currentPosition;
    if key == [s.text[pos]] then
      s.(currentPosition := pos + 1, correctChars := s.correctChars + [pos])
    else
      s.(currentPosition := pos + 1, incorrectChars := s.incorrectChars + [pos])
  }

  /** Tab: counts as two correct characters when the next two are spaces,
      and does nothing otherwise. */
  function TypeTab(s: TypingState): (r: TypingState)
    ensures var pos := s.currentPosition;
      if pos + 2 <= |s.text| && s.text[pos] == ' ' && s.text[pos + 1] == ' ' then
        r == s.(currentPosition := pos + 2, correctChars := s.correctChars + [pos, pos + 1])
      else
        r == s
  {
    var pos := s.currentPosition;
    if pos < |s.text| && Substring(s.text, pos, pos + 2) == "  " then
      s.(currentPosition := pos + 2, correctChars := s.correctChars + [pos, pos + 1])
    else
      s
  }

  /** Backspace: steps the cursor back and forgets whatever was recorded at
      the position it returns to. */
  function Backspace(s: TypingState): (r: TypingState)
    ensures s.currentPosition == 0 ==> r == s
    ensures s.currentPosition > 0 ==>
      var p := s.currentPosition - 1;
      && r.currentPosition == p
      && (forall i :: i in r.correctChars <==> i in s.correctChars && i != p)
      && (forall i :: i in r.incorrectChars <==> i in s.incorrectChars && i != p)
      && r.(currentPosition := s.currentPosition, correctChars := s.correctChars,
            incorrectChars := s.incorrectChars) == s
  {
    if s.currentPosition > 0 then
      var p := s.currentPosition - 1;
      s.(currentPosition := p, correctChars := Without(s.correctChars, p),
         incorrectChars := Without(s.incorrectChars, p))
    else
      s
  }

  /** The one-second timer updater. */
  function Tick(s: TypingState): (r: TypingState)
    ensures s.timeRemaining <= 0 ==> r == s
    ensures s.timeRemaining > 0 ==> r == s.(timeRemaining := s.timeRemaining - 1)
    ensures r.timeRemaining >= Min(s.timeRemaining, 0)
  {
    if s.timeRemaining <= 0 then s
    else s.(timeRemaining := Max(0, s.timeRemaining - 1))
  }

  /** `wpm` and `accuracy` of a finishing test: zero for a test with nothing
      typed, recomputed when the start time is known and time has passed,
      and the last live stats otherwise. */
  function FinalStats(s: TypingState, stats: TypingStats, now: int): (r: TypingStats)
    requires Partitioned(s)
    ensures s.currentPosition == 0 ==> r == TypingStats(0, 0)
    ensures s.currentPosition > 0 && s.startTime.Some? && now > s.startTime.value ==>
      && r.wpm == Wpm(|s.correctChars|, now - s.startTime.value)
      && r.accuracy == Accuracy(|s.correctChars|, s.currentPosition)
    ensures s.currentPosition > 0 && !(s.startTime.Some? && now > s.startTime.value) ==> r == stats
  {
    var total := |s.correctChars| + |s.incorrectChars|;
    if total == 0 then TypingStats(0, 0)
    else if s.startTime.Some? && now - s.startTime.value > 0 then
      TypingStats(Wpm(|s.correctChars|, now - s.startTime.value), Accuracy(|s.correctChars|, total))
    else stats
  }

  function Report(s: TypingState, stats: TypingStats, now: int, usedSeconds: int): TestResult
    requires Partitioned(s)
  {
    var m := FinalStats(s, stats, now);
    TestResult(m.wpm, if m.accuracy > 0 then m.accuracy else 0, usedSeconds, s.mode,
               |s.correctChars| + |s.incorrectChars|, |s.incorrectChars|)
  }

  /** The result `endTest` hands to `onComplete`: one exists only when time
      ran out, or when something was typed and the cursor reached the end of
      the text; a test finished early reports the seconds actually used. */
  function EndResult(s: TypingState, stats: TypingStats, now: int, duration: int): (r: Option<TestResult>)
    requires Partitioned(s)
    ensures r.Some? <==> s.timeRemaining <= 0 || (s.currentPosition > 0 && s.currentPosition >= |s.text|)
    ensures r.Some? ==>
      && r.value.characters == s.currentPosition
      && r.value.errors == |s.incorrectChars|
      && r.value.mode == s.mode
      && r.value.accuracy >= 0
      && r.value.duration == (if s.currentPosition >= |s.text| then duration - s.timeRemaining else duration)
      && (s.currentPosition == 0 ==> r.value.wpm == 0 && r.value.accuracy == 0)
      && (s.currentPosition > 0 && s.startTime.Some? && now > s.startTime.value ==>
            && r.value.wpm == Wpm(|s.correctChars|, now - s.startTime.value)
            && r.value.accuracy == Accuracy(|s.correctChars|, s.currentPosition))
      && (s.currentPosition > 0 && !(s.startTime.Some? && now > s.startTime.value) ==>
            r.value.wpm == stats.wpm && r.value.accuracy == Max(stats.accuracy, 0))
  {
    var total := |s.correctChars| + |s.incorrectChars|;
    var timeExpired := s.timeRemaining <= 0;
    var completedEarly := s.currentPosition >= |s.text|;
    if timeExpired || (total > 0 && completedEarly) then
      Some(Report(s, stats, now, if completedEarly then duration - s.timeRemaining else duration))
    else
      None
  }

  /** `endTest`: report (when due), then clear the session and ask for a new
      text; the live stats are kept. */
  function EndTest(s: TypingState, stats: TypingStats, now: int, duration: int): (o: Outcome)
    requires Partitioned(s)
    ensures o.state == Cleared(s, duration) && o.stats == stats && o.fetch
    ensures o.result == EndResult(s, stats, now, duration)
  {
    Outcome(Cleared(s, duration), stats, EndResult(s, stats, now, duration), true)
  }

  /** The time-expiry effect: an active session whose timer reached zero
      always reports, over the full duration. */
  function Expire(s: TypingState, stats: TypingStats, now: int, duration: int): (o: Outcome)
    requires Partitioned(s)
    ensures o.state == Cleared(s, duration) && o.stats == stats && o.fetch
    ensures o.result.Some?
    ensures o.result.value.duration == duration
    ensures o.result.value.characters == s.currentPosition
    ensures o.result.value.errors == |s.incorrectChars|
    ensures o.result.value.mode == s.mode
    ensures var r := o.result;
      && (s.currentPosition == 0 ==> r.value.wpm == 0 && r.value.accuracy == 0)
      && (s.currentPosition > 0 && s.startTime.Some? && now > s.startTime.value ==>
            && r.value.wpm == Wpm(|s.correctChars|, now - s.startTime.value)
            && r.value.accuracy == Accuracy(|s.correctChars|, s.currentPosition))
      && (s.currentPosition > 0 && !(s.startTime.Some? && now > s.startTime.value) ==>
            r.value.wpm == stats.wpm && r.value.accuracy == Max(stats.accuracy, 0))
  {
    Outcome(Cleared(s, duration), stats, Some(Report(s, stats, now, duration)), true)
  }

  /** `resetTest`: the live stats go back to 0 WPM and 100% accuracy. */
  function ResetTest(s: TypingState, duration: int): (o: Outcome)
    ensures o.state == Cleared(s, duration) && o.stats == InitialStats
    ensures o.result.None? && o.fetch
  {
    Outcome(Cleared(s, duration), InitialStats, None, true)
  }

  /** `changeMode`: a reset that also switches the mode. */
  function ChangeModeTo(s: TypingState, mode: string, duration: int): (o: Outcome)
    ensures o.state == Cleared(s, duration).(mode := mode) && o.stats == InitialStats
    ensures o.result.None? && o.fetch
  {
    Outcome(Cleared(s, duration).(mode := mode), InitialStats, None, true)
  }

  function Quiet(s: TypingState, stats: TypingStats): Outcome {
    Outcome(s, stats, None, false)
  }

  /** `handleKeyDown`: Ctrl/Alt+Enter resets; any other key first starts an
      idle session; then Tab, a printable character or Backspace is handled
      and every other key is ignored. A printable key at or past the end of
      the text ends the test; one that reaches the end ends it too, and
      `endTest` then sees the state that includes that key. */
  function HandleKey(s: TypingState, stats: TypingStats, key: string, ctrl: bool, alt: bool,
                     now: int, duration: int): (o: Outcome)
    requires Partitioned(s)
    ensures key == "Enter" && (ctrl || alt) ==> o == ResetTest(s, duration)
    ensures o.result.Some? ==> |key| == 1 && !o.state.isActive && o.fetch
    ensures key == "Tab" || key == "Backspace" ==>
      o.result.None? && !o.fetch && o.state.isActive && o.stats == stats
    ensures |key| == 1 && s.currentPosition + 1 < |s.text| ==>
      o.state.isActive && o.state.currentPosition == s.currentPosition + 1 && o.result.None?
    ensures !(key == "Enter" && (ctrl || alt)) ==>
      var s1 := if !s.isActive then Start(s, now, duration) else s;
      && (key == "Tab" ==> o == Quiet(TypeTab(s1), stats))
      && (key == "Backspace" ==> o == Quiet(Backspace(s1), stats))
      && (|key| == 1 && s1.currentPosition >= |s1.text| ==> o == EndTest(s1, stats, now, duration))
      && (|key| == 1 && s1.currentPosition < |s1.text| ==>
            var s2 := TypeChar(s1, key);
            && Partitioned(s2)
            && o == if s2.currentPosition >= |s2.text| then EndTest(s2, stats, now, duration)
                    else Quiet(s2, stats))
      && (key != "Tab" && key != "Backspace" && |key| != 1 ==> o == Quiet(s1, stats))
  {
    if key == "Enter" && (ctrl || alt) then ResetTest(s, duration)
    else
      var s1 := if !s.isActive then Start(s, now, duration) else s;
      if key == "Tab" then Quiet(TypeTab(s1), stats)
      else if |key| == 1 then
        if s1.currentPosition >= |s1.text| then EndTest(s1, stats, now, duration)
        else
          var s2 := TypeChar(s1, key);
          TypeCharKeepsPartition(s1, key);
          if s2.currentPosition >= |s2.text| then EndTest(s2, stats, now, duration)
          else Quiet(s2, stats)
      else if key == "Backspace" then Quiet(Backspace(s1), stats)
      else Quiet(s1, stats)
  }

  /** The printable-key branch as written: the keystroke that reaches the
      end schedules the `endTest` of the render it was handled in, so the
      result is judged on the record from before the keystroke (`s`), while
      the reset still lands on the record after it. */
  function TypeCharAsWritten(s: TypingState, stats: TypingStats, key: string, now: int, duration: int): (o: Outcome)
    requires Partitioned(s) && |key| == 1
    ensures o.state == HandleKey(s, stats, key, false, false, now, duration).state
    ensures o.fetch == HandleKey(s, stats, key, false, false, now, duration).fetch
    ensures o.result == if o.fetch then EndResult(s, stats, now, duration) else None
  {
    var s1 := if !s.isActive then Start(s, now, duration) else s;
    if s1.currentPosition >= |s1.text| then EndTest(s, stats, now, duration)
    else
      var s2 := TypeChar(s1, key);
      if s2.currentPosition >= |s2.text| then
        Outcome(Cleared(s2, duration), stats, EndResult(s, stats, now, duration), true)
      else Quiet(s2, stats)
  }

  /** Finishing the text before the timer runs out: as written, the test is
      cleared without any result, whereas the intended `HandleKey` reports it. */
  lemma StaleEndTestDropsResult(s: TypingState, stats: TypingStats, key: string, now: int, duration: int)
    requires Valid(s) && s.isActive && s.timeRemaining > 0
    requires |key| == 1 && s.currentPosition + 1 == |s.text|
    ensures TypeCharAsWritten(s, stats, key, now, duration).result.None?
    ensures HandleKey(s, stats, key, false, false, now, duration).result.Some?
    ensures TypeCharAsWritten(s, stats, key, now, duration).state
         == HandleKey(s, stats, key, false, false, now, duration).state
  {
    TypeCharKeepsPartition(s, key);
  }

  /** One event of the hook: a key press; a click on the typing area, which
      starts an idle session; the one-second timer, which runs only while the
      session is active with a truthy start time; the 100 ms live-stats
      refresh; a text arriving from `getTextForTest`, which replaces only the
      text; a mode change; a reset; and the duration-sync effect, which gives
      an idle session the full duration and asks for a text. */
  function Apply(s: TypingState, stats: TypingStats, e: Event, duration: int): (o: Outcome)
    requires Partitioned(s)
    ensures e.KeyDown? ==> o == HandleKey(s, stats, e.key, e.ctrl, e.alt, e.now, duration)
    ensures e.Click? ==>
      && o.state.isActive && o.stats == stats && o.result.None? && !o.fetch
      && o.state == (if s.isActive then s else Start(s, e.now, duration))
    ensures e.TimerTick? ==>
      && o.stats == stats && o.result.None? && !o.fetch
      && o.state == (if s.isActive && s.startTime.Some? && s.startTime.value != 0 then Tick(s) else s)
    ensures e.StatsTick? ==> o == Quiet(s, RefreshStats(s, stats, e.now))
    ensures e.TextArrived? ==> o == Quiet(s.(text := e.text), stats)
    ensures e.ChangeMode? ==> o == ChangeModeTo(s, e.mode, duration)
    ensures e.Reset? ==> o == ResetTest(s, duration)
    ensures e.DurationSync? ==>
      && o.stats == stats && o.result.None? && o.fetch == !s.isActive
      && o.state == (if s.isActive then s else s.(timeRemaining := duration))
    ensures o.result.Some? ==> e.KeyDown? && |e.key| == 1
  {
    match e
    case KeyDown(key, ctrl, alt, now) => HandleKey(s, stats, key, ctrl, alt, now, duration)
    case Click(now) => Quiet(if !s.isActive then Start(s, now, duration) else s, stats)
    case TimerTick =>
      Quiet(if s.isActive && s.startTime.Some? && s.startTime.value != 0 then Tick(s) else s, stats)
    case StatsTick(now) => Quiet(s, RefreshStats(s, stats, now))
    case TextArrived(text) => Quiet(s.(text := text), stats)
    case ChangeMode(mode) => ChangeModeTo(s, mode, duration)
    case Reset => ResetTest(s, duration)
    case DurationSync =>
      if !s.isActive then Outcome(s.(timeRemaining := duration), stats, None, true) else Quiet(s, stats)
  }

  /** No active session is left with zero seconds on the clock. */
  predicate AtRest(s: TypingState) {
    !(s.isActive && s.timeRemaining == 0)
  }

  /** One event, followed by the time-expiry effect that runs after every
      update of the record: an active session whose time reached zero is
      reported over the full duration and cleared, so no step leaves an
      active session at zero. */
  function Step(s: TypingState, stats: TypingStats, e: Event, now: int, duration: int): (o: Outcome)
    requires Valid(s)
    ensures AtRest(o.state)
    ensures var a := Apply(s, stats, e, duration);
      && Valid(a.state)
      && (a.state.isActive && a.state.timeRemaining == 0 ==> o == Expire(a.state, a.stats, now, duration))
      && (!(a.state.isActive && a.state.timeRemaining == 0) ==> o == a)
    ensures o.result.Some? ==> !o.state.isActive && o.fetch
  {
    var o := Apply(s, stats, e, duration);
    ApplyKeepsValid(s, stats, e, duration);
    if o.state.isActive && o.state.timeRemaining == 0 then Expire(o.state, o.stats, now, duration)
    else o
  }

  // ----- the invariant -----

  lemma NoDupAppend(xs: seq<int>, x: int)
    requires NoDup(xs) && x !in xs
    ensures NoDup(xs + [x])
  {
  }

  lemma TypeCharKeepsPartition(s: TypingState, key: string)
    requires Partitioned(s) && s.currentPosition < |s.text|
    ensures Partitioned(TypeChar(s, key))
  {
    var pos := s.currentPosition;
    assert pos !in s.correctChars && pos !in s.incorrectChars;
    if key == [s.text[pos]] {
      NoDupAppend(s.correctChars, pos);
    } else {
      NoDupAppend(s.incorrectChars, pos);
    }
  }

  lemma TypeTabKeepsPartition(s: TypingState)
    requires Partitioned(s)
    ensures Partitioned(TypeTab(s))
  {
    var pos := s.currentPosition;
    if TypeTab(s) != s {
      assert pos !in s.correctChars && pos !in s.incorrectChars;
      assert pos + 1 !in s.correctChars && pos + 1 !in s.incorrectChars;
      NoDupAppend(s.correctChars, pos);
      NoDupAppend(s.correctChars + [pos], pos + 1);
      assert s.correctChars + [pos, pos + 1] == s.correctChars + [pos] + [pos + 1];
    }
  }

  lemma BackspaceKeepsPartition(s: TypingState)
    requires Partitioned(s)
    ensures Partitioned(Backspace(s))
  {
    if s.currentPosition > 0 {
      var p := s.currentPosition - 1;
      assert p in s.correctChars || p in s.incorrectChars;
    }
  }

  lemma HandleKeyKeepsValid(s: TypingState, stats: TypingStats, key: string, ctrl: bool, alt: bool,
                             now: int, duration: int)
    requires Valid(s)
    ensures Valid(HandleKey(s, stats, key, ctrl, alt, now, duration).state)
  {
    if !(key == "Enter" && (ctrl || alt)) {
      var s1 := if !s.isActive then Start(s, now, duration) else s;
      if key == "Tab" {
        TypeTabKeepsPartition(s1);
      } else if |key| == 1 && s1.currentPosition < |s1.text| {
        TypeCharKeepsPartition(s1, key);
      } else if key == "Backspace" {
        BackspaceKeepsPartition(s1);
      }
    }
  }

  lemma ApplyKeepsValid(s: TypingState, stats: TypingStats, e: Event, duration: int)
    requires Valid(s)
    ensures Valid(Apply(s, stats, e, duration).state)
  {
    if e.KeyDown? {
      HandleKeyKeepsValid(s, stats, e.key, e.ctrl, e.alt, e.now, duration);
    }
  }

  /** Every event keeps the session invariant. */
  lemma StepKeepsValid(s: TypingState, stats: TypingStats, e: Event, now: int, duration: int)
    requires Valid(s)
    ensures Valid(Step(s, stats, e, now, duration).state)
  {
    ApplyKeepsValid(s, stats, e, duration);
  }

  /** The cursor stays within the text, unless a text shorter than the
      cursor arrives while a test is running. */
  lemma StepKeepsCursorInText(s: TypingState, stats: TypingStats, e: Event, now: int, duration: int)
    requires Valid(s) && s.currentPosition <= |s.text|
    requires e.TextArrived? && s.isActive ==> s.currentPosition <= |e.text|
    ensures Step(s, stats, e, now, duration).state.currentPosition
         <= |Step(s, stats, e, now, duration).state.text|
  {
  }

  /** A character typed and then erased leaves no trace. */
  lemma {:induction false} TypeThenBackspace(s: TypingState, key: string)
    requires Partitioned(s) && s.currentPosition < |s.text|
    ensures Backspace(TypeChar(s, key)) == s
  {
    var pos := s.currentPosition;
    assert pos !in s.correctChars && pos !in s.incorrectChars;
    WithoutAppended(s.correctChars, pos);
    WithoutAppended(s.incorrectChars, pos);
  }

  /** Filtering out a position just appended, and absent before, undoes the append. */
  lemma WithoutAppended(xs: seq<int>, v: int)
    requires v !in xs
    ensures Without(xs + [v], v) == xs && Without(xs, v) == xs
  {
    assert (xs + [v])[..|xs|] == xs;
  }

  /** A click starts an idle session and does nothing to a running one. */
  lemma ClickIsIdempotent(s: TypingState, stats: TypingStats, t1: int, t2: int, duration: int)
    requires Valid(s)
    ensures var o1 := Apply(s, stats, Click(t1), duration);
      && o1.state.isActive
      && Apply(o1.state, o1.stats, Click(t2), duration) == o1
  {
  }

  /** Ctrl+Enter or Alt+Enter is a reset, active or not. */
  lemma RestartShortcut(s: TypingState, stats: TypingStats, ctrl: bool, alt: bool, now: int, duration: int)
    requires Partitioned(s) && (ctrl || alt)
    ensures var o := HandleKey(s, stats, "Enter", ctrl, alt, now, duration);
      o == ResetTest(s, duration) && !o.state.isActive && o.stats == InitialStats
  {
  }

  /** A printable key at or past the end of the text changes no position:
      it ends the test instead. */
  lemma KeyPastEndEndsTest(s: TypingState, stats: TypingStats, key: string, now: int, duration: int)
    requires Valid(s) && s.isActive && |key| == 1 && s.currentPosition >= |s.text|
    ensures HandleKey(s, stats, key, false, false, now, duration) == EndTest(s, stats, now, duration)
  {
  }

  /** A Tab that lands on the end of the text does not end the test. */
  lemma TabNeverEndsTest(s: TypingState, stats: TypingStats, now: int, duration: int)
    requires Valid(s) && s.isActive
    ensures var o := HandleKey(s, stats, "Tab", false, false, now, duration);
      o.state.isActive && o.result.None? && !o.fetch
  {
  }

  /** Typing the last character of the text ends the test with a result. */
  lemma LastCharReports(s: TypingState, stats: TypingStats, key: string, now: int, duration: int)
    requires Valid(s) && s.isActive && |key| == 1 && s.currentPosition + 1 == |s.text|
    ensures var o := HandleKey(s, stats, key, false, false, now, duration);
      && o.result.Some?
      && o.result.value.characters == |s.text|
      && o.result.value.duration == duration - s.timeRemaining
      && !o.state.isActive
  {
    TypeCharKeepsPartition(s, key);
  }

  /** A silent test that runs out of time reports 0 WPM, 0% accuracy and
      the full duration. */
  lemma SilentExpiryReportsZero(s: TypingState, stats: TypingStats, now: int, duration: int)
    requires Valid(s) && s.isActive && s.currentPosition == 0
    requires s.startTime.Some? && s.startTime.value != 0 && s.timeRemaining == 1
    ensures var o := Step(s, stats, TimerTick, now, duration);
      o.result == Some(TestResult(0, 0, duration, s.mode, 0, 0))
  {
  }

  /** Time running out always ends an active test, whatever has been typed:
      the result covers the full duration and every typed position, the
      session is cleared and a new text is requested. */
  lemma TimeOutAlwaysReports(s: TypingState, stats: TypingStats, now: int, duration: int)
    requires Valid(s) && s.isActive && s.startTime.Some? && s.startTime.value != 0
    requires s.timeRemaining == 1
    ensures var o := Step(s, stats, TimerTick, now, duration);
      && o == Expire(s, stats, now, duration)
      && o.result.Some?
      && o.result.value.duration == duration
      && o.result.value.characters == s.currentPosition
      && o.result.value.errors == |s.incorrectChars|
      && o.state == Cleared(s, duration) && o.stats == stats && o.fetch
  {
  }

  /** A step reports a result only when a printable key ended the test or
      the time of an active session reached zero; a timed-out result always
      covers the full duration. */
  lemma ResultOnlyOnEndOrTimeOut(s: TypingState, stats: TypingStats, e: Event, now: int, duration: int)
    requires Valid(s)
    ensures var o := Step(s, stats, e, now, duration);
      var a := Apply(s, stats, e, duration);
      o.result.Some? ==>
        || (e.KeyDown? && |e.key| == 1 && a.result.Some? && o == a)
        || (a.state.isActive && a.state.timeRemaining == 0 && o.result.value.duration == duration)
  {
  }

  /** The timer does nothing unless the session is active with a truthy
      start time: an idle session never counts down and never expires. */
  lemma TimerNeedsRunningTest(s: TypingState, stats: TypingStats, now: int, duration: int)
    requires Valid(s) && AtRest(s)
    requires !(s.isActive && s.startTime.Some? && s.startTime.value != 0)
    ensures Step(s, stats, TimerTick, now, duration) == Quiet(s, stats)
  {
  }

  /** The duration-sync effect gives an idle session the full duration and
      asks for a text of that length; it leaves a running test alone. */
  lemma DurationSyncSetsClock(s: TypingState, stats: TypingStats, now: int, duration: int)
    requires Valid(s) && AtRest(s)
    ensures var o := Step(s, stats, DurationSync, now, duration);
      && (!s.isActive ==> o == Outcome(s.(timeRemaining := duration), stats, None, true))
      && (s.isActive ==> o == Quiet(s, stats))
  {
  }

  /** An arriving text replaces the text and nothing else. */
  lemma TextArrivalChangesOnlyText(s: TypingState, stats: TypingStats, text: string, now: int, duration: int)
    requires Valid(s) && AtRest(s)
    ensures Step(s, stats, TextArrived(text), now, duration) == Quiet(s.(text := text), stats)
  {
  }

  /** The live-stats refresh changes the stats only, as `RefreshStats` says. */
  lemma StatsTickRefreshes(s: TypingState, stats: TypingStats, t: int, now: int, duration: int)
    requires Valid(s) && AtRest(s)
    ensures Step(s, stats, StatsTick(t), now, duration) == Quiet(s, RefreshStats(s, stats, t))
  {
  }

  /** A text typed through without an error scores 100% accuracy, no errors
      and as many characters as the text has. */
  lemma CleanRunScoresFullAccuracy(s: TypingState, stats: TypingStats, now: int, duration: int)
    requires Valid(s) && s.incorrectChars == [] && s.currentPosition == |s.text| > 0
    requires s.startTime.Some? && now > s.startTime.value
    ensures var r := EndResult(s, stats, now, duration);
      && r.Some?
      && r.value.accuracy == 100 && r.value.errors == 0
      && r.value.characters == |s.text|
  {
  }

  /** Fifty correct and ten wrong characters in thirty seconds: 20 WPM and
      83% accuracy. */
  lemma ExampleScores()
    ensures Wpm(50, 30000) == 20
    ensures Accuracy(50, 60) == 83
  {
  }
}
