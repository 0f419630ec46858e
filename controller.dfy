/** The mode and duration handlers of the typing-test component
    (client/src/components/typing/TypingTest.tsx): which callbacks a
    selection invokes, and in what order, as a list of commands. */
module TypingTestController {
  import TypingSession

  datatype Command =
    | RequestPreview(mode: string)   // onModePreviewRequest(mode)
    | ChangeMode(mode: string)       // changeMode(mode)
    | SetDuration(duration: int)     // setSelectedDuration(duration)
    | ResetTest                      // resetTest()

  /** The modes whose texts are code. */
  predicate IsProgrammingMode(mode: string) {
    mode == "developer" || mode == "python" || mode == "java" || mode == "csharp" || mode == "go"
  }

  /** `handleModeChange(selected)` while the session is in mode `current`:
      the flirty preview when entering `flirty`, the developer preview when
      entering a programming mode from any other, then the mode change. */
  function ModeChangeCommands(current: string, selected: string): (cmds: seq<Command>)
    ensures 1 <= |cmds| <= 2 && cmds[|cmds| - 1] == ChangeMode(selected)
    ensures |cmds| == 2 ==> cmds[0].RequestPreview?
    ensures RequestPreview("flirty") in cmds <==> selected == "flirty" && current != "flirty"
    ensures RequestPreview("developer") in cmds <==>
              IsProgrammingMode(selected) && !IsProgrammingMode(current)
    ensures forall m :: RequestPreview(m) in cmds ==> m == "flirty" || m == "developer"
  {
    var flirty := if selected == "flirty" && current != selected then [RequestPreview(selected)] else [];
    var developer := if IsProgrammingMode(selected) && !IsProgrammingMode(current)
                     then [RequestPreview("developer")] else [];
    flirty + developer + [ChangeMode(selected)]
  }

  /** `handleDurationChange(duration)` while `selected` is the current
      duration: the setter runs only for a new value, the reset always. */
  function DurationChangeCommands(selected: int, duration: int): (cmds: seq<Command>)
    ensures 1 <= |cmds| <= 2 && cmds[|cmds| - 1] == ResetTest
    ensures SetDuration(duration) in cmds <==> duration != selected
    ensures forall c :: c in cmds ==> c == ResetTest || c == SetDuration(duration)
  {
    if duration != selected then [SetDuration(duration), ResetTest] else [ResetTest]
  }

  /** The duration in force once the commands have run. */
  function DurationAfter(selected: int, cmds: seq<Command>): int
    decreases |cmds|
  {
    if cmds == [] then selected
    else DurationAfter(if cmds[0].SetDuration? then cmds[0].duration else selected, cmds[1..])
  }

  /** Whatever was clicked, that duration is the one in force afterwards. */
  lemma DurationChangeTakesEffect(selected: int, duration: int)
    ensures DurationAfter(selected, DurationChangeCommands(selected, duration)) == duration
  {
    var cmds := DurationChangeCommands(selected, duration);
    assert DurationAfter(duration, [ResetTest]) == DurationAfter(duration, []);
    if duration != selected {
      assert cmds[0] == SetDuration(duration) && cmds[1..] == [ResetTest];
    }
  }

  /** Selecting `normal` never asks for a preview, and neither does moving
      between two programming languages. */
  lemma QuietSelections(current: string, selected: string)
    ensures ModeChangeCommands(current, "normal") == [ChangeMode("normal")]
    ensures IsProgrammingMode(current) && IsProgrammingMode(selected) ==>
              ModeChangeCommands(current, selected) == [ChangeMode(selected)]
  {
  }

  /** A preview is shown once per entry: after a selection has gone through
      `changeMode`, selecting the same mode again asks for no preview. */
  lemma PreviewOncePerEntry(s: TypingSession.TypingState, selected: string, duration: int)
    ensures var s' := TypingSession.ChangeModeTo(s, selected, duration).state;
      ModeChangeCommands(s'.mode, selected) == [ChangeMode(selected)]
  {
  }
}
