/** The keyboard gesture recognised by winpad_layout's low-level keyboard
    hook, stated as a transition function: while the left Ctrl key is held,
    two numeric-keypad key-ups name two cells of the grid, and the second one
    completes a placement command. */
module Gesture {
  import opened Wrappers
  import opened Geometry

  /** Win32 virtual-key codes the hook looks at. */
  const VK_LCONTROL: int := 0xA2
  const VK_NUMPAD1: int := 0x61
  const VK_NUMPAD9: int := 0x69

  /** The `wParam` of a low-level keyboard event: WM_KEYDOWN, WM_KEYUP, or any
      other message (WM_SYSKEYDOWN, WM_SYSKEYUP), to which the hook never reacts. */
  datatype KeyMessage = KeyDown | KeyUp | OtherMessage

  /** One call of the hook: the hook code, the event's virtual-key code and its message. */
  datatype Event = Event(code: int, vk: int, msg: KeyMessage)

  /** Consume is `return 1` (the event is swallowed); Forward is CallNextHookEx. */
  datatype Verdict = Consume | Forward

  /** A completed gesture: the two cells, in the order they were released. */
  datatype Command = Command(first: Quadrant, second: Quadrant)

  /** The hook's two statics: whether left Ctrl is held, and the first cell
      of a gesture in progress. */
  datatype GestureState = GestureState(ctrlDown: bool, pending: Option<Quadrant>)

  /** The state at start-up and after left Ctrl is released. */
  const Idle := GestureState(false, None)

  /** What one event does: the new state, the verdict and the command it completes, if any. */
  datatype StepResult = StepResult(next: GestureState, verdict: Verdict, command: Option<Command>)

  /** VK_NUMPAD1 ..= VK_NUMPAD9 (VK_NUMPAD0 is not a cell). */
  predicate IsNumpadDigit(vk: int) { VK_NUMPAD1 <= vk <= VK_NUMPAD9 }

  /** The cell a keypad key names: `vk - VK_NUMPAD1 + 1`. */
  function DigitOf(vk: int): Quadrant
    requires IsNumpadDigit(vk)
  {
    vk - VK_NUMPAD1 + 1
  }

  /** The virtual-key code of the keypad key for a cell. */
  function NumpadKey(q: Quadrant): int { VK_NUMPAD1 + q - 1 }

  /** Every cell has a keypad key, and that key names the cell. */
  lemma NumpadKeyNamesCell(q: Quadrant)
    ensures IsNumpadDigit(NumpadKey(q)) && DigitOf(NumpadKey(q)) == q
  {
  }

  /** Every keypad key VK_NUMPAD1 ..= VK_NUMPAD9 is the key of the cell it
      names, so keys and cells correspond one to one. */
  lemma CellNamesNumpadKey(vk: int)
    requires IsNumpadDigit(vk)
    ensures NumpadKey(DigitOf(vk)) == vk
  {
  }

  /** VK_NUMPAD1 names the bottom-left cell 1 and VK_NUMPAD9 the top-right cell 9. */
  lemma NumpadEnds()
    ensures DigitOf(VK_NUMPAD1) == 1 && DigitOf(VK_NUMPAD9) == 9
  {
  }

  /** The effect of one event, by the case it falls in:
      - a negative hook code is passed on untouched;
      - left Ctrl going down marks it held, going up ends any gesture; both are passed on;
      - a keypad digit going down while Ctrl is held is swallowed;
      - a keypad digit going up while Ctrl is held is swallowed and either opens a
        gesture or completes the open one;
      - everything else is passed on untouched. */
  function Step(s: GestureState, e: Event): StepResult
  {
    if e.code < 0 then StepResult(s, Forward, None)
    else if e.vk == VK_LCONTROL then
      match e.msg
      case KeyDown => StepResult(s.(ctrlDown := true), Forward, None)
      case KeyUp => StepResult(Idle, Forward, None)
      case OtherMessage => StepResult(s, Forward, None)
    else if IsNumpadDigit(e.vk) && s.ctrlDown then
      match e.msg
      case KeyDown => StepResult(s, Consume, None)
      case KeyUp =>
        (match s.pending
         case None => StepResult(s.(pending := Some(DigitOf(e.vk))), Consume, None)
         case Some(first) => StepResult(s.(pending := None), Consume, Some(Command(first, DigitOf(e.vk)))))
      case OtherMessage => StepResult(s, Forward, None)
    else StepResult(s, Forward, None)
  }

  /** A Ctrl+keypad key-down or key-up while left Ctrl is held. */
  predicate IsCellKey(s: GestureState, e: Event) {
    e.code >= 0 && e.vk != VK_LCONTROL && IsNumpadDigit(e.vk) && s.ctrlDown && e.msg != OtherMessage
  }

  /** The hook swallows exactly the keypad digit key-downs and key-ups made
      while left Ctrl is held; every other event reaches the next hook. */
  lemma ConsumedIffCellKey(s: GestureState, e: Event)
    ensures Step(s, e).verdict == Consume <==> IsCellKey(s, e)
  {
  }

  /** A command is completed exactly by a keypad key-up while Ctrl is held and
      a first cell is pending; it pairs the pending cell with the released one,
      clears the pending cell, and the event is swallowed. */
  lemma CommandIffSecondKeyUp(s: GestureState, e: Event)
    ensures Step(s, e).command.Some? <==>
      IsCellKey(s, e) && e.msg == KeyUp && s.pending.Some?
    ensures Step(s, e).command.Some? ==>
      Step(s, e).verdict == Consume &&
      Step(s, e).command.value == Command(s.pending.value, DigitOf(e.vk)) &&
      Step(s, e).next == s.(pending := None)
  {
  }

  /** Events with a negative hook code are forwarded and change nothing. */
  lemma NegativeCodeForwarded(s: GestureState, e: Event)
    requires e.code < 0
    ensures Step(s, e) == StepResult(s, Forward, None)
  {
  }

  /** A keypad digit key-down while Ctrl is held is swallowed and changes nothing,
      so the key's auto-repeat does not disturb a gesture. */
  lemma DigitDownWhileHeldSwallowed(s: GestureState, e: Event)
    requires e.code >= 0 && IsNumpadDigit(e.vk) && s.ctrlDown && e.msg == KeyDown
    ensures Step(s, e) == StepResult(s, Consume, None)
  {
  }

  /** Releasing left Ctrl abandons any gesture in progress and is forwarded. */
  lemma CtrlUpResets(s: GestureState, e: Event)
    requires e.code >= 0 && e.vk == VK_LCONTROL && e.msg == KeyUp
    ensures Step(s, e) == StepResult(Idle, Forward, None)
  {
  }

  /** Left Ctrl's auto-repeated key-downs keep the gesture in progress. */
  lemma CtrlDownKeepsPending(s: GestureState, e: Event)
    requires e.code >= 0 && e.vk == VK_LCONTROL && e.msg == KeyDown
    ensures Step(s, e) == StepResult(GestureState(true, s.pending), Forward, None)
  {
  }

  /** Only left Ctrl and Ctrl+keypad key-ups change the state; every other
      event (other keys, system-key messages, keypad keys without Ctrl)
      leaves it as it was. */
  lemma StateChangesOnlyOnCtrlOrCellKeyUp(s: GestureState, e: Event)
    requires Step(s, e).next != s
    ensures e.code >= 0
    ensures e.vk == VK_LCONTROL || (IsCellKey(s, e) && e.msg == KeyUp)
  {
  }

  /** The reachable states: no cell is pending while Ctrl is up. */
  predicate Coherent(s: GestureState) { !s.ctrlDown ==> s.pending.None? }

  /** Every event keeps the state coherent. */
  lemma StepKeepsCoherent(s: GestureState, e: Event)
    requires Coherent(s)
    ensures Coherent(Step(s, e).next)
  {
  }

  // ---------------------------------------------------------------------
  // Runs of events
  // ---------------------------------------------------------------------

  /** The outcome of feeding a sequence of events to the hook. */
  datatype RunResult = RunResult(final: GestureState, verdicts: seq<Verdict>, commands: seq<Command>)

  function OptionToSeq<T>(o: Option<T>): (r: seq<T>)
    ensures |r| <= 1
  {
    match o
    case None => []
    case Some(x) => [x]
  }

  /** The events fed one at a time, starting in state `s`, with one verdict
      per event and the commands in the order they are completed. */
  function Run(s: GestureState, events: seq<Event>): (r: RunResult)
    ensures |r.verdicts| == |events|
    ensures |r.commands| <= |events|
    decreases |events|
  {
    if events == [] then RunResult(s, [], [])
    else
      var step := Step(s, events[0]);
      var rest := Run(step.next, events[1..]);
      RunResult(rest.final, [step.verdict] + rest.verdicts, OptionToSeq(step.command) + rest.commands)
  }

  /** One event followed by more: the run unfolded once. */
  lemma RunCons(s: GestureState, e: Event, rest: seq<Event>)
    ensures var step := Step(s, e);
      var r := Run(step.next, rest);
      Run(s, [e] + rest) == RunResult(r.final, [step.verdict] + r.verdicts, OptionToSeq(step.command) + r.commands)
  {
    assert ([e] + rest)[0] == e;
    assert ([e] + rest)[1..] == rest;
  }

  /** Running two sequences back to back is running their concatenation. */
  lemma {:induction false} RunAppend(s: GestureState, a: seq<Event>, b: seq<Event>)
    ensures var ra := Run(s, a);
      var rb := Run(ra.final, b);
      Run(s, a + b) == RunResult(rb.final, ra.verdicts + rb.verdicts, ra.commands + rb.commands)
    decreases |a|
  {
    if a == [] {
      assert a + b == b;
    } else {
      var step := Step(s, a[0]);
      var tail := a[1..];
      assert a == [a[0]] + tail;
      assert a + b == [a[0]] + (tail + b);
      RunCons(s, a[0], tail + b);
      RunCons(s, a[0], tail);
      RunAppend(step.next, tail, b);
      var rt := Run(step.next, tail);
      var rb := Run(rt.final, b);
      ConcatAssoc([step.verdict], rt.verdicts, rb.verdicts);
      ConcatAssoc(OptionToSeq(step.command), rt.commands, rb.commands);
    }
  }

  lemma ConcatAssoc<T>(x: seq<T>, y: seq<T>, z: seq<T>)
    ensures x + (y + z) == (x + y) + z
  {
  }

  /** Any run from a coherent state ends in a coherent state. */
  lemma {:induction false} RunKeepsCoherent(s: GestureState, events: seq<Event>)
    requires Coherent(s)
    ensures Coherent(Run(s, events).final)
    decreases |events|
  {
    if events != [] {
      StepKeepsCoherent(s, events[0]);
      RunKeepsCoherent(Step(s, events[0]).next, events[1..]);
    }
  }

  /** The number of swallowed events. */
  function CountConsumed(verdicts: seq<Verdict>): nat
  {
    if verdicts == [] then 0
    else (if verdicts[0] == Consume then 1 else 0) + CountConsumed(verdicts[1..])
  }

  /** Every completed command was swallowed: a run completes no more commands
      than it swallows events. */
  lemma {:induction false} CommandsAreConsumed(s: GestureState, events: seq<Event>)
    ensures |Run(s, events).commands| <= CountConsumed(Run(s, events).verdicts)
    decreases |events|
  {
    if events != [] {
      var r := Run(s, events);
      var step := Step(s, events[0]);
      CommandIffSecondKeyUp(s, events[0]);
      CommandsAreConsumed(step.next, events[1..]);
      assert r.verdicts[1..] == Run(step.next, events[1..]).verdicts;
    }
  }

  // ---------------------------------------------------------------------
  // Gestures
  // ---------------------------------------------------------------------

  function Press(vk: int): Event { Event(0, vk, KeyDown) }
  function Release(vk: int): Event { Event(0, vk, KeyUp) }

  /** Left Ctrl goes down, then keypad `a` is pressed and released. */
  function FirstKey(a: Quadrant): seq<Event>
  {
    [Press(VK_LCONTROL), Press(NumpadKey(a)), Release(NumpadKey(a))]
  }

  /** Keypad `b` is pressed and released. */
  function SecondKey(b: Quadrant): seq<Event>
  {
    [Press(NumpadKey(b)), Release(NumpadKey(b))]
  }

  /** Left Ctrl goes down, then keypad `a` and keypad `b` are each pressed and released. */
  function Chord(a: Quadrant, b: Quadrant): seq<Event>
  {
    FirstKey(a) + SecondKey(b)
  }

  /** The first key of a gesture: the Ctrl press is forwarded, the keypad
      press and release are swallowed, and the release only records `a`. */
  lemma FirstKeyRecords(s: GestureState, a: Quadrant)
    requires s.pending.None?
    ensures Run(s, FirstKey(a)) == RunResult(GestureState(true, Some(a)), [Forward, Consume, Consume], [])
  {
    NumpadKeyNamesCell(a);
    var s1 := GestureState(true, None);
    var s2 := GestureState(true, Some(a));
    assert Step(s, Press(VK_LCONTROL)) == StepResult(s1, Forward, None);
    assert Step(s1, Press(NumpadKey(a))) == StepResult(s1, Consume, None);
    assert Step(s1, Release(NumpadKey(a))) == StepResult(s2, Consume, None);
    RunCons(s1, Release(NumpadKey(a)), []);
    RunCons(s1, Press(NumpadKey(a)), [Release(NumpadKey(a))]);
    RunCons(s, Press(VK_LCONTROL), [Press(NumpadKey(a)), Release(NumpadKey(a))]);
  }

  /** The second key of a gesture: both events are swallowed and the release
      completes exactly the one command (first, b) and clears the pending cell.
      Ctrl is still held, so a further pair of keys makes a new gesture. */
  lemma SecondKeyCompletes(first: Quadrant, b: Quadrant)
    ensures Run(GestureState(true, Some(first)), SecondKey(b)) ==
      RunResult(GestureState(true, None), [Consume, Consume], [Command(first, b)])
  {
    NumpadKeyNamesCell(b);
    var s2 := GestureState(true, Some(first));
    assert Step(s2, Press(NumpadKey(b))) == StepResult(s2, Consume, None);
    assert Step(s2, Release(NumpadKey(b))) == StepResult(GestureState(true, None), Consume, Some(Command(first, b)));
    RunCons(s2, Release(NumpadKey(b)), []);
    RunCons(s2, Press(NumpadKey(b)), [Release(NumpadKey(b))]);
  }

  /** The two-key gesture as a whole: one command (a, b), Ctrl still held. */
  lemma ChordCompletesOneCommand(s: GestureState, a: Quadrant, b: Quadrant)
    requires s.pending.None?
    ensures Run(s, Chord(a, b)) ==
      RunResult(GestureState(true, None), [Forward, Consume, Consume, Consume, Consume], [Command(a, b)])
  {
    FirstKeyRecords(s, a);
    SecondKeyCompletes(a, b);
    RunAppend(s, FirstKey(a), SecondKey(b));
  }

  /** A complete gesture from the idle state, Ctrl released at the end. */
  function FullGesture(a: Quadrant, b: Quadrant): seq<Event>
  {
    Chord(a, b) + [Release(VK_LCONTROL)]
  }

  lemma GestureFromIdle(a: Quadrant, b: Quadrant)
    ensures Run(Idle, FullGesture(a, b)) ==
      RunResult(Idle, [Forward, Consume, Consume, Consume, Consume, Forward], [Command(a, b)])
  {
    ChordCompletesOneCommand(Idle, a, b);
    RunCons(GestureState(true, None), Release(VK_LCONTROL), []);
    RunAppend(Idle, Chord(a, b), [Release(VK_LCONTROL)]);
  }

  /** Ctrl is released between the two keys: the first key is recorded and
      then forgotten, and no command is completed. */
  function CancelledGesture(a: Quadrant): seq<Event>
  {
    FirstKey(a) + [Release(VK_LCONTROL)]
  }

  lemma CancelledGestureCompletesNothing(s: GestureState, a: Quadrant)
    requires s.pending.None?
    ensures Run(s, CancelledGesture(a)) == RunResult(Idle, [Forward, Consume, Consume, Forward], [])
  {
    FirstKeyRecords(s, a);
    RunCons(GestureState(true, Some(a)), Release(VK_LCONTROL), []);
    RunAppend(s, FirstKey(a), [Release(VK_LCONTROL)]);
  }

  /** A cancelled gesture leaves no trace: whatever follows it behaves as
      from the idle state. */
  lemma CancelledGestureForgotten(s: GestureState, a: Quadrant, later: seq<Event>)
    requires s.pending.None?
    ensures Run(s, CancelledGesture(a) + later).commands == Run(Idle, later).commands
    ensures Run(s, CancelledGesture(a) + later).final == Run(Idle, later).final
    ensures Run(s, CancelledGesture(a) + later).verdicts ==
      [Forward, Consume, Consume, Forward] + Run(Idle, later).verdicts
  {
    CancelledGestureCompletesNothing(s, a);
    RunAppend(s, CancelledGesture(a), later);
  }

  /** Scenario: keypad 1 is abandoned by releasing Ctrl, then 5 and 2 make a
      gesture; the only command is (5, 2). */
  lemma AbandonedThenGesture()
    ensures Run(Idle, CancelledGesture(1) + FullGesture(5, 2)).commands == [Command(5, 2)]
  {
    CancelledGestureForgotten(Idle, 1, FullGesture(5, 2));
    GestureFromIdle(5, 2);
  }

  /** Scenario: while Ctrl stays held, two gestures in a row make two commands. */
  lemma TwoChordsWhileHeld(a: Quadrant, b: Quadrant, c: Quadrant, d: Quadrant)
    ensures Run(Idle, Chord(a, b) + Chord(c, d)).commands == [Command(a, b), Command(c, d)]
  {
    ChordCompletesOneCommand(Idle, a, b);
    ChordCompletesOneCommand(GestureState(true, None), c, d);
    RunAppend(Idle, Chord(a, b), Chord(c, d));
  }
}
