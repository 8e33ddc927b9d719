/** winpad_layout's low-level keyboard hook procedure as an object: the two
    `static` locals of the callback become the fields of a class, and one call
    of the callback is one call of HandleEvent. The Win32 queries about the
    foreground window are a WindowSnapshot argument and the Win32 effects are
    the returned Action. */
module Hook {
  import opened Wrappers
  import opened Geometry
  import opened Placement
  import opened Gesture

  /** The placement step of the hook written as the code does it: maximize
      unless already maximized, or take the min/max box of the two cells,
      widen it by the border, restore a maximized window and then move it. */
  method PlaceWindow(win: WindowSnapshot, first: Quadrant, second: Quadrant) returns (action: Action)
    ensures action == Place(win, first, second)
  {
    var border := WindowBorder(win.windowRect, win.extendedFrame);
    if ShouldBeMaximized(first, second) {
      if !win.maximized {
        action := Maximize;
      } else {
        action := NoAction;
      }
    } else {
      var rect1 := GetQuadrant(win.workArea, first);
      var rect2 := GetQuadrant(win.workArea, second);
      var left := Min(rect1.left, rect2.left) + border.left;
      var top := Min(rect1.top, rect2.top) + border.top;
      var right := Max(rect1.right, rect2.right) + border.right;
      var bottom := Max(rect1.bottom, rect2.bottom) + border.bottom;
      var pos := WindowPos(left, top, right - left, bottom - top);
      if win.maximized {
        action := RestoreThenMove(pos);
      } else {
        action := Move(pos);
      }
    }
  }

  class KeyboardHook {
    /** `ctrl_down`: left Ctrl is held. */
    var ctrlDown: bool
    /** `first_quadrant`: the first cell of a gesture in progress, or -1. */
    var firstQuadrant: int

    /** `first_quadrant` is -1 or one of the nine cells. */
    ghost predicate Valid()
      reads this
    {
      firstQuadrant == -1 || 1 <= firstQuadrant <= 9
    }

    /** The fields read as a gesture state. */
    function State(): GestureState
      reads this
      requires Valid()
    {
      GestureState(ctrlDown, if firstQuadrant == -1 then None else Some(firstQuadrant))
    }

    /** The statics' initial values: Ctrl not held, no cell pending. */
    constructor ()
      ensures Valid() && State() == Idle
      ensures !ctrlDown && firstQuadrant == -1
    {
      ctrlDown := false;
      firstQuadrant := -1;
    }

    /** One call of the hook procedure. The new state, the verdict and the
        completed command are those of Gesture.Step; a completed command is
        carried out as Placement.Place decides; the pending cell stays -1 or
        a cell. */
    method HandleEvent(aCode: int, vk: int, wParam: KeyMessage, win: WindowSnapshot)
        returns (verdict: Verdict, command: Option<Command>, action: Action)
      requires Valid()
      modifies this
      ensures Valid()
      ensures Step(old(State()), Event(aCode, vk, wParam)) == StepResult(State(), verdict, command)
      ensures action == if command.Some? then Place(win, command.value.first, command.value.second) else NoAction
      ensures aCode < 0 ==> verdict == Forward && ctrlDown == old(ctrlDown) && firstQuadrant == old(firstQuadrant)
    {
      if aCode < 0 {
        return Forward, None, NoAction;
      }

      // left Ctrl going down marks it held; going up also drops a pending cell
      if vk == VK_LCONTROL && wParam == KeyDown {
        ctrlDown := true;
      }
      if vk == VK_LCONTROL && wParam == KeyUp {
        ctrlDown := false;
        firstQuadrant := -1;
      }

      var quadrant := -1;

      // a keypad key-down while Ctrl is held is swallowed
      if wParam == KeyDown && ctrlDown {
        if VK_NUMPAD1 <= vk <= VK_NUMPAD9 {
          return Consume, None, NoAction;
        }
      }

      // a keypad key-up while Ctrl is held names a cell
      if wParam == KeyUp && ctrlDown {
        if VK_NUMPAD1 <= vk <= VK_NUMPAD9 {
          quadrant := vk - VK_NUMPAD1 + 1;
        }
      }

      if firstQuadrant == -1 && quadrant != -1 {
        // no cell pending yet: this key-up opens the gesture
        firstQuadrant := quadrant;
        return Consume, None, NoAction;
      }

      if firstQuadrant != -1 && quadrant != -1 {
        command := Some(Command(firstQuadrant, quadrant));
        action := PlaceWindow(win, firstQuadrant, quadrant);
        firstQuadrant := -1;
        return Consume, command, action;
      }

      return Forward, None, NoAction;
    }
  }

  /** A fresh hook fed the two-key gesture (a, b) with Ctrl released at the end:
      it forwards the two Ctrl events, swallows the four keypad events, and
      carries out exactly one placement, on the last keypad release. */
  method HookGesture(win: WindowSnapshot, a: Quadrant, b: Quadrant)
      returns (verdicts: seq<Verdict>, actions: seq<Action>)
    ensures verdicts == [Forward, Consume, Consume, Consume, Consume, Forward]
    ensures actions == [NoAction, NoAction, NoAction, NoAction, Place(win, a, b), NoAction]
  {
    NumpadKeyNamesCell(a);
    NumpadKeyNamesCell(b);
    var hook := new KeyboardHook();
    var v0, c0, a0 := hook.HandleEvent(0, VK_LCONTROL, KeyDown, win);
    assert hook.State() == GestureState(true, None);
    var v1, c1, a1 := hook.HandleEvent(0, NumpadKey(a), KeyDown, win);
    assert hook.State() == GestureState(true, None);
    var v2, c2, a2 := hook.HandleEvent(0, NumpadKey(a), KeyUp, win);
    assert hook.State() == GestureState(true, Some(a));
    var v3, c3, a3 := hook.HandleEvent(0, NumpadKey(b), KeyDown, win);
    assert hook.State() == GestureState(true, Some(a));
    var v4, c4, a4 := hook.HandleEvent(0, NumpadKey(b), KeyUp, win);
    assert c4 == Some(Command(a, b));
    var v5, c5, a5 := hook.HandleEvent(0, VK_LCONTROL, KeyUp, win);
    verdicts := [v0, v1, v2, v3, v4, v5];
    actions := [a0, a1, a2, a3, a4, a5];
  }
}
