/** The click manager: tracks the left mouse button across frames over a list of registered
    clickables, and tells them when they are hovered, pressed and clicked. */
module ClickManagement {
  import opened GuiCommon
  import opened ClickDispatch

  class ClickManager {
    var leftClicks: seq<ClickableId>
    var previousButtonState: ButtonState
    var leftClicked: Target
    /** Every call made on the clickables so far. */
    var log: seq<ClickCall>

    predicate Valid()
      reads this
    {
      Consistent(leftClicks, previousButtonState, leftClicked)
    }

    constructor ()
      ensures Valid()
      ensures leftClicks == [] && previousButtonState == Released && leftClicked == NoTarget && log == []
    {
      leftClicks := [];
      previousButtonState := Released;
      leftClicked := NoTarget;
      log := [];
    }

    /** Registers a clickable after the ones registered before it. */
    method RegisterLeftClick(c: ClickableId)
      requires Valid()
      modifies this`leftClicks
      ensures Valid()
      ensures leftClicks == old(leftClicks) + [c]
    {
      leftClicks := leftClicks + [c];
    }

    /** One frame: reads the left button and handles it. */
    method FrameTick(button: ButtonState, contains: ClickableId -> bool)
      requires Valid()
      modifies this`previousButtonState, this`leftClicked, this`log
      ensures var r := ClickFrame(leftClicks, old(previousButtonState), old(leftClicked), button, contains, false);
              log == old(log) + r.calls && leftClicked == r.stored
      ensures previousButtonState == button
      ensures Valid()
    {
      HandleLeftClick(button, contains);
    }

    method HandleLeftClick(button: ButtonState, contains: ClickableId -> bool)
      requires Valid()
      modifies this`previousButtonState, this`leftClicked, this`log
      ensures var r := ClickFrame(leftClicks, old(previousButtonState), old(leftClicked), button, contains, false);
              log == old(log) + r.calls && leftClicked == r.stored
      ensures previousButtonState == button
      ensures Valid()
    {
      FrameKeepsConsistency(leftClicks, previousButtonState, leftClicked, button, contains, false);
      if button == Pressed {
        HandlePress(contains);
      } else {
        HandleRelease(contains);
      }
      previousButtonState := button;
    }

    /** A frame with the button down: on the press edge every clickable is reset and the first
        one under the mouse is stored; the stored one then shows whether the mouse is on it. */
    method HandlePress(contains: ClickableId -> bool)
      modifies this`leftClicked, this`log
      ensures var r := ClickFrame(leftClicks, previousButtonState, old(leftClicked), Pressed, contains, false);
              log == old(log) + r.calls && leftClicked == r.stored
    {
      if previousButtonState == Released {
        ResetAllLeftClicks();
        StoreLeftClicked(contains);
      }
      if leftClicked.Target? {
        log := log + [ChangeState(leftClicked.id, if contains(leftClicked.id) then Clicked else ClickState.None)];
      }
    }

    /** A frame with the button up: a press released inside the stored clickable is a click;
        then nothing is stored and every clickable shows whether it is hovered. */
    method HandleRelease(contains: ClickableId -> bool)
      modifies this`leftClicked, this`log
      ensures var r := ClickFrame(leftClicks, previousButtonState, old(leftClicked), Released, contains, false);
              log == old(log) + r.calls && leftClicked == r.stored
    {
      if previousButtonState == Pressed && leftClicked.Target? && contains(leftClicked.id) {
          log := log + [LeftClickAction(leftClicked.id)];
      }
      leftClicked := NoTarget;
      HoverAll(contains);
    }

    /** Sets every clickable to Hovered or None by whether its area contains the mouse. */
    method HoverAll(contains: ClickableId -> bool)
      modifies this`log
      ensures log == old(log) + BroadcastCalls(leftClicks, Hover(contains))
    {
      var i := 0;
      while i < |leftClicks|
        invariant 0 <= i <= |leftClicks|
        invariant log == old(log) + BroadcastCalls(leftClicks[..i], Hover(contains))
      {
        assert leftClicks[..i + 1][..i] == leftClicks[..i];
        log := log + [ChangeState(leftClicks[i], if contains(leftClicks[i]) then Hovered else ClickState.None)];
        i := i + 1;
      }
      assert leftClicks[..i] == leftClicks;
    }

    /** Sets every clickable to None, in registration order. */
    method ResetAllLeftClicks()
      modifies this`log
      ensures log == old(log) + BroadcastCalls(leftClicks, ResetState)
    {
      var i := 0;
      while i < |leftClicks|
        invariant 0 <= i <= |leftClicks|
        invariant log == old(log) + BroadcastCalls(leftClicks[..i], ResetState)
      {
        assert leftClicks[..i + 1][..i] == leftClicks[..i];
        log := log + [ChangeState(leftClicks[i], ClickState.None)];
        i := i + 1;
      }
      assert leftClicks[..i] == leftClicks;
    }

    /** Stores the first clickable under the mouse, or none; with nothing registered the
        stored clickable is left as it was. */
    method StoreLeftClicked(contains: ClickableId -> bool)
      modifies this`leftClicked
      ensures leftClicked == StoredAfterSearch(leftClicks, old(leftClicked), contains)
    {
      var i := 0;
      while i < |leftClicks|
        invariant 0 <= i <= |leftClicks|
        invariant forall j :: 0 <= j < i ==> !contains(leftClicks[j])
        invariant i == 0 ==> leftClicked == old(leftClicked)
        invariant i > 0 ==> leftClicked == NoTarget
      {
        if contains(leftClicks[i]) {
          leftClicked := Target(leftClicks[i]);
          FirstHitIsFirstContaining(leftClicks, contains, i);
          return;
        }
        leftClicked := NoTarget;
        i := i + 1;
      }
    }
  }
}
