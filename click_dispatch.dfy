/** What the click managers do in one frame, as values: which calls the registered
    clickables receive and which clickable the manager remembers as pressed. The hit test
    ("does this clickable's area contain the mouse?") is a parameter. */
module ClickDispatch {
  import opened GuiCommon

  /** A registered clickable, identified by registration identity. */
  type ClickableId = nat

  datatype ButtonState = Released | Pressed

  /** The clickable the current press started on, if any (a nullable reference). */
  datatype Target = NoTarget | Target(id: ClickableId)

  /** A call a manager makes on a clickable. */
  datatype ClickCall =
    | ChangeState(target: ClickableId, state: ClickState)
    | SetFocused(target: ClickableId, focused: bool)
    | LeftClickAction(target: ClickableId)
    | KeyPressed(target: ClickableId, key: Key)

  /** A call a manager makes on every registered clickable in turn. */
  datatype Broadcast =
    | ResetState                         // ChangeState(None)
    | Hover(contains: ClickableId -> bool) // Hovered when the mouse is inside, else None
    | Unfocus                            // Focused = false

  function BroadcastCall(b: Broadcast, c: ClickableId): (call: ClickCall)
    ensures call.target == c && !call.LeftClickAction? && !call.KeyPressed?
    ensures b.ResetState? ==> call == ChangeState(c, ClickState.None)
    ensures b.Hover? ==> call == ChangeState(c, if b.contains(c) then Hovered else ClickState.None)
    ensures b.Unfocus? ==> call == SetFocused(c, false)
  {
    match b
    case ResetState => ChangeState(c, ClickState.None)
    case Hover(contains) => ChangeState(c, if contains(c) then Hovered else ClickState.None)
    case Unfocus => SetFocused(c, false)
  }

  /** The calls of a broadcast: one per clickable, in registration order. */
  function BroadcastCalls(clicks: seq<ClickableId>, b: Broadcast): (calls: seq<ClickCall>)
    ensures |calls| == |clicks|
    ensures forall i :: 0 <= i < |clicks| ==> calls[i] == BroadcastCall(b, clicks[i])
  {
    if clicks == [] then [] else BroadcastCalls(clicks[..|clicks| - 1], b) + [BroadcastCall(b, clicks[|clicks| - 1])]
  }

  /** The first registered clickable whose area contains the mouse. */
  function FirstHit(clicks: seq<ClickableId>, contains: ClickableId -> bool): (t: Target)
    ensures t.Target? ==> exists i :: 0 <= i < |clicks| && clicks[i] == t.id && contains(clicks[i]) &&
                                      forall j :: 0 <= j < i ==> !contains(clicks[j])
    ensures t == NoTarget <==> forall i :: 0 <= i < |clicks| ==> !contains(clicks[i])
  {
    if clicks == [] then NoTarget
    else if contains(clicks[0]) then Target(clicks[0])
    else
      var t := FirstHit(clicks[1..], contains);
      assert forall i :: 1 <= i < |clicks| ==> clicks[1..][i - 1] == clicks[i];
      t
  }

  /** Searching one more clickable finds it only if nothing before it was hit. */
  lemma {:induction false} FirstHitExtend(clicks: seq<ClickableId>, x: ClickableId, contains: ClickableId -> bool)
    ensures FirstHit(clicks + [x], contains) ==
            if FirstHit(clicks, contains).Target? then FirstHit(clicks, contains)
            else if contains(x) then Target(x) else NoTarget
  {
    if clicks != [] {
      assert (clicks + [x])[1..] == clicks[1..] + [x];
      FirstHitExtend(clicks[1..], x, contains);
    }
  }

  /** The first hit is the clickable at the first index whose area contains the mouse. */
  lemma FirstHitIsFirstContaining(clicks: seq<ClickableId>, contains: ClickableId -> bool, i: nat)
    requires i < |clicks| && contains(clicks[i])
    requires forall j :: 0 <= j < i ==> !contains(clicks[j])
    ensures FirstHit(clicks, contains) == Target(clicks[i])
  {
    var t := FirstHit(clicks, contains);
    var k :| 0 <= k < |clicks| && clicks[k] == t.id && contains(clicks[k]) &&
             forall j :: 0 <= j < k ==> !contains(clicks[j]);
    assert k == i;
  }

  /** What the search on a fresh press leaves stored: the first hit, or with nothing
      registered the previous value, since the search loop then never runs. */
  function StoredAfterSearch(clicks: seq<ClickableId>, stored: Target, contains: ClickableId -> bool): Target
  {
    if clicks == [] then stored else FirstHit(clicks, contains)
  }

  datatype FrameResult = FrameResult(calls: seq<ClickCall>, stored: Target)

  /** One frame of left-button handling. `resetsFocus` says whether a completed click first
      unfocuses every clickable (the input manager does, the plain click manager does not). */
  function ClickFrame(clicks: seq<ClickableId>, previous: ButtonState, stored: Target, button: ButtonState,
                      contains: ClickableId -> bool, resetsFocus: bool): FrameResult
  {
    if button == Pressed then
      var reset := if previous == Released then BroadcastCalls(clicks, ResetState) else [];
      var s := if previous == Released then StoredAfterSearch(clicks, stored, contains) else stored;
      var mark := if s.Target? then [ChangeState(s.id, if contains(s.id) then Clicked else ClickState.None)] else [];
      FrameResult(reset + mark, s)
    else
      var action :=
        if previous == Pressed && stored.Target? && contains(stored.id) then
          (if resetsFocus then BroadcastCalls(clicks, Unfocus) else []) + [LeftClickAction(stored.id)]
        else [];
      FrameResult(action + BroadcastCalls(clicks, Hover(contains)), NoTarget)
  }

  /** The state a manager keeps between frames: nothing is stored while the button is up,
      and what is stored is registered. */
  predicate Consistent(clicks: seq<ClickableId>, previous: ButtonState, stored: Target)
  {
    (previous == Released ==> stored == NoTarget) && (stored.Target? ==> stored.id in clicks)
  }

  /** Every frame keeps the managers' state consistent. */
  lemma FrameKeepsConsistency(clicks: seq<ClickableId>, previous: ButtonState, stored: Target, button: ButtonState,
                              contains: ClickableId -> bool, resetsFocus: bool)
    requires Consistent(clicks, previous, stored)
    ensures Consistent(clicks, button, ClickFrame(clicks, previous, stored, button, contains, resetsFocus).stored)
  {
  }

  /** On the released-to-pressed edge every clickable is reset to None, in order, and the
      first clickable under the mouse is stored and shown as Clicked; nothing else happens. */
  lemma PressEdgeSelectsFirstHit(clicks: seq<ClickableId>, stored: Target, contains: ClickableId -> bool, resetsFocus: bool)
    requires Consistent(clicks, Released, stored)
    ensures var r := ClickFrame(clicks, Released, stored, Pressed, contains, resetsFocus);
            r.stored == FirstHit(clicks, contains) &&
            r.calls == BroadcastCalls(clicks, ResetState) +
                       (if r.stored.Target? then [ChangeState(r.stored.id, Clicked)] else [])
  {
  }

  /** While the button stays down only the stored clickable is touched: it shows Clicked
      or None by containment. */
  lemma HeldPressTouchesOnlyStored(clicks: seq<ClickableId>, stored: Target, contains: ClickableId -> bool, resetsFocus: bool)
    ensures var r := ClickFrame(clicks, Pressed, stored, Pressed, contains, resetsFocus);
            r.stored == stored &&
            (stored == NoTarget ==> r.calls == []) &&
            (stored.Target? ==> r.calls == [ChangeState(stored.id, if contains(stored.id) then Clicked else ClickState.None)])
  {
  }

  /** A frame with the button up forgets the stored clickable and ends with every clickable
      showing Hovered or None by containment. */
  lemma ReleasedFrameHovers(clicks: seq<ClickableId>, previous: ButtonState, stored: Target, contains: ClickableId -> bool, resetsFocus: bool)
    ensures var r := ClickFrame(clicks, previous, stored, Released, contains, resetsFocus);
            r.stored == NoTarget && |r.calls| >= |clicks| &&
            r.calls[|r.calls| - |clicks|..] == BroadcastCalls(clicks, Hover(contains))
  {
  }

  /** A click completes exactly when the button goes up inside the clickable it went down
      on; only that clickable's action runs. */
  lemma ActionIffReleasedInside(clicks: seq<ClickableId>, previous: ButtonState, stored: Target, button: ButtonState,
                                contains: ClickableId -> bool, resetsFocus: bool, x: ClickableId)
    ensures LeftClickAction(x) in ClickFrame(clicks, previous, stored, button, contains, resetsFocus).calls <==>
            previous == Pressed && button == Released && stored == Target(x) && contains(x)
  {
    var r := ClickFrame(clicks, previous, stored, button, contains, resetsFocus);
    if LeftClickAction(x) in r.calls {
      var k :| 0 <= k < |r.calls| && r.calls[k] == LeftClickAction(x);
      NoActionInBroadcast(clicks, ResetState);
      NoActionInBroadcast(clicks, Unfocus);
      NoActionInBroadcast(clicks, Hover(contains));
    }
  }

  lemma NoActionInBroadcast(clicks: seq<ClickableId>, b: Broadcast)
    ensures forall x :: LeftClickAction(x) !in BroadcastCalls(clicks, b)
    ensures Actions(BroadcastCalls(clicks, b)) == 0
  {
    var calls := BroadcastCalls(clicks, b);
    ActionsCountsActionCalls(calls);
  }

  /** The input manager unfocuses everything before a completed click's action; the click
      manager never touches focus. */
  lemma FocusResetPrecedesAction(clicks: seq<ClickableId>, stored: Target, contains: ClickableId -> bool, resetsFocus: bool)
    requires stored.Target? && contains(stored.id)
    ensures var r := ClickFrame(clicks, Pressed, stored, Released, contains, resetsFocus);
            r.calls == (if resetsFocus then BroadcastCalls(clicks, Unfocus) else []) +
                       [LeftClickAction(stored.id)] + BroadcastCalls(clicks, Hover(contains))
  {
  }

  /** How many action calls a sequence of calls holds. */
  function Actions(calls: seq<ClickCall>): nat
  {
    if calls == [] then 0 else Actions(calls[..|calls| - 1]) + (if calls[|calls| - 1].LeftClickAction? then 1 else 0)
  }

  lemma {:induction false} ActionsAppend(a: seq<ClickCall>, b: seq<ClickCall>)
    ensures Actions(a + b) == Actions(a) + Actions(b)
    decreases |b|
  {
    if b == [] {
      assert a + b == a;
    } else {
      ActionsAppend(a, b[..|b| - 1]);
      assert (a + b)[..|a + b| - 1] == a + b[..|b| - 1];
    }
  }

  lemma {:induction false} ActionsCountsActionCalls(calls: seq<ClickCall>)
    ensures Actions(calls) == 0 <==> forall i :: 0 <= i < |calls| ==> !calls[i].LeftClickAction?
  {
    if calls != [] {
      ActionsCountsActionCalls(calls[..|calls| - 1]);
      assert forall i :: 0 <= i < |calls| - 1 ==> calls[..|calls| - 1][i] == calls[i];
    }
  }

  /** A single frame runs at most one action, and none unless the button was just released. */
  lemma AtMostOneActionPerFrame(clicks: seq<ClickableId>, previous: ButtonState, stored: Target, button: ButtonState,
                                contains: ClickableId -> bool, resetsFocus: bool)
    ensures var r := ClickFrame(clicks, previous, stored, button, contains, resetsFocus);
            Actions(r.calls) <= 1 && (Actions(r.calls) == 1 ==> previous == Pressed && button == Released)
  {
    if button == Pressed {
      PressedFrameRunsNoAction(clicks, previous, stored, contains, resetsFocus);
    } else {
      ReleasedFrameActions(clicks, previous, stored, contains, resetsFocus);
    }
  }

  /** A frame with the button down runs no action. */
  lemma PressedFrameRunsNoAction(clicks: seq<ClickableId>, previous: ButtonState, stored: Target,
                                 contains: ClickableId -> bool, resetsFocus: bool)
    ensures Actions(ClickFrame(clicks, previous, stored, Pressed, contains, resetsFocus).calls) == 0
  {
    var reset := if previous == Released then BroadcastCalls(clicks, ResetState) else [];
    var s := if previous == Released then StoredAfterSearch(clicks, stored, contains) else stored;
    var mark := if s.Target? then [ChangeState(s.id, if contains(s.id) then Clicked else ClickState.None)] else [];
    NoActionInBroadcast(clicks, ResetState);
    ActionsCountsActionCalls(mark);
    ActionsAppend(reset, mark);
  }

  /** A frame with the button up runs exactly one action when it completes a click, and
      none otherwise. */
  lemma ReleasedFrameActions(clicks: seq<ClickableId>, previous: ButtonState, stored: Target,
                             contains: ClickableId -> bool, resetsFocus: bool)
    ensures Actions(ClickFrame(clicks, previous, stored, Released, contains, resetsFocus).calls) ==
            if previous == Pressed && stored.Target? && contains(stored.id) then 1 else 0
  {
    var hover := BroadcastCalls(clicks, Hover(contains));
    NoActionInBroadcast(clicks, Hover(contains));
    if previous == Pressed && stored.Target? && contains(stored.id) {
      var unfocus := if resetsFocus then BroadcastCalls(clicks, Unfocus) else [];
      var click := [LeftClickAction(stored.id)];
      NoActionInBroadcast(clicks, Unfocus);
      assert Actions(click) == 1 by { assert click[..0] == []; }
      ActionsAppend(unfocus, click);
      ActionsAppend(unfocus + click, hover);
    } else {
      ActionsAppend([], hover);
    }
  }

  /** One frame's input: the left button and the hit test for this frame's mouse position. */
  datatype Frame = Frame(button: ButtonState, contains: ClickableId -> bool)

  /** The calls of a run of frames, and what is stored at the end. */
  function Run(clicks: seq<ClickableId>, previous: ButtonState, stored: Target, frames: seq<Frame>, resetsFocus: bool): FrameResult
    decreases |frames|
  {
    if frames == [] then FrameResult([], stored)
    else
      var r := ClickFrame(clicks, previous, stored, frames[0].button, frames[0].contains, resetsFocus);
      var rest := Run(clicks, frames[0].button, r.stored, frames[1..], resetsFocus);
      FrameResult(r.calls + rest.calls, rest.stored)
  }

  /** How many times the button goes from pressed to released during a run of frames. */
  function Releases(previous: ButtonState, frames: seq<Frame>): nat
    decreases |frames|
  {
    if frames == [] then 0
    else (if previous == Pressed && frames[0].button == Released then 1 else 0) + Releases(frames[0].button, frames[1..])
  }

  /** Actions fire at most once per press-and-release cycle. */
  lemma {:induction false} AtMostOneActionPerClick(clicks: seq<ClickableId>, previous: ButtonState, stored: Target,
                                                   frames: seq<Frame>, resetsFocus: bool)
    ensures Actions(Run(clicks, previous, stored, frames, resetsFocus).calls) <= Releases(previous, frames)
    decreases |frames|
  {
    if frames != [] {
      var r := ClickFrame(clicks, previous, stored, frames[0].button, frames[0].contains, resetsFocus);
      AtMostOneActionPerFrame(clicks, previous, stored, frames[0].button, frames[0].contains, resetsFocus);
      AtMostOneActionPerClick(clicks, frames[0].button, r.stored, frames[1..], resetsFocus);
      ActionsAppend(r.calls, Run(clicks, frames[0].button, r.stored, frames[1..], resetsFocus).calls);
    }
  }
}
