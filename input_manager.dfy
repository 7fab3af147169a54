/** The input manager: the click handling of the click manager, plus keyboard input. Every
    frame it reconciles its list of held keys with the keys pressed now, ticks their repeat
    timers and hands each ready key to the first focused clickable. */
module InputManagement {
  import opened GuiCommon
  import opened ClickDispatch
  import opened KeyRepeat

  /** A key being held down, with its auto-repeat state. */
  class HeldKey {
    const key: Key
    var ready: bool
    var continuousMode: bool
    var timer: real

    function State(): RepeatState
      reads this
    {
      RepeatState(ready, continuousMode, timer)
    }

    constructor (key: Key)
      ensures this.key == key && State() == Initial
    {
      this.key := key;
      ready := true;
      continuousMode := false;
      timer := 0.0;
    }

    /** Reads the ready flag and clears it: a second read before the next tick sees false. */
    method TakeReady() returns (r: bool)
      modifies this`ready
      ensures r == old(ready) && !ready
    {
      r := ready;
      ready := false;
    }

    method FrameTick(dt: real)
      modifies this`ready, this`continuousMode, this`timer
      ensures State() == RepeatStep(old(State()), dt)
    {
      timer := timer + dt;
      if continuousMode {
        if timer >= InterKeyDelay {
          ready := true;
          timer := timer - InterKeyDelay;
        }
      } else {
        if timer >= ContinuousModeThreshold {
          continuousMode := true;
          ready := true;
          timer := 0.0;
        }
      }
    }
  }

  /** The keys and repeat states of a list of held keys. */
  function Snapshot(hs: seq<HeldKey>): (r: seq<HeldState>)
    reads set h | h in hs
    ensures |r| == |hs| && forall i :: 0 <= i < |hs| ==> r[i] == HeldState(hs[i].key, hs[i].State())
  {
    seq(|hs|, i requires 0 <= i < |hs| reads set h | h in hs => HeldState(hs[i].key, hs[i].State()))
  }

  predicate DistinctKeys(hs: seq<HeldKey>)
  {
    forall i, j :: 0 <= i < j < |hs| ==> hs[i].key != hs[j].key
  }

  /** One key-press call per key, in order, all on clickable `c`. */
  function KeyCalls(c: ClickableId, keys: seq<Key>): (calls: seq<ClickCall>)
    ensures |calls| == |keys| && forall i :: 0 <= i < |keys| ==> calls[i] == KeyPressed(c, keys[i])
  {
    seq(|keys|, i requires 0 <= i < |keys| => KeyPressed(c, keys[i]))
  }

  /** The key presses a frame delivers: every ready key, in holding order, to the first
      focused clickable; none when nothing is focused. */
  function Deliveries(clicks: seq<ClickableId>, focused: ClickableId -> bool, held: seq<HeldState>): seq<ClickCall>
  {
    match FirstHit(clicks, focused)
    case NoTarget => []
    case Target(c) => KeyCalls(c, ReadyKeys(held))
  }

  /** The held keys after delivery: reading the flags clears them, but only if a focused
      clickable read them. */
  function AfterDelivery(clicks: seq<ClickableId>, focused: ClickableId -> bool, held: seq<HeldState>): seq<HeldState>
  {
    if FirstHit(clicks, focused).Target? then ClearReady(held) else held
  }

  datatype KeyboardResult = KeyboardResult(calls: seq<ClickCall>, held: seq<HeldState>)

  /** One frame of keyboard handling: reconcile, tick, deliver. */
  function KeyboardFrame(clicks: seq<ClickableId>, focused: ClickableId -> bool, held: seq<HeldState>,
                         pressed: seq<Key>, dt: real): KeyboardResult
  {
    var ticked := TickAll(Reconciled(held, pressed), dt);
    KeyboardResult(Deliveries(clicks, focused, ticked), AfterDelivery(clicks, focused, ticked))
  }

  /** Key presses go only to the first focused clickable, so each ready key reaches at most
      one clickable per frame; with nothing focused no key is delivered and none is
      consumed. */
  lemma KeysGoOnlyToFirstFocused(clicks: seq<ClickableId>, focused: ClickableId -> bool, held: seq<HeldState>)
    ensures forall call :: call in Deliveries(clicks, focused, held) ==>
              call.KeyPressed? && FirstHit(clicks, focused) == Target(call.target) && focused(call.target)
    ensures FirstHit(clicks, focused) == NoTarget ==>
              Deliveries(clicks, focused, held) == [] && AfterDelivery(clicks, focused, held) == held
  {
    var first := FirstHit(clicks, focused);
    if first.Target? {
      var k :| 0 <= k < |clicks| && clicks[k] == first.id && focused(clicks[k]) &&
               forall j :: 0 <= j < k ==> !focused(clicks[j]);
    }
  }

  /** With a focused clickable, a key is delivered exactly when it is ready, and afterwards
      no key is ready. */
  lemma ReadyKeysReachFirstFocused(clicks: seq<ClickableId>, focused: ClickableId -> bool, held: seq<HeldState>, k: Key)
    requires FirstHit(clicks, focused).Target?
    ensures var c := FirstHit(clicks, focused).id;
            KeyPressed(c, k) in Deliveries(clicks, focused, held) <==>
            exists i :: 0 <= i < |held| && held[i].key == k && held[i].state.ready
    ensures forall i :: 0 <= i < |held| ==> !AfterDelivery(clicks, focused, held)[i].state.ready
  {
    var c := FirstHit(clicks, focused).id;
    ReadyKeysAreTheReadyOnes(held, k);
    var calls := KeyCalls(c, ReadyKeys(held));
    if KeyPressed(c, k) in calls {
      var i :| 0 <= i < |calls| && calls[i] == KeyPressed(c, k);
      assert ReadyKeys(held)[i] == k;
    }
    if k in ReadyKeys(held) {
      var i :| 0 <= i < |ReadyKeys(held)| && ReadyKeys(held)[i] == k;
      assert calls[i] == KeyPressed(c, k);
    }
  }

  /** After a keyboard frame exactly the pressed keys are held, each once, and the held
      keys are still the ones they were, ticked and read. */
  lemma KeyboardFrameHoldsPressedKeys(clicks: seq<ClickableId>, focused: ClickableId -> bool, held: seq<HeldState>,
                                      pressed: seq<Key>, dt: real)
    requires NoDuplicateKeys(held)
    ensures var r := KeyboardFrame(clicks, focused, held, pressed, dt).held;
            (forall k :: k in KeysOf(r) <==> k in pressed) && NoDuplicateKeys(r) &&
            KeysOf(r) == KeysOf(Reconciled(held, pressed))
  {
    var rec := Reconciled(held, pressed);
    ReconciledHoldsExactlyPressed(held, pressed);
    var r := KeyboardFrame(clicks, focused, held, pressed, dt).held;
    assert KeysOf(r) == KeysOf(rec);
  }

  class InputManager {
    var leftClicks: seq<ClickableId>
    var heldKeys: seq<HeldKey>
    var previousButtonState: ButtonState
    var leftClicked: Target
    /** Every call made on the clickables so far. */
    var log: seq<ClickCall>

    predicate Valid()
      reads this
    {
      Consistent(leftClicks, previousButtonState, leftClicked) && DistinctKeys(heldKeys)
    }

    constructor ()
      ensures Valid()
      ensures leftClicks == [] && heldKeys == [] && previousButtonState == Released && leftClicked == NoTarget && log == []
    {
      leftClicks := [];
      heldKeys := [];
      previousButtonState := Released;
      leftClicked := NoTarget;
      log := [];
    }

    /** Registers a clickable after the ones registered before it. */
    method RegisterLeftClick(c: ClickableId)
      requires Valid()
      modifies this`leftClicks
      ensures Valid()
      ensures leftClicks == old(leftClicks) + [c]
    {
      leftClicks := leftClicks + [c];
    }

    /** One frame: the left button first, then the keyboard. `focused` is the clickables'
        focus as it stands once the clicks of this frame have been handled. */
    method FrameTick(button: ButtonState, contains: ClickableId -> bool, pressed: seq<Key>, dt: real,
                     focused: ClickableId -> bool)
      requires Valid()
      modifies this`previousButtonState, this`leftClicked, this`log, this`heldKeys, set h | h in heldKeys
      ensures var c := ClickFrame(leftClicks, old(previousButtonState), old(leftClicked), button, contains, true);
              var k := KeyboardFrame(leftClicks, focused, old(Snapshot(heldKeys)), pressed, dt);
              log == old(log) + c.calls + k.calls && leftClicked == c.stored && Snapshot(heldKeys) == k.held
      ensures previousButtonState == button
      ensures forall h :: h in heldKeys ==> h in old(heldKeys) || fresh(h)
      ensures Valid()
    {
      HandleLeftClick(button, contains);
      HandleKeyboardInput(pressed, dt, focused);
    }

    method HandleLeftClick(button: ButtonState, contains: ClickableId -> bool)
      requires Valid()
      modifies this`previousButtonState, this`leftClicked, this`log
      ensures var r := ClickFrame(leftClicks, old(previousButtonState), old(leftClicked), button, contains, true);
              log == old(log) + r.calls && leftClicked == r.stored
      ensures previousButtonState == button
      ensures Valid()
    {
      FrameKeepsConsistency(leftClicks, previousButtonState, leftClicked, button, contains, true);
      if button == Pressed {
        HandlePress(contains);
      } else {
        HandleRelease(contains);
      }
      previousButtonState := button;
    }

    /** A frame with the button down: on the press edge every clickable is reset and the first
        one under the mouse is stored; the stored one then shows whether the mouse is on it. */
    method HandlePress(contains: ClickableId -> bool)
      modifies this`leftClicked, this`log
      ensures var r := ClickFrame(leftClicks, previousButtonState, old(leftClicked), Pressed, contains, true);
              log == old(log) + r.calls && leftClicked == r.stored
    {
      if previousButtonState == Released {
        ResetAllLeftClicks();
        StoreLeftClicked(contains);
      }
      if leftClicked.Target? {
        log := log + [ChangeState(leftClicked.id, if contains(leftClicked.id) then Clicked else ClickState.None)];
      }
    }

    /** A frame with the button up: a press released inside the stored clickable is a click;
        then nothing is stored and every clickable shows whether it is hovered. */
    method HandleRelease(contains: ClickableId -> bool)
      modifies this`leftClicked, this`log
      ensures var r := ClickFrame(leftClicks, previousButtonState, old(leftClicked), Released, contains, true);
              log == old(log) + r.calls && leftClicked == r.stored
    {
      if previousButtonState == Pressed && leftClicked.Target? && contains(leftClicked.id) {
          ResetAllFocus();
          log := log + [LeftClickAction(leftClicked.id)];
      }
      leftClicked := NoTarget;
      HoverAll(contains);
    }

    /** Sets every clickable to Hovered or None by whether its area contains the mouse. */
    method HoverAll(contains: ClickableId -> bool)
      modifies this`log
      ensures log == old(log) + BroadcastCalls(leftClicks, Hover(contains))
    {
      var i := 0;
      while i < |leftClicks|
        invariant 0 <= i <= |leftClicks|
        invariant log == old(log) + BroadcastCalls(leftClicks[..i], Hover(contains))
      {
        assert leftClicks[..i + 1][..i] == leftClicks[..i];
        log := log + [ChangeState(leftClicks[i], if contains(leftClicks[i]) then Hovered else ClickState.None)];
        i := i + 1;
      }
      assert leftClicks[..i] == leftClicks;
    }

    /** Unfocuses every clickable, in registration order. */
    method ResetAllFocus()
      modifies this`log
      ensures log == old(log) + BroadcastCalls(leftClicks, Unfocus)
    {
      var i := 0;
      while i < |leftClicks|
        invariant 0 <= i <= |leftClicks|
        invariant log == old(log) + BroadcastCalls(leftClicks[..i], Unfocus)
      {
        assert leftClicks[..i + 1][..i] == leftClicks[..i];
        log := log + [SetFocused(leftClicks[i], false)];
        i := i + 1;
      }
      assert leftClicks[..i] == leftClicks;
    }

    /** Sets every clickable to None, in registration order. */
    method ResetAllLeftClicks()
      modifies this`log
      ensures log == old(log) + BroadcastCalls(leftClicks, ResetState)
    {
      var i := 0;
      while i < |leftClicks|
        invariant 0 <= i <= |leftClicks|
        invariant log == old(log) + BroadcastCalls(leftClicks[..i], ResetState)
      {
        assert leftClicks[..i + 1][..i] == leftClicks[..i];
        log := log + [ChangeState(leftClicks[i], ClickState.None)];
        i := i + 1;
      }
      assert leftClicks[..i] == leftClicks;
    }

    /** Stores the first clickable under the mouse, or none; with nothing registered the
        stored clickable is left as it was. */
    method StoreLeftClicked(contains: ClickableId -> bool)
      modifies this`leftClicked
      ensures leftClicked == StoredAfterSearch(leftClicks, old(leftClicked), contains)
    {
      var i := 0;
      while i < |leftClicks|
        invariant 0 <= i <= |leftClicks|
        invariant forall j :: 0 <= j < i ==> !contains(leftClicks[j])
        invariant i == 0 ==> leftClicked == old(leftClicked)
        invariant i > 0 ==> leftClicked == NoTarget
      {
        if contains(leftClicks[i]) {
          leftClicked := Target(leftClicks[i]);
          FirstHitIsFirstContaining(leftClicks, contains, i);
          return;
        }
        leftClicked := NoTarget;
        i := i + 1;
      }
    }

    method HandleKeyboardInput(pressed: seq<Key>, dt: real, focused: ClickableId -> bool)
      requires DistinctKeys(heldKeys)
      modifies this`heldKeys, this`log, set h | h in heldKeys
      ensures var r := KeyboardFrame(leftClicks, focused, old(Snapshot(heldKeys)), pressed, dt);
              log == old(log) + r.calls && Snapshot(heldKeys) == r.held
      ensures forall h :: h in heldKeys ==> h in old(heldKeys) || fresh(h)
      ensures DistinctKeys(heldKeys)
    {
      ReconcileHeldKeys(pressed);
      TickHeldKeys(dt);
      DeliverKeys(focused);
    }

    /** Adds a held key for every pressed key not yet held, then drops the held keys that
        are no longer pressed; the surviving objects are the same ones, untouched. */
    method ReconcileHeldKeys(pressed: seq<Key>)
      requires DistinctKeys(heldKeys)
      modifies this`heldKeys
      ensures Snapshot(heldKeys) == Reconciled(old(Snapshot(heldKeys)), pressed)
      ensures forall h :: h in heldKeys ==> h in old(heldKeys) || fresh(h)
      ensures DistinctKeys(heldKeys)
    {
      SnapshotKeys(heldKeys);
      ghost var before := Snapshot(heldKeys);
      AddPressedKeys(pressed);
      RemoveReleasedKeys(pressed);
      ReconciledHoldsExactlyPressed(before, pressed);
      SnapshotKeys(heldKeys);
    }

    /** The first half of reconciliation: a new held key, at the end, for every pressed
        key not yet held. */
    method AddPressedKeys(pressed: seq<Key>)
      modifies this`heldKeys
      ensures Snapshot(heldKeys) == AddMissing(old(Snapshot(heldKeys)), pressed)
      ensures forall h :: h in heldKeys ==> h in old(heldKeys) || fresh(h)
    {
      ghost var before := Snapshot(heldKeys);
      var i := 0;
      while i < |pressed|
        invariant 0 <= i <= |pressed|
        invariant Snapshot(heldKeys) == AddMissing(before, pressed[..i])
        invariant forall h :: h in heldKeys ==> h in old(heldKeys) || fresh(h)
      {
        var key := pressed[i];
        assert pressed[..i + 1][..i] == pressed[..i];
        if key !in KeysOf(Snapshot(heldKeys)) {
          var h := new HeldKey(key);
          ghost var prev := Snapshot(heldKeys);
          heldKeys := heldKeys + [h];
          SnapshotIs(heldKeys, prev + [HeldState(key, Initial)]);
        }
        i := i + 1;
      }
      assert pressed[..i] == pressed;
    }

    /** The second half of reconciliation: drops, keeping the order, the held keys that are
        no longer pressed. */
    method RemoveReleasedKeys(pressed: seq<Key>)
      modifies this`heldKeys
      ensures Snapshot(heldKeys) == KeepPressed(old(Snapshot(heldKeys)), pressed)
      ensures forall h :: h in heldKeys ==> h in old(heldKeys)
    {
      ghost var before := Snapshot(heldKeys);
      var kept: seq<HeldKey> := [];
      var j := 0;
      while j < |heldKeys|
        invariant 0 <= j <= |heldKeys| && heldKeys == old(heldKeys)
        invariant Snapshot(kept) == KeepPressed(before[..j], pressed)
        invariant forall h :: h in kept ==> h in heldKeys
      {
        assert before[..j + 1][..j] == before[..j];
        if heldKeys[j].key in pressed {
          ghost var prev := Snapshot(kept);
          kept := kept + [heldKeys[j]];
          SnapshotIs(kept, prev + [before[j]]);
        }
        j := j + 1;
      }
      assert before[..j] == before;
      heldKeys := kept;
    }

    /** Ticks every held key once. */
    method TickHeldKeys(dt: real)
      requires DistinctKeys(heldKeys)
      modifies set h | h in heldKeys
      ensures Snapshot(heldKeys) == TickAll(old(Snapshot(heldKeys)), dt)
    {
      ghost var before := Snapshot(heldKeys);
      var i := 0;
      while i < |heldKeys|
        invariant 0 <= i <= |heldKeys|
        invariant forall k :: 0 <= k < i ==> heldKeys[k].State() == RepeatStep(before[k].state, dt)
        invariant forall k :: i <= k < |heldKeys| ==> heldKeys[k].State() == before[k].state
      {
        heldKeys[i].FrameTick(dt);
        i := i + 1;
      }
    }

    /** Offers the held keys to every focused clickable in registration order; reading a
        key's flag clears it, so only the first focused clickable receives any. */
    method DeliverKeys(focused: ClickableId -> bool)
      requires DistinctKeys(heldKeys)
      modifies this`log, set h | h in heldKeys
      ensures log == old(log) + Deliveries(leftClicks, focused, old(Snapshot(heldKeys)))
      ensures Snapshot(heldKeys) == AfterDelivery(leftClicks, focused, old(Snapshot(heldKeys)))
    {
      ghost var before := Snapshot(heldKeys);
      ghost var hit := NoTarget;
      var i := 0;
      while i < |leftClicks|
        invariant 0 <= i <= |leftClicks|
        invariant hit == FirstHit(leftClicks[..i], focused)
        invariant Delivered(old(log), before, hit)
      {
        FirstHitPrefixStep(leftClicks, i, focused);
        hit := OfferIfFocused(leftClicks[i], focused, old(log), before, hit);
        i := i + 1;
      }
      assert leftClicks[..i] == leftClicks;
    }

    /** The log and the held keys once the held keys, found as `before`, have been offered
        to the clickables searched so far, of which `hit` is the first focused one. */
    ghost predicate Delivered(start: seq<ClickCall>, before: seq<HeldState>, hit: Target)
      reads this, set h | h in heldKeys
    {
      if hit.Target? then log == start + KeyCalls(hit.id, ReadyKeys(before)) && Snapshot(heldKeys) == ClearReady(before)
      else log == start && Snapshot(heldKeys) == before
    }

    /** Offers the held keys to clickable `c` when it is focused; only the first focused
        clickable finds any key ready. */
    method OfferIfFocused(c: ClickableId, focused: ClickableId -> bool, ghost start: seq<ClickCall>,
                          ghost before: seq<HeldState>, ghost hit: Target) returns (ghost next: Target)
      requires DistinctKeys(heldKeys) && Delivered(start, before, hit)
      modifies this`log, set h | h in heldKeys
      ensures next == if hit.Target? then hit else if focused(c) then Target(c) else NoTarget
      ensures Delivered(start, before, next)
    {
      next := hit;
      if focused(c) {
        ghost var prior := Snapshot(heldKeys);
        if hit.Target? {
          NoReadyKeysWhenCleared(prior);
        }
        OfferHeldKeys(c);
        SnapshotIs(heldKeys, ClearReady(prior));
        if hit.Target? {
          assert ClearReady(prior) == prior;
        } else {
          next := Target(c);
        }
      }
    }

    /** Reads every held key's ready flag and delivers the ready ones to `c`. */
    method OfferHeldKeys(c: ClickableId)
      requires DistinctKeys(heldKeys)
      modifies this`log, set h | h in heldKeys
      ensures log == old(log) + KeyCalls(c, ReadyKeys(old(Snapshot(heldKeys))))
      ensures forall k :: 0 <= k < |heldKeys| ==> heldKeys[k].State() == old(heldKeys[k].State()).(ready := false)
    {
      ghost var before := Snapshot(heldKeys);
      var j := 0;
      while j < |heldKeys|
        invariant 0 <= j <= |heldKeys|
        invariant Offered(old(log), before, c, j)
      {
        OfferKey(j, c, old(log), before);
        j := j + 1;
      }
      assert before[..j] == before;
    }

    /** The log and the held keys once the first `j` of the held keys, found as `before`,
        have been read and their ready ones delivered to `c`. */
    ghost predicate Offered(start: seq<ClickCall>, before: seq<HeldState>, c: ClickableId, j: nat)
      reads this, set h | h in heldKeys
    {
      j <= |heldKeys| == |before| &&
      log == start + KeyCalls(c, ReadyKeys(before[..j])) &&
      forall k :: 0 <= k < |heldKeys| ==>
        heldKeys[k].key == before[k].key &&
        heldKeys[k].State() == if k < j then before[k].state.(ready := false) else before[k].state
    }

    /** Reads the ready flag of held key `j` and delivers the key to `c` if it was set. */
    method OfferKey(j: nat, c: ClickableId, ghost start: seq<ClickCall>, ghost before: seq<HeldState>)
      requires j < |heldKeys| && DistinctKeys(heldKeys) && Offered(start, before, c, j)
      modifies this`log, heldKeys[j]
      ensures Offered(start, before, c, j + 1)
    {
      ReadyKeysStep(before, j, c);
      var r := heldKeys[j].TakeReady();
      if r {
        log := log + [KeyPressed(c, heldKeys[j].key)];
      }
    }
  }

  /** A snapshot is determined by the held keys' keys and states. */
  lemma SnapshotIs(hs: seq<HeldKey>, target: seq<HeldState>)
    requires |target| == |hs| && forall k :: 0 <= k < |hs| ==> target[k] == HeldState(hs[k].key, hs[k].State())
    ensures Snapshot(hs) == target
  {
  }

  /** The first hit among one more registered clickable. */
  lemma FirstHitPrefixStep(clicks: seq<ClickableId>, i: nat, contains: ClickableId -> bool)
    requires i < |clicks|
    ensures FirstHit(clicks[..i + 1], contains) ==
            if FirstHit(clicks[..i], contains).Target? then FirstHit(clicks[..i], contains)
            else if contains(clicks[i]) then Target(clicks[i]) else NoTarget
  {
    FirstHitExtend(clicks[..i], clicks[i], contains);
    assert clicks[..i + 1] == clicks[..i] + [clicks[i]];
  }

  /** Reading one more held key delivers it exactly when it is ready. */
  lemma ReadyKeysStep(held: seq<HeldState>, j: nat, c: ClickableId)
    requires j < |held|
    ensures KeyCalls(c, ReadyKeys(held[..j + 1])) ==
            KeyCalls(c, ReadyKeys(held[..j])) + (if held[j].state.ready then [KeyPressed(c, held[j].key)] else [])
  {
    assert held[..j + 1][..j] == held[..j];
  }

  /** The keys of a snapshot are the held keys' own. */
  lemma SnapshotKeys(hs: seq<HeldKey>)
    ensures DistinctKeys(hs) <==> NoDuplicateKeys(Snapshot(hs))
  {
  }
}
