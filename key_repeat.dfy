/** Held keys and their auto-repeat: a key is delivered once when pressed, then again after
    it has been held for half a second, and from then on every fiftieth of a second, at most
    once per frame. */
module KeyRepeat {
  import opened GuiCommon

  /** Time a key must be held before it starts repeating. */
  const ContinuousModeThreshold: real := 0.5
  /** Time between repeats once a key repeats. */
  const InterKeyDelay: real := 0.05

  /** The state of one held key. */
  datatype RepeatState = RepeatState(ready: bool, continuous: bool, timer: real)

  /** A newly pressed key is ready at once. */
  const Initial := RepeatState(true, false, 0.0)

  /** One frame of holding a key for `dt` seconds. */
  function RepeatStep(s: RepeatState, dt: real): (t: RepeatState)
    ensures s.continuous ==> t.continuous
    ensures s.ready ==> t.ready
  {
    var timer := s.timer + dt;
    if s.continuous then
      if timer >= InterKeyDelay then RepeatState(true, true, timer - InterKeyDelay) else s.(timer := timer)
    else
      if timer >= ContinuousModeThreshold then RepeatState(true, true, 0.0) else s.(timer := timer)
  }

  /** Before it repeats, a key switches to repeating exactly when its held time reaches the
      threshold, and becomes ready with a cleared timer when it does. */
  lemma SwitchesToContinuousAtThreshold(s: RepeatState, dt: real)
    requires !s.continuous
    ensures var t := RepeatStep(s, dt);
            (t.continuous <==> s.timer + dt >= ContinuousModeThreshold) &&
            (t.continuous ==> t.ready && t.timer == 0.0) &&
            (!t.continuous ==> t.ready == s.ready && t.timer == s.timer + dt)
  {
  }

  /** Once repeating, a key becomes ready exactly when its timer reaches the delay, and the
      timer then drops by one delay, not to zero. */
  lemma RepeatsEveryDelay(s: RepeatState, dt: real)
    requires s.continuous && !s.ready
    ensures var t := RepeatStep(s, dt);
            t.continuous && (t.ready <==> s.timer + dt >= InterKeyDelay) &&
            (t.ready ==> t.timer == s.timer + dt - InterKeyDelay) &&
            (!t.ready ==> t.timer == s.timer + dt)
  {
  }

  /** With frames no longer than the delay, a repeating key's timer stays below the delay. */
  lemma RepeatTimerStaysBelowDelay(s: RepeatState, dt: real)
    requires s.continuous && 0.0 <= s.timer < InterKeyDelay && 0.0 <= dt <= InterKeyDelay
    ensures var t := RepeatStep(s, dt);
            0.0 <= t.timer < InterKeyDelay
  {
  }

  /** What a consumer that reads (and so clears) the ready flag once per frame observes
      while a key is held. */
  function HoldRun(s: RepeatState, dts: seq<real>): (seen: seq<bool>)
    ensures |seen| == |dts|
    // the first reading is the ready flag after the first frame's tick, so a key that was
    // ready is read as ready
    ensures |dts| > 0 ==> seen[0] == RepeatStep(s, dts[0]).ready && (s.ready ==> seen[0])
    decreases |dts|
  {
    if dts == [] then []
    else
      var t := RepeatStep(s, dts[0]);
      [t.ready] + HoldRun(t.(ready := false), dts[1..])
  }

  /** A key held for frames of 0.1 s: delivered on the first frame, then nothing until half
      a second has passed, then on every frame; a frame longer than the delay still gives a
      single delivery. */
  lemma KeyRepeatExample()
    ensures HoldRun(Initial, [0.1, 0.1, 0.1, 0.1, 0.1, 0.1]) == [true, false, false, false, true, true]
    ensures HoldRun(Initial, [0.25, 0.25, 0.25]) == [true, true, true]
    ensures RepeatStep(RepeatState(false, true, 0.0), 0.25) == RepeatState(true, true, 0.2)
  {
    var s1 := RepeatState(false, false, 0.1);
    assert RepeatStep(Initial, 0.1) == s1.(ready := true);
    assert RepeatStep(s1, 0.1) == RepeatState(false, false, 0.2);
    assert RepeatStep(RepeatState(false, false, 0.2), 0.1) == RepeatState(false, false, 0.3);
    assert RepeatStep(RepeatState(false, false, 0.3), 0.1) == RepeatState(false, false, 0.4);
    assert RepeatStep(RepeatState(false, false, 0.4), 0.1) == RepeatState(true, true, 0.0);
    assert RepeatStep(RepeatState(false, true, 0.0), 0.1) == RepeatState(true, true, 0.05);
    assert [0.1, 0.1, 0.1, 0.1, 0.1, 0.1][1..] == [0.1, 0.1, 0.1, 0.1, 0.1];
    assert [0.1, 0.1, 0.1, 0.1, 0.1][1..] == [0.1, 0.1, 0.1, 0.1];
    assert [0.1, 0.1, 0.1, 0.1][1..] == [0.1, 0.1, 0.1];
    assert [0.1, 0.1, 0.1][1..] == [0.1, 0.1];
    assert [0.1, 0.1][1..] == [0.1];
    assert [0.25, 0.25, 0.25][1..] == [0.25, 0.25];
    assert [0.25, 0.25][1..] == [0.25];
  }

  /** One held key: which key it is and its repeat state. */
  datatype HeldState = HeldState(key: Key, state: RepeatState)

  function KeysOf(held: seq<HeldState>): (keys: seq<Key>)
    ensures |keys| == |held| && forall i :: 0 <= i < |held| ==> keys[i] == held[i].key
  {
    seq(|held|, i requires 0 <= i < |held| => held[i].key)
  }

  predicate NoDuplicateKeys(held: seq<HeldState>)
  {
    forall i, j :: 0 <= i < j < |held| ==> held[i].key != held[j].key
  }

  /** Adds, in pressing order, a fresh entry for every pressed key not yet held. */
  function AddMissing(held: seq<HeldState>, pressed: seq<Key>): seq<HeldState>
    decreases |pressed|
  {
    if pressed == [] then held
    else
      var acc := AddMissing(held, pressed[..|pressed| - 1]);
      var k := pressed[|pressed| - 1];
      if k in KeysOf(acc) then acc else acc + [HeldState(k, Initial)]
  }

  /** Drops, keeping the order, every held key that is no longer pressed. */
  function KeepPressed(held: seq<HeldState>, pressed: seq<Key>): seq<HeldState>
  {
    if held == [] then []
    else
      KeepPressed(held[..|held| - 1], pressed) +
      (if held[|held| - 1].key in pressed then [held[|held| - 1]] else [])
  }

  /** The held keys after a frame's reconciliation with the keys pressed in that frame. */
  function Reconciled(held: seq<HeldState>, pressed: seq<Key>): seq<HeldState>
  {
    KeepPressed(AddMissing(held, pressed), pressed)
  }

  /** Adding the missing keys leaves the held ones first and untouched, adds fresh entries
      only, holds the pressed keys and keeps keys distinct. */
  lemma {:induction false} AddMissingFacts(held: seq<HeldState>, pressed: seq<Key>)
    ensures var r := AddMissing(held, pressed);
            |held| <= |r| && r[..|held|] == held &&
            (forall i :: |held| <= i < |r| ==> r[i].state == Initial && r[i].key !in KeysOf(held)) &&
            (forall k :: k in KeysOf(r) <==> k in KeysOf(held) || k in pressed) &&
            (NoDuplicateKeys(held) ==> NoDuplicateKeys(r))
    decreases |pressed|
  {
    if pressed != [] {
      var init := pressed[..|pressed| - 1];
      AddMissingFacts(held, init);
      var acc := AddMissing(held, init);
      var k := pressed[|pressed| - 1];
      assert forall x :: x in pressed <==> x in init || x == k by {
        assert pressed == init + [k];
      }
      if k !in KeysOf(acc) {
        var r := acc + [HeldState(k, Initial)];
        assert r[..|held|] == acc[..|held|];
        assert KeysOf(r) == KeysOf(acc) + [k];
      }
    }
  }

  /** Filtering keeps exactly the held entries whose key is pressed, and distinct keys stay
      distinct. */
  lemma KeepPressedFacts(held: seq<HeldState>, pressed: seq<Key>)
    ensures var r := KeepPressed(held, pressed);
            (forall s :: s in r <==> s in held && s.key in pressed) &&
            (forall k :: k in KeysOf(r) ==> k in KeysOf(held)) &&
            (NoDuplicateKeys(held) ==> NoDuplicateKeys(r))
  {
    var r := KeepPressed(held, pressed);
    KeepPressedMembers(held, pressed);
    forall k | k in KeysOf(r) ensures k in KeysOf(held) {
      var i :| 0 <= i < |r| && KeysOf(r)[i] == k;
      assert r[i] in held;
      var j :| 0 <= j < |held| && held[j] == r[i];
      assert KeysOf(held)[j] == k;
    }
    if NoDuplicateKeys(held) {
      KeepPressedDistinct(held, pressed);
    }
  }

  /** An entry survives removal exactly when it was held and its key is pressed. */
  lemma {:induction false} KeepPressedMembers(held: seq<HeldState>, pressed: seq<Key>)
    ensures forall s :: s in KeepPressed(held, pressed) <==> s in held && s.key in pressed
  {
    if held != [] {
      KeepPressedMembers(held[..|held| - 1], pressed);
      assert held == held[..|held| - 1] + [held[|held| - 1]];
    }
  }

  /** Removal keeps held keys distinct. */
  lemma {:induction false} KeepPressedDistinct(held: seq<HeldState>, pressed: seq<Key>)
    requires NoDuplicateKeys(held)
    ensures NoDuplicateKeys(KeepPressed(held, pressed))
  {
    if held != [] {
      var init := held[..|held| - 1];
      var last := held[|held| - 1];
      assert NoDuplicateKeys(init) by {
        forall i, j | 0 <= i < j < |init| ensures init[i].key != init[j].key {
          assert init[i] == held[i] && init[j] == held[j];
        }
      }
      KeepPressedDistinct(init, pressed);
      if last.key in pressed {
        var acc := KeepPressed(init, pressed);
        var r := acc + [last];
        KeepPressedMembers(init, pressed);
        forall i, j | 0 <= i < j < |r| ensures r[i].key != r[j].key {
          if j == |r| - 1 {
            assert r[i] in acc;
            var m :| 0 <= m < |init| && init[m] == r[i];
            assert held[m] == r[i];
          } else {
            assert r[i] == acc[i] && r[j] == acc[j];
          }
        }
      }
    }
  }

  /** After reconciliation exactly the pressed keys are held, each once. */
  lemma ReconciledHoldsExactlyPressed(held: seq<HeldState>, pressed: seq<Key>)
    requires NoDuplicateKeys(held)
    ensures forall k :: k in KeysOf(Reconciled(held, pressed)) <==> k in pressed
    ensures NoDuplicateKeys(Reconciled(held, pressed))
  {
    var added := AddMissing(held, pressed);
    AddMissingFacts(held, pressed);
    KeepPressedFacts(added, pressed);
    forall k | k in pressed ensures k in KeysOf(Reconciled(held, pressed)) {
      var i :| 0 <= i < |added| && KeysOf(added)[i] == k;
      assert added[i] in Reconciled(held, pressed);
      var j :| 0 <= j < |Reconciled(held, pressed)| && Reconciled(held, pressed)[j] == added[i];
      assert KeysOf(Reconciled(held, pressed))[j] == k;
    }
    forall k | k in KeysOf(Reconciled(held, pressed)) ensures k in pressed {
      var r := Reconciled(held, pressed);
      var j :| 0 <= j < |r| && KeysOf(r)[j] == k;
      assert r[j] in r;
    }
  }

  /** Keys held before and still pressed keep their repeat state; every other entry is a
      fresh one for a newly pressed key. */
  lemma ReconcileKeepsHeldState(held: seq<HeldState>, pressed: seq<Key>)
    ensures forall s :: s in held && s.key in pressed ==> s in Reconciled(held, pressed)
    ensures forall s :: s in Reconciled(held, pressed) ==> s in held || (s.state == Initial && s.key !in KeysOf(held))
  {
    var added := AddMissing(held, pressed);
    AddMissingFacts(held, pressed);
    KeepPressedFacts(added, pressed);
    forall s | s in held ensures s in added {
      var i :| 0 <= i < |held| && held[i] == s;
      assert added[..|held|][i] == s;
    }
    forall s | s in Reconciled(held, pressed) && s !in held
      ensures s.state == Initial && s.key !in KeysOf(held)
    {
      var i :| 0 <= i < |added| && added[i] == s;
    }
  }

  /** The held keys after a frame's tick. */
  function TickAll(held: seq<HeldState>, dt: real): (r: seq<HeldState>)
    ensures |r| == |held|
    ensures forall i :: 0 <= i < |held| ==> r[i] == HeldState(held[i].key, RepeatStep(held[i].state, dt))
  {
    seq(|held|, i requires 0 <= i < |held| => HeldState(held[i].key, RepeatStep(held[i].state, dt)))
  }

  /** The ready keys, in holding order. */
  function ReadyKeys(held: seq<HeldState>): seq<Key>
  {
    if held == [] then []
    else ReadyKeys(held[..|held| - 1]) + (if held[|held| - 1].state.ready then [held[|held| - 1].key] else [])
  }

  /** Every held key with its ready flag read, and so cleared. */
  function ClearReady(held: seq<HeldState>): (r: seq<HeldState>)
    ensures |r| == |held|
    ensures forall i :: 0 <= i < |held| ==> r[i] == HeldState(held[i].key, held[i].state.(ready := false))
  {
    seq(|held|, i requires 0 <= i < |held| => HeldState(held[i].key, held[i].state.(ready := false)))
  }

  lemma {:induction false} NoReadyKeysWhenCleared(held: seq<HeldState>)
    requires forall i :: 0 <= i < |held| ==> !held[i].state.ready
    ensures ReadyKeys(held) == []
  {
    if held != [] {
      NoReadyKeysWhenCleared(held[..|held| - 1]);
    }
  }

  /** A tick keeps every held key in its place, so distinct keys stay distinct, and it never
      takes back a ready flag. */
  lemma TickAllKeepsKeys(held: seq<HeldState>, dt: real)
    ensures KeysOf(TickAll(held, dt)) == KeysOf(held)
    ensures NoDuplicateKeys(held) ==> NoDuplicateKeys(TickAll(held, dt))
    ensures forall i :: 0 <= i < |held| && held[i].state.ready ==> TickAll(held, dt)[i].state.ready
  {
  }

  /** Reading every flag keeps the keys in place, leaves no key ready, and reading them again
      changes nothing. */
  lemma ClearReadyKeepsKeys(held: seq<HeldState>)
    ensures KeysOf(ClearReady(held)) == KeysOf(held)
    ensures ReadyKeys(ClearReady(held)) == []
    ensures ClearReady(ClearReady(held)) == ClearReady(held)
  {
    NoReadyKeysWhenCleared(ClearReady(held));
  }

  /** A key is among the ready keys exactly when a held entry for it is ready. */
  lemma {:induction false} ReadyKeysAreTheReadyOnes(held: seq<HeldState>, k: Key)
    ensures k in ReadyKeys(held) <==> exists i :: 0 <= i < |held| && held[i].key == k && held[i].state.ready
  {
    if held != [] {
      var init := held[..|held| - 1];
      ReadyKeysAreTheReadyOnes(init, k);
      assert forall i :: 0 <= i < |init| ==> init[i] == held[i];
    }
  }

  /** A fresh key, ticked in the frame it is first held, is delivered in that frame. */
  lemma NewKeyIsDeliveredAtOnce(dt: real)
    ensures RepeatStep(Initial, dt).ready
  {
  }
}
