/** The GUI manager: a list of top-level items that is finalised once, after which every
    frame ticks and draws each item in order. */
module GuiManagement {
  import opened GuiCommon

  /** A registered item; the manager only calls into it. */
  type ItemId = nat

  datatype CallKind = FinalizeItem | TickItem(dt: real) | DrawItem

  /** A call the manager makes on one of its items. */
  datatype ItemCall = ItemCall(kind: CallKind, item: ItemId)

  /** One call of `kind` on each item, in list order. */
  function CallEach(items: seq<ItemId>, kind: CallKind): (calls: seq<ItemCall>)
    ensures |calls| == |items|
    ensures forall i :: 0 <= i < |items| ==> calls[i] == ItemCall(kind, items[i])
  {
    if items == [] then [] else CallEach(items[..|items| - 1], kind) + [ItemCall(kind, items[|items| - 1])]
  }

  /** The number of calls of `kind` on `item`. */
  function CallsOn(calls: seq<ItemCall>, kind: CallKind, item: ItemId): nat
  {
    if calls == [] then 0
    else CallsOn(calls[..|calls| - 1], kind, item) + (if calls[|calls| - 1] == ItemCall(kind, item) then 1 else 0)
  }

  function Occurrences(items: seq<ItemId>, item: ItemId): nat
  {
    if items == [] then 0
    else Occurrences(items[..|items| - 1], item) + (if items[|items| - 1] == item then 1 else 0)
  }

  /** Each item receives the call exactly as many times as it is in the list: once, for
      an item added once. */
  lemma {:induction false} CallEachOncePerEntry(items: seq<ItemId>, kind: CallKind, item: ItemId)
    ensures CallsOn(CallEach(items, kind), kind, item) == Occurrences(items, item)
  {
    if items != [] {
      var init := items[..|items| - 1];
      CallEachOncePerEntry(init, kind, item);
      var calls := CallEach(items, kind);
      assert calls[..|calls| - 1] == CallEach(init, kind);
    }
  }

  class GuiManager {
    var items: seq<ItemId>
    var finalized: bool
    /** Every call made on the items so far. */
    var log: seq<ItemCall>

    constructor ()
      ensures items == [] && !finalized && log == []
    {
      items := [];
      finalized := false;
      log := [];
    }

    /** Appends an item; allowed before and after finalising. */
    method AddItem(item: ItemId)
      modifies this`items
      ensures items == old(items) + [item]
    {
      items := items + [item];
    }

    method FinalizeGui() returns (outcome: Outcome)
      modifies this`finalized, this`log
      ensures old(finalized) ==> outcome == Throws(InvalidOperation) && log == old(log) && finalized
      ensures !old(finalized) ==> outcome == Done && finalized && log == old(log) + CallEach(items, FinalizeItem)
    {
      if finalized {
        return Throws(InvalidOperation);
      }
      CallOnEach(FinalizeItem);
      finalized := true;
      outcome := Done;
    }

    method FrameTick(dt: real) returns (outcome: Outcome)
      modifies this`log
      ensures !finalized ==> outcome == Throws(InvalidOperation) && log == old(log)
      ensures finalized ==> outcome == Done && log == old(log) + CallEach(items, TickItem(dt))
    {
      if !finalized {
        return Throws(InvalidOperation);
      }
      CallOnEach(TickItem(dt));
      outcome := Done;
    }

    method Draw() returns (outcome: Outcome)
      modifies this`log
      ensures !finalized ==> outcome == Throws(InvalidOperation) && log == old(log)
      ensures finalized ==> outcome == Done && log == old(log) + CallEach(items, DrawItem)
    {
      if !finalized {
        return Throws(InvalidOperation);
      }
      CallOnEach(DrawItem);
      outcome := Done;
    }

    /** The `foreach` over the items shared by the three operations above. */
    method CallOnEach(kind: CallKind)
      modifies this`log
      ensures log == old(log) + CallEach(items, kind)
    {
      var i := 0;
      while i < |items|
        invariant 0 <= i <= |items|
        invariant log == old(log) + CallEach(items[..i], kind)
      {
        assert items[..i + 1][..i] == items[..i];
        log := log + [ItemCall(kind, items[i])];
        i := i + 1;
      }
      assert items[..i] == items;
    }
  }
}
