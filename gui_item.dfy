/** A top-level GUI item: placed at one of nine anchor points of the view, finalised once
    before it may tick or draw. */
module GuiItems {
  import opened Vectors
  import GuiCommon

  /** `Unsupported` stands for any value of the enumeration outside its named members. */
  datatype GuiPlacement =
    | TopLeft | TopMiddle | TopRight
    | CenterLeft | Center | CenterRight
    | BottomLeft | BottomMiddle | BottomRight
    | Unsupported

  predicate InLeftColumn(p: GuiPlacement) { p == TopLeft || p == CenterLeft || p == BottomLeft }
  predicate InMiddleColumn(p: GuiPlacement) { p == TopMiddle || p == Center || p == BottomMiddle }
  predicate InRightColumn(p: GuiPlacement) { p == TopRight || p == CenterRight || p == BottomRight }
  predicate InTopRow(p: GuiPlacement) { p == TopLeft || p == TopMiddle || p == TopRight }
  predicate InCenterRow(p: GuiPlacement) { p == CenterLeft || p == Center || p == CenterRight }
  predicate InBottomRow(p: GuiPlacement) { p == BottomLeft || p == BottomMiddle || p == BottomRight }

  /** Where an item of `width` x `height` sits in a view of `size`, relative to the view's
      top-left corner. */
  function PlacementOffset(placement: GuiPlacement, size: Vec2, width: int, height: int): (r: GuiCommon.Result<Vec2>)
    ensures r.Err? <==> placement == Unsupported
    ensures r.Err? ==> r.error == GuiCommon.Argument
    // horizontally: flush left, equal margins, or flush right
    ensures InLeftColumn(placement) ==> r.value.x == 0.0
    ensures InMiddleColumn(placement) ==> r.value.x == size.x - (r.value.x + width as real)
    ensures InRightColumn(placement) ==> r.value.x + width as real == size.x
    // vertically: flush top, equal margins, or flush bottom
    ensures InTopRow(placement) ==> r.value.y == 0.0
    ensures InCenterRow(placement) ==> r.value.y == size.y - (r.value.y + height as real)
    ensures InBottomRow(placement) ==> r.value.y + height as real == size.y
  {
    var w, h := width as real, height as real;
    match placement
    case TopLeft => GuiCommon.Ok(Zero)
    case TopMiddle => GuiCommon.Ok(Vec2((size.x - w) / 2.0, 0.0))
    case TopRight => GuiCommon.Ok(Vec2(size.x - w, 0.0))
    case CenterLeft => GuiCommon.Ok(Vec2(0.0, (size.y - h) / 2.0))
    case Center => GuiCommon.Ok(Vec2(size.x - w, size.y - h).DividedBy(2.0))
    case CenterRight => GuiCommon.Ok(Vec2(size.x - w, (size.y - h) / 2.0))
    case BottomLeft => GuiCommon.Ok(Vec2(0.0, size.y - h))
    case BottomMiddle => GuiCommon.Ok(Vec2((size.x - w) / 2.0, size.y - h))
    case BottomRight => GuiCommon.Ok(Vec2(size.x - w, size.y - h))
    case Unsupported => GuiCommon.Err(GuiCommon.Argument)
  }

  class GuiItem {
    const placement: GuiPlacement
    /** Set by the concrete item, typically when it is finalised. */
    var width: int
    var height: int
    var finalized: bool

    constructor (placement: GuiPlacement, width: int, height: int)
      ensures this.placement == placement && this.width == width && this.height == height
      ensures !finalized
    {
      this.placement := placement;
      this.width := width;
      this.height := height;
      finalized := false;
    }

    /** The item's position in a view whose top-left corner is `origin` and whose size is
        `size`; an unsupported placement throws when the position is read. */
    function Position(origin: Vec2, size: Vec2): (r: GuiCommon.Result<Vec2>)
      reads this
      ensures r.Err? <==> placement == Unsupported
      ensures r.Ok? ==> r.value == origin.Plus(PlacementOffset(placement, size, width, height).value)
    {
      var offset := PlacementOffset(placement, size, width, height);
      if offset.Err? then GuiCommon.Err(offset.error) else GuiCommon.Ok(origin.Plus(offset.value))
    }

    method FinalizeItem() returns (outcome: GuiCommon.Outcome)
      modifies this`finalized
      ensures finalized
      ensures old(finalized) <==> outcome == GuiCommon.Throws(GuiCommon.InvalidOperation)
      ensures !old(finalized) <==> outcome == GuiCommon.Done
    {
      if finalized {
        return GuiCommon.Throws(GuiCommon.InvalidOperation);
      }
      finalized := true;
      outcome := GuiCommon.Done;
    }

    method FrameTick(dt: real) returns (outcome: GuiCommon.Outcome)
      ensures finalized ==> outcome == GuiCommon.Done
      ensures !finalized ==> outcome == GuiCommon.Throws(GuiCommon.InvalidOperation)
    {
      if !finalized {
        return GuiCommon.Throws(GuiCommon.InvalidOperation);
      }
      outcome := GuiCommon.Done;
    }

    method Draw() returns (outcome: GuiCommon.Outcome)
      ensures finalized ==> outcome == GuiCommon.Done
      ensures !finalized ==> outcome == GuiCommon.Throws(GuiCommon.InvalidOperation)
    {
      if !finalized {
        return GuiCommon.Throws(GuiCommon.InvalidOperation);
      }
      outcome := GuiCommon.Done;
    }
  }

  /** A 40 x 10 item in a 400 x 200 view whose top-left corner is (-200, -100). */
  lemma PlacementExamples()
    ensures PlacementOffset(TopLeft, Vec2(400.0, 200.0), 40, 10).value == Zero
    ensures Vec2(-200.0, -100.0).Plus(PlacementOffset(TopMiddle, Vec2(400.0, 200.0), 40, 10).value) == Vec2(-20.0, -100.0)
    ensures Vec2(-200.0, -100.0).Plus(PlacementOffset(Center, Vec2(400.0, 200.0), 40, 10).value) == Vec2(-20.0, -5.0)
    ensures Vec2(-200.0, -100.0).Plus(PlacementOffset(CenterRight, Vec2(400.0, 200.0), 40, 10).value) == Vec2(160.0, -5.0)
    ensures Vec2(-200.0, -100.0).Plus(PlacementOffset(BottomLeft, Vec2(400.0, 200.0), 40, 10).value) == Vec2(-200.0, 90.0)
    ensures Vec2(-200.0, -100.0).Plus(PlacementOffset(BottomRight, Vec2(400.0, 200.0), 40, 10).value) == Vec2(160.0, 90.0)
  {
  }
}
