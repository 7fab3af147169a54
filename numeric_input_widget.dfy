/** The earlier numeric input widget: a box of fixed width that is aligned inside the space a
    layout gives it once, blinks a cursor while focused and shows its click state as a border
    colour. It does not edit text. */
module NumericInputWidget {
  import opened Vectors
  import opened GuiCommon

  class NumericInput {
    const alignment: HorizontalAlignment
    const width: int
    const height: int
    const textOffset: Vec2
    var offset: Vec2
    var finalized: bool
    var blinkTimer: real
    var cursorVisible: bool
    var focused: bool
    var borderColor: Color
    /** The position the layout last gave, and the position handed on to the text. */
    var position: Vec2
    var textPosition: Vec2

    /** `textHeight` is the height of the text display. */
    constructor (textHeight: real, alignment: HorizontalAlignment, width: int, padding: int)
      ensures this.alignment == alignment
      ensures this.width == width && height == TruncToInt(textHeight + 2.0 * padding as real)
      ensures textOffset == OfInts(padding, padding)
      ensures offset == Zero && !finalized && blinkTimer == 0.0 && !cursorVisible && !focused
      ensures borderColor == Transparent && position == Zero && textPosition == Zero
    {
      this.alignment := alignment;
      this.width := width;
      this.height := TruncToInt(textHeight + 2.0 * padding as real);
      this.textOffset := OfInts(padding, padding);
      offset := Zero;
      finalized := false;
      blinkTimer := 0.0;
      cursorVisible := false;
      focused := false;
      borderColor := Transparent;
      position := Zero;
      textPosition := Zero;
    }

    function Origin(): (o: Vec2)
      reads this
    {
      position.Plus(offset)
    }

    /** The area that reacts to the mouse: the box itself at its aligned origin. */
    function LeftClickArea(): (r: Rect)
      reads this
      ensures Vec2(r.x, r.y) == position.Plus(offset)
      ensures r.width == width as real && r.height == height as real
    {
      Rect(Origin().x, Origin().y, width as real, height as real)
    }

    /** Once aligned in a slot at least as wide as the box, the click area starts at the
        slot's top, lies across the slot's width, and touches the side the alignment names,
        or leaves equal space on both sides when centred. */
    lemma ClickAreaInsideSlot(availableWidth: int)
      requires alignment != Unsupported && Ok(offset) == AlignmentOffset(alignment, availableWidth, width)
      requires 0 <= width <= availableWidth
      ensures var a := LeftClickArea();
              a.y == position.y && a.height == height as real &&
              position.x <= a.x && a.x + a.width <= position.x + availableWidth as real
      ensures alignment == Left ==> LeftClickArea().x == position.x
      ensures alignment == Right ==> LeftClickArea().x + LeftClickArea().width == position.x + availableWidth as real
      ensures alignment == Center ==>
                LeftClickArea().x - position.x == position.x + availableWidth as real - (LeftClickArea().x + LeftClickArea().width)
    {
    }

    /** Aligns the box inside the space it is given; allowed once. */
    method FinalizeComponent(availableWidth: int, availableHeight: int) returns (outcome: Outcome)
      modifies this`offset, this`finalized
      ensures old(finalized) ==> outcome == Throws(InvalidOperation) && offset == old(offset) && finalized
      ensures !old(finalized) && alignment == Unsupported ==>
                outcome == Throws(Argument) && offset == old(offset) && !finalized
      ensures !old(finalized) && alignment != Unsupported ==>
                outcome == Done && finalized && Ok(offset) == AlignmentOffset(alignment, availableWidth, width)
    {
      if finalized {
        return Throws(InvalidOperation);
      }
      var aligned := AlignmentOffset(alignment, availableWidth, width);
      if aligned.Err? {
        return Throws(aligned.error);
      }
      offset := aligned.value;
      finalized := true;
      outcome := Done;
    }

    method FrameTick(dt: real)
      modifies this`blinkTimer, this`cursorVisible
      ensures CursorBlink(blinkTimer, cursorVisible) == BlinkStep(old(CursorBlink(blinkTimer, cursorVisible)), focused, dt)
    {
      var b := BlinkStep(CursorBlink(blinkTimer, cursorVisible), focused, dt);
      blinkTimer, cursorVisible := b.timer, b.visible;
    }

    method UpdatePosition(p: Vec2)
      modifies this`position, this`textPosition
      ensures position == p
      ensures textPosition == p.Plus(offset).Plus(textOffset)
    {
      position := p;
      textPosition := Origin().Plus(textOffset);
    }

    /** Drawing is refused until the widget is finalised; the drawing itself is not modelled. */
    method Draw() returns (outcome: Outcome)
      ensures finalized ==> outcome == Done
      ensures !finalized ==> outcome == Throws(InvalidOperation)
    {
      if !finalized {
        return Throws(InvalidOperation);
      }
      outcome := Done;
    }

    method LeftClickAction()
      modifies this`focused, this`cursorVisible
      ensures focused && cursorVisible
    {
      focused := true;
      cursorVisible := true;
    }

    method ChangeState(state: ClickState)
      modifies this`borderColor
      ensures borderColor == BorderColor(state, focused)
    {
      borderColor := BorderColor(state, focused);
    }
  }
}
