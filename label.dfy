/** A text label: sized to its text, aligned once inside the space a layout gives it. */
module LabelWidget {
  import opened Vectors
  import opened GuiCommon

  class Label {
    const alignment: HorizontalAlignment
    const width: int
    const height: int
    var offset: Vec2
    var finalized: bool
    var position: Vec2
    /** The position handed on to the text display. */
    var textPosition: Vec2

    /** `textWidth` and `textHeight` are the measured size of the text. */
    constructor (textWidth: real, textHeight: real, alignment: HorizontalAlignment)
      ensures this.alignment == alignment
      ensures width == TruncToInt(textWidth) && height == TruncToInt(textHeight)
      ensures offset == Zero && !finalized && position == Zero && textPosition == Zero
    {
      this.alignment := alignment;
      width := TruncToInt(textWidth);
      height := TruncToInt(textHeight);
      offset := Zero;
      finalized := false;
      position := Zero;
      textPosition := Zero;
    }

    /** Aligns the label inside the space it is given; allowed once. */
    method FinalizeComponent(availableWidth: int, availableHeight: int) returns (outcome: Outcome)
      modifies this`offset, this`finalized
      ensures old(finalized) ==> outcome == Throws(InvalidOperation) && offset == old(offset) && finalized
      ensures !old(finalized) && alignment == Unsupported ==>
                outcome == Throws(Argument) && offset == old(offset) && !finalized
      ensures !old(finalized) && alignment != Unsupported ==>
                outcome == Done && finalized && Ok(offset) == AlignmentOffset(alignment, availableWidth, width)
    {
      if finalized {
        return Throws(InvalidOperation);
      }
      var aligned := AlignmentOffset(alignment, availableWidth, width);
      if aligned.Err? {
        return Throws(aligned.error);
      }
      offset := aligned.value;
      finalized := true;
      outcome := Done;
    }

    method UpdatePosition(p: Vec2)
      modifies this`position, this`textPosition
      ensures position == p
      ensures textPosition == p.Plus(offset)
    {
      position := p;
      textPosition := position.Plus(offset);
    }

    /** Drawing is refused until the label is finalised; the drawing itself is not modelled. */
    method Draw() returns (outcome: Outcome)
      ensures finalized ==> outcome == Done
      ensures !finalized ==> outcome == Throws(InvalidOperation)
    {
      if !finalized {
        return Throws(InvalidOperation);
      }
      outcome := Done;
    }
  }
}
