/** The state every stack layout shares: the components in the order they were added and
    the stack's own position and size. */
module StackLayout {
  import opened Vectors
  import opened GuiCommon

  class Stack {
    var components: seq<Component>
    var position: Vec2
    var width: int
    var height: int

    constructor ()
      ensures components == [] && position == Zero && width == 0 && height == 0
    {
      components := [];
      position := Zero;
      width := 0;
      height := 0;
    }

    /** Appends a component; those added earlier keep their order. */
    method AddComponent(c: Component)
      modifies this`components
      ensures components == old(components) + [c]
      ensures components[..|old(components)|] == old(components) && components[|old(components)|] == c
    {
      components := components + [c];
    }

    /** Records the stack's position; nothing else changes. */
    method UpdatePosition(p: Vec2)
      modifies this`position
      ensures position == p
    {
      position := p;
    }
  }
}
