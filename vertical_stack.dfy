/** A stack that lays its components out top to bottom with fixed spacing, as wide as its
    widest component. */
module VerticalStackLayout {
  import opened Vectors
  import opened GuiCommon
  import opened LayoutMath
  import opened StackLayout

  function Heights(cs: seq<Component>): (hs: seq<int>)
    ensures |hs| == |cs| && forall i :: 0 <= i < |cs| ==> hs[i] == cs[i].height
  {
    seq(|cs|, i requires 0 <= i < |cs| => cs[i].height)
  }

  /** The width of the widest component (LINQ `Max`). */
  function Widest(cs: seq<Component>): (w: int)
    requires cs != []
    ensures forall i :: 0 <= i < |cs| ==> cs[i].width <= w
    ensures exists i :: 0 <= i < |cs| && cs[i].width == w
  {
    if |cs| == 1 then cs[0].width
    else
      var rest := Widest(cs[..|cs| - 1]);
      assert forall i :: 0 <= i < |cs| - 1 ==> cs[..|cs| - 1][i] == cs[i];
      Max(rest, cs[|cs| - 1].width)
  }

  /** The stack's width: its widest component, or 0 with no components. */
  function StackWidth(cs: seq<Component>): (w: int)
    ensures cs == [] ==> w == 0
    ensures cs != [] ==> (forall i :: 0 <= i < |cs| ==> cs[i].width <= w) &&
                         (exists i :: 0 <= i < |cs| && cs[i].width == w)
  {
    if cs == [] then 0 else Widest(cs)
  }

  /** The stack's height: every component's height and one spacing between neighbours,
      or 0 with no components. */
  function StackHeight(cs: seq<Component>, spacing: int): int
  {
    if cs == [] then 0 else Sum(Heights(cs)) + spacing * (|cs| - 1)
  }

  /** How far below the stack's top the `i`-th component starts. */
  function RowOffset(cs: seq<Component>, i: nat, spacing: int): int
    requires i <= |cs|
  {
    Sum(Heights(cs[..i])) + i * spacing
  }

  /** Each component starts one height and one spacing below the previous one. */
  lemma RowOffsetStep(cs: seq<Component>, i: nat, spacing: int)
    requires i < |cs|
    ensures RowOffset(cs, i + 1, spacing) == RowOffset(cs, i, spacing) + cs[i].height + spacing
  {
    SumPrefixStep(Heights(cs), i);
    assert Heights(cs)[..i + 1] == Heights(cs[..i + 1]);
    assert Heights(cs)[..i] == Heights(cs[..i]);
  }

  /** The components tile the stack exactly: the last one ends at the stack's height. */
  lemma LastComponentEndsAtStackHeight(cs: seq<Component>, spacing: int)
    requires cs != []
    ensures RowOffset(cs, |cs| - 1, spacing) + cs[|cs| - 1].height == StackHeight(cs, spacing)
  {
    RowOffsetStep(cs, |cs| - 1, spacing);
    assert cs[..|cs|] == cs;
  }

  /** With non-negative heights and spacing no component starts above the one before it. */
  lemma RowOffsetsIncrease(cs: seq<Component>, i: nat, j: nat, spacing: int)
    requires i <= j <= |cs|
    requires spacing >= 0 && forall k :: 0 <= k < |cs| ==> cs[k].height >= 0
    ensures RowOffset(cs, i, spacing) <= RowOffset(cs, j, spacing)
    decreases j - i
  {
    if i < j {
      RowOffsetStep(cs, i, spacing);
      RowOffsetsIncrease(cs, i + 1, j, spacing);
    }
  }

  /** The finalise calls: each component, in order, with the whole stack's size. */
  function FinalizeCalls(cs: seq<Component>, width: int, height: int): (calls: seq<ComponentCall>)
    ensures |calls| == |cs|
    ensures forall i :: 0 <= i < |cs| ==> calls[i] == FinalizeCall(cs[i], width, height)
  {
    if cs == [] then [] else FinalizeCalls(cs[..|cs| - 1], width, height) + [FinalizeCall(cs[|cs| - 1], width, height)]
  }

  /** The draw calls: each component once, in order. */
  function DrawCalls(cs: seq<Component>): (calls: seq<ComponentCall>)
    ensures |calls| == |cs|
    ensures forall i :: 0 <= i < |cs| ==> calls[i] == DrawCall(cs[i])
  {
    if cs == [] then [] else DrawCalls(cs[..|cs| - 1]) + [DrawCall(cs[|cs| - 1])]
  }

  /** The position calls for the first `n` components, in order, each at its row offset
      below `p`. */
  function PlaceCalls(cs: seq<Component>, n: nat, p: Vec2, spacing: int): (calls: seq<ComponentCall>)
    requires n <= |cs|
    ensures |calls| == n
    ensures forall i :: 0 <= i < n ==> calls[i] == PlaceCall(cs[i], p.Plus(OfInts(0, RowOffset(cs, i, spacing))))
  {
    if n == 0 then []
    else PlaceCalls(cs, n - 1, p, spacing) + [PlaceCall(cs[n - 1], p.Plus(OfInts(0, RowOffset(cs, n - 1, spacing))))]
  }

  class VerticalStack {
    const spacing: int
    const stack: Stack
    /** Every call made on the components so far. */
    var log: seq<ComponentCall>

    constructor (spacing: int)
      ensures this.spacing == spacing && fresh(stack) && log == []
      ensures stack.components == [] && stack.position == Zero && stack.width == 0 && stack.height == 0
    {
      this.spacing := spacing;
      stack := new Stack();
      log := [];
    }

    /** Sizes the stack from its components and finalises every component with the whole
        stack's size. */
    method FinalizeStack()
      modifies stack`width, stack`height, this`log
      ensures stack.width == StackWidth(stack.components)
      ensures stack.height == StackHeight(stack.components, spacing)
      ensures log == old(log) + FinalizeCalls(stack.components, stack.width, stack.height)
    {
      var cs := stack.components;
      if cs != [] {
        stack.width := Widest(cs);
        stack.height := Sum(Heights(cs)) + spacing * (|cs| - 1);
      } else {
        stack.width := 0;
        stack.height := 0;
      }
      var w, h := stack.width, stack.height;
      var i := 0;
      while i < |cs|
        invariant 0 <= i <= |cs|
        invariant stack.width == w && stack.height == h
        invariant log == old(log) + FinalizeCalls(cs[..i], stack.width, stack.height)
      {
        assert cs[..i + 1][..i] == cs[..i];
        log := log + [FinalizeCall(cs[i], stack.width, stack.height)];
        i := i + 1;
      }
      assert cs[..i] == cs;
    }

    /** Records the stack's position and places each component below the previous one. */
    method UpdatePosition(p: Vec2)
      modifies stack`position, this`log
      ensures stack.position == p
      ensures log == old(log) + PlaceCalls(stack.components, |stack.components|, p, spacing)
    {
      stack.UpdatePosition(p);
      var cs := stack.components;
      var heightOffset := 0;
      var i := 0;
      while i < |cs|
        invariant 0 <= i <= |cs|
        invariant stack.position == p
        invariant heightOffset == RowOffset(cs, i, spacing)
        invariant log == old(log) + PlaceCalls(cs, i, p, spacing)
      {
        assert PlaceCalls(cs, i + 1, p, spacing) == PlaceCalls(cs, i, p, spacing) + [PlaceCall(cs[i], p.Plus(OfInts(0, heightOffset)))];
        log := log + [PlaceCall(cs[i], p.Plus(OfInts(0, heightOffset)))];
        RowOffsetStep(cs, i, spacing);
        heightOffset := heightOffset + cs[i].height;
        heightOffset := heightOffset + spacing;
        i := i + 1;
      }
    }

    /** Draws the components in the order they were added. */
    method Draw()
      modifies this`log
      ensures log == old(log) + DrawCalls(stack.components)
    {
      var cs := stack.components;
      var i := 0;
      while i < |cs|
        invariant 0 <= i <= |cs|
        invariant log == old(log) + DrawCalls(cs[..i])
      {
        assert cs[..i + 1][..i] == cs[..i];
        log := log + [DrawCall(cs[i])];
        i := i + 1;
      }
      assert cs[..i] == cs;
    }
  }
}
