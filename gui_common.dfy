/** Value types shared by the widgets, the layouts and the input dispatch. */
module GuiCommon {
  import opened Vectors

  /** The exception a member throws: InvalidOperationException, ArgumentException,
      IndexOutOfRangeException or the FormatException of a number parse. */
  datatype ErrorKind = InvalidOperation | Argument | IndexOutOfRange | Format

  /** The outcome of a member that returns nothing but may throw. */
  datatype Outcome = Done | Throws(error: ErrorKind)

  /** A value or the exception that replaced it. */
  datatype Result<T> = Ok(value: T) | Err(error: ErrorKind)

  /** A GUI component as a layout sees it: something with a fixed size that it finalises and
      positions. `id` tells apart components of the same size. */
  datatype Component = Component(id: nat, width: int, height: int)

  /** A call a layout makes on one of its components. */
  datatype ComponentCall =
    | FinalizeCall(target: Component, availableWidth: int, availableHeight: int)
    | PlaceCall(target: Component, position: Vec2)
    | TickCall(target: Component, dt: real)
    | DrawCall(target: Component)

  datatype ClickState = None | Hovered | Clicked

  /** `Transparent` is the default colour a border has before any click state is shown. */
  datatype Color = Transparent | Yellow | Orange | Magenta | Red

  /** `Unsupported` stands for any value of the enumeration outside its named members. */
  datatype HorizontalAlignment = Left | Center | Right | Unsupported

  type DigitValue = d: int | 0 <= d <= 9

  /** The keyboard keys the widgets react to; every other key is `Other`, told apart by its code. */
  datatype Key = Escape | Enter | Digit(value: DigitValue) | Back | Delete | OemPeriod
               | LeftArrow | RightArrow | Other(code: int)

  /** The character `(char)Keys.D<n>` gives for a digit key: the key codes of D0..D9 are '0'..'9'. */
  function DigitChar(d: DigitValue): (c: char)
    ensures '0' <= c <= '9'
    ensures c as int - '0' as int == d
  {
    (d + '0' as int) as char
  }

  /** A C# `(int)` cast of a float: truncation toward zero. */
  function TruncToInt(x: real): (r: int)
    ensures 0.0 <= x ==> 0 <= r && r as real <= x < r as real + 1.0
    ensures x < 0.0 ==> r <= 0 && r as real - 1.0 < x <= r as real
  {
    if x >= 0.0 then x.Floor else -((-x).Floor)
  }

  /** The border colour a numeric input shows for a click state; red marks the focused,
      untouched input. */
  function BorderColor(state: ClickState, focused: bool): (c: Color)
    ensures c == Red <==> focused && state == None
    ensures c == Yellow <==> !focused && state == None
    ensures c == Orange <==> state == Hovered
    ensures c == Magenta <==> state == Clicked
  {
    var shown := match state
      case None => Yellow
      case Hovered => Orange
      case Clicked => Magenta;
    if focused && state == None then Red else shown
  }

  /** For a fixed focus the colour tells the click state apart. */
  lemma BorderColorDistinguishesStates(s1: ClickState, s2: ClickState, focused: bool)
    requires BorderColor(s1, focused) == BorderColor(s2, focused)
    ensures s1 == s2
  {
  }

  /** Horizontal offset of a component of `width` inside `available` pixels. */
  function AlignmentOffset(alignment: HorizontalAlignment, available: int, width: int): (r: Result<Vec2>)
    ensures r.Err? <==> alignment == Unsupported
    ensures r.Err? ==> r.error == Argument
    ensures r.Ok? ==> r.value.y == 0.0
    ensures alignment == Left ==> r == Ok(Zero)
    // right alignment puts the right edge on the edge of the available space
    ensures alignment == Right ==> r.value.x + width as real == available as real
    // centring leaves equal space on either side
    ensures alignment == Center ==> r.value.x == available as real - (r.value.x + width as real)
  {
    match alignment
    case Left => Ok(Zero)
    case Center => Ok(Vec2((available - width) as real / 2.0, 0.0))
    case Right => Ok(Vec2((available - width) as real, 0.0))
    case Unsupported => Err(Argument)
  }

  /** The cursor blink of a numeric input: its accumulated time and whether the cursor shows. */
  datatype CursorBlink = CursorBlink(timer: real, visible: bool)

  const BlinkInterval: real := 0.5

  /** One frame of the blink timer; `dt` is the frame's elapsed time in seconds. */
  function BlinkStep(b: CursorBlink, focused: bool, dt: real): (r: CursorBlink)
    // without focus the timer is reset and the cursor hidden
    ensures !focused ==> r == CursorBlink(0.0, false)
    // with focus the cursor toggles exactly when the accumulated time reaches the interval,
    // and the timer keeps only the time beyond one interval
    ensures focused ==> (r.visible != b.visible <==> b.timer + dt >= BlinkInterval)
    ensures focused ==> r.timer == b.timer + dt - (if r.visible != b.visible then BlinkInterval else 0.0)
  {
    if focused then
      var t := b.timer + dt;
      if t >= BlinkInterval then CursorBlink(t - BlinkInterval, !b.visible) else CursorBlink(t, b.visible)
    else
      CursorBlink(0.0, false)
  }

  /** With frames no longer than the interval, a focused timer stays within [0, interval). */
  lemma BlinkTimerStaysBelowInterval(b: CursorBlink, dt: real)
    requires 0.0 <= b.timer < BlinkInterval
    requires 0.0 <= dt <= BlinkInterval
    ensures 0.0 <= BlinkStep(b, true, dt).timer < BlinkInterval
  {
  }

  /** Runs the blink over a sequence of frame times, all with the same focus. */
  function BlinkRun(b: CursorBlink, focused: bool, dts: seq<real>): CursorBlink
    decreases |dts|
  {
    if dts == [] then b else BlinkRun(BlinkStep(b, focused, dts[0]), focused, dts[1..])
  }

  /** Without focus the cursor stays hidden, however long the frames. */
  lemma {:induction false} UnfocusedCursorNeverShows(b: CursorBlink, dts: seq<real>)
    requires dts != []
    ensures BlinkRun(b, false, dts) == CursorBlink(0.0, false)
    decreases |dts|
  {
    if |dts| > 1 {
      UnfocusedCursorNeverShows(BlinkStep(b, false, dts[0]), dts[1..]);
    }
  }

  /** Frames of 0.1 s and 0.45 s alternately, focused: the cursor stays hidden, shows,
      stays, hides, stays hidden, shows. */
  lemma FocusedBlinkSequence()
    ensures var b0 := CursorBlink(0.0, false);
            var b1 := BlinkStep(b0, true, 0.1);
            var b2 := BlinkStep(b1, true, 0.45);
            var b3 := BlinkStep(b2, true, 0.1);
            var b4 := BlinkStep(b3, true, 0.45);
            var b5 := BlinkStep(b4, true, 0.1);
            var b6 := BlinkStep(b5, true, 0.45);
            !b1.visible && b2.visible && b3.visible && !b4.visible && !b5.visible && b6.visible
  {
  }

  /** Appending in two steps is appending the two parts at once. */
  lemma AppendAssoc<T>(a: seq<T>, b: seq<T>, c: seq<T>)
    ensures a + b + c == a + (b + c)
  {
  }
}
