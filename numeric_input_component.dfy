/** The numeric text-entry component: a text with a cursor, edited key by key, that commits
    the number it spells to a shared value box when it loses focus. */
module NumericInputComponent {
  import opened Vectors
  import opened GuiCommon
  import opened Utility

  /** The text being edited and the cursor, an index between characters. */
  datatype Editor = Editor(text: string, cursor: nat)

  function Insert(s: string, at: nat, c: char): (r: string)
    requires at <= |s|
    ensures |r| == |s| + 1
    ensures r[..at] == s[..at] && r[at] == c && r[at + 1..] == s[at..]
  {
    s[..at] + [c] + s[at..]
  }

  function RemoveAt(s: string, at: nat): (r: string)
    requires at < |s|
    ensures |r| == |s| - 1
    ensures r[..at] == s[..at] && r[at..] == s[at + 1..]
  {
    s[..at] + s[at + 1..]
  }

  /** The number of occurrences of `c` in `s`. */
  function Count(s: string, c: char): nat
  {
    if s == [] then 0 else (if s[0] == c then 1 else 0) + Count(s[1..], c)
  }

  /** The effect of an editing key on the text and the cursor; keys that commit, cancel
      or do nothing here leave both alone. */
  function Edit(e: Editor, key: Key): (r: Editor)
    requires e.cursor <= |e.text|
    // the cursor never leaves the text
    ensures r.cursor <= |r.text|
    ensures key.Escape? || key.Enter? || key.Other? ==> r == e
  {
    match key
    case Digit(d) => Editor(Insert(e.text, e.cursor, DigitChar(d)), e.cursor + 1)
    case Back =>
      if e.cursor > 0 then Editor(RemoveAt(e.text, e.cursor - 1), e.cursor - 1) else e
    case Delete =>
      if e.cursor < |e.text| then Editor(RemoveAt(e.text, e.cursor), e.cursor) else e
    case OemPeriod =>
      if '.' !in e.text then Editor(Insert(e.text, e.cursor, '.'), e.cursor + 1) else e
    case LeftArrow => Editor(e.text, if e.cursor - 1 < 0 then 0 else e.cursor - 1)
    case RightArrow => Editor(e.text, if |e.text| < e.cursor + 1 then |e.text| else e.cursor + 1)
    case _ => e
  }

  /** A digit key puts its digit at the cursor, keeps the text on both sides and moves the
      cursor past the new digit. */
  lemma DigitInsertsAtCursor(e: Editor, d: DigitValue)
    requires e.cursor <= |e.text|
    ensures var r := Edit(e, Digit(d));
            |r.text| == |e.text| + 1 && r.cursor == e.cursor + 1 &&
            r.text[..e.cursor] == e.text[..e.cursor] && r.text[e.cursor] == DigitChar(d) &&
            r.text[e.cursor + 1..] == e.text[e.cursor..]
  {
  }

  /** Backspace at the start changes nothing; elsewhere it removes the character before the
      cursor and the cursor follows it left. */
  lemma BackRemovesBeforeCursor(e: Editor)
    requires e.cursor <= |e.text|
    ensures e.cursor == 0 ==> Edit(e, Back) == e
    ensures e.cursor > 0 ==> Edit(e, Back) == Editor(e.text[..e.cursor - 1] + e.text[e.cursor..], e.cursor - 1)
  {
    if e.cursor > 0 {
      var s := e.text;
      assert RemoveAt(s, e.cursor - 1) == s[..e.cursor - 1] + s[e.cursor..];
    }
  }

  /** Delete at the end changes nothing; elsewhere it removes the character at the cursor
      and the cursor stays. */
  lemma DeleteRemovesAtCursor(e: Editor)
    requires e.cursor <= |e.text|
    ensures e.cursor == |e.text| ==> Edit(e, Delete) == e
    ensures e.cursor < |e.text| ==> Edit(e, Delete) == Editor(e.text[..e.cursor] + e.text[e.cursor + 1..], e.cursor)
  {
    if e.cursor < |e.text| {
      var s := e.text;
      assert RemoveAt(s, e.cursor) == s[..e.cursor] + s[e.cursor + 1..];
    }
  }

  /** Backspace undoes the digit just typed: text and cursor are back where they were. */
  lemma BackUndoesDigit(e: Editor, d: DigitValue)
    requires e.cursor <= |e.text|
    ensures Edit(Edit(e, Digit(d)), Back) == e
  {
    var s := e.text;
    var typed := Insert(s, e.cursor, DigitChar(d));
    var r := RemoveAt(typed, e.cursor);
    assert r[..e.cursor] == s[..e.cursor];
    assert r[e.cursor..] == s[e.cursor..];
    assert r == r[..e.cursor] + r[e.cursor..];
    assert s == s[..e.cursor] + s[e.cursor..];
  }

  /** Away from the start, Backspace is a move left followed by Delete. */
  lemma BackIsLeftThenDelete(e: Editor)
    requires 0 < e.cursor <= |e.text|
    ensures Edit(e, Back) == Edit(Edit(e, LeftArrow), Delete)
  {
  }

  /** Left moves the cursor one place left and Right one place right, each stopping at the
      end of the text; the text is unchanged. */
  lemma ArrowsMoveCursor(e: Editor)
    requires e.cursor <= |e.text|
    ensures Edit(e, LeftArrow) == Editor(e.text, if e.cursor == 0 then 0 else e.cursor - 1)
    ensures Edit(e, RightArrow) == Editor(e.text, if e.cursor == |e.text| then |e.text| else e.cursor + 1)
  {
  }

  /** The editor after the same key is pressed `n` times. */
  function PressTimes(e: Editor, key: Key, n: nat): (r: Editor)
    requires e.cursor <= |e.text|
    ensures r.cursor <= |r.text|
  {
    if n == 0 then e else Edit(PressTimes(e, key, n - 1), key)
  }

  /** Pressing Left `n` times moves the cursor `n` places left but never past the start;
      pressing Right `n` times moves it `n` places right but never past the end. */
  lemma {:induction false} ArrowRunsClamp(e: Editor, n: nat)
    requires e.cursor <= |e.text|
    ensures PressTimes(e, LeftArrow, n) == Editor(e.text, if e.cursor < n then 0 else e.cursor - n)
    ensures PressTimes(e, RightArrow, n) == Editor(e.text, if |e.text| < e.cursor + n then |e.text| else e.cursor + n)
  {
    if n > 0 {
      ArrowRunsClamp(e, n - 1);
      ArrowsMoveCursor(PressTimes(e, LeftArrow, n - 1));
      ArrowsMoveCursor(PressTimes(e, RightArrow, n - 1));
    }
  }

  /** From "123.456" with the cursor at the end: three Lefts leave it before the "4", two
      Rights then before the "6", and any run of Lefts or Rights longer than the text stops
      at the start or the end. */
  lemma ArrowExamples()
    ensures PressTimes(Editor("123.456", 7), LeftArrow, 3).cursor == 4
    ensures PressTimes(PressTimes(Editor("123.456", 7), LeftArrow, 3), RightArrow, 2).cursor == 6
    ensures PressTimes(Editor("123.456", 7), LeftArrow, 17).cursor == 0
    ensures PressTimes(Editor("123.456", 7), RightArrow, 10).cursor == 7
  {
    ArrowRunsClamp(Editor("123.456", 7), 3);
    ArrowRunsClamp(Editor("123.456", 4), 2);
    ArrowRunsClamp(Editor("123.456", 7), 17);
    ArrowRunsClamp(Editor("123.456", 7), 10);
  }

  lemma {:induction false} CountConcat(a: string, b: string, c: char)
    ensures Count(a + b, c) == Count(a, c) + Count(b, c)
  {
    if a == [] {
      assert a + b == b;
    } else {
      assert (a + b)[0] == a[0];
      assert (a + b)[1..] == a[1..] + b;
      CountConcat(a[1..], b, c);
    }
  }

  lemma {:induction false} CountZeroWhenAbsent(s: string, c: char)
    ensures c !in s <==> Count(s, c) == 0
  {
    if s != [] {
      CountZeroWhenAbsent(s[1..], c);
      assert s == [s[0]] + s[1..];
    }
  }

  lemma CountInsert(s: string, at: nat, x: char, c: char)
    requires at <= |s|
    ensures Count(Insert(s, at, x), c) == Count(s, c) + (if x == c then 1 else 0)
  {
    CountConcat(s[..at] + [x], s[at..], c);
    CountConcat(s[..at], [x], c);
    CountConcat(s[..at], s[at..], c);
    assert s == s[..at] + s[at..];
  }

  lemma CountRemoveAt(s: string, at: nat, c: char)
    requires at < |s|
    ensures Count(RemoveAt(s, at), c) == Count(s, c) - (if s[at] == c then 1 else 0)
  {
    CountConcat(s[..at], s[at + 1..], c);
    CountConcat(s[..at], s[at..], c);
    assert s == s[..at] + s[at..];
    assert s[at..] == [s[at]] + s[at + 1..];
    CountConcat([s[at]], s[at + 1..], c);
  }

  /** No key but the period adds a period, and the period key adds one only to a text
      without one: a text holds at most one period once it has held at most one. */
  lemma PeriodAtMostOnce(e: Editor, key: Key)
    requires e.cursor <= |e.text|
    ensures !key.OemPeriod? ==> Count(Edit(e, key).text, '.') <= Count(e.text, '.')
    ensures Count(e.text, '.') <= 1 ==> Count(Edit(e, key).text, '.') <= 1
  {
    var s, c := e.text, e.cursor;
    match key
    case Digit(d) =>
      CountInsert(s, c, DigitChar(d), '.');
    case Back =>
      if c > 0 {
        CountRemoveAt(s, c - 1, '.');
      }
    case Delete =>
      if c < |s| {
        CountRemoveAt(s, c, '.');
      }
    case OemPeriod =>
      if '.' !in s {
        CountZeroWhenAbsent(s, '.');
        CountInsert(s, c, '.', '.');
      }
    case _ =>
  }

  /** Pressing the period key again after it was accepted changes nothing. */
  lemma SecondPeriodIgnored(e: Editor)
    requires e.cursor <= |e.text|
    ensures Edit(Edit(e, OemPeriod), OemPeriod) == Edit(e, OemPeriod)
  {
    var r := Edit(e, OemPeriod);
    if '.' !in e.text {
      assert r.text[e.cursor] == '.';
    }
  }

  /** From "12345" with the cursor after the "3": each editing key gives the text the
      component's unit tests expect. */
  lemma EditExamples()
    ensures Edit(Editor("12345", 3), Digit(0)).text == "123045"
    ensures Edit(Editor("12345", 3), Digit(9)).text == "123945"
    ensures Edit(Editor("12345", 3), Back).text == "1245"
    ensures Edit(Editor("12345", 3), Delete).text == "1235"
    ensures Edit(Editor("12345", 3), OemPeriod).text == "123.45"
    ensures Edit(Edit(Edit(Editor("12345", 3), OemPeriod), OemPeriod), OemPeriod).text == "123.45"
    ensures PressTimes(Editor("123.456", 7), LeftArrow, 3).cursor == 4
    ensures PressTimes(PressTimes(Editor("123.456", 7), LeftArrow, 3), RightArrow, 2).cursor == 6
    ensures PressTimes(Editor("123.456", 7), LeftArrow, 17).cursor == 0
    ensures PressTimes(Editor("123.456", 7), RightArrow, 10).cursor == 7
  {
    ArrowExamples();
    DigitExamples();
    EraseExamples();
    PeriodExamples();
  }

  lemma DigitExamples()
    ensures Edit(Editor("12345", 3), Digit(0)).text == "123045"
    ensures Edit(Editor("12345", 3), Digit(9)).text == "123945"
  {
  }

  lemma EraseExamples()
    ensures Edit(Editor("12345", 3), Back).text == "1245"
    ensures Edit(Editor("12345", 3), Delete).text == "1235"
  {
  }

  /** A second period is refused: the text keeps its first one. */
  lemma PeriodExamples()
    ensures Edit(Editor("12345", 3), OemPeriod).text == "123.45"
    ensures Edit(Edit(Edit(Editor("12345", 3), OemPeriod), OemPeriod), OemPeriod).text == "123.45"
  {
    assert Edit(Editor("12345", 3), OemPeriod).text == "123.45";
    assert '.' in "123.45" by { assert "123.45"[3] == '.'; }
  }

  /** The value committed for a text: empty text commits 0, anything else is parsed. */
  datatype Parsed = Number(value: real) | Malformed

  function CommitValue(text: string, parse: string -> Parsed): (r: Parsed)
    ensures text == [] ==> r == Number(0.0)
    ensures text != [] ==> r == parse(text)
  {
    if text == [] then Number(0.0) else parse(text)
  }

  /** Committing the text a number was formatted as gives the number back, whenever parsing
      undoes formatting; and committing fails only where the parser does. */
  lemma CommitOfFormattedValue(v: real, format: real -> string, parse: string -> Parsed, text: string)
    ensures format(v) != [] && parse(format(v)) == Number(v) ==> CommitValue(format(v), parse) == Number(v)
    ensures CommitValue(text, parse).Malformed? <==> text != [] && parse(text).Malformed?
  {
  }

  class NumericInput {
    var text: string
    var cursorIndex: nat
    var cursorVisible: bool
    var blinkTimer: real
    var focused: bool
    var borderColor: Color
    const width: int
    const height: int
    /** Where the text sits inside the box: the padding in both directions. */
    const textOffset: Vec2
    /** The shared box the committed number goes to. */
    const value: Ref<real>
    /** `float.ToString` and `float.Parse`, foreign to this model. */
    const format: real -> string
    const parse: string -> Parsed

    ghost predicate Valid()
      reads this
    {
      cursorIndex <= |text|
    }

    /** The assumption that formatting a number and parsing the result gives the number back. */
    ghost predicate RoundTrips(v: real)
      reads this
    {
      format(v) != [] && parse(format(v)) == Number(v)
    }

    constructor (textHeight: real, width: int, padding: int, value: Ref<real>,
                 format: real -> string, parse: string -> Parsed)
      ensures Valid()
      ensures this.width == width && this.height == TruncToInt(textHeight + 2.0 * padding as real)
      ensures this.value == value && this.format == format && this.parse == parse
      ensures textOffset == OfInts(padding, padding)
      ensures text == format(value.value) && cursorIndex == |text|
      ensures !focused && !cursorVisible && blinkTimer == 0.0 && borderColor == Transparent
    {
      this.value := value;
      this.format := format;
      this.parse := parse;
      this.width := width;
      this.height := TruncToInt(textHeight + 2.0 * padding as real);
      this.textOffset := OfInts(padding, padding);
      text := format(value.value);
      cursorIndex := |format(value.value)|;
      focused := false;
      cursorVisible := false;
      blinkTimer := 0.0;
      borderColor := Transparent;
    }

    /** Shows the boxed number as the text and puts the cursor at its end. */
    method SyncTextWithValue()
      modifies this`text, this`cursorIndex
      ensures Valid()
      ensures text == format(value.value) && cursorIndex == |text|
    {
      text := format(value.value);
      cursorIndex := |text|;
    }

    method UpdateValue(v: real)
      modifies this`text, this`cursorIndex, value
      ensures Valid()
      ensures value.value == v
      ensures text == format(v) && cursorIndex == |text|
    {
      value.value := v;
      SyncTextWithValue();
    }

    /** The `Focused` setter: losing focus commits the text to the box and resyncs the text;
        a text that does not parse throws, with the box and the text untouched. */
    method SetFocused(f: bool) returns (outcome: Outcome)
      requires Valid()
      modifies this`focused, this`text, this`cursorIndex, value
      ensures Valid()
      ensures focused == f
      ensures f ==> outcome == Done && text == old(text) && cursorIndex == old(cursorIndex) && value.value == old(value.value)
      ensures !f && CommitValue(old(text), parse).Malformed? ==>
                outcome == Throws(Format) && text == old(text) && cursorIndex == old(cursorIndex) && value.value == old(value.value)
      ensures !f && CommitValue(old(text), parse).Number? ==>
                outcome == Done && value.value == CommitValue(old(text), parse).value &&
                text == format(value.value) && cursorIndex == |text|
    {
      focused := f;
      outcome := Done;
      if !f {
        var committed := CommitValue(text, parse);
        if committed.Malformed? {
          outcome := Throws(Format);
          return;
        }
        UpdateValue(committed.value);
      }
    }

    method FrameTick(dt: real)
      modifies this`blinkTimer, this`cursorVisible
      ensures CursorBlink(blinkTimer, cursorVisible) == BlinkStep(old(CursorBlink(blinkTimer, cursorVisible)), focused, dt)
    {
      var b := BlinkStep(CursorBlink(blinkTimer, cursorVisible), focused, dt);
      blinkTimer, cursorVisible := b.timer, b.visible;
    }

    method LeftClickAction()
      requires Valid()
      modifies this`focused, this`text, this`cursorIndex, this`cursorVisible, value
      ensures Valid()
      ensures focused && cursorVisible
      ensures text == old(text) && cursorIndex == old(cursorIndex) && value.value == old(value.value)
    {
      var _ := SetFocused(true);
      cursorVisible := true;
    }

    method ChangeState(state: ClickState)
      modifies this`borderColor
      ensures borderColor == BorderColor(state, focused)
    {
      borderColor := BorderColor(state, focused);
    }

    method KeyPressed(key: Key) returns (outcome: Outcome)
      requires Valid()
      modifies this, value
      ensures Valid()
      // editing keys: the text and cursor follow Edit and the box is untouched
      ensures !key.Escape? && !key.Enter? ==>
                outcome == Done && Editor(text, cursorIndex) == Edit(old(Editor(text, cursorIndex)), key) &&
                value.value == old(value.value) && focused == old(focused) && borderColor == old(borderColor)
      // moving the cursor restarts the blink with the cursor shown
      ensures key.LeftArrow? || key.RightArrow? ==> blinkTimer == 0.0 && cursorVisible
      ensures !key.LeftArrow? && !key.RightArrow? ==>
                blinkTimer == old(blinkTimer) && cursorVisible == old(cursorVisible)
      // Enter commits the edited text
      ensures key.Enter? ==> !focused && borderColor == old(borderColor)
      ensures key.Enter? && CommitValue(old(text), parse).Number? ==>
                outcome == Done && value.value == CommitValue(old(text), parse).value &&
                text == format(value.value) && cursorIndex == |text|
      ensures key.Enter? && CommitValue(old(text), parse).Malformed? ==>
                outcome == Throws(Format) && value.value == old(value.value) && text == old(text) && cursorIndex == old(cursorIndex)
      // Escape discards the edit: the box keeps its number whenever that number round-trips
      ensures key.Escape? ==> !focused && borderColor == old(borderColor)
      ensures key.Escape? && RoundTrips(old(value.value)) ==>
                outcome == Done && value.value == old(value.value) &&
                text == format(value.value) && cursorIndex == |text|
    {
      outcome := Done;
      match key {
        case Escape =>
          SyncTextWithValue();
          outcome := SetFocused(false);
        case Enter =>
          outcome := SetFocused(false);
        case LeftArrow =>
          var r := Edit(Editor(text, cursorIndex), key);
          cursorIndex := r.cursor;
          blinkTimer := 0.0;
          cursorVisible := true;
        case RightArrow =>
          var r := Edit(Editor(text, cursorIndex), key);
          cursorIndex := r.cursor;
          blinkTimer := 0.0;
          cursorVisible := true;
        case _ =>
          var r := Edit(Editor(text, cursorIndex), key);
          text, cursorIndex := r.text, r.cursor;
      }
    }
  }
}
