/** The editable text field (`InputBoxState`): a text, a cursor that is either
    a position or an inclusive selection `[l, r]`, and an optional length limit. */
module InputBox {
  import opened Dimensions

  /** The editing state: text and the two cursor ends. */
  datatype EditState = EditState(text: seq<char>, l: nat, r: nat)

  /** The cursor invariant: the ends are ordered and inside the text, and a
      selection (`l != r`) ends on a character, so that the inclusive range
      `l..=r` can be removed. */
  predicate WellFormed(s: EditState) {
    s.l <= s.r <= |s.text| && (s.l != s.r ==> s.r < |s.text|)
  }

  /** A collapsed cursor: no selection. */
  predicate Collapsed(s: EditState) {
    s.l == s.r
  }

  /** Removes the selected characters, if any, leaving the cursor at the left end. */
  function DropSelection(s: EditState): (t: EditState)
    requires WellFormed(s)
    ensures WellFormed(t) && Collapsed(t) && t.l == s.l
    ensures Collapsed(s) ==> t == s
    ensures !Collapsed(s) ==> |t.text| == |s.text| - (s.r - s.l + 1)
    ensures t.text[..s.l] == s.text[..s.l]
  {
    if s.l != s.r then EditState(s.text[..s.l] + s.text[s.r + 1..], s.l, s.l) else s
  }

  /** `type_character`: replace the selection, then insert `c` at the cursor
      unless the text has reached `maxWidth`. */
  function Typed(s: EditState, maxWidth: Option<nat>, c: char): (t: EditState)
    requires WellFormed(s)
    ensures WellFormed(t) && Collapsed(t)
  {
    var d := DropSelection(s);
    if maxWidth.Some? && |d.text| >= maxWidth.value then d
    else EditState(d.text[..d.l] + [c] + d.text[d.l..], d.l + 1, d.l + 1)
  }

  /** `backspace`: remove the selection, or else the character before the cursor. */
  function Backspaced(s: EditState): (t: EditState)
    requires WellFormed(s)
    ensures WellFormed(t) && Collapsed(t)
  {
    if s.l != s.r then DropSelection(s)
    else if s.l == 0 then s
    else EditState(s.text[..s.l - 1] + s.text[s.l..], s.l - 1, s.l - 1)
  }

  /** `delete`: remove the selection, or else the character under the cursor. */
  function Deleted(s: EditState): (t: EditState)
    requires WellFormed(s)
    ensures WellFormed(t) && Collapsed(t)
  {
    if s.l != s.r then DropSelection(s)
    else if s.l >= |s.text| then s
    else EditState(s.text[..s.l] + s.text[s.l + 1..], s.l, s.r)
  }

  /** `cursor_fixup`: clamp both ends to the text, then pull a selection that
      ends on the text's length back by one. */
  function FixedUp(s: EditState): (t: EditState)
    ensures t.text == s.text
    ensures s.l <= s.r ==> WellFormed(t)
  {
    var n := |s.text|;
    var l := if s.l > n then n else s.l;
    var r := if s.r > n then n else s.r;
    EditState(s.text, l, if r != l && r == n then n - 1 else r)
  }

  /** `highlight(i0, i1)`: select between the two ends in either order. */
  function Highlighted(s: EditState, i0: nat, i1: nat): (t: EditState)
    ensures WellFormed(t) && t.text == s.text
  {
    FixedUp(EditState(s.text, if i0 < i1 then i0 else i1, if i0 < i1 then i1 else i0))
  }

  /** `set_cursor(v)`: collapse both ends onto `v`, clamped to the text. */
  function CursorSet(s: EditState, v: nat): (t: EditState)
    ensures WellFormed(t) && Collapsed(t) && t.text == s.text
    ensures t.l == if v < |s.text| then v else |s.text|
  {
    FixedUp(EditState(s.text, v, v))
  }

  /** `move_cursor(amount)`: move right from the right end or left from the
      left end, clamp to the text, and collapse. */
  function CursorMoved(s: EditState, amount: int): (t: EditState)
    ensures WellFormed(t) && Collapsed(t) && t.text == s.text
  {
    var start: int := if amount > 0 then s.r else s.l;
    var target := start + amount;
    var c: nat := if target < 0 then 0 else if target > |s.text| then |s.text| else target;
    EditState(s.text, c, c)
  }

  /** The edge cases: backspace at the start and delete at the end of the text
      do nothing, and a move past either end stops at that end. */
  lemma EdgeCases(s: EditState, amount: int)
    requires WellFormed(s)
    ensures Collapsed(s) && s.l == 0 ==> Backspaced(s) == s
    ensures Collapsed(s) && s.l == |s.text| ==> Deleted(s) == s
    ensures var start := if amount > 0 then s.r else s.l;
            && (start + amount < 0 ==> CursorMoved(s, amount).l == 0)
            && (start + amount > |s.text| ==> CursorMoved(s, amount).l == |s.text|)
            && (0 <= start + amount <= |s.text| ==> CursorMoved(s, amount).l == start + amount)
  {
  }

  /** At a plain cursor: typing with room inserts `c` at the cursor and steps
      past it; backspace after the first position removes the character before
      the cursor and steps back; delete before the end removes the character
      under the cursor and stays. */
  lemma PlainCursorEdits(s: EditState, maxWidth: Option<nat>, c: char)
    requires WellFormed(s) && Collapsed(s)
    ensures !(maxWidth.Some? && |s.text| >= maxWidth.value) ==>
      && Typed(s, maxWidth, c) == EditState(s.text[..s.l] + [c] + s.text[s.l..], s.l + 1, s.l + 1)
      && |Typed(s, maxWidth, c).text| == |s.text| + 1 && Typed(s, maxWidth, c).text[s.l] == c
    ensures s.l > 0 ==>
      && Backspaced(s) == EditState(s.text[..s.l - 1] + s.text[s.l..], s.l - 1, s.l - 1)
      && |Backspaced(s).text| == |s.text| - 1
    ensures s.l < |s.text| ==>
      && Deleted(s) == EditState(s.text[..s.l] + s.text[s.l + 1..], s.l, s.l)
      && |Deleted(s).text| == |s.text| - 1
  {
  }

  /** Typing a character and backspacing at a plain cursor gives the state back. */
  lemma TypeThenBackspace(s: EditState, maxWidth: Option<nat>, c: char)
    requires WellFormed(s) && Collapsed(s)
    requires maxWidth.Some? ==> |s.text| < maxWidth.value
    ensures Backspaced(Typed(s, maxWidth, c)) == s
  {
    var t := Typed(s, maxWidth, c);
    assert t.text[..s.l] + t.text[s.l + 1..] == s.text;
  }

  /** Typing a character, stepping back over it and deleting it gives the state back. */
  lemma TypeMoveDelete(s: EditState, maxWidth: Option<nat>, c: char)
    requires WellFormed(s) && Collapsed(s)
    requires maxWidth.Some? ==> |s.text| < maxWidth.value
    ensures Deleted(CursorMoved(Typed(s, maxWidth, c), -1)) == s
  {
    var t := Typed(s, maxWidth, c);
    assert t.text[..s.l] + t.text[s.l + 1..] == s.text;
  }

  /** Typing never takes the text past the limit, and inserts only when below it. */
  lemma TypeRespectsLimit(s: EditState, mx: nat, c: char)
    requires WellFormed(s)
    ensures |s.text| <= mx ==> |Typed(s, Some(mx), c).text| <= mx
    ensures |Typed(s, Some(mx), c).text| <= |DropSelection(s).text| + 1
    ensures |DropSelection(s).text| >= mx ==> Typed(s, Some(mx), c) == DropSelection(s)
  {
  }

  /** With a selection, typing replaces it by the character, inserted at its left end. */
  lemma TypeReplacesSelection(s: EditState, maxWidth: Option<nat>, c: char)
    requires WellFormed(s) && !Collapsed(s)
    requires maxWidth.Some? ==> |s.text| - (s.r - s.l + 1) < maxWidth.value
    ensures Typed(s, maxWidth, c).text == s.text[..s.l] + [c] + s.text[s.r + 1..]
    ensures Typed(s, maxWidth, c).l == s.l + 1
  {
    var d := DropSelection(s);
    assert d.text[..d.l] == s.text[..s.l];
    assert d.text[d.l..] == s.text[s.r + 1..];
  }

  /** With a selection, backspace and delete both just remove it. */
  lemma SelectionEditsAgree(s: EditState)
    requires WellFormed(s) && !Collapsed(s)
    ensures Backspaced(s) == Deleted(s) == DropSelection(s)
    ensures Backspaced(s).text == s.text[..s.l] + s.text[s.r + 1..]
  {
  }

  /** The fixup leaves a well-formed cursor alone. */
  lemma FixupIdempotent(s: EditState)
    requires WellFormed(s)
    ensures FixedUp(s) == s
  {
  }

  /** Highlighting does not depend on the order of its ends; a range inside the
      text is kept; otherwise each end is clamped, and a selection that would
      end on the text's length ends one character earlier. */
  lemma HighlightMeaning(s: EditState, i0: nat, i1: nat)
    ensures Highlighted(s, i0, i1) == Highlighted(s, i1, i0)
    ensures var lo, hi := if i0 < i1 then i0 else i1, if i0 < i1 then i1 else i0;
            && (hi < |s.text| ==> Highlighted(s, i0, i1) == EditState(s.text, lo, hi))
            && Highlighted(s, i0, i1).l == (if lo < |s.text| then lo else |s.text|)
            && (lo < |s.text| <= hi ==> Highlighted(s, i0, i1).r == |s.text| - 1)
  {
  }

  /** Setting the cursor is highlighting an empty range. */
  lemma SetIsEmptyHighlight(s: EditState, v: nat)
    ensures CursorSet(s, v) == Highlighted(s, v, v)
  {
  }

  /** Two moves of a plain cursor that stay inside the text add up. */
  lemma MovesAdd(s: EditState, a: int, b: int)
    requires WellFormed(s) && Collapsed(s)
    requires 0 <= s.l + a <= |s.text| && 0 <= s.l + a + b <= |s.text|
    ensures CursorMoved(CursorMoved(s, a), b) == CursorMoved(s, a + b)
    ensures CursorMoved(s, a).l == s.l + a
  {
  }

  /** A move from a selection starts from the end in the direction of travel. */
  lemma MoveFromSelection(s: EditState, amount: int)
    requires WellFormed(s)
    requires amount > 0 ==> s.r + amount <= |s.text|
    requires amount <= 0 ==> s.l + amount >= 0
    ensures CursorMoved(s, amount).l == (if amount > 0 then s.r else s.l) + amount
  {
  }

  /** `estimate_dimensions`: a fixed-height field as wide as its limit (80 without one),
      widened to fit the text. */
  function EstimateDimensions(maxWidth: Option<nat>, textLength: nat): (d: Dims)
    ensures d.min == d.preferred && d.preferred.height == 2
    ensures var base := if maxWidth.Some? then maxWidth.value else 80;
            && d.preferred.width >= base && d.preferred.width >= textLength
            && (d.preferred.width == base || d.preferred.width == textLength)
    ensures d.max == Some(Size(if maxWidth.Some? then maxWidth.value else ISIZE_MAX, 2))
    ensures d.alignSizeTo == Size(1, 2)
    ensures d.horizontalSpacerCount == 0 && d.verticalSpacerCount == 0
  {
    var maxSize := Size(if maxWidth.Some? then maxWidth.value else ISIZE_MAX, 2);
    var preferredWidth := if maxWidth.Some? then maxWidth.value else 80;
    var preferredWidth := if textLength > preferredWidth then textLength else preferredWidth;
    Dims(Size(preferredWidth, 2), Size(preferredWidth, 2), Some(maxSize), Size(1, 2), 0, 0)
  }

  /** The preferred size fits under the maximum exactly when the text fits the limit. */
  lemma PreferredWithinMax(maxWidth: Option<nat>, textLength: nat)
    ensures var d := EstimateDimensions(maxWidth, textLength);
            d.preferred.width <= d.max.value.width
            <==> textLength <= (if maxWidth.Some? then maxWidth.value else ISIZE_MAX)
  {
  }

  class InputBoxState {
    var text: seq<char>
    var cursorL: nat
    var cursorR: nat
    var maxWidth: Option<nat>

    function State(): EditState
      reads this
    {
      EditState(text, cursorL, cursorR)
    }

    ghost predicate Valid()
      reads this
    {
      WellFormed(State())
    }

    /** `create`: empty text, cursor at 0, no limit. */
    constructor()
      ensures text == [] && cursorL == 0 && cursorR == 0 && maxWidth == None
      ensures Valid()
    {
      text := [];
      cursorL := 0;
      cursorR := 0;
      maxWidth := None;
    }

    method TypeCharacter(c: char)
      requires Valid()
      modifies this
      ensures State() == Typed(old(State()), maxWidth, c) && maxWidth == old(maxWidth)
      ensures Valid()
    {
      if cursorL != cursorR {
        text := text[..cursorL] + text[cursorR + 1..];
        cursorR := cursorL;
      }
      if maxWidth.Some? {
        if |text| >= maxWidth.value {
          return;
        }
      }
      if cursorL < |text| {
        text := text[..cursorL] + [c] + text[cursorL..];
      } else {
        text := text + [c];
      }
      cursorL := cursorL + 1;
      cursorR := cursorR + 1;
    }

    method Backspace()
      requires Valid()
      modifies this
      ensures State() == Backspaced(old(State())) && maxWidth == old(maxWidth)
      ensures Valid()
    {
      if cursorL != cursorR {
        text := text[..cursorL] + text[cursorR + 1..];
        cursorR := cursorL;
        return;
      }
      if cursorL == 0 {
        return;
      } else {
        text := text[..cursorL - 1] + text[cursorL..];
        cursorL := cursorL - 1;
        cursorR := cursorL;
      }
    }

    method Delete()
      requires Valid()
      modifies this
      ensures State() == Deleted(old(State())) && maxWidth == old(maxWidth)
      ensures Valid()
    {
      if cursorL != cursorR {
        text := text[..cursorL] + text[cursorR + 1..];
        cursorR := cursorL;
        return;
      }
      if cursorL >= |text| {
        return;
      } else {
        text := text[..cursorL] + text[cursorL + 1..];
      }
    }

    method SetCursor(value: nat)
      modifies this
      ensures State() == CursorSet(old(State()), value) && maxWidth == old(maxWidth)
      ensures Valid()
    {
      cursorL := value;
      cursorR := value;
      CursorFixup();
    }

    method MoveCursor(amount: int)
      modifies this
      ensures State() == CursorMoved(old(State()), amount) && maxWidth == old(maxWidth)
      ensures Valid()
    {
      if amount > 0 {
        cursorL := cursorR;
      }
      var cursor2: int := cursorL + amount;
      if cursor2 < 0 {
        cursor2 := 0;
      }
      if cursor2 > |text| {
        cursor2 := |text|;
      }
      cursorL := cursor2;
      cursorR := cursorL;
    }

    method Highlight(i0: nat, i1: nat)
      modifies this
      ensures State() == Highlighted(old(State()), i0, i1) && maxWidth == old(maxWidth)
      ensures Valid()
    {
      var l := if i0 < i1 then i0 else i1;
      var r := if i0 < i1 then i1 else i0;
      cursorL := l;
      cursorR := r;
      CursorFixup();
    }

    method CursorFixup()
      modifies this
      ensures State() == FixedUp(old(State())) && maxWidth == old(maxWidth)
    {
      if cursorL > |text| {
        cursorL := |text|;
      }
      if cursorR > |text| {
        cursorR := |text|;
      }
      if cursorR != cursorL && cursorR == |text| {
        cursorR := |text| - 1;
      }
    }
  }

  /** Type "abc", backspace once, select [0, 2] and type "X". After backspace
      the text is "ab" with the cursor at 2; the selection [0, 2] is pulled
      back to [0, 1], which covers all of "ab", so the result is "X" with the
      cursor at 1. */
  method EditingRoundTrip() returns (text: seq<char>, cursor: nat)
    ensures text == "X" && cursor == 1
  {
    var box := new InputBoxState();
    box.TypeCharacter('a');
    box.TypeCharacter('b');
    box.TypeCharacter('c');
    assert box.text == "abc" && box.cursorL == 3;
    box.Backspace();
    assert box.text == "ab" && box.cursorL == 2 && box.cursorR == 2;
    box.Highlight(0, 2);
    assert box.cursorL == 0 && box.cursorR == 1;
    box.TypeCharacter('X');
    text, cursor := box.text, box.cursorL;
  }
}
