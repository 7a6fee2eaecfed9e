/**
 * The document together with the cursor, and what each cursor-level command
 * of jakel.c does to them: insertChar, insertNewLine, deleteChar,
 * moveCursor, Home/End and paging in processKey.
 */
module Editing {
  import opened Common
  import opened TextBuffer
  import opened Keys

  /** The lines' raw characters and the cursor (C.cx, C.cy). */
  datatype Doc = Doc(lines: seq<string>, cx: nat, cy: nat)

  /** Length of line y, where the virtual line past the last one is empty. */
  function LineLen(lines: seq<string>, y: nat): (r: nat)
  {
    if y < |lines| then |lines[y]| else 0
  }

  /** cy is a line or the position past the last line; cx is at most that line's length. */
  predicate CursorOk(d: Doc)
  {
    d.cy <= |d.lines| && d.cx <= LineLen(d.lines, d.cy)
  }

  /**
   * insertChar (jakel.c:320-327): past the last line an empty line is added
   * first; the character goes in at the cursor, which moves right.
   */
  function InsertCharDoc(d: Doc, c: char): (r: Doc)
    requires CursorOk(d)
    ensures CursorOk(r) && r.cy == d.cy && r.cx == d.cx + 1
    ensures d.cy < |d.lines| ==> r.lines == d.lines[d.cy := Insert(d.lines[d.cy], d.cx, c)]
    ensures d.cy == |d.lines| ==> r.lines == d.lines + [[c]]
  {
    var base := if d.cy == |d.lines| then InsertLine(d.lines, |d.lines|, "") else d.lines;
    assert d.cy == |d.lines| ==> base == d.lines + [""] && InsertCharAt("", d.cx, c) == [c];
    Doc(base[d.cy := InsertCharAt(base[d.cy], d.cx, c)], d.cx + 1, d.cy)
  }

  /**
   * insertNewLine (jakel.c:329-343): at column 0 an empty line is inserted
   * above; otherwise the tail of the line moves to a new line below.  The
   * cursor goes to column 0 of the next line.
   */
  function NewLineDoc(d: Doc): (r: Doc)
    requires CursorOk(d)
    ensures CursorOk(r) && r.cx == 0 && r.cy == d.cy + 1
    ensures d.cy < |d.lines| ==> r.lines == SplitLine(d.lines, d.cy, d.cx)
    ensures d.cy == |d.lines| ==> r.lines == d.lines + [""]
  {
    if d.cx == 0 then
      Doc(InsertLine(d.lines, d.cy, ""), 0, d.cy + 1)
    else
      var grown := InsertLine(d.lines, d.cy + 1, d.lines[d.cy][d.cx..]);
      assert grown == Insert(d.lines, d.cy + 1, d.lines[d.cy][d.cx..]);
      Doc(grown[d.cy := d.lines[d.cy][..d.cx]], 0, d.cy + 1)
  }

  /**
   * deleteChar (jakel.c:363-377): nothing past the last line or at the very
   * start; inside a line the character left of the cursor goes; at column 0
   * the line is joined onto the previous one.
   */
  function DeleteCharDoc(d: Doc): (r: Doc)
    requires CursorOk(d)
    ensures CursorOk(r)
    ensures (d.cy == |d.lines| || (d.cx == 0 && d.cy == 0)) ==> r == d
    ensures d.cy < |d.lines| && d.cx > 0 ==>
      r == Doc(d.lines[d.cy := Remove(d.lines[d.cy], d.cx - 1)], d.cx - 1, d.cy)
    ensures d.cy < |d.lines| && d.cx == 0 && d.cy > 0 ==>
      r == Doc(JoinLine(d.lines, d.cy), |d.lines[d.cy - 1]|, d.cy - 1)
  {
    if d.cy == |d.lines| then d
    else if d.cx == 0 && d.cy == 0 then d
    else if d.cx > 0 then
      Doc(d.lines[d.cy := DeleteCharAt(d.lines[d.cy], d.cx - 1)], d.cx - 1, d.cy)
    else
      var appended := d.lines[d.cy - 1 := d.lines[d.cy - 1] + d.lines[d.cy]];
      var r := Doc(DeleteLine(appended, d.cy), |d.lines[d.cy - 1]|, d.cy - 1);
      assert r.lines == JoinLine(d.lines, d.cy);
      r
  }

  /** Enter then Backspace inside the document restores lines and cursor. */
  lemma BackspaceAfterNewLine(d: Doc)
    requires CursorOk(d) && d.cy < |d.lines|
    ensures DeleteCharDoc(NewLineDoc(d)) == d
  {
    JoinSplit(d.lines, d.cy, d.cx);
  }

  /** Typing a character then Backspace inside the document restores lines and cursor. */
  lemma BackspaceAfterInsertChar(d: Doc, c: char)
    requires CursorOk(d) && d.cy < |d.lines|
    ensures DeleteCharDoc(InsertCharDoc(d, c)) == d
  {
    RemoveInsert(d.lines[d.cy], d.cx, c);
    assert d.lines[d.cy := d.lines[d.cy]] == d.lines;
  }

  /**
   * moveCursor (jakel.c:568-605): one arrow step, wrapping at line ends,
   * followed by clamping cx to the length of the line the cursor is on.
   */
  function MoveDoc(d: Doc, key: int): (r: Doc)
    requires d.cy <= |d.lines|
    ensures CursorOk(r) && r.lines == d.lines
  {
    var moved: (nat, nat) :=
      if key == ArrowUp then
        (d.cx, if d.cy != 0 then d.cy - 1 else d.cy)
      else if key == ArrowLeft then
        if d.cx != 0 then (d.cx - 1, d.cy)
        else if d.cy > 0 then (|d.lines[d.cy - 1]|, d.cy - 1)
        else (d.cx, d.cy)
      else if key == ArrowRight then
        if d.cy < |d.lines| && d.cx < |d.lines[d.cy]| then (d.cx + 1, d.cy)
        else if d.cy < |d.lines| && d.cx == |d.lines[d.cy]| then (0, d.cy + 1)
        else (d.cx, d.cy)
      else if key == ArrowDown then
        (d.cx, if d.cy < |d.lines| then d.cy + 1 else d.cy)
      else (d.cx, d.cy);
    var x, y := moved.0, moved.1;
    var rowLen := LineLen(d.lines, y);
    Doc(d.lines, if x > rowLen then rowLen else x, y)
  }

  /**
   * What each arrow does (jakel.c:568-605): up and down change the line and
   * clamp the column; left and right move one character, crossing to the
   * end of the previous line or the start of the next one; other keys do
   * nothing.
   */
  lemma MoveDocCases(d: Doc, key: int)
    requires d.cy <= |d.lines|
    ensures var r := MoveDoc(d, key);
      (key == ArrowUp ==> r.cy == (if d.cy == 0 then 0 else d.cy - 1) && r.cx == Min(d.cx, LineLen(d.lines, r.cy))) &&
      (key == ArrowDown ==> r.cy == Min(d.cy + 1, |d.lines|) && r.cx == Min(d.cx, LineLen(d.lines, r.cy))) &&
      (key == ArrowLeft && CursorOk(d) && d.cx > 0 ==> r == d.(cx := d.cx - 1)) &&
      (key == ArrowLeft && d.cx == 0 && d.cy > 0 ==> r == d.(cx := |d.lines[d.cy - 1]|, cy := d.cy - 1)) &&
      (key == ArrowRight && CursorOk(d) && d.cy < |d.lines| && d.cx < |d.lines[d.cy]| ==> r == d.(cx := d.cx + 1)) &&
      (key == ArrowRight && d.cy < |d.lines| && d.cx == |d.lines[d.cy]| ==> r == d.(cx := 0, cy := d.cy + 1)) &&
      (CursorOk(d) && key !in {ArrowUp, ArrowDown, ArrowLeft, ArrowRight} ==> r == d)
  {
  }

  /** The paging loop `while (t--) moveCursor(key)`: t single steps. */
  function RepeatMove(d: Doc, key: int, t: nat): (r: Doc)
    requires d.cy <= |d.lines|
    ensures r.lines == d.lines && r.cy <= |r.lines|
    ensures t > 0 ==> CursorOk(r)
  {
    if t == 0 then d else MoveDoc(RepeatMove(d, key, t - 1), key)
  }

  lemma RepeatMoveStep(d: Doc, key: int, t: nat)
    requires d.cy <= |d.lines|
    ensures RepeatMove(d, key, t + 1) == MoveDoc(RepeatMove(d, key, t), key)
  {
  }

  /** t steps up end t lines higher, or on the first line. */
  lemma {:induction false} RepeatUp(d: Doc, t: nat)
    requires d.cy <= |d.lines|
    ensures RepeatMove(d, ArrowUp, t).cy == if d.cy >= t then d.cy - t else 0
  {
    if t > 0 {
      RepeatUp(d, t - 1);
    }
  }

  /** t steps down end t lines lower, or on the line past the last. */
  lemma {:induction false} RepeatDown(d: Doc, t: nat)
    requires d.cy <= |d.lines|
    ensures RepeatMove(d, ArrowDown, t).cy == Min(d.cy + t, |d.lines|)
  {
    if t > 0 {
      RepeatDown(d, t - 1);
    }
  }

  /** Where PageUp and PageDown first put the cursor: the top or bottom line of the window (jakel.c:653-658). */
  function PageStart(d: Doc, key: int, rowOffset: nat, screenRows: nat): (r: Doc)
    requires d.cy <= |d.lines| && screenRows >= 1
    requires key == PageUp ==> rowOffset <= |d.lines|
    ensures r.lines == d.lines && r.cx == d.cx && r.cy <= |r.lines|
  {
    if key == PageUp then d.(cy := rowOffset) else d.(cy := Min(rowOffset + screenRows - 1, |d.lines|))
  }

  /** The single move paging replays. */
  function PageArrow(key: int): (arrow: int)
    ensures arrow == ArrowUp || arrow == ArrowDown
    ensures arrow == ArrowUp <==> key == PageUp
  {
    if key == PageUp then ArrowUp else ArrowDown
  }

  /**
   * PageUp / PageDown (jakel.c:650-663): put the cursor on the top or bottom
   * line of the viewport, then replay screenRows single steps.
   */
  function PageDoc(d: Doc, key: int, rowOffset: nat, screenRows: nat): (r: Doc)
    requires key == PageUp || key == PageDown
    requires d.cy <= |d.lines| && screenRows >= 1
    requires key == PageUp ==> rowOffset <= |d.lines|
    ensures CursorOk(r) && r.lines == d.lines
  {
    RepeatMove(PageStart(d, key, rowOffset, screenRows), PageArrow(key), screenRows)
  }

  /** Where paging leaves the cursor row: one screen above the viewport's top, or below its bottom. */
  lemma PageTarget(d: Doc, key: int, rowOffset: nat, screenRows: nat)
    requires key == PageUp || key == PageDown
    requires d.cy <= |d.lines| && screenRows >= 1
    requires key == PageUp ==> rowOffset <= |d.lines|
    ensures key == PageUp ==>
      PageDoc(d, key, rowOffset, screenRows).cy == if rowOffset >= screenRows then rowOffset - screenRows else 0
    ensures key == PageDown ==>
      PageDoc(d, key, rowOffset, screenRows).cy == Min(rowOffset + 2 * screenRows - 1, |d.lines|)
  {
    if key == PageUp {
      RepeatUp(PageStart(d, key, rowOffset, screenRows), screenRows);
    } else {
      RepeatDown(PageStart(d, key, rowOffset, screenRows), screenRows);
    }
  }

  /** Keys of processKey that change the document's lines. */
  predicate IsEditKey(c: int)
  {
    c == Enter || c == Backspace || c == CtrlH || c == Delete ||
    (0 <= c < 256 && c !in {CtrlQ, CtrlS, CtrlF, CtrlL, Esc})
  }

  /**
   * processKey's effect on lines and cursor (jakel.c:612-679); Ctrl-Q,
   * Ctrl-S, Ctrl-F, Ctrl-L and Escape leave both alone.
   */
  function KeyDoc(d: Doc, c: int, rowOffset: nat, screenRows: nat): (r: Doc)
    requires CursorOk(d) && IsKey(c) && rowOffset <= |d.lines| && screenRows >= 1
    ensures CursorOk(r)
    ensures !IsEditKey(c) ==> r.lines == d.lines
  {
    if c == Enter then NewLineDoc(d)
    else if c == CtrlQ || c == CtrlS || c == CtrlF || c == CtrlL || c == Esc then d
    else if c == Home then d.(cx := 0)
    else if c == End then (if d.cy < |d.lines| then d.(cx := |d.lines[d.cy]|) else d)
    else if c == Backspace || c == CtrlH then DeleteCharDoc(d)
    else if c == Delete then DeleteCharDoc(MoveDoc(d, ArrowRight))
    else if c == PageUp || c == PageDown then PageDoc(d, c, rowOffset, screenRows)
    else if ArrowLeft <= c <= ArrowDown then MoveDoc(d, c)
    else InsertCharDoc(d, c as char)
  }
}
