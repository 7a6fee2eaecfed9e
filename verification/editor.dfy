/**
 * The editor state `struct config C` (jakel.c:49-72) as a class, with the
 * static variables of findCallback and processKey as fields, and the
 * operations of jakel.c that update it.
 */
module EditorState {
  import opened Common
  import opened Keys
  import opened Render
  import opened TextBuffer
  import opened Editing
  import opened Viewport
  import opened QuitGuard
  import Search
  import Prompt
  import Frame

  /** A line: its raw characters and their render form (struct line, jakel.c:41-47). */
  datatype Row = Row(chars: string, render: string)

  /** The render cache is up to date. */
  predicate RowOk(r: Row)
  {
    r.render == RenderOf(r.chars)
  }

  function CharsOf(rows: seq<Row>): (lines: seq<string>)
    ensures |lines| == |rows| && forall i :: 0 <= i < |rows| ==> lines[i] == rows[i].chars
  {
    seq(|rows|, i requires 0 <= i < |rows| => rows[i].chars)
  }

  function RendersOf(rows: seq<Row>): (renders: seq<string>)
    ensures |renders| == |rows| && forall i :: 0 <= i < |rows| ==> renders[i] == rows[i].render
  {
    seq(|rows|, i requires 0 <= i < |rows| => rows[i].render)
  }

  lemma CharsOfInsert(rows: seq<Row>, at: nat, r: Row)
    requires at <= |rows|
    ensures CharsOf(Insert(rows, at, r)) == Insert(CharsOf(rows), at, r.chars)
  {
    var a, b := CharsOf(Insert(rows, at, r)), Insert(CharsOf(rows), at, r.chars);
    assert forall k :: 0 <= k < |a| ==> a[k] == b[k];
  }

  lemma CharsOfRemove(rows: seq<Row>, at: nat)
    requires at < |rows|
    ensures CharsOf(Remove(rows, at)) == Remove(CharsOf(rows), at)
  {
    var a, b := CharsOf(Remove(rows, at)), Remove(CharsOf(rows), at);
    assert forall k :: 0 <= k < |a| ==> a[k] == b[k];
  }

  lemma CharsOfUpdate(rows: seq<Row>, y: nat, r: Row)
    requires y < |rows|
    ensures CharsOf(rows[y := r]) == CharsOf(rows)[y := r.chars]
  {
    var a, b := CharsOf(rows[y := r]), CharsOf(rows)[y := r.chars];
    assert forall k :: 0 <= k < |a| ==> a[k] == b[k];
  }

  /** Some row's render form holds the query. */
  predicate HasMatch(rows: seq<Row>, query: string)
  {
    exists row :: 0 <= row < |rows| && Search.StrStr(rows[row].render, query).Some?
  }

  /** findCallback's scan over the rows hits a row holding the query, and misses only when no row holds it. */
  lemma ScanHitsMatch(rows: seq<Row>, query: string, start: int, dir: int)
    requires rows != [] ==> Search.ScanStart(start, dir, |rows|)
    ensures Search.Scan(RendersOf(rows), query, start, dir).None? <==> !HasMatch(rows, query)
    ensures match Search.Scan(RendersOf(rows), query, start, dir)
      case None => true
      case Some(hit) => hit.row < |rows| && Search.StrStr(rows[hit.row].render, query) == Some(hit.offset)
  {
    var renders := RendersOf(rows);
    Search.ScanComplete(renders, query, start, dir);
    if HasMatch(rows, query) {
      var row :| 0 <= row < |rows| && Search.StrStr(rows[row].render, query).Some?;
      assert renders[row] == rows[row].render;
    }
  }

  /** findCallback's static state, the cursor and the row offset. */
  datatype SearchView = SearchView(lastMatch: int, direction: int, cx: nat, cy: nat, rowOffset: nat)

  /**
   * What findCallback (jakel.c:453-489) makes of v for key and query: Enter
   * and Escape reset the search and move nothing; any other key sets the
   * direction, and the scan's first hit becomes the previous match and takes
   * the cursor, with the row offset past the end so that the next scroll
   * brings the match to the top; a miss keeps the cursor and the scan's start.
   */
  function AfterCallback(rows: seq<Row>, v: SearchView, query: string, key: int): (w: SearchView)
    requires -1 <= v.lastMatch < |rows|
    ensures key == Enter || key == Esc ==> w == v.(lastMatch := -1, direction := 1)
    ensures key != Enter && key != Esc ==> w.direction == Search.ScanSetup(v.lastMatch, key).1
    ensures -1 <= w.lastMatch < |rows| && (w.direction == 1 || w.direction == -1)
    ensures w.cy != v.cy || w.cx != v.cx ==> w.cy < |rows| && w.cy == w.lastMatch && w.rowOffset == |rows|
  {
    if key == Enter || key == Esc then v.(lastMatch := -1, direction := 1)
    else
      var setup := Search.ScanSetup(v.lastMatch, key);
      match Search.Scan(RendersOf(rows), query, setup.0, setup.1)
      case None => v.(lastMatch := setup.0, direction := setup.1)
      case Some(hit) => SearchView(hit.row, setup.1, RxToCx(rows[hit.row].chars, hit.offset), hit.row, |rows|)
  }

  /** What processKey leaves for its caller: go on, exit, or run save() or find(). */
  datatype Outcome = Continue | Quit | SaveRequested | FindRequested

  class Editor {
    var cx: nat
    var cy: nat
    var rx: nat
    var rowOffset: nat
    var colOffset: nat
    /** C.rows and C.cols: the text area, two lines shorter than the terminal. */
    const screenRows: nat
    const screenCols: nat
    var rows: seq<Row>
    var modified: nat
    var fileName: Option<string>
    var statusMsg: string
    var statusMsgTime: int
    /** The static state of findCallback (jakel.c:454-455). */
    var lastMatch: int
    var direction: int
    /** The static counter of processKey (jakel.c:608). */
    var quitTimes: nat

    ghost predicate Valid()
      reads this`rows, this`statusMsg
    {
      screenRows >= 1 && screenCols >= 1 &&
      (forall i :: 0 <= i < |rows| ==> RowOk(rows[i])) &&
      |statusMsg| < 80
    }

    /** The raw lines of the document. */
    function Lines(): seq<string>
      reads this`rows
    {
      CharsOf(rows)
    }

    /** Lines and cursor. */
    function DocState(): Doc
      reads this`rows, this`cx, this`cy
    {
      Doc(Lines(), cx, cy)
    }

    /** init (jakel.c:803-819) for a terminal of termRows by termCols. */
    constructor (termRows: nat, termCols: nat)
      requires termRows >= 3 && termCols >= 1
      ensures Valid() && CursorOk(DocState())
      ensures rows == [] && cx == 0 && cy == 0 && rx == 0 && rowOffset == 0 && colOffset == 0
      ensures screenRows == termRows - 2 && screenCols == termCols
      ensures modified == 0 && fileName.None? && statusMsg == [] && statusMsgTime == 0
      ensures lastMatch == -1 && direction == 1 && quitTimes == QuitTimes
    {
      cx, cy, rx := 0, 0, 0;
      rowOffset, colOffset := 0, 0;
      screenRows, screenCols := termRows - 2, termCols;
      rows := [];
      modified := 0;
      fileName := None;
      statusMsg, statusMsgTime := [], 0;
      lastMatch, direction := -1, 1;
      quitTimes := QuitTimes;
    }

    /** setStatusMsg (jakel.c:795-801): the text as far as the 80-byte buffer holds it, and the time. */
    method SetStatusMsg(msg: string, now: int)
      requires Valid()
      modifies this`statusMsg, this`statusMsgTime
      ensures Valid()
      ensures statusMsg == Frame.Truncate(msg, 79) && statusMsgTime == now
    {
      statusMsg := Frame.Truncate(msg, 79);
      statusMsgTime := now;
    }

    /** insertRow (jakel.c:274-293). */
    method InsertRow(at: int, s: string)
      requires Valid()
      modifies this`rows, this`modified
      ensures Valid()
      ensures Lines() == InsertLine(old(Lines()), at, s)
      ensures modified == old(modified) + if 0 <= at <= old(|rows|) then 1 else 0
    {
      if at < 0 || at > |rows| {
        return;
      }
      var render := UpdateRow(s);
      CharsOfInsert(rows, at, Row(s, render));
      rows := Insert(rows, at, Row(s, render));
      modified := modified + 1;
    }

    /** deleteRow (jakel.c:300-307). */
    method DeleteRow(at: int)
      requires Valid()
      modifies this`rows, this`modified
      ensures Valid()
      ensures Lines() == DeleteLine(old(Lines()), at)
      ensures modified == old(modified) + if 0 <= at < old(|rows|) then 1 else 0
    {
      if at < 0 || at >= |rows| {
        return;
      }
      CharsOfRemove(rows, at);
      rows := Remove(rows, at);
      modified := modified + 1;
    }

    /** Give row y new characters and refresh its render form; `modified` is not touched. */
    method SetRowChars(y: nat, chars: string)
      requires Valid() && y < |rows|
      modifies this`rows
      ensures Valid()
      ensures Lines() == old(Lines())[y := chars]
    {
      var render := UpdateRow(chars);
      CharsOfUpdate(rows, y, Row(chars, render));
      rows := rows[y := Row(chars, render)];
    }

    /** insertRowChar (jakel.c:309-318). */
    method InsertRowChar(y: nat, at: int, c: char)
      requires Valid() && y < |rows|
      modifies this`rows, this`modified
      ensures Valid()
      ensures Lines() == old(Lines())[y := InsertCharAt(old(Lines())[y], at, c)]
      ensures modified == old(modified) + 1
    {
      SetRowChars(y, InsertCharAt(rows[y].chars, at, c));
      modified := modified + 1;
    }

    /** appendRowString (jakel.c:345-352). */
    method AppendRowString(y: nat, s: string)
      requires Valid() && y < |rows|
      modifies this`rows, this`modified
      ensures Valid()
      ensures Lines() == old(Lines())[y := old(Lines())[y] + s]
      ensures modified == old(modified) + 1
    {
      SetRowChars(y, rows[y].chars + s);
      modified := modified + 1;
    }

    /** deleteRowChar (jakel.c:354-361). */
    method DeleteRowChar(y: nat, at: int)
      requires Valid() && y < |rows|
      modifies this`rows, this`modified
      ensures Valid()
      ensures Lines() == old(Lines())[y := DeleteCharAt(old(Lines())[y], at)]
      ensures modified == old(modified) + if 0 <= at < old(|rows[y].chars|) then 1 else 0
    {
      if at < 0 || at >= |rows[y].chars| {
        assert Lines() == old(Lines())[y := DeleteCharAt(old(Lines())[y], at)];
        return;
      }
      SetRowChars(y, DeleteCharAt(rows[y].chars, at));
      modified := modified + 1;
    }

    /** insertChar (jakel.c:320-327). */
    method InsertChar(c: char)
      requires Valid() && CursorOk(DocState())
      modifies this`rows, this`modified, this`cx
      ensures Valid()
      ensures DocState() == InsertCharDoc(old(DocState()), c)
      ensures modified == old(modified) + if old(cy) == old(|rows|) then 2 else 1
    {
      ghost var d := DocState();
      ghost var base := if d.cy == |d.lines| then InsertLine(d.lines, |d.lines|, "") else d.lines;
      if cy == |rows| {
        InsertRow(|rows|, "");
      }
      assert Lines() == base;
      InsertRowChar(cy, cx, c);
      cx := cx + 1;
      assert DocState() == Doc(base[d.cy := InsertCharAt(base[d.cy], d.cx, c)], d.cx + 1, d.cy);
    }

    /** insertNewLine (jakel.c:329-343). */
    method InsertNewLine()
      requires Valid() && CursorOk(DocState())
      modifies this`rows, this`modified, this`cx, this`cy
      ensures Valid()
      ensures DocState() == NewLineDoc(old(DocState()))
      ensures modified == old(modified) + 1
    {
      ghost var d := DocState();
      if cx == 0 {
        InsertRow(cy, "");
      } else {
        SplitRow(cy, cx);
      }
      cy := cy + 1;
      cx := 0;
      assert DocState() == NewLineDoc(d);
    }

    /** The else branch of insertNewLine (jakel.c:333-340): the tail of row y from x becomes a new row below it. */
    method SplitRow(y: nat, x: nat)
      requires Valid() && y < |rows| && x <= |rows[y].chars|
      modifies this`rows, this`modified
      ensures Valid()
      ensures Lines() == SplitLine(old(Lines()), y, x)
      ensures modified == old(modified) + 1
    {
      ghost var before := Lines();
      var line := rows[y].chars;
      InsertRow(y + 1, line[x..]);
      SetRowChars(y, line[..x]);
      ghost var split := SplitLine(before, y, x);
      assert forall k :: 0 <= k < |split| ==> Lines()[k] == split[k];
    }

    /** deleteChar (jakel.c:363-377). */
    method DeleteChar()
      requires Valid() && CursorOk(DocState())
      modifies this`rows, this`modified, this`cx, this`cy
      ensures Valid()
      ensures DocState() == DeleteCharDoc(old(DocState()))
      ensures modified == old(modified) +
        if old(cy) == old(|rows|) || (old(cx) == 0 && old(cy) == 0) then 0
        else if old(cx) > 0 then 1 else 2
    {
      if cy == |rows| {
        return;
      }
      if cx == 0 && cy == 0 {
        return;
      }
      if cx > 0 {
        DeleteRowChar(cy, cx - 1);
        cx := cx - 1;
      } else {
        cx := |rows[cy - 1].chars|;
        AppendRowString(cy - 1, rows[cy].chars);
        DeleteRow(cy);
        cy := cy - 1;
      }
    }

    /** moveCursor (jakel.c:568-605). */
    method MoveCursor(key: int)
      requires cy <= |rows|
      modifies this`cx, this`cy
      ensures DocState() == MoveDoc(old(DocState()), key)
    {
      var rowLen := if cy < |rows| then |rows[cy].chars| else 0;
      if key == ArrowUp {
        if cy != 0 {
          cy := cy - 1;
        }
      } else if key == ArrowLeft {
        if cx != 0 {
          cx := cx - 1;
        } else if cy > 0 {
          cy := cy - 1;
          cx := |rows[cy].chars|;
        }
      } else if key == ArrowRight {
        if cy < |rows| && cx < rowLen {
          cx := cx + 1;
        } else if cy < |rows| && cx == rowLen {
          cy := cy + 1;
          cx := 0;
        }
      } else if key == ArrowDown {
        if cy < |rows| {
          cy := cy + 1;
        }
      }
      rowLen := if cy < |rows| then |rows[cy].chars| else 0;
      if cx > rowLen {
        cx := rowLen;
      }
    }

    /** The render column of the cursor, 0 past the last line (jakel.c:685-688). */
    function CursorRx(): (r: nat)
      reads this`rows, this`cx, this`cy
      requires CursorOk(DocState())
      ensures cy < |rows| ==> cx <= r && RxToCx(rows[cy].chars, r) == cx
      ensures cy == |rows| ==> r == 0
    {
      if cy < |rows| then
        RxToCxOfCxToRx(rows[cy].chars, cx);
        CxToRx(rows[cy].chars, cx)
      else 0
    }

    /** scroll (jakel.c:684-705): bring the cursor into the window, moving each offset as little as possible. */
    method Scroll()
      requires Valid() && CursorOk(DocState())
      modifies this`rx, this`rowOffset, this`colOffset
      ensures rx == CursorRx()
      ensures rowOffset == Snap(old(rowOffset), cy, screenRows)
      ensures colOffset == Snap(old(colOffset), rx, screenCols)
      ensures rowOffset <= cy < rowOffset + screenRows && colOffset <= rx < colOffset + screenCols
    {
      rx := 0;
      if cy < |rows| {
        rx := CxToRx(rows[cy].chars, cx);
      }
      if cy < rowOffset {
        rowOffset := cy;
      }
      if cy >= rowOffset + screenRows {
        rowOffset := cy - screenRows + 1;
      }
      if rx < colOffset {
        colOffset := rx;
      }
      if rx >= colOffset + screenCols {
        colOffset := rx - screenCols + 1;
      }
    }

    /** PageUp / PageDown (jakel.c:650-663): the cursor to a window edge, then screenRows single moves. */
    method Page(key: int)
      requires Valid() && CursorOk(DocState()) && rowOffset <= |rows|
      requires key == PageUp || key == PageDown
      modifies this`cx, this`cy
      ensures DocState() == PageDoc(old(DocState()), key, rowOffset, screenRows)
    {
      if key == PageUp {
        cy := rowOffset;
      } else {
        cy := rowOffset + screenRows - 1;
        if cy > |rows| {
          cy := |rows|;
        }
      }
      assert DocState() == PageStart(old(DocState()), key, rowOffset, screenRows);
      var arrow := if key == PageUp then ArrowUp else ArrowDown;
      Replay(arrow, screenRows);
    }

    /** `while (t--) moveCursor(arrow)` (jakel.c:660-661). */
    method Replay(arrow: int, t: nat)
      requires cy <= |rows|
      modifies this`cx, this`cy
      ensures DocState() == RepeatMove(old(DocState()), arrow, t)
    {
      ghost var start := DocState();
      var left := t;
      ghost var done: nat := 0;
      while left > 0
        invariant done + left == t
        invariant DocState() == RepeatMove(start, arrow, done)
        invariant cy <= |rows|
      {
        MoveCursor(arrow);
        RepeatMoveStep(start, arrow, done);
        left, done := left - 1, done + 1;
      }
    }

    /**
     * The keys of processKey's switch (jakel.c:612-679) that act on the
     * document and the cursor.
     */
    method EditKey(c: int)
      requires Valid() && CursorOk(DocState()) && IsKey(c) && rowOffset <= |rows|
      requires c != CtrlQ && c != CtrlS && c != CtrlF
      modifies this`rows, this`modified, this`cx, this`cy
      ensures Valid() && CursorOk(DocState())
      ensures DocState() == KeyDoc(old(DocState()), c, rowOffset, screenRows)
      ensures modified == old(modified) <==> Lines() == old(Lines())
      ensures modified >= old(modified)
    {
      if c == Enter {
        InsertNewLine();
        assert |Lines()| != |old(Lines())|;
      } else if c == Home {
        cx := 0;
      } else if c == End {
        if cy < |rows| {
          cx := |rows[cy].chars|;
        }
      } else if c == Backspace || c == CtrlH || c == Delete {
        if c == Delete {
          MoveCursor(ArrowRight);
        }
        DeleteKey();
      } else if c == PageUp || c == PageDown {
        Page(c);
      } else if ArrowLeft <= c <= ArrowDown {
        MoveCursor(c);
      } else if c == CtrlL || c == Esc {
      } else {
        TypeKey(c as char);
      }
    }

    /** deleteChar as a key: `modified` grows exactly when the lines change. */
    method DeleteKey()
      requires Valid() && CursorOk(DocState())
      modifies this`rows, this`modified, this`cx, this`cy
      ensures Valid() && CursorOk(DocState())
      ensures DocState() == DeleteCharDoc(old(DocState()))
      ensures modified == old(modified) <==> Lines() == old(Lines())
      ensures modified >= old(modified)
    {
      ghost var d := DocState();
      DeleteChar();
      if d.cy < |d.lines| && d.cx > 0 {
        assert |Lines()[d.cy]| != |d.lines[d.cy]|;
      } else if d.cy < |d.lines| && d.cy > 0 {
        assert |Lines()| != |d.lines|;
      }
    }

    /** insertChar as a key: the lines always change and `modified` grows. */
    method TypeKey(c: char)
      requires Valid() && CursorOk(DocState())
      modifies this`rows, this`modified, this`cx
      ensures Valid() && CursorOk(DocState())
      ensures DocState() == InsertCharDoc(old(DocState()), c)
      ensures modified > old(modified) && Lines() != old(Lines())
    {
      ghost var d := DocState();
      InsertChar(c);
      if d.cy < |d.lines| {
        assert |Lines()[d.cy]| != |d.lines[d.cy]|;
      } else {
        assert |Lines()| != |d.lines|;
      }
    }

    /**
     * processKey (jakel.c:607-682) for key c read at time now.  Ctrl-S and
     * Ctrl-F are handed back to the caller, which runs Save or Find.
     */
    method ProcessKey(c: int, now: int) returns (outcome: Outcome)
      requires Valid() && CursorOk(DocState()) && IsKey(c) && rowOffset <= |rows|
      modifies this`rows, this`modified, this`cx, this`cy, this`quitTimes, this`statusMsg, this`statusMsgTime
      ensures Valid() && CursorOk(DocState())
      ensures DocState() == KeyDoc(old(DocState()), c, rowOffset, screenRows)
      ensures modified == old(modified) <==> Lines() == old(Lines())
      ensures modified >= old(modified)
      ensures c == CtrlQ ==> match OnCtrlQ(old(quitTimes), old(modified) != 0)
        case Warn(r) =>
          outcome == Continue && quitTimes == r && statusMsgTime == now &&
          statusMsg == Frame.Truncate("UNSAVED FILE: Press CTRL-Q " + Frame.Decimal(old(quitTimes)) + " times to quit.", 79)
        case Exit => outcome == Quit
      ensures !(c == CtrlQ && OnCtrlQ(old(quitTimes), old(modified) != 0).Warn?) ==>
        statusMsg == old(statusMsg) && statusMsgTime == old(statusMsgTime)
      ensures c != CtrlQ ==> quitTimes == QuitTimes
      ensures outcome == SaveRequested <==> c == CtrlS
      ensures outcome == FindRequested <==> c == CtrlF
    {
      outcome := Continue;
      if c == CtrlQ {
        match OnCtrlQ(quitTimes, modified != 0) {
          case Warn(r) =>
            SetStatusMsg("UNSAVED FILE: Press CTRL-Q " + Frame.Decimal(quitTimes) + " times to quit.", now);
            quitTimes := r;
          case Exit =>
            outcome := Quit;
        }
        return;
      }
      if c == CtrlS {
        outcome := SaveRequested;
      } else if c == CtrlF {
        outcome := FindRequested;
      } else {
        EditKey(c);
      }
      quitTimes := QuitTimes;
    }

    /** rowsToString (jakel.c:379-396): measure, then copy each line and a newline into one buffer. */
    method RowsToString() returns (text: string)
      ensures text == Serialize(Lines())
    {
      var lines := Lines();
      var total := 0;
      for j := 0 to |lines|
        invariant total == TotalSize(lines[..j])
      {
        TotalSizeAppend(lines[..j], lines[j]);
        assert lines[..j + 1] == lines[..j] + [lines[j]];
        total := total + |lines[j]| + 1;
      }
      assert lines[..|lines|] == lines;
      var buf := new char[total];
      var p := 0;
      for j := 0 to |lines|
        invariant p == TotalSize(lines[..j]) <= total
        invariant buf[..p] == Serialize(lines[..j])
      {
        TotalSizePrefix(lines, j + 1);
        TotalSizeAppend(lines[..j], lines[j]);
        SerializeAppend(lines[..j], lines[j]);
        assert lines[..j + 1] == lines[..j] + [lines[j]];
        p := CopyLine(buf, p, lines[j]);
      }
      text := buf[..p];
    }

    /** One line and its newline copied into buf at p (jakel.c:389-392). */
    static method CopyLine(buf: array<char>, p: nat, line: string) returns (next: nat)
      requires p + |line| + 1 <= buf.Length
      modifies buf
      ensures next == p + |line| + 1
      ensures buf[..next] == old(buf[..p]) + line + ['\n']
    {
      for k := 0 to |line|
        invariant buf[..p] == old(buf[..p])
        invariant buf[p..p + k] == line[..k]
      {
        buf[p + k] := line[k];
      }
      buf[p + |line|] := '\n';
      next := p + |line| + 1;
      assert buf[..next] == buf[..p] + buf[p..p + |line|] + ['\n'];
    }

    /**
     * openFile (jakel.c:398-417) on a file whose contents are text: each
     * getline piece, with its trailing '\n' and '\r' bytes dropped, becomes a
     * line at the end of the document, and the document counts as unchanged.
     */
    method OpenFile(name: string, text: string)
      requires Valid()
      modifies this`fileName, this`rows, this`modified
      ensures Valid()
      ensures fileName == Some(name)
      ensures Lines() == old(Lines()) + LoadLines(text)
      ensures modified == 0
    {
      fileName := Some(name);
      var pieces := GetLines(text);
      ghost var start := Lines();
      for i := 0 to |pieces|
        invariant Valid() && fileName == Some(name)
        invariant Lines() == start + StripAll(pieces[..i])
      {
        var line := StripLine(pieces[i]);
        AppendRow(line);
        StripAllSnoc(pieces, i);
        assert Lines() == start + (StripAll(pieces[..i]) + [line]);
      }
      assert pieces[..|pieces|] == pieces;
      modified := 0;
    }

    /** insertRow at rowAmount (jakel.c:411): the line goes at the end. */
    method AppendRow(line: string)
      requires Valid()
      modifies this`rows, this`modified
      ensures Valid() && Lines() == old(Lines()) + [line]
      ensures modified == old(modified) + 1
    {
      InsertLineAtEnd(Lines(), line);
      InsertRow(|rows|, line);
    }

    /** The trim of jakel.c:410: step back over trailing '\n' and '\r' bytes. */
    static method StripLine(l: string) returns (line: string)
      ensures line == StripLineEnd(l)
    {
      var len: nat := |l|;
      while len > 0 && IsLineEnd(l[len - 1])
        invariant len <= |l|
        invariant StripLineEnd(l[..len]) == StripLineEnd(l)
      {
        assert l[..len][..len - 1] == l[..len - 1];
        len := len - 1;
      }
      line := l[..len];
    }

    /**
     * save (jakel.c:419-451).  answer is what the "Save as" prompt returned
     * (None when cancelled) and is only used when the document has no file
     * name; writeError is the strerror text of a failed open, ftruncate or
     * write, None when all succeed.  The result is the text handed to write.
     */
    method Save(answer: Option<string>, writeError: Option<string>, now: int) returns (written: Option<string>)
      requires Valid()
      modifies this`fileName, this`modified, this`statusMsg, this`statusMsgTime
      ensures Valid()
      ensures old(fileName).None? && answer.None? ==>
        written.None? && fileName.None? && modified == old(modified) && statusMsg == "Save cancel"
      ensures old(fileName).Some? || answer.Some? ==>
        fileName == (if old(fileName).Some? then old(fileName) else answer) && written == Some(Serialize(Lines()))
      ensures written.Some? && writeError.None? ==>
        modified == 0 && statusMsg == Frame.Truncate("wrote " + Frame.Decimal(|Serialize(Lines())|) + " B", 79)
      ensures written.Some? && writeError.Some? ==>
        modified == old(modified) && statusMsg == Frame.Truncate("I/O error: " + writeError.value, 79)
      ensures statusMsgTime == now
    {
      if fileName.None? {
        fileName := answer;
        if fileName.None? {
          SetStatusMsg("Save cancel", now);
          return None;
        }
      }
      var text := RowsToString();
      written := Some(text);
      if writeError.None? {
        modified := 0;
        SetStatusMsg("wrote " + Frame.Decimal(|text|) + " B", now);
      } else {
        SetStatusMsg("I/O error: " + writeError.value, now);
      }
    }

    /** findCallback's static state is usable: a previous match is a row, the direction one step. */
    predicate SearchOk()
      reads this`rows, this`lastMatch, this`direction
    {
      -1 <= lastMatch < |rows| && (direction == 1 || direction == -1)
    }

    /** The cursor stands at the first occurrence of the query in its row's render form. */
    predicate AtMatch(query: string)
      reads this`rows, this`cx, this`cy
    {
      cy < |rows| &&
      match Search.StrStr(rows[cy].render, query)
      case None => false
      case Some(offset) => cx == RxToCx(rows[cy].chars, offset)
    }

    /** When some row holds a non-empty query, the cursor is at its first occurrence in such a row. */
    predicate Located(query: string)
      reads this`rows, this`cx, this`cy
    {
      query != [] && HasMatch(rows, query) ==> AtMatch(query)
    }

    /** The part of the state findCallback reads and writes. */
    function View(): SearchView
      reads this`lastMatch, this`direction, this`cx, this`cy, this`rowOffset
    {
      SearchView(lastMatch, direction, cx, cy, rowOffset)
    }

    /**
     * findCallback (jakel.c:453-489): Enter and Escape end the search; any
     * other key scans the rows once round from the previous match (arrows)
     * or from the top, and puts the cursor on the first row holding the query.
     */
    method FindCallback(query: string, key: int)
      requires Valid() && CursorOk(DocState()) && SearchOk()
      modifies this`lastMatch, this`direction, this`cx, this`cy, this`rowOffset
      ensures Valid() && CursorOk(DocState()) && SearchOk()
      ensures View() == AfterCallback(rows, old(View()), query, key)
      ensures key != Enter && key != Esc ==> (HasMatch(rows, query) <==> AtMatch(query))
      ensures old(Located(query)) ==> Located(query)
    {
      if key == Enter || key == Esc {
        lastMatch, direction := -1, 1;
        return;
      }
      var setup := Search.ScanSetup(lastMatch, key);
      direction := setup.1;
      JumpToMatch(query, setup.0, setup.1);
    }

    /**
     * The scan of findCallback (jakel.c:470-488) from row start in direction
     * dir: the cursor goes to the first hit, and the hit becomes the previous match.
     */
    method JumpToMatch(query: string, start: int, dir: int)
      requires Valid() && CursorOk(DocState())
      requires -1 <= start < |rows| && (rows != [] ==> Search.ScanStart(start, dir, |rows|))
      modifies this`lastMatch, this`cx, this`cy, this`rowOffset
      ensures Valid() && CursorOk(DocState()) && -1 <= lastMatch < |rows|
      ensures match Search.Scan(RendersOf(rows), query, start, dir)
        case None => lastMatch == start && cx == old(cx) && cy == old(cy) && rowOffset == old(rowOffset)
        case Some(hit) =>
          lastMatch == cy == hit.row && cx == RxToCx(rows[hit.row].chars, hit.offset) && rowOffset == |rows|
      ensures HasMatch(rows, query) <==> AtMatch(query)
    {
      lastMatch := start;
      var hit := Search.ScanRows(RendersOf(rows), query, start, dir);
      ScanHitsMatch(rows, query, start, dir);
      if hit.Some? {
        lastMatch := hit.value.row;
        cy := hit.value.row;
        cx := RxToCx(rows[hit.value.row].chars, hit.value.offset);
        rowOffset := |rows|;
      }
    }

    /**
     * find (jakel.c:491-507) over the keys read while its prompt is open
     * (jakel.c:529-566): before each key the screen is redrawn, which
     * scrolls, and after each key findCallback runs on the answer so far.
     * Escape puts cursor and window back where they were.
     */
    method Find(keys: seq<int>, now: int) returns (status: Prompt.Status)
      requires Valid() && CursorOk(DocState()) && SearchOk()
      modifies this`cx, this`cy, this`rx, this`rowOffset, this`colOffset,
        this`lastMatch, this`direction, this`statusMsg, this`statusMsgTime
      ensures Valid() && CursorOk(DocState()) && SearchOk()
      ensures status == Prompt.Run(Prompt.Start(), keys).1
      ensures status == Prompt.Cancelled ==>
        cx == old(cx) && cy == old(cy) && colOffset == old(colOffset) && rowOffset == old(rowOffset)
      ensures status != Prompt.Typing ==> lastMatch == -1 && direction == 1 && statusMsg == []
      ensures status == Prompt.Committed ==> Located(Prompt.Run(Prompt.Start(), keys).0.text)
    {
      var savedCx, savedCy := cx, cy;
      var savedColOffset, savedRowOffset := colOffset, rowOffset;
      ghost var d := DocState();
      status := PromptFind(keys, now);
      if status == Prompt.Cancelled {
        cx, cy := savedCx, savedCy;
        colOffset, rowOffset := savedColOffset, savedRowOffset;
        assert DocState() == d;
      }
    }

    /** prompt("Find: %s (ESC/Arrows/Enter)", findCallback) (jakel.c:497, 529-566) over the keys read. */
    method PromptFind(keys: seq<int>, now: int) returns (status: Prompt.Status)
      requires Valid() && CursorOk(DocState()) && SearchOk()
      modifies this`cx, this`cy, this`rx, this`rowOffset, this`colOffset,
        this`lastMatch, this`direction, this`statusMsg, this`statusMsgTime
      ensures Valid() && CursorOk(DocState()) && SearchOk()
      ensures status == Prompt.Run(Prompt.Start(), keys).1
      ensures status != Prompt.Typing ==> lastMatch == -1 && direction == 1 && statusMsg == []
      ensures Located(Prompt.Run(Prompt.Start(), keys).0.text)
    {
      var answer := new Prompt.AnswerBuffer();
      status := Prompt.Typing;
      var i := 0;
      while i < |keys| && status == Prompt.Typing
        invariant 0 <= i <= |keys|
        invariant Valid() && CursorOk(DocState()) && SearchOk()
        invariant answer.Valid() && fresh(answer.buf)
        invariant Prompt.Run(Prompt.Start(), keys[..i]) == (answer.Contents(), status)
        invariant status != Prompt.Typing ==> lastMatch == -1 && direction == 1 && statusMsg == []
        invariant Located(answer.Contents().text)
      {
        Prompt.RunExtend(keys, i);
        status := FindKey(answer, keys[i], now);
        i := i + 1;
      }
      Prompt.RunPrefix(keys, i);
    }

    /**
     * One pass of prompt's loop (jakel.c:535-564) with findCallback: redraw,
     * take key c, and search for the answer as it now stands.
     */
    method FindKey(answer: Prompt.AnswerBuffer, c: int, now: int) returns (status: Prompt.Status)
      requires Valid() && CursorOk(DocState()) && SearchOk() && answer.Valid()
      requires Located(answer.Contents().text)
      modifies this`cx, this`cy, this`rx, this`rowOffset, this`colOffset,
        this`lastMatch, this`direction, this`statusMsg, this`statusMsgTime,
        answer`len, answer`buf, answer.buf
      ensures Valid() && CursorOk(DocState()) && SearchOk() && answer.Valid()
      ensures answer.buf == old(answer.buf) || fresh(answer.buf)
      ensures (answer.Contents(), status) == Prompt.Step(old(answer.Contents()), c)
      ensures status != Prompt.Typing ==> lastMatch == -1 && direction == 1
      ensures statusMsg == (if status == Prompt.Typing then Frame.Truncate(Frame.FindPrompt(old(answer.Contents().text)), 79) else [])
      ensures statusMsgTime == now
      ensures Located(answer.Contents().text)
      ensures rx == old(CursorRx()) && colOffset == Snap(old(colOffset), rx, screenCols)
      ensures View() == AfterCallback(rows, old(View()).(rowOffset := Snap(old(rowOffset), old(cy), screenRows)), answer.Contents().text, c)
    {
      var msg := Frame.FindPrompt(answer.buf[..answer.len]);
      assert msg == Frame.FindPrompt(answer.Contents().text);
      ShowPrompt(msg, now);
      ghost var shown := View();
      assert shown == old(View()).(rowOffset := Snap(old(rowOffset), old(cy), screenRows));
      status := FindStep(answer, c, now);
    }

    /** The rest of the pass (jakel.c:540-564): the key changes the answer, and findCallback searches for it. */
    method FindStep(answer: Prompt.AnswerBuffer, c: int, now: int) returns (status: Prompt.Status)
      requires Valid() && CursorOk(DocState()) && SearchOk() && answer.Valid()
      requires Located(answer.Contents().text)
      modifies this`cx, this`cy, this`rowOffset, this`lastMatch, this`direction, this`statusMsg, this`statusMsgTime,
        answer`len, answer`buf, answer.buf
      ensures Valid() && CursorOk(DocState()) && SearchOk() && answer.Valid()
      ensures answer.buf == old(answer.buf) || fresh(answer.buf)
      ensures (answer.Contents(), status) == Prompt.Step(old(answer.Contents()), c)
      ensures status != Prompt.Typing ==> lastMatch == -1 && direction == 1
      ensures statusMsg == (if status == Prompt.Typing then old(statusMsg) else [])
      ensures statusMsgTime == (if status == Prompt.Typing then old(statusMsgTime) else now)
      ensures Located(answer.Contents().text)
      ensures View() == AfterCallback(rows, old(View()), answer.Contents().text, c)
    {
      ghost var before := answer.Contents().text;
      var query;
      status, query := TakeKey(answer, c, now);
      if c == Enter || c == Esc {
        assert query == before;
      }
      FindCallback(query, c);
    }

    /** prompt's handling of key c (jakel.c:541-562): the answer changes, and the message is cleared when the prompt ends. */
    method TakeKey(answer: Prompt.AnswerBuffer, c: int, now: int) returns (status: Prompt.Status, query: string)
      requires Valid() && answer.Valid()
      modifies this`statusMsg, this`statusMsgTime, answer`len, answer`buf, answer.buf
      ensures Valid() && answer.Valid()
      ensures answer.buf == old(answer.buf) || fresh(answer.buf)
      ensures (answer.Contents(), status) == Prompt.Step(old(answer.Contents()), c)
      ensures query == answer.Contents().text
      ensures statusMsg == (if status == Prompt.Typing then old(statusMsg) else [])
      ensures statusMsgTime == (if status == Prompt.Typing then old(statusMsgTime) else now)
    {
      status := answer.Key(c);
      query := answer.buf[..answer.len];
      if status != Prompt.Typing {
        SetStatusMsg("", now);
      }
    }

    /** The top of prompt's loop (jakel.c:536-537): the prompt as status message, and the screen redrawn. */
    method ShowPrompt(msg: string, now: int)
      requires Valid() && CursorOk(DocState())
      modifies this`rx, this`rowOffset, this`colOffset, this`statusMsg, this`statusMsgTime
      ensures Valid()
      ensures statusMsg == Frame.Truncate(msg, 79) && statusMsgTime == now
      ensures rx == old(CursorRx()) && rowOffset == Snap(old(rowOffset), cy, screenRows)
      ensures colOffset == Snap(old(colOffset), rx, screenCols)
      ensures rowOffset <= cy < rowOffset + screenRows && colOffset <= rx < colOffset + screenCols
    {
      SetStatusMsg(msg, now);
      var frame := Clear(now);
    }

    /** The centred banner (jakel.c:713-724): a '-' and the padding loop, then the text cut to the width. */
    static method DrawBanner(cols: nat) returns (out: string)
      ensures out == Frame.Banner(cols)
    {
      var len := |Frame.Welcome|;
      if len > cols {
        len := cols;
      }
      var padding: nat := (cols - len) / 2;
      ghost var rest: nat := if padding > 0 then padding - 1 else 0;
      out := [];
      if padding > 0 {
        out := "-";
        padding := padding - 1;
      }
      ghost var lead := out;
      ghost var k: nat := 0;
      while padding > 0
        invariant out == lead + Frame.Spaces(k) && k + padding == rest
      {
        Frame.SpacesSnoc(k);
        out := out + " ";
        padding, k := padding - 1, k + 1;
      }
      out := out + Frame.Welcome[..len];
    }

    /** draw (jakel.c:707-739): every screen row, a file row's visible part or '-' past the end. */
    method Draw() returns (out: string)
      requires Valid()
      ensures out == Frame.DrawRows(RendersOf(rows), screenRows, rowOffset, colOffset, screenRows, screenCols)
    {
      ghost var renders := RendersOf(rows);
      out := [];
      for y := 0 to screenRows
        invariant out == Frame.DrawRows(renders, y, rowOffset, colOffset, screenRows, screenCols)
      {
        var line := DrawLine(y);
        out := out + line;
      }
    }

    /** One pass of draw's loop (jakel.c:709-737): screen row y and its line end. */
    method DrawLine(y: nat) returns (line: string)
      requires Valid()
      ensures line == Frame.ScreenLine(RendersOf(rows), y, rowOffset, colOffset, screenRows, screenCols)
    {
      var fileRow := y + rowOffset;
      var text: string;
      if fileRow >= |rows| {
        if |rows| == 0 && y == screenRows / 3 {
          text := DrawBanner(screenCols);
        } else {
          text := "-";
        }
      } else {
        text := DrawVisible(rows[fileRow].render, colOffset, screenCols);
        assert rows[fileRow].render == RendersOf(rows)[fileRow];
      }
      line := text + "\U{1B}[K" + "\r\n";
    }

    /** A file row on screen (jakel.c:729-733): the render form from colOffset, at most cols columns. */
    static method DrawVisible(render: string, colOffset: nat, cols: nat) returns (text: string)
      ensures text == Frame.VisibleSlice(render, colOffset, cols)
    {
      var len := |render| - colOffset;
      if len < 0 {
        len := 0;
      }
      if len > cols {
        len := cols;
      }
      text := if len == 0 then [] else render[colOffset..colOffset + len];
    }

    /** drawStatusBar (jakel.c:741-763): the left text cut to the width, then spaces until the right text ends the line. */
    method DrawStatusBar() returns (out: string)
      requires Valid()
      ensures out == Frame.StatusBar(fileName, |rows|, modified != 0, cy, screenCols)
    {
      var left := Frame.StatusLeft(fileName, |rows|, modified != 0);
      var right := Frame.StatusRight(cy, |rows|);
      var len := |left|;
      if len > screenCols {
        len := screenCols;
      }
      var pad := DrawPadding(len, screenCols, right);
      var text := left[..len] + pad;
      assert text == Frame.StatusText(left, right, screenCols);
      out := "\U{1B}[7m" + text + "\U{1B}[m" + "\r\n";
    }

    /** The padding loop of drawStatusBar (jakel.c:751-759). */
    static method DrawPadding(len: nat, cols: nat, right: string) returns (pad: string)
      requires len <= cols && right != []
      ensures pad == Frame.PadStatus(len, cols, right)
    {
      pad := [];
      var n := len;
      while n < cols
        invariant len <= n <= cols
        invariant pad + Frame.PadStatus(n, cols, right) == Frame.PadStatus(len, cols, right)
        decreases cols - n
      {
        Frame.PadStatusStep(n, cols, right);
        if cols - n == |right| {
          pad := pad + right;
          return;
        }
        assert pad + Frame.PadStatus(n, cols, right) == (pad + " ") + Frame.PadStatus(n + 1, cols, right);
        pad := pad + " ";
        n := n + 1;
      }
      assert pad + [] == pad;
    }

    /**
     * clear (jakel.c:773-793): scroll, then the frame written to the
     * terminal: cursor hidden and homed, the rows, the two bars, the
     * cursor placed, and shown again.
     */
    method Clear(now: int) returns (frame: string)
      requires Valid() && CursorOk(DocState())
      modifies this`rx, this`rowOffset, this`colOffset
      ensures rx == CursorRx() && rowOffset == Snap(old(rowOffset), cy, screenRows)
      ensures colOffset == Snap(old(colOffset), rx, screenCols)
      ensures cy - rowOffset < screenRows && rx - colOffset < screenCols
      ensures frame == "\U{1B}[?25l" + "\U{1B}[H" +
        Frame.DrawRows(RendersOf(rows), screenRows, rowOffset, colOffset, screenRows, screenCols) +
        Frame.StatusBar(fileName, |rows|, modified != 0, cy, screenCols) +
        Frame.MsgBar(statusMsg, statusMsgTime, now, screenCols) +
        Frame.CursorEscape(cy - rowOffset, rx - colOffset) + "\U{1B}[?25h"
    {
      Scroll();
      var rowsText := Draw();
      var status := DrawStatusBar();
      var msg := Frame.MsgBar(statusMsg, statusMsgTime, now, screenCols);
      frame := "\U{1B}[?25l" + "\U{1B}[H" + rowsText + status + msg +
        Frame.CursorEscape(cy - rowOffset, rx - colOffset) + "\U{1B}[?25h";
    }
  }
}
