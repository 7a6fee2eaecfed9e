/**
 * The pieces clear() assembles into one frame (jakel.c:707-793): each screen
 * row, the centred banner, the status bar, the message bar and the final
 * cursor escape, as byte sequences.
 */
module Frame {
  import opened Common

  function Spaces(n: nat): (s: string)
    ensures |s| == n && forall i :: 0 <= i < n ==> s[i] == ' '
  {
    seq(n, _ => ' ')
  }

  lemma SpacesSnoc(n: nat)
    ensures Spaces(n) + " " == Spaces(n + 1)
  {
  }

  predicate IsDigit(c: char)
  {
    '0' <= c <= '9'
  }

  function Digit(d: nat): (c: char)
    requires d < 10
    ensures IsDigit(c)
  {
    ('0' as int + d) as char
  }

  /** printf's %d of a non-negative number: digits, most significant first, no leading zero. */
  function Decimal(n: nat): (s: string)
    ensures |s| >= 1 && forall i :: 0 <= i < |s| ==> IsDigit(s[i])
    ensures s[0] == '0' ==> n == 0
  {
    if n < 10 then [Digit(n)] else Decimal(n / 10) + [Digit(n % 10)]
  }

  /** The value of a string of decimal digits. */
  function ParseDecimal(s: string): (r: nat)
    requires forall i :: 0 <= i < |s| ==> IsDigit(s[i])
  {
    if s == [] then 0
    else
      assert IsDigit(s[|s| - 1]);
      ParseDecimal(s[..|s| - 1]) * 10 + (s[|s| - 1] as int - '0' as int)
  }

  /** Reading the digits back gives the number printed. */
  lemma {:induction false} ParseDecimalOfDecimal(n: nat)
    ensures ParseDecimal(Decimal(n)) == n
  {
    var s := Decimal(n);
    if n >= 10 {
      ParseDecimalOfDecimal(n / 10);
      assert s[..|s| - 1] == Decimal(n / 10);
    }
  }

  /**
   * The part of a row's render form inside the window (jakel.c:730-733):
   * render columns colOffset .. colOffset + cols - 1 that exist.
   */
  function VisibleSlice(render: string, colOffset: nat, cols: nat): (r: string)
    ensures |r| == if colOffset >= |render| then 0 else Min(|render| - colOffset, cols)
    ensures forall i :: 0 <= i < |r| ==> r[i] == render[colOffset + i]
  {
    var len := |render| - colOffset;
    var len := if len < 0 then 0 else len;
    var len := if len > cols then cols else len;
    if len == 0 then [] else render[colOffset..colOffset + len]
  }

  /** A render column shows on screen exactly when it exists and lies in the window. */
  lemma VisibleColumn(render: string, colOffset: nat, cols: nat, c: nat)
    ensures colOffset <= c < colOffset + |VisibleSlice(render, colOffset, cols)| <==>
      colOffset <= c < colOffset + cols && c < |render|
  {
  }

  /** JAKEL_VERSION (jakel.c:18) and the banner text (jakel.c:714). */
  const Version: string := "0.0.1"
  const Welcome: string := "jakel -- version " + Version

  /**
   * The banner on an empty buffer (jakel.c:716-725): cut to the width, then
   * centred by a '-' and spaces on its left.
   */
  function Banner(cols: nat): (r: string)
    ensures Min(|Welcome|, cols) <= |r| <= cols
    ensures r[|r| - Min(|Welcome|, cols)..] == Welcome[..Min(|Welcome|, cols)]
    ensures |r| > Min(|Welcome|, cols) ==> r[0] == '-'
  {
    var len := Min(|Welcome|, cols);
    var padding := (cols - len) / 2;
    (if padding > 0 then "-" + Spaces(padding - 1) else "") + Welcome[..len]
  }

  /** The banner is centred: the space left of it and right of it differ by at most one column. */
  lemma BannerCentred(cols: nat)
    ensures var left := |Banner(cols)| - Min(|Welcome|, cols);
      var right := cols - |Banner(cols)|;
      left <= right <= left + 1
  {
  }

  function Truncate(s: string, n: nat): (r: string)
    ensures |r| == Min(|s|, n) && r == s[..|r|]
  {
    if |s| <= n then s else s[..n]
  }

  /** The left status text "%.20s - %d lines %s" (jakel.c:745). */
  function StatusLeft(fileName: Option<string>, lineCount: nat, dirty: bool): (r: string)
    ensures var name := match fileName case Some(f) => f case None => "[Unnamed]";
      |r| > Min(|name|, 20) && r[..Min(|name|, 20)] == name[..Min(|name|, 20)]
    ensures dirty <==> |r| >= 3 && r[|r| - 3..] == "(M)"
  {
    var name := match fileName case Some(f) => f case None => "[Unnamed]";
    var body := Truncate(name, 20) + " - " + Decimal(lineCount) + " lines ";
    assert body[..|Truncate(name, 20)|] == Truncate(name, 20);
    if dirty then
      assert (body + "(M)")[|body| + 3 - 3..] == "(M)";
      body + "(M)"
    else
      assert body[|body| - 1] != ')';
      body
  }

  /** The right status text "%d/%d" (jakel.c:746). */
  function StatusRight(cy: nat, lineCount: nat): (r: string)
    ensures var a := Decimal(cy + 1);
      |r| > |a| && r[|a|] == '/' && r[..|a|] == a && r[|a| + 1..] == Decimal(lineCount) &&
      ParseDecimal(r[..|a|]) == cy + 1 && ParseDecimal(r[|a| + 1..]) == lineCount
  {
    var a, b := Decimal(cy + 1), Decimal(lineCount);
    var r := a + "/" + b;
    assert r[..|a|] == a && r[|a| + 1..] == b;
    ParseDecimalOfDecimal(cy + 1);
    ParseDecimalOfDecimal(lineCount);
    r
  }

  /**
   * The padding loop of drawStatusBar (jakel.c:751-759) from column len:
   * spaces, and the right text once it ends exactly at the last column.
   */
  function PadStatus(len: nat, cols: nat, right: string): (r: string)
    requires len <= cols && right != []
    ensures |r| == cols - len
    decreases cols - len
  {
    if len == cols then []
    else if cols - len == |right| then right
    else [' '] + PadStatus(len + 1, cols, right)
  }

  /** The padding is spaces followed by the right text when that fits, and only spaces when it does not. */
  lemma {:induction false} PadStatusShape(len: nat, cols: nat, right: string)
    requires len <= cols && right != []
    ensures |right| <= cols - len ==> PadStatus(len, cols, right) == Spaces(cols - len - |right|) + right
    ensures |right| > cols - len ==> PadStatus(len, cols, right) == Spaces(cols - len)
    decreases cols - len
  {
    if len < cols && cols - len != |right| {
      PadStatusShape(len + 1, cols, right);
    }
  }

  /** One column of the padding loop: the right text when it ends exactly at the last column, else a space. */
  lemma PadStatusStep(len: nat, cols: nat, right: string)
    requires len < cols && right != []
    ensures PadStatus(len, cols, right) == if cols - len == |right| then right else " " + PadStatus(len + 1, cols, right)
  {
  }

  /** The visible text of the status bar: as wide as the screen, right text right-aligned when it fits. */
  function StatusText(left: string, right: string, cols: nat): (r: string)
    requires right != []
    ensures |r| == cols
    ensures r[..Min(|left|, cols)] == left[..Min(|left|, cols)]
    ensures Min(|left|, cols) + |right| <= cols ==> r[cols - |right|..] == right
  {
    var len := Min(|left|, cols);
    PadStatusShape(len, cols, right);
    left[..len] + PadStatus(len, cols, right)
  }

  /** drawStatusBar (jakel.c:741-763): the status text in reverse video. */
  function StatusBar(fileName: Option<string>, lineCount: nat, dirty: bool, cy: nat, cols: nat): (r: string)
    ensures |r| == cols + 9 && r[..4] == "\U{1B}[7m" && r[|r| - 5..] == "\U{1B}[m\r\n"
  {
    "\U{1B}[7m" + StatusText(StatusLeft(fileName, lineCount, dirty), StatusRight(cy, lineCount), cols) + "\U{1B}[m" + "\r\n"
  }

  /** drawMsgBar (jakel.c:765-771): a message shows, cut to the width, for under 5 seconds. */
  function MsgBar(msg: string, msgTime: int, now: int, cols: nat): (r: string)
    ensures 3 <= |r| <= 3 + cols
    ensures r[..3] == "\U{1B}[K"
    ensures |r| > 3 <==> msg != [] && cols > 0 && now - msgTime < 5
  {
    "\U{1B}[K" + (if |msg| > 0 && now - msgTime < 5 then Truncate(msg, cols) else [])
  }

  /** The escape that puts the terminal cursor at screen row and column, counted from 0 (jakel.c:786). */
  function CursorEscape(row: nat, col: nat): (e: string)
    ensures |e| >= 6 && e[..2] == "\U{1B}[" && e[|e| - 1] == 'H'
  {
    "\U{1B}[" + Decimal(row + 1) + ";" + Decimal(col + 1) + "H"
  }

  /** The cursor escape carries the 1-based row and column in decimal, in that order. */
  lemma CursorEscapeReadsBack(row: nat, col: nat)
    ensures var e := CursorEscape(row, col);
      var r := Decimal(row + 1);
      var c := Decimal(col + 1);
      |e| == 4 + |r| + |c| && e[..2] == "\U{1B}[" && e[2 + |r|] == ';' && e[|e| - 1] == 'H' &&
      ParseDecimal(e[2..2 + |r|]) == row + 1 && ParseDecimal(e[3 + |r|..|e| - 1]) == col + 1
  {
    var e := CursorEscape(row, col);
    var r := Decimal(row + 1);
    var c := Decimal(col + 1);
    assert e[2..2 + |r|] == r;
    assert e[3 + |r|..|e| - 1] == c;
    ParseDecimalOfDecimal(row + 1);
    ParseDecimalOfDecimal(col + 1);
  }

  /**
   * What screen row y of draw shows (jakel.c:710-734): a file row's visible
   * slice, the banner a third of the way down an empty buffer, or '-'.
   */
  function ScreenText(renders: seq<string>, y: nat, rowOffset: nat, colOffset: nat, screenRows: nat, cols: nat): (text: string)
    ensures cols >= 1 ==> |text| <= cols
    ensures y + rowOffset < |renders| ==> text == VisibleSlice(renders[y + rowOffset], colOffset, cols)
  {
    var fileRow := y + rowOffset;
    if fileRow >= |renders| then
      if |renders| == 0 && y == screenRows / 3 then Banner(cols) else "-"
    else VisibleSlice(renders[fileRow], colOffset, cols)
  }

  /** Screen row y of draw (jakel.c:709-738): its text, then erase-to-end-of-line and CR LF. */
  function ScreenLine(renders: seq<string>, y: nat, rowOffset: nat, colOffset: nat, screenRows: nat, cols: nat): (r: string)
    ensures |r| >= 5 && r[|r| - 5..] == "\U{1B}[K\r\n"
    ensures cols >= 1 ==> |r| - 5 <= cols
    ensures y + rowOffset < |renders| ==> r[..|r| - 5] == VisibleSlice(renders[y + rowOffset], colOffset, cols)
  {
    var text := ScreenText(renders, y, rowOffset, colOffset, screenRows, cols);
    assert (text + "\U{1B}[K\r\n")[..|text|] == text;
    text + "\U{1B}[K\r\n"
  }

  /** Screen rows 0 .. y-1 of draw: each ends in erase-to-end-of-line and CR LF. */
  function DrawRows(renders: seq<string>, y: nat, rowOffset: nat, colOffset: nat, screenRows: nat, cols: nat): (r: string)
    ensures y > 0 ==> |r| >= 5 && r[|r| - 5..] == "\U{1B}[K\r\n"
  {
    if y == 0 then []
    else
      var before := DrawRows(renders, y - 1, rowOffset, colOffset, screenRows, cols);
      var line := ScreenLine(renders, y - 1, rowOffset, colOffset, screenRows, cols);
      assert (before + line)[|before + line| - 5..] == line[|line| - 5..];
      before + line
  }

  /** y rows of k bytes each, counted row by row. */
  function RowsOf(k: nat, y: nat): (r: nat)
  {
    if y == 0 then 0 else RowsOf(k, y - 1) + k
  }

  /** Counting y rows of k bytes one by one gives k * y. */
  lemma {:induction false} RowsOfIsProduct(k: nat, y: nat)
    ensures RowsOf(k, y) == k * y
  {
    if y > 0 {
      RowsOfIsProduct(k, y - 1);
      assert k * y == k * (y - 1) + k;
    }
  }

  /** y screen rows take at least 5 bytes each. */
  lemma {:induction false} DrawRowsAtLeast(renders: seq<string>, y: nat, rowOffset: nat, colOffset: nat, screenRows: nat, cols: nat)
    ensures 5 * y <= |DrawRows(renders, y, rowOffset, colOffset, screenRows, cols)|
  {
    DrawRowsWithin(renders, y, rowOffset, colOffset, screenRows, cols);
    RowsOfIsProduct(5, y);
  }

  /** On a screen cols wide, y screen rows take at most cols + 5 bytes each. */
  lemma {:induction false} DrawRowsAtMost(renders: seq<string>, y: nat, rowOffset: nat, colOffset: nat, screenRows: nat, cols: nat)
    requires cols >= 1
    ensures |DrawRows(renders, y, rowOffset, colOffset, screenRows, cols)| <= (cols + 5) * y
  {
    DrawRowsWithin(renders, y, rowOffset, colOffset, screenRows, cols);
    RowsOfIsProduct(cols + 5, y);
  }

  /** The row-by-row byte bounds of DrawRows. */
  lemma {:induction false} DrawRowsWithin(renders: seq<string>, y: nat, rowOffset: nat, colOffset: nat, screenRows: nat, cols: nat)
    ensures RowsOf(5, y) <= |DrawRows(renders, y, rowOffset, colOffset, screenRows, cols)|
    ensures cols >= 1 ==> |DrawRows(renders, y, rowOffset, colOffset, screenRows, cols)| <= RowsOf(cols + 5, y)
  {
    if y > 0 {
      DrawRowsWithin(renders, y - 1, rowOffset, colOffset, screenRows, cols);
    }
  }

  /** The prompt find() shows while the query is typed (jakel.c:497). */
  function FindPrompt(query: string): (r: string)
  {
    "Find: " + query + " (ESC/Arrows/Enter)"
  }
}
