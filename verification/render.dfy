/**
 * A line's two coordinate spaces: raw character columns (cx) and render
 * columns (rx), where each tab is drawn as spaces up to the next multiple of
 * the tab stop.  rowCxToRx, rowRxToCx and updateRow of jakel.c.
 */
module Render {

  /** JAKEL_TAB_STOP (jakel.c:19). */
  const TabStop: nat := 8

  /** The render column after drawing raw character c at render column col. */
  function Advance(col: nat, c: char): (next: nat)
    ensures c != '\t' ==> next == col + 1
    ensures c == '\t' ==> col < next <= col + TabStop && next % TabStop == 0
  {
    if c == '\t' then col + (TabStop - 1) - col % TabStop + 1 else col + 1
  }

  /** Number of tab characters in s. */
  function TabsIn(s: string): (n: nat)
    ensures n <= |s|
  {
    if s == [] then 0 else TabsIn(s[..|s| - 1]) + (if s[|s| - 1] == '\t' then 1 else 0)
  }

  /**
   * rowCxToRx: the render column of raw column cx.  Each character widens
   * the render by one, each tab by at most TabStop.
   */
  function CxToRx(chars: string, cx: nat): (rx: nat)
    requires cx <= |chars|
    ensures cx <= rx
  {
    if cx == 0 then 0 else Advance(CxToRx(chars, cx - 1), chars[cx - 1])
  }

  /** Each tab widens the render by at most TabStop - 1 columns. */
  lemma {:induction false} CxToRxBound(chars: string, cx: nat)
    requires cx <= |chars|
    ensures CxToRx(chars, cx) <= cx + (TabStop - 1) * TabsIn(chars[..cx])
  {
    if cx > 0 {
      CxToRxBound(chars, cx - 1);
      assert chars[..cx][..cx - 1] == chars[..cx - 1];
    }
  }

  /** Render columns grow strictly with raw columns. */
  lemma {:induction false} CxToRxIncreasing(chars: string, i: nat, j: nat)
    requires i < j <= |chars|
    ensures CxToRx(chars, i) < CxToRx(chars, j)
  {
    if i < j - 1 {
      CxToRxIncreasing(chars, i, j - 1);
    }
  }

  /** The loop of rowRxToCx from raw column cx, whose render column is curRx. */
  function RxToCxFrom(chars: string, rx: nat, cx: nat, curRx: nat): (r: nat)
    requires cx <= |chars| && curRx == CxToRx(chars, cx)
    requires forall k :: 1 <= k <= cx ==> CxToRx(chars, k) <= rx
    ensures cx <= r <= |chars|
    ensures forall k :: 1 <= k <= r ==> CxToRx(chars, k) <= rx
    ensures r < |chars| ==> CxToRx(chars, r + 1) > rx
    decreases |chars| - cx
  {
    if cx == |chars| then cx
    else
      var next := Advance(curRx, chars[cx]);
      if next > rx then cx else RxToCxFrom(chars, rx, cx + 1, next)
  }

  /**
   * rowRxToCx: the first raw column whose cell ends past render column rx,
   * or the line length when there is none.
   */
  function RxToCx(chars: string, rx: nat): (cx: nat)
    ensures cx <= |chars|
    ensures forall k :: 1 <= k <= cx ==> CxToRx(chars, k) <= rx
    ensures cx < |chars| ==> CxToRx(chars, cx + 1) > rx
  {
    RxToCxFrom(chars, rx, 0, 0)
  }

  /** Every render column inside the cell of raw column cx maps back to cx. */
  lemma RxToCxWithinCell(chars: string, cx: nat, rx: nat)
    requires cx < |chars|
    requires CxToRx(chars, cx) <= rx < CxToRx(chars, cx + 1)
    ensures RxToCx(chars, rx) == cx
  {
    var r := RxToCx(chars, rx);
    if r < cx {
      if r + 1 < cx {
        CxToRxIncreasing(chars, r + 1, cx);
      }
      assert false;
    }
  }

  /** A render column at or past the end of the line maps to the line length. */
  lemma RxToCxPastEnd(chars: string, rx: nat)
    requires CxToRx(chars, |chars|) <= rx
    ensures RxToCx(chars, rx) == |chars|
  {
    var r := RxToCx(chars, rx);
    if r < |chars| {
      if r + 1 < |chars| {
        CxToRxIncreasing(chars, r + 1, |chars|);
      }
      assert false;
    }
  }

  /** rowRxToCx undoes rowCxToRx at every raw column 0..size. */
  lemma RxToCxOfCxToRx(chars: string, cx: nat)
    requires cx <= |chars|
    ensures RxToCx(chars, CxToRx(chars, cx)) == cx
  {
    if cx < |chars| {
      RxToCxWithinCell(chars, cx, CxToRx(chars, cx));
    } else {
      RxToCxPastEnd(chars, CxToRx(chars, cx));
    }
  }

  /** What raw character c, drawn at render column col, puts on screen. */
  function Cell(col: nat, c: char): (cell: string)
    ensures |cell| == Advance(col, c) - col
    ensures c != '\t' ==> cell == [c]
    ensures c == '\t' ==> forall i :: 0 <= i < |cell| ==> cell[i] == ' '
  {
    if c == '\t' then seq(Advance(col, c) - col, _ => ' ') else [c]
  }

  /** The render form of the first k raw characters. */
  function RenderPrefix(chars: string, k: nat): (r: string)
    requires k <= |chars|
    ensures |r| == CxToRx(chars, k)
  {
    if k == 0 then [] else RenderPrefix(chars, k - 1) + Cell(CxToRx(chars, k - 1), chars[k - 1])
  }

  /** The render form of a whole line: what updateRow stores in row->render. */
  function RenderOf(chars: string): (render: string)
    ensures |chars| <= |render| <= |chars| + (TabStop - 1) * TabsIn(chars)
    ensures |render| == CxToRx(chars, |chars|)
  {
    CxToRxBound(chars, |chars|);
    assert chars[..|chars|] == chars;
    RenderPrefix(chars, |chars|)
  }

  lemma PrefixOfAppend(a: string, b: string, n: nat)
    requires n <= |a|
    ensures (a + b)[..n] == a[..n]
  {
  }

  /** Render prefixes extend each other. */
  lemma {:induction false} RenderPrefixExtends(chars: string, k: nat, m: nat)
    requires k <= m <= |chars|
    ensures CxToRx(chars, k) <= CxToRx(chars, m)
    ensures RenderPrefix(chars, k) == RenderPrefix(chars, m)[..CxToRx(chars, k)]
  {
    if k < m {
      RenderPrefixExtends(chars, k, m - 1);
      var shorter := RenderPrefix(chars, m - 1);
      PrefixOfAppend(shorter, Cell(CxToRx(chars, m - 1), chars[m - 1]), CxToRx(chars, k));
    }
  }

  /** The slice of the render form at raw character j's columns is that character's cell. */
  lemma RenderCellSlice(chars: string, j: nat)
    requires j < |chars|
    ensures CxToRx(chars, j) < CxToRx(chars, j + 1) <= |RenderOf(chars)|
    ensures RenderOf(chars)[CxToRx(chars, j)..CxToRx(chars, j + 1)] == Cell(CxToRx(chars, j), chars[j])
  {
    var a, b := CxToRx(chars, j), CxToRx(chars, j + 1);
    var full := RenderPrefix(chars, |chars|);
    assert RenderOf(chars) == full;
    RenderPrefixExtends(chars, j + 1, |chars|);
    var p := RenderPrefix(chars, j + 1);
    assert p == RenderPrefix(chars, j) + Cell(a, chars[j]);
    assert full[a..b] == p[a..];
  }

  /**
   * Raw character j occupies render columns CxToRx(j) .. CxToRx(j+1) - 1:
   * a tab as spaces up to a multiple of the tab stop, anything else as itself.
   */
  lemma RenderCell(chars: string, j: nat)
    requires j < |chars|
    ensures CxToRx(chars, j) < CxToRx(chars, j + 1) <= |RenderOf(chars)|
    ensures RenderOf(chars)[CxToRx(chars, j)..CxToRx(chars, j + 1)] == Cell(CxToRx(chars, j), chars[j])
    ensures chars[j] == '\t' ==> CxToRx(chars, j + 1) % TabStop == 0
    ensures chars[j] == '\t' ==> forall i :: CxToRx(chars, j) <= i < CxToRx(chars, j + 1) ==> RenderOf(chars)[i] == ' '
    ensures chars[j] != '\t' ==> RenderOf(chars)[CxToRx(chars, j)] == chars[j]
  {
    RenderCellSlice(chars, j);
    var a, b := CxToRx(chars, j), CxToRx(chars, j + 1);
    var render := RenderOf(chars);
    var cell := Cell(a, chars[j]);
    if chars[j] == '\t' {
      forall i | a <= i < b
        ensures render[i] == ' '
      {
        assert render[i] == render[a..b][i - a] == cell[i - a];
      }
    } else {
      assert render[a] == render[a..b][0] == cell[0];
    }
  }

  /** No tab survives into the render form. */
  lemma {:induction false} RenderPrefixHasNoTab(chars: string, k: nat)
    requires k <= |chars|
    ensures forall i :: 0 <= i < |RenderPrefix(chars, k)| ==> RenderPrefix(chars, k)[i] != '\t'
  {
    if k > 0 {
      RenderPrefixHasNoTab(chars, k - 1);
      var p := RenderPrefix(chars, k - 1);
      var cell := Cell(CxToRx(chars, k - 1), chars[k - 1]);
      forall i | 0 <= i < |p + cell|
        ensures (p + cell)[i] != '\t'
      {
        if i >= |p| {
          assert (p + cell)[i] == cell[i - |p|];
        }
      }
    }
  }

  lemma RenderHasNoTab(chars: string)
    ensures forall i :: 0 <= i < |RenderOf(chars)| ==> RenderOf(chars)[i] != '\t'
  {
    RenderPrefixHasNoTab(chars, |chars|);
  }

  /** Counting tabs over a growing prefix. */
  lemma TabsInStep(chars: string, j: nat)
    requires j < |chars|
    ensures TabsIn(chars[..j + 1]) == TabsIn(chars[..j]) + (if chars[j] == '\t' then 1 else 0)
  {
    assert chars[..j + 1][..j] == chars[..j];
  }

  /** Between a column and the tab stop after it there is no other tab stop. */
  lemma TabStopAhead(start: nat, idx: nat)
    requires start < idx <= Advance(start, '\t') && idx % TabStop != 0
    ensures idx < Advance(start, '\t')
  {
  }

  lemma TabStopReached(start: nat, idx: nat)
    requires start < idx <= Advance(start, '\t') && idx % TabStop == 0
    ensures idx == Advance(start, '\t')
  {
  }

  /**
   * One step of updateRow's copy loop: draw raw character c at render column
   * idx of buf, padding a tab with spaces up to the next tab stop.
   */
  method DrawCell(buf: array<char>, idx: nat, c: char) returns (next: nat)
    requires Advance(idx, c) <= buf.Length
    modifies buf
    ensures next == Advance(idx, c)
    ensures buf[..idx] == old(buf[..idx])
    ensures buf[idx..next] == Cell(idx, c)
  {
    next := idx;
    if c == '\t' {
      buf[next] := ' ';
      next := next + 1;
      while next % TabStop != 0
        invariant idx < next <= Advance(idx, c)
        invariant buf[..idx] == old(buf[..idx])
        invariant forall i :: idx <= i < next ==> buf[i] == ' '
        decreases Advance(idx, c) - next
      {
        TabStopAhead(idx, next);
        buf[next] := ' ';
        next := next + 1;
      }
      TabStopReached(idx, next);
    } else {
      buf[next] := c;
      next := next + 1;
    }
  }

  /** The first loop of updateRow: count the tabs. */
  method CountTabs(chars: string) returns (tabs: nat)
    ensures tabs == TabsIn(chars)
  {
    tabs := 0;
    for j := 0 to |chars|
      invariant tabs == TabsIn(chars[..j])
    {
      TabsInStep(chars, j);
      if chars[j] == '\t' {
        tabs := tabs + 1;
      }
    }
    assert chars[..|chars|] == chars;
  }

  /** Drawing one more character extends the render prefix by its cell. */
  lemma RenderPrefixStep(chars: string, j: nat, drawn: string, cell: string)
    requires j < |chars|
    requires drawn == RenderPrefix(chars, j) && cell == Cell(CxToRx(chars, j), chars[j])
    ensures drawn + cell == RenderPrefix(chars, j + 1)
  {
  }

  /** The second loop of updateRow: copy characters into buf, padding each tab. */
  method FillRender(chars: string, buf: array<char>) returns (idx: nat)
    requires CxToRx(chars, |chars|) <= buf.Length
    modifies buf
    ensures idx == CxToRx(chars, |chars|) && buf[..idx] == RenderPrefix(chars, |chars|)
  {
    idx := 0;
    for j := 0 to |chars|
      invariant idx == CxToRx(chars, j) <= CxToRx(chars, |chars|)
      invariant buf[..idx] == RenderPrefix(chars, j)
    {
      if j + 1 < |chars| {
        CxToRxIncreasing(chars, j + 1, |chars|);
      }
      ghost var start := idx;
      ghost var drawn := buf[..idx];
      idx := DrawCell(buf, idx, chars[j]);
      assert buf[..idx] == buf[..start] + buf[start..idx];
      RenderPrefixStep(chars, j, drawn, buf[start..idx]);
    }
  }

  /**
   * updateRow: count the tabs, size the render buffer for the worst case,
   * then copy characters and pad each tab with spaces to the next tab stop.
   */
  method UpdateRow(chars: string) returns (render: string)
    ensures render == RenderOf(chars)
  {
    var tabs := CountTabs(chars);
    CxToRxBound(chars, |chars|);
    assert chars[..|chars|] == chars;
    var buf := new char[|chars| + tabs * (TabStop - 1)];
    var idx := FillRender(chars, buf);
    render := buf[..idx];
  }
}
