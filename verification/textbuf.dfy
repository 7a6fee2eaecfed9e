/**
 * The document as a sequence of lines, and the sequence surgery the editor
 * performs on it (insertRow, deleteRow, insertRowChar, deleteRowChar,
 * appendRowString and the split/join of insertNewLine and deleteChar), plus
 * the save format of rowsToString and the line splitting of openFile.
 */
module TextBuffer {
  import opened Common

  /** x inserted before position i; everything else keeps its order. */
  function Insert<T>(s: seq<T>, i: nat, x: T): (r: seq<T>)
    requires i <= |s|
    ensures |r| == |s| + 1 && r[i] == x
    ensures forall k :: 0 <= k < i ==> r[k] == s[k]
    ensures forall k :: i <= k < |s| ==> r[k + 1] == s[k]
  {
    s[..i] + [x] + s[i..]
  }

  /** The element at position i removed; everything else keeps its order. */
  function Remove<T>(s: seq<T>, i: nat): (r: seq<T>)
    requires i < |s|
    ensures |r| == |s| - 1
    ensures forall k :: 0 <= k < i ==> r[k] == s[k]
    ensures forall k :: i <= k < |r| ==> r[k] == s[k + 1]
  {
    s[..i] + s[i + 1..]
  }

  /** Removing what was just inserted gives the original back. */
  lemma RemoveInsert<T>(s: seq<T>, i: nat, x: T)
    requires i <= |s|
    ensures Remove(Insert(s, i, x), i) == s
  {
    var r := Remove(Insert(s, i, x), i);
    assert forall k :: 0 <= k < |s| ==> r[k] == s[k];
  }

  /** insertRow (jakel.c:274-293): a position outside [0, count] is ignored. */
  function InsertLine(lines: seq<string>, at: int, s: string): (r: seq<string>)
    ensures 0 <= at <= |lines| ==> |r| == |lines| + 1 && r[at] == s && r[..at] == lines[..at] && r[at + 1..] == lines[at..]
    ensures !(0 <= at <= |lines|) ==> r == lines
  {
    if at < 0 || at > |lines| then lines else Insert(lines, at, s)
  }

  /** Inserting at the count appends. */
  lemma InsertLineAtEnd(lines: seq<string>, s: string)
    ensures InsertLine(lines, |lines|, s) == lines + [s]
  {
    assert lines[..|lines|] == lines;
  }

  /** deleteRow (jakel.c:300-307): a position outside [0, count) is ignored. */
  function DeleteLine(lines: seq<string>, at: int): (r: seq<string>)
    ensures 0 <= at < |lines| ==> |r| == |lines| - 1 && r[..at] == lines[..at] && r[at..] == lines[at + 1..]
    ensures !(0 <= at < |lines|) ==> r == lines
  {
    if at < 0 || at >= |lines| then lines else Remove(lines, at)
  }

  /** insertRowChar (jakel.c:309-318): an out-of-range position means the end of the line. */
  function InsertCharAt(chars: string, at: int, c: char): (r: string)
    ensures |r| == |chars| + 1
    ensures 0 <= at <= |chars| ==> r[at] == c && r[..at] == chars[..at] && r[at + 1..] == chars[at..]
    ensures !(0 <= at <= |chars|) ==> r == chars + [c]
  {
    Insert(chars, if at < 0 || at > |chars| then |chars| else at, c)
  }

  /** deleteRowChar (jakel.c:354-361): a position outside [0, size) is ignored. */
  function DeleteCharAt(chars: string, at: int): (r: string)
    ensures 0 <= at < |chars| ==> |r| == |chars| - 1 && r[..at] == chars[..at] && r[at..] == chars[at + 1..]
    ensures !(0 <= at < |chars|) ==> r == chars
  {
    if at < 0 || at >= |chars| then chars else Remove(chars, at)
  }

  /** Line-level bounds rules: exactly one line appears or disappears, or nothing changes. */
  lemma LineBounds(lines: seq<string>, at: int, s: string)
    ensures |InsertLine(lines, at, s)| == |lines| + (if 0 <= at <= |lines| then 1 else 0)
    ensures 0 <= at <= |lines| ==> InsertLine(lines, at, s)[at] == s
    ensures |DeleteLine(lines, at)| == |lines| - (if 0 <= at < |lines| then 1 else 0)
    ensures 0 <= at <= |lines| ==> InsertLine(lines, at, s) == Insert(lines, at, s)
    ensures !(0 <= at <= |lines|) ==> InsertLine(lines, at, s) == lines
    ensures 0 <= at < |lines| ==> DeleteLine(lines, at) == Remove(lines, at)
    ensures !(0 <= at < |lines|) ==> DeleteLine(lines, at) == lines
    ensures 0 <= at <= |lines| ==> DeleteLine(InsertLine(lines, at, s), at) == lines
  {
    if 0 <= at <= |lines| {
      RemoveInsert(lines, at, s);
    }
  }

  /** Character-level bounds rules: insertion clamps to the end, deletion out of range is a no-op. */
  lemma CharBounds(chars: string, at: int, c: char)
    ensures |InsertCharAt(chars, at, c)| == |chars| + 1
    ensures (at < 0 || at > |chars|) ==> InsertCharAt(chars, at, c) == chars + [c]
    ensures 0 <= at <= |chars| ==> InsertCharAt(chars, at, c)[at] == c
    ensures |DeleteCharAt(chars, at)| == |chars| - (if 0 <= at < |chars| then 1 else 0)
    ensures 0 <= at <= |chars| ==> InsertCharAt(chars, at, c) == Insert(chars, at, c)
    ensures 0 <= at < |chars| ==> DeleteCharAt(chars, at) == Remove(chars, at)
    ensures !(0 <= at < |chars|) ==> DeleteCharAt(chars, at) == chars
    ensures 0 <= at <= |chars| ==> DeleteCharAt(InsertCharAt(chars, at, c), at) == chars
  {
    if 0 <= at <= |chars| {
      RemoveInsert(chars, at, c);
    } else {
      assert chars[..|chars|] == chars;
    }
  }

  /**
   * insertNewLine's split (jakel.c:333-338): line y keeps its first x
   * characters and the rest becomes a new line after it.
   */
  function SplitLine(lines: seq<string>, y: nat, x: nat): (r: seq<string>)
    requires y < |lines| && x <= |lines[y]|
    ensures |r| == |lines| + 1
    ensures r[y] == lines[y][..x] && r[y + 1] == lines[y][x..] && r[y] + r[y + 1] == lines[y]
    ensures forall k :: 0 <= k < y ==> r[k] == lines[k]
    ensures forall k :: y < k < |lines| ==> r[k + 1] == lines[k]
  {
    lines[..y] + [lines[y][..x], lines[y][x..]] + lines[y + 1..]
  }

  /**
   * deleteChar's join (jakel.c:371-375): line y is appended onto line y - 1
   * and then removed.
   */
  function JoinLine(lines: seq<string>, y: nat): (r: seq<string>)
    requires 0 < y < |lines|
    ensures |r| == |lines| - 1
    ensures r[y - 1] == lines[y - 1] + lines[y]
    ensures forall k :: 0 <= k < y - 1 ==> r[k] == lines[k]
    ensures forall k :: y <= k < |r| ==> r[k] == lines[k + 1]
  {
    lines[..y - 1] + [lines[y - 1] + lines[y]] + lines[y + 1..]
  }

  /** Joining the two halves of a split restores the original lines. */
  lemma JoinSplit(lines: seq<string>, y: nat, x: nat)
    requires y < |lines| && x <= |lines[y]|
    ensures JoinLine(SplitLine(lines, y, x), y + 1) == lines
  {
    var r := JoinLine(SplitLine(lines, y, x), y + 1);
    assert forall k :: 0 <= k < |lines| ==> r[k] == lines[k];
  }

  /** Total bytes of the save format: each line plus its newline. */
  function TotalSize(lines: seq<string>): (r: nat)
  {
    if lines == [] then 0 else |lines[0]| + 1 + TotalSize(lines[1..])
  }

  /**
   * rowsToString (jakel.c:379-396): every line followed by one '\n',
   * including the last.
   */
  function Serialize(lines: seq<string>): (text: string)
    ensures |text| == TotalSize(lines)
  {
    if lines == [] then [] else lines[0] + ['\n'] + Serialize(lines[1..])
  }

  lemma {:induction false} TotalSizeAppend(lines: seq<string>, l: string)
    ensures TotalSize(lines + [l]) == TotalSize(lines) + |l| + 1
  {
    if lines != [] {
      assert (lines + [l])[1..] == lines[1..] + [l];
      TotalSizeAppend(lines[1..], l);
    }
  }

  /** A prefix of the lines takes no more room than all of them. */
  lemma {:induction false} TotalSizePrefix(lines: seq<string>, j: nat)
    requires j <= |lines|
    ensures TotalSize(lines[..j]) <= TotalSize(lines)
    decreases |lines| - j
  {
    if j < |lines| {
      TotalSizePrefix(lines, j + 1);
      TotalSizeAppend(lines[..j], lines[j]);
      assert lines[..j + 1] == lines[..j] + [lines[j]];
    } else {
      assert lines[..j] == lines;
    }
  }

  /** Serialising one more line appends that line and a newline. */
  lemma {:induction false} SerializeAppend(lines: seq<string>, l: string)
    ensures Serialize(lines + [l]) == Serialize(lines) + l + ['\n']
  {
    if lines == [] {
      assert [l][1..] == [];
    } else {
      assert (lines + [l])[1..] == lines[1..] + [l];
      SerializeAppend(lines[1..], l);
    }
  }

  /**
   * Line i of the document sits in the save format at offset
   * TotalSize(lines[..i]) and is followed by exactly one newline.
   */
  lemma {:induction false} SerializeLine(lines: seq<string>, i: nat)
    requires i < |lines|
    ensures TotalSize(lines[..i]) + |lines[i]| < |Serialize(lines)|
    ensures Serialize(lines)[TotalSize(lines[..i])..TotalSize(lines[..i]) + |lines[i]|] == lines[i]
    ensures Serialize(lines)[TotalSize(lines[..i]) + |lines[i]|] == '\n'
  {
    var text := Serialize(lines);
    assert text == lines[0] + ['\n'] + Serialize(lines[1..]);
    if i > 0 {
      SerializeLine(lines[1..], i - 1);
      assert lines[..i][1..] == lines[1..][..i - 1];
      var off := TotalSize(lines[1..][..i - 1]);
      assert TotalSize(lines[..i]) == |lines[0]| + 1 + off;
      assert text[|lines[0]| + 1..] == Serialize(lines[1..]);
    }
  }

  /** First position of c in s. */
  function IndexOf(s: string, c: char): (r: Option<nat>)
    ensures r.Some? ==> r.value < |s| && s[r.value] == c && c !in s[..r.value]
    ensures r.None? ==> c !in s
  {
    if s == [] then None
    else if s[0] == c then Some(0)
    else match IndexOf(s[1..], c)
      case Some(i) => assert s[..i + 1] == [s[0]] + s[1..][..i]; Some(i + 1)
      case None => None
  }

  /**
   * The pieces successive getline calls return: up to and including each
   * '\n', and a last piece without one when the text does not end in '\n'.
   */
  function GetLines(text: string): (pieces: seq<string>)
    ensures Concat(pieces) == text
    ensures forall i :: 0 <= i < |pieces| ==> Piece(pieces[i], i == |pieces| - 1)
    decreases |text|
  {
    if text == [] then []
    else match IndexOf(text, '\n')
      case Some(i) =>
        var rest := GetLines(text[i + 1..]);
        assert text[..i + 1][..i] == text[..i];
        assert forall k :: 0 <= k < |rest| ==> ([text[..i + 1]] + rest)[k + 1] == rest[k];
        assert text == text[..i + 1] + text[i + 1..];
        [text[..i + 1]] + rest
      case None => [text]
  }

  /** Joining pieces back together. */
  function Concat(pieces: seq<string>): (r: string)
  {
    if pieces == [] then [] else pieces[0] + Concat(pieces[1..])
  }

  /** What getline returns: one '\n' at its end and none before it, or, as the last piece, no '\n' at all. */
  predicate Piece(p: string, last: bool)
  {
    p != [] && '\n' !in p[..|p| - 1] && (!last ==> p[|p| - 1] == '\n')
  }

  predicate IsLineEnd(c: char) {
    c == '\n' || c == '\r'
  }

  /** openFile's trim (jakel.c:410): drop every trailing '\n' and '\r'. */
  function StripLineEnd(l: string): (r: string)
    ensures |r| <= |l| && r == l[..|r|]
    ensures r == [] || !IsLineEnd(r[|r| - 1])
    ensures forall k :: |r| <= k < |l| ==> IsLineEnd(l[k])
  {
    if l != [] && IsLineEnd(l[|l| - 1]) then StripLineEnd(l[..|l| - 1]) else l
  }

  function StripAll(pieces: seq<string>): (lines: seq<string>)
    ensures |lines| == |pieces|
    ensures forall i :: 0 <= i < |pieces| ==> lines[i] == StripLineEnd(pieces[i])
  {
    if pieces == [] then [] else [StripLineEnd(pieces[0])] + StripAll(pieces[1..])
  }

  /** Stripping one more piece appends its stripped line. */
  lemma StripAllSnoc(pieces: seq<string>, i: nat)
    requires i < |pieces|
    ensures StripAll(pieces[..i + 1]) == StripAll(pieces[..i]) + [StripLineEnd(pieces[i])]
  {
    var a := StripAll(pieces[..i + 1]);
    var b := StripAll(pieces[..i]) + [StripLineEnd(pieces[i])];
    assert forall k :: 0 <= k < |a| ==> a[k] == b[k];
  }

  /** A line that survives a save and a reload: no '\n' in it and no trailing '\r'. */
  predicate Loadable(l: string) {
    '\n' !in l && (l == [] || l[|l| - 1] != '\r')
  }

  /** Stripping a getline piece leaves a line that a save and reload keep. */
  lemma StripPieceLoadable(p: string, last: bool)
    requires Piece(p, last)
    ensures Loadable(StripLineEnd(p))
  {
    var r := StripLineEnd(p);
    if |r| == |p| {
      assert p[|p| - 1] !in "\n\r";
      assert p == p[..|p| - 1] + [p[|p| - 1]];
    } else {
      assert r == p[..|p| - 1][..|r|];
    }
  }

  /** The lines openFile inserts for a file's text: one per getline piece, each one a line a save keeps. */
  function LoadLines(text: string): (lines: seq<string>)
    ensures |lines| == |GetLines(text)|
    ensures forall i :: 0 <= i < |lines| ==> Loadable(lines[i])
  {
    var pieces := GetLines(text);
    forall i | 0 <= i < |pieces|
      ensures Loadable(StripLineEnd(pieces[i]))
    {
      StripPieceLoadable(pieces[i], i == |pieces| - 1);
    }
    StripAll(pieces)
  }

  /** Reloading the save format gives back every line that can be reloaded. */
  lemma {:induction false} LoadSerialize(lines: seq<string>)
    requires forall i :: 0 <= i < |lines| ==> Loadable(lines[i])
    ensures LoadLines(Serialize(lines)) == lines
  {
    if lines != [] {
      var l := lines[0];
      var rest := Serialize(lines[1..]);
      var text := l + ['\n'] + rest;
      assert Serialize(lines) == text;
      assert text[..|l|] == l;
      assert IndexOf(text, '\n') == Some(|l|) by {
        assert text[|l|] == '\n';
      }
      assert text[..|l| + 1] == l + ['\n'];
      assert text[|l| + 1..] == rest;
      assert GetLines(text) == [l + ['\n']] + GetLines(rest);
      assert StripLineEnd(l + ['\n']) == StripLineEnd(l) by {
        assert (l + ['\n'])[..|l|] == l;
      }
      assert StripLineEnd(l) == l;
      LoadSerialize(lines[1..]);
      assert LoadLines(text) == [l] + LoadLines(rest);
    }
  }
}
