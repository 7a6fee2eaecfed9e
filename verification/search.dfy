/**
 * The pure side of findCallback (jakel.c:453-489): strstr on a row's render
 * form, the wrap-around order in which rows are scanned, and the first row
 * in that order that holds the query.
 */
module Search {
  import opened Common
  import opened Keys

  /** The query occurs in s starting at index i. */
  predicate MatchAt(s: string, query: string, i: nat)
  {
    i + |query| <= |s| && s[i..i + |query|] == query
  }

  /** The first occurrence of query in s at index from or later. */
  function FindFrom(s: string, query: string, from: nat): (r: Option<nat>)
    decreases |s| - from
  {
    if from + |query| > |s| then None
    else if MatchAt(s, query, from) then Some(from)
    else FindFrom(s, query, from + 1)
  }

  /** The search from index from finds a match, and no earlier one from there; or there is none. */
  lemma {:induction false} FindFromFirst(s: string, query: string, from: nat)
    ensures var r := FindFrom(s, query, from);
      (r.Some? ==> from <= r.value && MatchAt(s, query, r.value)) &&
      (r.Some? ==> forall j :: from <= j < r.value ==> !MatchAt(s, query, j)) &&
      (r.None? ==> forall j :: from <= j ==> !MatchAt(s, query, j))
    decreases |s| - from
  {
    if from + |query| <= |s| && !MatchAt(s, query, from) {
      FindFromFirst(s, query, from + 1);
    }
  }

  /** The C string a char buffer holds: everything before its first NUL. */
  function CString(s: string): (r: string)
    ensures |r| <= |s| && r == s[..|r|] && '\0' !in r
    ensures |r| < |s| ==> s[|r|] == '\0'
  {
    if s == [] || s[0] == '\0' then []
    else
      var tail := CString(s[1..]);
      assert s[..|tail| + 1] == [s[0]] + s[1..][..|tail|];
      [s[0]] + tail
  }

  /** A buffer without a NUL is all C string. */
  lemma CStringWithoutNul(s: string)
    requires '\0' !in s
    ensures CString(s) == s
  {
  }

  /**
   * strstr (jakel.c:480): the first index at which the query occurs in s,
   * both read as C strings, so nothing past the first NUL of s is searched.
   */
  function StrStr(s: string, query: string): (r: Option<nat>)
    ensures r.Some? ==> MatchAt(CString(s), CString(query), r.value)
  {
    FindFromFirst(CString(s), CString(query), 0);
    FindFrom(CString(s), CString(query), 0)
  }

  /**
   * strstr finds the first occurrence before the NUL that ends s, and finds
   * none only when the query occurs nowhere before it.
   */
  lemma StrStrFirst(s: string, query: string)
    ensures var r := StrStr(s, query);
      var h, q := CString(s), CString(query);
      (r.Some? ==> MatchAt(h, q, r.value) && forall j :: 0 <= j < r.value ==> !MatchAt(h, q, j)) &&
      (r.None? ==> forall j: nat :: !MatchAt(h, q, j))
  {
    FindFromFirst(CString(s), CString(query), 0);
  }

  /** On a string without NUL, strstr is the first occurrence in the whole string. */
  lemma StrStrWithoutNul(s: string, query: string)
    requires '\0' !in s && '\0' !in query
    ensures var r := StrStr(s, query);
      (r.Some? ==> MatchAt(s, query, r.value) && forall j :: 0 <= j < r.value ==> !MatchAt(s, query, j)) &&
      (r.None? ==> forall j: nat :: !MatchAt(s, query, j))
  {
    CStringWithoutNul(s);
    CStringWithoutNul(query);
    StrStrFirst(s, query);
  }

  /** A line holding a NUL: the text after it is not searched. */
  lemma StrStrStopsAtNul()
    ensures StrStr("a\0b", "b") == None
    ensures StrStr("ab", "b") == Some(1)
  {
    assert CString("a\0b") == "a";
    assert CString("ab") == "ab";
    assert CString("b") == "b";
    assert MatchAt("ab", "b", 1);
  }

  /** An empty query matches every string at its start. */
  lemma EmptyQueryMatchesAtStart(s: string)
    ensures StrStr(s, []) == Some(0)
  {
    assert CString([]) == [];
    assert MatchAt(CString(s), [], 0);
  }

  /**
   * Where a scan may start: from the previous match in either direction, or
   * from -1 (no previous match) forwards.
   */
  predicate ScanStart(start: int, dir: int, n: nat)
  {
    n >= 1 && (dir == 1 || dir == -1) && -1 <= start < n && (start == -1 ==> dir == 1)
  }

  /** One step of the scan (jakel.c:475-477): move by dir, wrapping at both ends. */
  function NextRow(current: int, dir: int, n: nat): (r: int)
    requires ScanStart(current, dir, n)
    ensures 0 <= r < n
  {
    var c := current + dir;
    if c == -1 then n - 1 else if c == n then 0 else c
  }

  /** The row visited at step k of the scan (step 0 is the start). */
  function Visit(start: int, dir: int, n: nat, k: nat): (r: int)
    requires ScanStart(start, dir, n)
    ensures k >= 1 ==> 0 <= r < n
    ensures k == 0 ==> r == start
  {
    if k == 0 then start else NextRow(Visit(start, dir, n, k - 1), dir, n)
  }

  /** Step k of the scan, for k up to n, in closed form: k rows on from start, wrapped once. */
  function Wrapped(start: int, dir: int, n: nat, k: nat): (r: int)
  {
    var c := if dir == 1 then start + k else start - k;
    if c < 0 then c + n else if c >= n then c - n else c
  }

  lemma {:induction false} VisitIsWrapped(start: int, dir: int, n: nat, k: nat)
    requires ScanStart(start, dir, n) && 1 <= k <= n
    ensures Visit(start, dir, n, k) == Wrapped(start, dir, n, k)
  {
    if k > 1 {
      VisitIsWrapped(start, dir, n, k - 1);
    }
  }

  /** Within n steps the scan reaches every row. */
  lemma ScanVisitsEveryRow(start: int, dir: int, n: nat, row: int)
    requires ScanStart(start, dir, n) && 0 <= row < n
    ensures exists k :: 1 <= k <= n && Visit(start, dir, n, k) == row
  {
    var k := if dir == 1 then (if row > start then row - start else row - start + n)
             else (if row < start then start - row else start - row + n);
    VisitIsWrapped(start, dir, n, k);
  }

  /** From a previous match the scan comes back to it only at its last step. */
  lemma ScanRevisitsStartLast(start: int, dir: int, n: nat, k: nat)
    requires ScanStart(start, dir, n) && start >= 0 && 1 <= k <= n
    ensures Visit(start, dir, n, k) == start <==> k == n
  {
    VisitIsWrapped(start, dir, n, k);
  }

  /**
   * Where findCallback's scan starts for a key other than Enter and Escape
   * (jakel.c:461-471): an arrow keeps the previous match and picks the
   * direction, any other key starts over before the first row, and with no
   * previous match the scan runs forwards.
   */
  function ScanSetup(lastMatch: int, key: int): (r: (int, int))
    ensures (r.1 == 1 || r.1 == -1) && (r.0 == -1 ==> r.1 == 1)
    ensures key in {ArrowRight, ArrowDown, ArrowLeft, ArrowUp} ==> r.0 == lastMatch
    ensures key !in {ArrowRight, ArrowDown, ArrowLeft, ArrowUp} ==> r == (-1, 1)
    ensures lastMatch != -1 && key in {ArrowLeft, ArrowUp} ==> r.1 == -1
    ensures key in {ArrowRight, ArrowDown} ==> r.1 == 1
  {
    var (m, d) :=
      if key == ArrowRight || key == ArrowDown then (lastMatch, 1)
      else if key == ArrowLeft || key == ArrowUp then (lastMatch, -1)
      else (-1, 1);
    (m, if m == -1 then 1 else d)
  }

  /** A hit of the scan: the row and the render offset where the query starts. */
  datatype Hit = Hit(row: nat, offset: nat)

  /** No row visited at scan steps from..until-1 holds the query. */
  predicate Misses(renders: seq<string>, query: string, start: int, dir: int, from: nat, until: nat)
    requires ScanStart(start, dir, |renders|)
  {
    forall t :: from <= t < until && t >= 1 ==> StrStr(renders[Visit(start, dir, |renders|, t)], query).None?
  }

  /** The first hit at scan steps k..n. */
  function ScanFrom(renders: seq<string>, query: string, start: int, dir: int, k: nat): (r: Option<Hit>)
    requires ScanStart(start, dir, |renders|) && k >= 1
    ensures r.Some? ==> r.value.row < |renders| && StrStr(renders[r.value.row], query) == Some(r.value.offset)
    decreases |renders| + 1 - k
  {
    if k > |renders| then None
    else
      var row := Visit(start, dir, |renders|, k);
      match StrStr(renders[row], query)
      case Some(offset) => Some(Hit(row, offset))
      case None => ScanFrom(renders, query, start, dir, k + 1)
  }

  /**
   * The scan stops at the first step whose row holds the query, and finds
   * nothing only when every row it visits misses.
   */
  lemma {:induction false} ScanFromFirst(renders: seq<string>, query: string, start: int, dir: int, k: nat)
    requires ScanStart(start, dir, |renders|) && k >= 1
    ensures var r := ScanFrom(renders, query, start, dir, k);
      r.Some? ==> exists s :: k <= s <= |renders| && Visit(start, dir, |renders|, s) == r.value.row && Misses(renders, query, start, dir, k, s)
    ensures ScanFrom(renders, query, start, dir, k).None? ==> Misses(renders, query, start, dir, k, |renders| + 1)
    decreases |renders| + 1 - k
  {
    if k <= |renders| && StrStr(renders[Visit(start, dir, |renders|, k)], query).None? {
      ScanFromFirst(renders, query, start, dir, k + 1);
      MissesExtend(renders, query, start, dir, k);
    }
  }

  /** A miss at step k extends every run of misses from step k + 1 back to k. */
  lemma MissesExtend(renders: seq<string>, query: string, start: int, dir: int, k: nat)
    requires ScanStart(start, dir, |renders|) && 1 <= k <= |renders|
    requires StrStr(renders[Visit(start, dir, |renders|, k)], query).None?
    ensures forall s :: k + 1 <= s && Misses(renders, query, start, dir, k + 1, s) ==> Misses(renders, query, start, dir, k, s)
  {
  }

  /** One step of the scan: a miss at step k defers to step k + 1, a hit ends it. */
  lemma ScanStep(renders: seq<string>, query: string, start: int, dir: int, k: nat)
    requires ScanStart(start, dir, |renders|) && 1 <= k <= |renders|
    ensures var row := Visit(start, dir, |renders|, k);
      ScanFrom(renders, query, start, dir, k) ==
        match StrStr(renders[row], query)
        case Some(offset) => Some(Hit(row, offset))
        case None => ScanFrom(renders, query, start, dir, k + 1)
  {
  }

  /** findCallback's scan over all rows: None when no row holds the query. */
  function Scan(renders: seq<string>, query: string, start: int, dir: int): (r: Option<Hit>)
    requires renders != [] ==> ScanStart(start, dir, |renders|)
    ensures r.Some? ==> r.value.row < |renders| && StrStr(renders[r.value.row], query) == Some(r.value.offset)
  {
    if renders == [] then None else ScanFrom(renders, query, start, dir, 1)
  }

  /**
   * The loop of findCallback (jakel.c:473-488) over the rows' render forms:
   * at most one step per row, wrapping at both ends, up to the first row
   * whose render holds the query.
   */
  method ScanRows(renders: seq<string>, query: string, start: int, dir: int) returns (hit: Option<Hit>)
    requires renders != [] ==> ScanStart(start, dir, |renders|)
    ensures hit == Scan(renders, query, start, dir)
  {
    var n := |renders|;
    var current := start;
    var i := 0;
    while i < n
      invariant 0 <= i <= n
      invariant n > 0 ==> current == Visit(start, dir, n, i)
      invariant n > 0 ==> Scan(renders, query, start, dir) == ScanFrom(renders, query, start, dir, i + 1)
    {
      current := NextRow(current, dir, n);
      ScanStep(renders, query, start, dir, i + 1);
      var found := StrStr(renders[current], query);
      if found.Some? {
        return Some(Hit(current, found.value));
      }
      i := i + 1;
    }
    return None;
  }

  /** The scan misses only when the query occurs in no row at all. */
  lemma ScanComplete(renders: seq<string>, query: string, start: int, dir: int)
    requires renders != [] ==> ScanStart(start, dir, |renders|)
    ensures Scan(renders, query, start, dir).None? <==>
      forall row :: 0 <= row < |renders| ==> StrStr(renders[row], query).None?
  {
    if renders != [] && Scan(renders, query, start, dir).None? {
      ScanFromFirst(renders, query, start, dir, 1);
      forall row | 0 <= row < |renders|
        ensures StrStr(renders[row], query).None?
      {
        ScanVisitsEveryRow(start, dir, |renders|, row);
      }
    }
  }

}
