/**
 * scroll's rule for one axis of the window (jakel.c:690-704): move the
 * window just far enough that the cursor's position is inside it.
 */
module Viewport {

  /** The new offset of a window of the given size that must show pos. */
  function Snap(offset: nat, pos: nat, size: nat): (r: nat)
    requires size >= 1
    ensures r <= pos < r + size
    ensures offset <= pos < offset + size ==> r == offset
  {
    if pos < offset then pos
    else if pos >= offset + size then pos - size + 1
    else offset
  }

  function Dist(a: int, b: int): (r: nat)
  {
    if a <= b then b - a else a - b
  }

  /** No window that shows pos lies closer to the old offset. */
  lemma SnapMovesLeast(offset: nat, pos: nat, size: nat, other: nat)
    requires size >= 1 && other <= pos < other + size
    ensures Dist(Snap(offset, pos, size), offset) <= Dist(other, offset)
  {
  }

  /** Snapping again changes nothing. */
  lemma SnapIdempotent(offset: nat, pos: nat, size: nat)
    requires size >= 1
    ensures Snap(Snap(offset, pos, size), pos, size) == Snap(offset, pos, size)
  {
  }
}
