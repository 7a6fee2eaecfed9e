/**
 * The quit guard of processKey (jakel.c:608-626, 681): with unsaved changes
 * Ctrl-Q only warns, counting down from JAKEL_QUIT_TIMES, and any other key
 * re-arms the counter.
 */
module QuitGuard {
  import opened Common

  /** JAKEL_QUIT_TIMES (jakel.c:20). */
  const QuitTimes: nat := 3

  /** What one Ctrl-Q press does: warn with the counter now left, or exit. */
  datatype QuitStep = Warn(remaining: nat) | Exit

  /** Ctrl-Q (jakel.c:618-625): a dirty buffer with warnings left warns and counts down. */
  function OnCtrlQ(quitTimes: nat, dirty: bool): (s: QuitStep)
    ensures s.Warn? <==> dirty && quitTimes > 0
    ensures s.Warn? ==> s.remaining < quitTimes
  {
    if dirty && quitTimes > 0 then Warn(quitTimes - 1) else Exit
  }

  /** The counter after n consecutive Ctrl-Q presses, or None once the editor has exited. */
  function AfterPresses(quitTimes: nat, dirty: bool, n: nat): (r: Option<nat>)
  {
    if n == 0 then Some(quitTimes)
    else match AfterPresses(quitTimes, dirty, n - 1)
      case None => None
      case Some(q) => match OnCtrlQ(q, dirty)
        case Warn(r) => Some(r)
        case Exit => None
  }

  /**
   * A clean buffer exits on the first press; a dirty one exits on press
   * quitTimes + 1, and until then the counter has dropped by one per press.
   */
  lemma {:induction false} ExitsAfter(quitTimes: nat, dirty: bool, n: nat)
    ensures AfterPresses(quitTimes, dirty, n).None? <==> n >= (if dirty then quitTimes + 1 else 1)
    ensures AfterPresses(quitTimes, dirty, n).Some? ==> AfterPresses(quitTimes, dirty, n).value == quitTimes - n
  {
    if n > 0 {
      ExitsAfter(quitTimes, dirty, n - 1);
    }
  }

  /** From the armed counter, three presses warn and the fourth exits. */
  lemma FourthPressExits()
    ensures AfterPresses(QuitTimes, true, 3) == Some(0)
    ensures AfterPresses(QuitTimes, true, 4).None?
    ensures AfterPresses(QuitTimes, false, 1).None?
  {
    ExitsAfter(QuitTimes, true, 3);
    ExitsAfter(QuitTimes, true, 4);
    ExitsAfter(QuitTimes, false, 1);
  }
}
