/** Key codes: plain bytes keep their value, named keys use the `keys` enum (jakel.c:22-39). */
module Keys {
  const Esc: int := 0x1b
  const Enter: int := 13          // '\r'
  const Backspace: int := 127

  const ArrowLeft: int := 1000
  const ArrowRight: int := 1001
  const ArrowUp: int := 1002
  const ArrowDown: int := 1003
  const Delete: int := 1004
  const Home: int := 1005
  const End: int := 1006
  const PageUp: int := 1007
  const PageDown: int := 1008

  /** K_CTRL: the key code a terminal sends for Ctrl plus a letter keeps its low five bits. */
  function Ctrl(k: char): (code: int)
    requires k as int < 256
    ensures 0 <= code < 32
  {
    (k as int) % 32
  }

  const CtrlF: int := 6
  const CtrlH: int := 8
  const CtrlL: int := 12
  const CtrlQ: int := 17
  const CtrlS: int := 19

  /** The Ctrl codes processKey and prompt compare against are K_CTRL of their letters. */
  lemma CtrlCodes()
    ensures CtrlF == Ctrl('f') && CtrlH == Ctrl('h') && CtrlL == Ctrl('l')
    ensures CtrlQ == Ctrl('q') && CtrlS == Ctrl('s')
  {
  }

  /** Every value the key decoder can produce: a byte, or one of the named keys. */
  predicate IsKey(c: int) {
    0 <= c < 256 || ArrowLeft <= c <= PageDown
  }
}
