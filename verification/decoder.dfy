/**
 * readKey (jakel.c:139-188) as a pure decoder over the bytes that arrive
 * before the read timeout: the key code and how many bytes were read.
 */
module KeyDecoder {
  import opened Keys

  newtype byte = x: int | 0 <= x < 256

  /** A decoded key and the number of bytes read to decode it. */
  datatype Decoded = Decoded(key: int, consumed: nat)

  /** `ESC [ d <terminator>`: the numbered keys (jakel.c:157-165); anything else is Escape. */
  function NumberedKey(d: byte): (r: int)
  {
    if d == '1' as byte || d == '7' as byte then Home
    else if d == '3' as byte then Delete
    else if d == '4' as byte || d == '8' as byte then End
    else if d == '5' as byte then PageUp
    else if d == '6' as byte then PageDown
    else Esc
  }

  /** `ESC [ letter` (jakel.c:168-175). */
  function BracketKey(c: byte): (r: int)
  {
    if c == 'A' as byte then ArrowUp
    else if c == 'B' as byte then ArrowDown
    else if c == 'C' as byte then ArrowRight
    else if c == 'D' as byte then ArrowLeft
    else if c == 'H' as byte then Home
    else if c == 'F' as byte then End
    else Esc
  }

  /** `ESC O letter` (jakel.c:178-181): only Home and End. */
  function OKey(c: byte): (r: int)
  {
    if c == 'H' as byte then Home
    else if c == 'F' as byte then End
    else Esc
  }

  predicate IsDigit(b: byte)
  {
    '0' as byte <= b <= '9' as byte
  }

  /**
   * The decision tree of readKey, with the byte that must close a numbered
   * sequence as a parameter.  A byte missing from input is a read that timed out.
   */
  function DecodeWith(terminator: byte, input: seq<byte>): (d: Decoded)
    requires |input| >= 1
    ensures 1 <= d.consumed <= |input| && d.consumed <= 4
    ensures IsKey(d.key)
    ensures input[0] as int != Esc ==> d == Decoded(input[0] as int, 1)
    ensures input[0] as int == Esc && |input| < 3 ==> d.key == Esc
    ensures input[0] as int == Esc && d.key != Esc ==> |input| >= 3 && (input[1] == '[' as byte || input[1] == 'O' as byte)
  {
    if input[0] as int != Esc then Decoded(input[0] as int, 1)
    else if |input| < 2 then Decoded(Esc, 1)
    else if |input| < 3 then Decoded(Esc, 2)
    else if input[1] == '[' as byte then
      if IsDigit(input[2]) then
        if |input| < 4 then Decoded(Esc, 3)
        else if input[3] == terminator then Decoded(NumberedKey(input[2]), 4)
        else Decoded(Esc, 4)
      else Decoded(BracketKey(input[2]), 3)
    else if input[1] == 'O' as byte then Decoded(OKey(input[2]), 3)
    else Decoded(Esc, 3)
  }

  /**
   * Every other sequence after Escape gives Escape: a named key comes only
   * from `ESC [ letter`, `ESC O letter` or `ESC [ digit terminator`, each
   * mapped by its table, and reads exactly those bytes.
   */
  lemma OnlyKnownSequencesNameKeys(terminator: byte, input: seq<byte>)
    requires |input| >= 1 && input[0] as int == Esc
    ensures var d := DecodeWith(terminator, input);
      d.key != Esc ==>
        (d.consumed == 3 && input[1] == '[' as byte && !IsDigit(input[2]) && BracketKey(input[2]) == d.key) ||
        (d.consumed == 3 && input[1] == 'O' as byte && OKey(input[2]) == d.key) ||
        (d.consumed == 4 && input[1] == '[' as byte && IsDigit(input[2]) && input[3] == terminator &&
         NumberedKey(input[2]) == d.key)
  {
  }

  /** readKey as written: numbered sequences must end in '-' (jakel.c:156). */
  function ReadKey(input: seq<byte>): (d: Decoded)
    requires |input| >= 1
    ensures |input| >= 4 && input[0] as int == Esc && input[1] == '[' as byte && IsDigit(input[2]) ==>
      (d.key != Esc <==> input[3] == '-' as byte && NumberedKey(input[2]) != Esc)
  {
    DecodeWith('-' as byte, input)
  }

  /** readKey as VT100 terminals need it: numbered sequences end in '~'. */
  function ReadKeyVt100(input: seq<byte>): (d: Decoded)
    requires |input| >= 1
    ensures |input| >= 4 && input[0] as int == Esc && input[1] == '[' as byte && IsDigit(input[2]) ==>
      (d.key != Esc <==> input[3] == '~' as byte && NumberedKey(input[2]) != Esc)
  {
    DecodeWith('~' as byte, input)
  }

  /**
   * The bytes a VT100-style terminal sends for key k, with numbered keys
   * closed by terminator: a plain byte alone, arrows, Home and End as
   * `ESC [ letter`, Delete, PageUp and PageDown as `ESC [ digit terminator`.
   */
  function EncodeWith(terminator: byte, k: int): (bytes: seq<byte>)
    requires IsKey(k)
    ensures 1 <= |bytes| <= 4
    ensures bytes[0] as int == if k < 256 then k else Esc
  {
    var esc, open := Esc as byte, '[' as byte;
    if k < 256 then [k as byte]
    else if k == ArrowUp then [esc, open, 'A' as byte]
    else if k == ArrowDown then [esc, open, 'B' as byte]
    else if k == ArrowRight then [esc, open, 'C' as byte]
    else if k == ArrowLeft then [esc, open, 'D' as byte]
    else if k == Home then [esc, open, 'H' as byte]
    else if k == End then [esc, open, 'F' as byte]
    else if k == Delete then [esc, open, '3' as byte, terminator]
    else if k == PageUp then [esc, open, '5' as byte, terminator]
    else [esc, open, '6' as byte, terminator]
  }

  /**
   * Decoding the encoding of any key gives the key back and reads exactly
   * its bytes, whatever follows; a lone Escape needs nothing to follow.
   */
  lemma DecodeEncode(terminator: byte, k: int, rest: seq<byte>)
    requires IsKey(k) && (k == Esc ==> rest == [])
    ensures DecodeWith(terminator, EncodeWith(terminator, k) + rest) == Decoded(k, |EncodeWith(terminator, k)|)
  {
    var bytes := EncodeWith(terminator, k) + rest;
    if k >= 256 {
      assert bytes[..|EncodeWith(terminator, k)|] == EncodeWith(terminator, k);
    }
  }

  /** The other spellings readKey accepts: `ESC O H`, `ESC O F`, and digits 1, 7 (Home) and 4, 8 (End). */
  lemma HomeEndAliases(terminator: byte, rest: seq<byte>)
    ensures DecodeWith(terminator, [Esc as byte, 'O' as byte, 'H' as byte] + rest) == Decoded(Home, 3)
    ensures DecodeWith(terminator, [Esc as byte, 'O' as byte, 'F' as byte] + rest) == Decoded(End, 3)
    ensures DecodeWith(terminator, [Esc as byte, '[' as byte, '1' as byte, terminator] + rest) == Decoded(Home, 4)
    ensures DecodeWith(terminator, [Esc as byte, '[' as byte, '7' as byte, terminator] + rest) == Decoded(Home, 4)
    ensures DecodeWith(terminator, [Esc as byte, '[' as byte, '4' as byte, terminator] + rest) == Decoded(End, 4)
    ensures DecodeWith(terminator, [Esc as byte, '[' as byte, '8' as byte, terminator] + rest) == Decoded(End, 4)
  {
  }

  /**
   * The same decoder as a byte-at-a-time state machine: Normal, after
   * Escape, after the introducer byte, awaiting the terminator.
   */
  datatype DecodeState = Normal | SawEscape | SawIntroducer(intro: byte) | AwaitTerminator(digit: byte)

  function Machine(terminator: byte, st: DecodeState, rest: seq<byte>, used: nat): (d: Decoded)
    requires st == Normal ==> |rest| >= 1
    decreases |rest|
  {
    match st
    case Normal =>
      if rest[0] as int != Esc then Decoded(rest[0] as int, used + 1)
      else Machine(terminator, SawEscape, rest[1..], used + 1)
    case SawEscape =>
      if rest == [] then Decoded(Esc, used)
      else Machine(terminator, SawIntroducer(rest[0]), rest[1..], used + 1)
    case SawIntroducer(intro) =>
      if rest == [] then Decoded(Esc, used)
      else if intro == '[' as byte && IsDigit(rest[0]) then Machine(terminator, AwaitTerminator(rest[0]), rest[1..], used + 1)
      else if intro == '[' as byte then Decoded(BracketKey(rest[0]), used + 1)
      else if intro == 'O' as byte then Decoded(OKey(rest[0]), used + 1)
      else Decoded(Esc, used + 1)
    case AwaitTerminator(digit) =>
      if rest == [] then Decoded(Esc, used)
      else Decoded(if rest[0] == terminator then NumberedKey(digit) else Esc, used + 1)
  }

  /** The decision tree and the state machine decode every input alike. */
  lemma DecodeIsMachine(terminator: byte, input: seq<byte>)
    requires |input| >= 1
    ensures DecodeWith(terminator, input) == Machine(terminator, Normal, input, 0)
  {
    if input[0] as int == Esc && |input| >= 2 {
      var r1 := input[1..];
      assert Machine(terminator, Normal, input, 0) == Machine(terminator, SawEscape, r1, 1);
      var r2 := r1[1..];
      assert Machine(terminator, SawEscape, r1, 1) == Machine(terminator, SawIntroducer(input[1]), r2, 2);
      if |input| >= 3 {
        assert r2[0] == input[2];
        if input[1] == '[' as byte && IsDigit(input[2]) {
          var r3 := r2[1..];
          assert Machine(terminator, SawIntroducer(input[1]), r2, 2) == Machine(terminator, AwaitTerminator(input[2]), r3, 3);
          if |input| >= 4 {
            assert r3[0] == input[3];
          }
        }
      }
    }
  }

  /** As written, no VT100 numbered sequence `ESC [ d ~` decodes to a named key. */
  lemma Vt100NumberedSequenceIsEscape(d: byte, rest: seq<byte>)
    requires IsDigit(d)
    ensures ReadKey([Esc as byte, '[' as byte, d, '~' as byte] + rest) == Decoded(Esc, 4)
  {
  }

  /** Concretely: the Delete key's `ESC [ 3 ~` reads as Escape. */
  lemma DeleteKeyIsEscape()
    ensures ReadKey([Esc as byte, '[' as byte, '3' as byte, '~' as byte]).key == Esc
    ensures ReadKeyVt100([Esc as byte, '[' as byte, '3' as byte, '~' as byte]).key == Delete
  {
    Vt100NumberedSequenceIsEscape('3' as byte, []);
  }

  /** With '~' every numbered sequence decodes through the table of jakel.c:157-165. */
  lemma Vt100NumberedKeys(d: byte, rest: seq<byte>)
    requires IsDigit(d)
    ensures ReadKeyVt100([Esc as byte, '[' as byte, d, '~' as byte] + rest) == Decoded(NumberedKey(d), 4)
    ensures d == '3' as byte ==> NumberedKey(d) == Delete
    ensures d == '5' as byte ==> NumberedKey(d) == PageUp
    ensures d == '6' as byte ==> NumberedKey(d) == PageDown
  {
  }
}
