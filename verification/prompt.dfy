/**
 * One key of prompt (jakel.c:529-566): the answer buffer, its erase, cancel
 * and commit keys, and its growth by doubling.
 */
module Prompt {
  import opened Keys

  /** The buffer prompt allocates first (jakel.c:530). */
  const InitialSize: nat := 128

  /** The answer typed so far and the capacity of the buffer holding it. */
  datatype Answer = Answer(text: string, size: nat)

  /** The text always leaves room for its terminating NUL. */
  predicate Fits(a: Answer)
  {
    |a.text| < a.size
  }

  function Start(): (a: Answer)
    ensures Fits(a) && a.text == []
  {
    Answer([], InitialSize)
  }

  /** Whether prompt keeps reading, returned NULL (Escape) or returned the answer (Enter). */
  datatype Status = Typing | Cancelled | Committed

  /** DELETE, Ctrl-H and Backspace erase (jakel.c:541). */
  predicate IsErase(c: int)
  {
    c == Delete || c == CtrlH || c == Backspace
  }

  /** `!iscntrl(c) && c < 128` (jakel.c:554): the printable ASCII characters. */
  predicate IsPrintable(c: int)
  {
    32 <= c < 127
  }

  /** The effect of key c on the answer, and whether the prompt ends. */
  function Step(a: Answer, c: int): (r: (Answer, Status))
    requires Fits(a)
    ensures Fits(r.0) && a.size <= r.0.size
    ensures r.1 == Cancelled <==> c == Esc
    ensures r.1 == Committed <==> c == Enter && a.text != []
    ensures IsErase(c) ==> r.0.text == a.text[..if a.text == [] then 0 else |a.text| - 1]
    ensures IsPrintable(c) ==> r.0.text == a.text + [c as char]
    ensures !IsErase(c) && !IsPrintable(c) ==> r.0 == a
  {
    if IsErase(c) then
      (if a.text != [] then a.(text := a.text[..|a.text| - 1]) else a, Typing)
    else if c == Esc then (a, Cancelled)
    else if c == Enter then (a, if a.text != [] then Committed else Typing)
    else if IsPrintable(c) then
      var size := if |a.text| == a.size - 1 then a.size * 2 else a.size;
      (Answer(a.text + [c as char], size), Typing)
    else (a, Typing)
  }

  /** Erasing right after typing a character restores the text. */
  lemma EraseAfterType(a: Answer, c: int, erase: int)
    requires Fits(a) && IsPrintable(c) && IsErase(erase)
    ensures Step(Step(a, c).0, erase).0.text == a.text
  {
    var typed := Step(a, c).0;
    assert typed.text[..|typed.text| - 1] == a.text;
  }

  /**
   * The prompt over a run of keys: the answer and status once it ends, or
   * once the keys run out while it is still typing.
   */
  function Run(a: Answer, keys: seq<int>): (r: (Answer, Status))
    requires Fits(a)
    ensures Fits(r.0)
    ensures r.1 == Committed ==> r.0.text != []
    ensures keys == [] ==> r == (a, Typing)
    decreases |keys|
  {
    if keys == [] then (a, Typing)
    else
      var (next, status) := Step(a, keys[0]);
      if status != Typing then (next, status) else Run(next, keys[1..])
  }

  /** The characters of a run of printable keys. */
  function Typed(keys: seq<int>): (s: string)
    requires forall i :: 0 <= i < |keys| ==> IsPrintable(keys[i])
    ensures |s| == |keys|
    ensures forall i :: 0 <= i < |keys| ==> s[i] as int == keys[i]
  {
    if keys == [] then []
    else
      assert IsPrintable(keys[0]);
      [keys[0] as char] + Typed(keys[1..])
  }

  /** Typing printable keys only collects them, in order, and never ends the prompt. */
  lemma {:induction false} RunTyping(a: Answer, keys: seq<int>)
    requires Fits(a)
    requires forall i :: 0 <= i < |keys| ==> IsPrintable(keys[i])
    ensures Run(a, keys).1 == Typing
    ensures Run(a, keys).0.text == a.text + Typed(keys)
    decreases |keys|
  {
    if keys != [] {
      var next := Step(a, keys[0]).0;
      RunTyping(next, keys[1..]);
    }
  }

  /** A typed answer followed by Enter is what prompt returns. */
  lemma TypeThenEnter(keys: seq<int>)
    requires keys != [] && forall i :: 0 <= i < |keys| ==> IsPrintable(keys[i])
    ensures Run(Start(), keys + [Enter]).1 == Committed
    ensures Run(Start(), keys + [Enter]).0.text == Typed(keys)
  {
    RunTyping(Start(), keys);
    RunThen(Start(), keys, Enter);
  }

  /** While the prompt is still typing, one more key is one more step. */
  lemma {:induction false} RunThen(a: Answer, keys: seq<int>, last: int)
    requires Fits(a) && Run(a, keys).1 == Typing
    ensures Run(a, keys + [last]) == Step(Run(a, keys).0, last)
    decreases |keys|
  {
    if keys == [] {
      assert [last][1..] == [];
    } else {
      assert (keys + [last])[1..] == keys[1..] + [last];
      RunThen(Step(a, keys[0]).0, keys[1..], last);
    }
  }

  /** Once the prompt has ended, later keys are not read. */
  lemma {:induction false} RunStops(a: Answer, keys: seq<int>, more: seq<int>)
    requires Fits(a) && Run(a, keys).1 != Typing
    ensures Run(a, keys + more) == Run(a, keys)
    decreases |keys|
  {
    assert (keys + more)[0] == keys[0];
    if Step(a, keys[0]).1 == Typing {
      assert (keys + more)[1..] == keys[1..] + more;
      RunStops(Step(a, keys[0]).0, keys[1..], more);
    }
  }

  /** Reading key i of a run while the prompt is still typing is one more step. */
  lemma RunExtend(keys: seq<int>, i: nat)
    requires i < |keys| && Run(Start(), keys[..i]).1 == Typing
    ensures Run(Start(), keys[..i + 1]) == Step(Run(Start(), keys[..i]).0, keys[i])
  {
    RunThen(Start(), keys[..i], keys[i]);
    assert keys[..i + 1] == keys[..i] + [keys[i]];
  }

  /** The prompt over all the keys ends as over the first i, once it has ended there or the keys are all read. */
  lemma RunPrefix(keys: seq<int>, i: nat)
    requires i <= |keys| && (Run(Start(), keys[..i]).1 != Typing || i == |keys|)
    ensures Run(Start(), keys) == Run(Start(), keys[..i])
  {
    if Run(Start(), keys[..i]).1 != Typing {
      RunStops(Start(), keys[..i], keys[i..]);
      assert keys[..i] + keys[i..] == keys;
    } else {
      assert keys[..i] == keys;
    }
  }

  /**
   * prompt's buffer (jakel.c:530-562): a character array holding the text
   * and a NUL, reallocated at twice the size when only the NUL slot is left.
   */
  class AnswerBuffer {
    var buf: array<char>
    var len: nat

    ghost predicate Valid()
      reads this
    {
      len < buf.Length
    }

    /** The answer this buffer holds. */
    function Contents(): Answer
      reads this, buf
      requires Valid()
    {
      Answer(buf[..len], buf.Length)
    }

    constructor ()
      ensures Valid() && fresh(buf) && Contents() == Start()
    {
      buf := new char[InitialSize](_ => '\0');
      len := 0;
    }

    /** One key of prompt's loop. */
    method Key(c: int) returns (status: Status)
      requires Valid()
      modifies this`len, this`buf, buf
      ensures Valid() && (buf == old(buf) || fresh(buf))
      ensures (Contents(), status) == Step(old(Contents()), c)
    {
      status := Typing;
      ghost var before := buf[..len];
      if IsErase(c) {
        if len != 0 {
          len := len - 1;
          buf[len] := '\0';
          assert buf[..len] == before[..len];
        }
      } else if c == Esc {
        status := Cancelled;
      } else if c == Enter {
        if len != 0 {
          status := Committed;
        }
      } else if IsPrintable(c) {
        if len == buf.Length - 1 {
          Grow();
        }
        buf[len] := c as char;
        len := len + 1;
        buf[len] := '\0';
        assert buf[..len] == before + [c as char];
      }
    }

    /** realloc to twice the size: the text and its NUL are copied. */
    method Grow()
      requires Valid()
      modifies this`buf
      ensures Valid() && fresh(buf) && len == old(len)
      ensures buf.Length == 2 * old(buf.Length)
      ensures buf[..len] == old(buf[..len])
    {
      var small := buf;
      var bigger := new char[2 * small.Length](_ => '\0');
      for i := 0 to small.Length
        invariant bigger[..i] == small[..i]
      {
        bigger[i] := small[i];
      }
      assert bigger[..len] == bigger[..small.Length][..len];
      buf := bigger;
    }
  }
}
