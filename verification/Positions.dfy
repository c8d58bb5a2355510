/** Line positions of a byte buffer, by plain scans: the reference the caches and edits are held to. */
module Positions {
  type Text = seq<nat>

  const NEWLINE := 10

  function Clamp(n: nat, max: nat): nat {
    if n < max then n else max
  }

  /** The newlines before `byte`: the row it is on. */
  function LineOf(text: Text, byte: nat): nat
    decreases Clamp(byte, |text|)
  {
    var b := Clamp(byte, |text|);
    if b == 0 then 0 else LineOf(text, b - 1) + if text[b - 1] == NEWLINE then 1 else 0
  }

  /** The first byte of the line that `byte` is on. */
  function LineStart(text: Text, byte: nat): (s: nat)
    ensures s <= Clamp(byte, |text|)
    decreases Clamp(byte, |text|)
  {
    var b := Clamp(byte, |text|);
    if b == 0 || text[b - 1] == NEWLINE then b else LineStart(text, b - 1)
  }

  /** The first byte of 0-based `line`, scanning from `from`; the buffer's end past the last line. */
  function NthLineStart(text: Text, from: nat, line: nat): nat
    requires from <= |text|
    decreases |text| - from
  {
    if line == 0 then from
    else if from == |text| then |text|
    else NthLineStart(text, from + 1, if text[from] == NEWLINE then line - 1 else line)
  }

  /** The bytes where a line starts. */
  predicate IsLineStart(text: Text, at: nat) {
    at == 0 || (at <= |text| && text[at - 1] == NEWLINE)
  }

  function NewlinesBefore(text: Text, byte: nat): set<nat> {
    set k: nat | k < byte && k < |text| && text[k] == NEWLINE
  }

  /** The row is the number of newlines before the byte. */
  lemma {:induction false} LineOfCounts(text: Text, byte: nat)
    requires byte <= |text|
    ensures LineOf(text, byte) == |NewlinesBefore(text, byte)|
    decreases byte
  {
    if byte == 0 {
      assert NewlinesBefore(text, 0) == {};
    } else {
      LineOfCounts(text, byte - 1);
      var fewer := NewlinesBefore(text, byte - 1);
      assert NewlinesBefore(text, byte) == if text[byte - 1] == NEWLINE then fewer + {byte - 1} else fewer;
    }
  }

  /** The line's first byte starts a line, and no newline lies between it and the byte. */
  lemma {:induction false} LineStartFacts(text: Text, byte: nat)
    requires byte <= |text|
    ensures IsLineStart(text, LineStart(text, byte))
    ensures forall k :: LineStart(text, byte) <= k < byte ==> text[k] != NEWLINE
    decreases byte
  {
    if byte > 0 && text[byte - 1] != NEWLINE {
      LineStartFacts(text, byte - 1);
    }
  }

  lemma {:induction false} PrefixDecidesPosition(a: Text, b: Text, byte: nat)
    requires byte <= |a| && byte <= |b| && a[..byte] == b[..byte]
    ensures LineOf(a, byte) == LineOf(b, byte) && LineStart(a, byte) == LineStart(b, byte)
    decreases byte
  {
    if byte > 0 {
      assert a[..byte][byte - 1] == a[byte - 1] && b[..byte][byte - 1] == b[byte - 1];
      assert a[..byte - 1] == a[..byte][..byte - 1] && b[..byte - 1] == b[..byte][..byte - 1];
      PrefixDecidesPosition(a, b, byte - 1);
    }
  }
}
