/** UTF-8 well-formedness as Rust's `String::from_utf8` checks it (the well-formed byte
    sequences of the Unicode Standard, Table 3-7), and `str::is_char_boundary`. */
module Utf8 {
  import opened Bytes

  predicate IsContinuation(b: byte) { 0x80 <= b <= 0xBF }

  /** The length of the well-formed UTF-8 sequence at the front of `b`, or 0 if the front
      of `b` is not one. */
  function SequenceLength(b: Text): (n: nat)
    ensures n <= |b| && n <= 4
    ensures b != [] && b[0] < 0x80 ==> n == 1
  {
    if b == [] then 0
    else if b[0] < 0x80 then 1
    else if 0xC2 <= b[0] <= 0xDF then
      if 2 <= |b| && IsContinuation(b[1]) then 2 else 0
    else if b[0] == 0xE0 then
      if 3 <= |b| && 0xA0 <= b[1] <= 0xBF && IsContinuation(b[2]) then 3 else 0
    else if 0xE1 <= b[0] <= 0xEC || 0xEE <= b[0] <= 0xEF then
      if 3 <= |b| && IsContinuation(b[1]) && IsContinuation(b[2]) then 3 else 0
    else if b[0] == 0xED then
      if 3 <= |b| && 0x80 <= b[1] <= 0x9F && IsContinuation(b[2]) then 3 else 0
    else if b[0] == 0xF0 then
      if 4 <= |b| && 0x90 <= b[1] <= 0xBF && IsContinuation(b[2]) && IsContinuation(b[3]) then 4 else 0
    else if 0xF1 <= b[0] <= 0xF3 then
      if 4 <= |b| && IsContinuation(b[1]) && IsContinuation(b[2]) && IsContinuation(b[3]) then 4 else 0
    else if b[0] == 0xF4 then
      if 4 <= |b| && 0x80 <= b[1] <= 0x8F && IsContinuation(b[2]) && IsContinuation(b[3]) then 4 else 0
    else 0
  }

  /** `b` is a sequence of well-formed UTF-8 characters. */
  predicate Valid(b: Text)
    decreases |b|
  {
    b == [] || (SequenceLength(b) > 0 && Valid(b[SequenceLength(b)..]))
  }

  /** Rust's `str::is_char_boundary`: `i` is an end of the text or does not point into the
      middle of a character. */
  predicate IsCharBoundary(b: Text, i: nat)
  {
    i == 0 || i == |b| || (i < |b| && !IsContinuation(b[i]))
  }

  predicate IsAscii(b: Text) { forall i :: 0 <= i < |b| ==> b[i] < 0x80 }

  /** ASCII text is valid UTF-8, and every offset in it is a character boundary. */
  lemma {:induction false} AsciiIsValid(b: Text)
    requires IsAscii(b)
    ensures Valid(b)
    ensures forall i :: 0 <= i <= |b| ==> IsCharBoundary(b, i)
    decreases |b|
  {
    if b != [] {
      assert SequenceLength(b) == 1;
      AsciiIsValid(b[1..]);
    }
  }
}
