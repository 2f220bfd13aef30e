/**
 * Rust stores a `String` as UTF-8 bytes, and every position its string API
 * takes or returns (`String::insert`, `char_indices`) is a byte offset. The
 * model keeps the text as a sequence of Unicode scalar values and makes the
 * byte offsets explicit here.
 */
module Utf8 {
  import opened Options

  /** Number of bytes UTF-8 uses to encode `c`. */
  function Width(c: char): (w: nat)
    ensures 1 <= w <= 4
    ensures w == 1 <==> c as int < 0x80
  {
    if c as int < 0x80 then 1
    else if c as int < 0x800 then 2
    else if c as int < 0x1_0000 then 3
    else 4
  }

  /** Length in bytes of the UTF-8 encoding of `s`. */
  function ByteLen(s: string): nat
  {
    if s == [] then 0 else ByteLen(s[..|s| - 1]) + Width(s[|s| - 1])
  }

  /** Byte offset at which the character with index `i` starts (`i == |s|` is the end). */
  function Offset(s: string, i: nat): nat
    requires i <= |s|
  {
    ByteLen(s[..i])
  }

  predicate IsAscii(s: string)
  {
    forall i :: 0 <= i < |s| ==> s[i] as int < 0x80
  }

  lemma OffsetNext(s: string, i: nat)
    requires i < |s|
    ensures Offset(s, i + 1) == Offset(s, i) + Width(s[i])
  {
    assert s[..i + 1][..i] == s[..i];
  }

  /** Offsets taken in a prefix are the offsets taken in the whole string. */
  lemma OffsetInPrefix(s: string, n: nat, i: nat)
    requires i <= n <= |s|
    ensures Offset(s[..n], i) == Offset(s, i)
  {
    assert s[..n][..i] == s[..i];
  }

  lemma ByteLenAppend(s: string, c: char)
    ensures ByteLen(s + [c]) == ByteLen(s) + Width(c)
  {
  }

  lemma {:induction false} ByteLenConcat(a: string, b: string)
    ensures ByteLen(a + b) == ByteLen(a) + ByteLen(b)
    decreases |b|
  {
    if b == [] {
      assert a + b == a;
    } else {
      var b' := b[..|b| - 1];
      assert a + b == (a + b') + [b[|b| - 1]];
      assert b == b' + [b[|b| - 1]];
      ByteLenAppend(a + b', b[|b| - 1]);
      ByteLenAppend(b', b[|b| - 1]);
      ByteLenConcat(a, b');
    }
  }

  /** Every character takes at least one byte, so offsets strictly increase. */
  lemma {:induction false} OffsetStrictlyIncreasing(s: string, i: nat, j: nat)
    requires i < j <= |s|
    ensures Offset(s, i) < Offset(s, j)
    decreases j - i
  {
    OffsetNext(s, i);
    if i + 1 < j {
      OffsetStrictlyIncreasing(s, i + 1, j);
    }
  }

  /** In ASCII text byte offsets and character indices coincide. */
  lemma {:induction false} AsciiOffset(s: string, i: nat)
    requires IsAscii(s) && i <= |s|
    ensures Offset(s, i) == i
  {
    if i > 0 {
      AsciiOffset(s, i - 1);
      OffsetNext(s, i - 1);
    }
  }

  /**
   * The index of the character that starts at byte `pos`, or None when `pos`
   * is not a character boundary (Rust's `str::is_char_boundary`).
   */
  function CharIndex(s: string, pos: nat): (r: Option<nat>)
    ensures r.Some? ==> r.value <= |s| && Offset(s, r.value) == pos
    ensures r.None? ==> forall i :: 0 <= i <= |s| ==> Offset(s, i) != pos
  {
    if pos == ByteLen(s) then
      assert s[..|s|] == s;
      Some(|s|)
    else if s == [] then
      None
    else
      var t := s[..|s| - 1];
      var r := CharIndex(t, pos);
      assert s[..|s|] == s;
      if r.Some? then
        OffsetInPrefix(s, |s| - 1, r.value);
        r
      else
        OffsetsInPrefix(s);
        r
  }

  lemma OffsetsInPrefix(s: string)
    requires s != []
    ensures forall i :: 0 <= i <= |s| - 1 ==> Offset(s[..|s| - 1], i) == Offset(s, i)
  {
    forall i | 0 <= i <= |s| - 1 ensures Offset(s[..|s| - 1], i) == Offset(s, i) {
      OffsetInPrefix(s, |s| - 1, i);
    }
  }

  predicate IsCharBoundary(s: string, pos: nat)
  {
    CharIndex(s, pos).Some?
  }
}
