/**
 * The text buffer of the note editor (src/textbox.rs): a string, the cached
 * byte offsets of its line breaks, and a cursor byte offset.
 */
module TextBoxes {
  import opened Options
  import opened Utf8

  datatype CursorDirection = CursorLeft | CursorRight | CursorUp | CursorDown

  /**
   * The byte offsets of the '\n' characters of `s`, in order
   * (`char_indices().filter(..).map(..).collect()`).
   */
  function NewlineIndex(s: string): (r: seq<nat>)
    ensures forall k :: 0 <= k < |r| ==> r[k] < ByteLen(s)
  {
    if s == [] then []
    else
      var t := s[..|s| - 1];
      var rest := NewlineIndex(t);
      if s[|s| - 1] == '\n' then rest + [ByteLen(t)] else rest
  }

  /** One offset is listed per '\n' of `s`. */
  lemma {:induction false} NewlineIndexCount(s: string)
    ensures |NewlineIndex(s)| == multiset(s)['\n']
  {
    if s != [] {
      var t := s[..|s| - 1];
      assert s == t + [s[|s| - 1]];
      NewlineIndexCount(t);
    }
  }

  /** The newline offsets come in strictly increasing order. */
  lemma {:induction false} NewlineIndexSorted(s: string)
    ensures forall j, k :: 0 <= j < k < |NewlineIndex(s)| ==> NewlineIndex(s)[j] < NewlineIndex(s)[k]
  {
    if s != [] {
      NewlineIndexSorted(s[..|s| - 1]);
    }
  }

  /** `b` is listed exactly when some '\n' of `s` starts at byte `b`. */
  lemma {:induction false} NewlineIndexExact(s: string, b: nat)
    ensures b in NewlineIndex(s) <==> exists i :: 0 <= i < |s| && s[i] == '\n' && Offset(s, i) == b
  {
    if s != [] {
      var n := |s| - 1;
      var t := s[..n];
      NewlineIndexExact(t, b);
      OffsetsInPrefix(s);
      assert forall i :: 0 <= i < n ==> t[i] == s[i];
      if b in NewlineIndex(s) {
        if b in NewlineIndex(t) {
          var i :| 0 <= i < n && t[i] == '\n' && Offset(t, i) == b;
          assert s[i] == '\n' && Offset(s, i) == b;
        } else {
          assert s[n] == '\n' && Offset(s, n) == b;
        }
      }
      if exists i :: 0 <= i < |s| && s[i] == '\n' && Offset(s, i) == b {
        var i :| 0 <= i < |s| && s[i] == '\n' && Offset(s, i) == b;
        if i < n {
          assert t[i] == '\n' && Offset(t, i) == b;
        }
      }
    }
  }

  /** In ASCII text the listed offsets are exactly the indices of the '\n' characters. */
  lemma NewlineIndexAscii(s: string, i: nat)
    requires IsAscii(s)
    ensures i in NewlineIndex(s) <==> i < |s| && s[i] == '\n'
  {
    NewlineIndexExact(s, i);
    if i < |s| {
      AsciiOffset(s, i);
    }
    forall j | 0 <= j < |s| ensures Offset(s, j) == j {
      AsciiOffset(s, j);
    }
  }

  /** Appending text without a line break lists no new offset. */
  lemma {:induction false} NewlineIndexAppendPlain(s: string, w: string)
    requires '\n' !in w
    ensures NewlineIndex(s + w) == NewlineIndex(s)
    decreases |w|
  {
    if w != [] {
      var w' := w[..|w| - 1];
      assert w == w' + [w[|w| - 1]];
      assert (s + w)[..|s + w| - 1] == s + w';
      assert (s + w)[|s + w| - 1] == w[|w| - 1] != '\n';
      NewlineIndexAppendPlain(s, w');
    } else {
      assert s + w == s;
    }
  }

  /** Appending a line break lists the byte length of the text before it. */
  lemma NewlineIndexAppendBreak(s: string)
    ensures NewlineIndex(s + "\n") == NewlineIndex(s) + [ByteLen(s)]
  {
  }

  lemma AsciiByteLen(s: string)
    requires IsAscii(s)
    ensures ByteLen(s) == |s|
  {
  }

  /** A text without line breaks lists no offsets. */
  lemma NewlineIndexNone(s: string)
    requires '\n' !in s
    ensures NewlineIndex(s) == []
  {
  }

  /** A line break followed by a line: the break is listed at the current byte length. */
  lemma NewlineIndexAppendLine(s: string, w: string)
    requires '\n' !in w
    ensures NewlineIndex(s + "\n" + w) == NewlineIndex(s) + [ByteLen(s)]
  {
    NewlineIndexAppendBreak(s);
    NewlineIndexAppendPlain(s + "\n", w);
  }

  /** Four lines joined by breaks: each break is listed at the byte length of the text before it. */
  lemma NewlineIndexFourLines(a: string, b: string, c: string, d: string)
    requires '\n' !in a && '\n' !in b && '\n' !in c && '\n' !in d
    ensures NewlineIndex(a + "\n" + b + "\n" + c + "\n" + d)
         == [ByteLen(a), ByteLen(a + "\n" + b), ByteLen(a + "\n" + b + "\n" + c)]
  {
    var ab := a + "\n" + b;
    var abc := ab + "\n" + c;
    NewlineIndexNone(a);
    NewlineIndexAppendLine(a, b);
    NewlineIndexAppendLine(ab, c);
    NewlineIndexAppendLine(abc, d);
  }

  /** The unit test with three line breaks. */
  lemma NewlineIndexThreeBreaks()
    ensures NewlineIndex("Test\nfinding\nnewline\nchars") == [4, 12, 20]
  {
    var a, b, c, d := "Test", "finding", "newline", "chars";
    assert "Test\nfinding\nnewline\nchars" == a + "\n" + b + "\n" + c + "\n" + d;
    AsciiByteLen(a);
    AsciiByteLen(a + "\n" + b);
    AsciiByteLen(a + "\n" + b + "\n" + c);
    NewlineIndexFourLines(a, b, c, d);
  }

  /** The unit test without line breaks. */
  lemma NewlineIndexNoBreaks()
    ensures NewlineIndex("A String With No Newlines") == []
  {
    NewlineIndexNone("A String With No Newlines");
  }

  /**
   * `String::insert(pos, ch)`: `ch` is spliced in before the character that
   * starts at byte `pos`; Rust panics when `pos` is not a character boundary.
   */
  function InsertAt(s: string, pos: nat, ch: char): (r: string)
    requires IsCharBoundary(s, pos)
    ensures |r| == |s| + 1 && ByteLen(r) == ByteLen(s) + Width(ch)
    ensures CharIndex(r, pos) == CharIndex(s, pos) && r[CharIndex(s, pos).value] == ch
    ensures var k := CharIndex(s, pos).value; r[..k] + r[k + 1..] == s
  {
    var k := CharIndex(s, pos).value;
    var r := s[..k] + [ch] + s[k..];
    assert r[..k] == s[..k] && r[..k] + r[k + 1..] == s;
    assert s == s[..k] + s[k..];
    ByteLenConcat(s[..k] + [ch], s[k..]);
    ByteLenConcat(s[..k], s[k..]);
    ByteLenAppend(s[..k], ch);
    assert Offset(r, k) == Offset(s, k);
    CharIndexUnique(r, k, pos);
    r
  }

  /** The character that starts at a given byte offset is unique. */
  lemma CharIndexUnique(s: string, k: nat, pos: nat)
    requires k <= |s| && Offset(s, k) == pos
    ensures CharIndex(s, pos) == Some(k)
  {
    var r := CharIndex(s, pos);
    if r.value < k {
      OffsetStrictlyIncreasing(s, r.value, k);
    } else if r.value > k {
      OffsetStrictlyIncreasing(s, k, r.value);
    }
  }

  /** In ASCII text every position up to the length is a boundary, and insertion is a plain splice. */
  lemma InsertAtAscii(s: string, pos: nat, ch: char)
    requires IsAscii(s) && pos <= |s|
    ensures IsCharBoundary(s, pos)
    ensures InsertAt(s, pos, ch) == s[..pos] + [ch] + s[pos..]
  {
    AsciiOffset(s, pos);
    CharIndexUnique(s, pos, pos);
  }

  class TextBox {
    var text: string
    /** Cached byte offsets of the line breaks (`line_indices`). */
    var lineIndices: seq<nat>
    /** Cursor byte offset (`cursor_pos`); nothing in the source moves it. */
    var cursorPos: nat

    constructor ()
      ensures text == [] && lineIndices == [] && cursorPos == 0
    {
      text := [];
      lineIndices := [];
      cursorPos := 0;
    }

    method UpdateLineIndices()
      modifies this
      ensures lineIndices == NewlineIndex(text)
      ensures text == old(text) && cursorPos == old(cursorPos)
    {
      lineIndices := NewlineIndex(text);
    }

    method InsertChar(pos: nat, ch: char)
      requires IsCharBoundary(text, pos)
      modifies this
      ensures text == InsertAt(old(text), pos, ch)
      ensures lineIndices == old(lineIndices) && cursorPos == old(cursorPos)
    {
      text := InsertAt(text, pos, ch);
    }

    method InsertNewline()
      requires IsCharBoundary(text, cursorPos)
      modifies this
      ensures text == InsertAt(old(text), old(cursorPos), '\n')
      ensures lineIndices == old(lineIndices) && cursorPos == old(cursorPos)
    {
      InsertChar(cursorPos, '\n');
    }

    /** Every direction is an empty match arm: the box is left as it is. */
    method MoveCursor(direction: CursorDirection)
      modifies this
      ensures unchanged(this)
    {
      match direction
      case CursorLeft =>
      case CursorRight =>
      case CursorDown =>
      case CursorUp =>
    }
  }

  /**
   * A client: typing "ab" at the end and then a line break. The cursor never
   * moves, so the break lands at offset 0 and becomes the only line index.
   */
  method TypeThenBreakLine() returns (text: string, lines: seq<nat>)
    ensures text == "\nab" && lines == [0]
  {
    var box := new TextBox();
    InsertAtAscii([], 0, 'a');
    box.InsertChar(0, 'a');
    assert box.text == "a";
    InsertAtAscii("a", 1, 'b');
    box.InsertChar(1, 'b');
    assert box.text == "ab";
    InsertAtAscii("ab", 0, '\n');
    box.InsertNewline();
    assert box.text == "\nab";
    NewlineIndexAppendPlain("\n", "ab");
    NewlineIndexAppendBreak([]);
    assert [] + "\n" == "\n";
    box.UpdateLineIndices();
    text, lines := box.text, box.lineIndices;
  }
}
