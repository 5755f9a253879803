/**
 * Reading the response body: a buffered reader hands out the body line by
 * line (a line ends at `\n`, at `\r`, or at `\r\n`, and the terminator is not
 * part of the line), and every line is appended to one buffer with no
 * separator. The text is the body already decoded; the byte decoding is not
 * part of this model.
 */
module Fetch {
  import opened Wrappers
  import opened Strings

  /** The characters that end a line. */
  predicate IsTerminator(c: char)
  {
    c == '\n' || c == '\r'
  }

  /** The characters that can occur inside a line. */
  predicate IsLineChar(c: char)
  {
    !IsTerminator(c)
  }

  /** `s` holds no line terminator. */
  predicate NoTerminator(s: string)
  {
    forall i :: 0 <= i < |s| ==> IsLineChar(s[i])
  }

  /** Where the next line starts, given that the current one ends at `e`: after `\r\n`, after a lone `\r` or `\n`, or at the end. */
  function NextLineStart(text: string, e: nat): (next: nat)
    requires e <= |text|
    ensures e < next <= |text| || next == e == |text|
  {
    if e == |text| then e
    else if text[e] == '\r' && e + 1 < |text| && text[e + 1] == '\n' then e + 2
    else e + 1
  }

  /** The lines a reader returns for `text`, one per call, before it reports the end. */
  function Lines(text: string): (lines: seq<string>)
    ensures |lines| <= |text|
    decreases |text|
  {
    if text == [] then []
    else
      var e := FirstWhere(IsTerminator, text);
      [text[..e]] + Lines(text[NextLineStart(text, e)..])
  }

  /** No line a reader returns holds a terminator. */
  lemma {:induction false} LinesHaveNoTerminator(text: string)
    ensures forall k :: 0 <= k < |Lines(text)| ==> NoTerminator(Lines(text)[k])
    decreases |text|
  {
    if text != [] {
      var e := FirstWhere(IsTerminator, text);
      LinesHaveNoTerminator(text[NextLineStart(text, e)..]);
    }
  }

  /** Filtering a line, its terminator and what follows keeps the line and drops the terminator. */
  lemma FilterLineEnding(line: string, ending: string, rest: string)
    requires NoTerminator(line)
    requires forall i :: 0 <= i < |ending| ==> IsTerminator(ending[i])
    ensures Filter(IsLineChar, line + (ending + rest)) == line + Filter(IsLineChar, rest)
  {
    assert Filter(IsLineChar, line) == line by {
      FilterKeepsAll(IsLineChar, line);
    }
    assert Filter(IsLineChar, ending + rest) == Filter(IsLineChar, rest) by {
      FilterAppend(IsLineChar, ending, rest);
      FilterDropsAll(IsLineChar, ending);
      assert [] + Filter(IsLineChar, rest) == Filter(IsLineChar, rest);
    }
    FilterAppend(IsLineChar, line, ending + rest);
  }

  /** Joining the lines gives the text with every line terminator dropped and nothing else changed. */
  lemma {:induction false} LinesDropTerminators(text: string)
    ensures Concat(Lines(text)) == Filter(IsLineChar, text)
    decreases |text|
  {
    if text != [] {
      var e := FirstWhere(IsTerminator, text);
      var next := NextLineStart(text, e);
      var line, ending, rest := text[..e], text[e..next], text[next..];
      calc {
        Concat(Lines(text));
        Concat([line] + Lines(rest));
        { assert ([line] + Lines(rest))[1..] == Lines(rest); }
        line + Concat(Lines(rest));
        { LinesDropTerminators(rest); }
        line + Filter(IsLineChar, rest);
        { FilterLineEnding(line, ending, rest); }
        Filter(IsLineChar, line + (ending + rest));
        { assert text == line + (ending + rest); }
        Filter(IsLineChar, text);
      }
    }
  }

  /** The body is empty exactly when the text holds nothing but line terminators. */
  lemma EmptyBodyIffOnlyTerminators(text: string)
    ensures Concat(Lines(text)) == [] <==> forall i :: 0 <= i < |text| ==> IsTerminator(text[i])
  {
    LinesDropTerminators(text);
    if forall i :: 0 <= i < |text| ==> IsTerminator(text[i]) {
      FilterDropsAll(IsLineChar, text);
    } else {
      var i :| 0 <= i < |text| && !IsTerminator(text[i]);
      FilterCount(IsLineChar, text, text[i]);
      assert text[i] in multiset(text);
    }
  }

  /** A reader over the response text; `pos` is how far it has read. */
  class LineReader {
    const text: string
    var pos: nat

    ghost predicate Valid()
      reads this
    {
      pos <= |text|
    }

    /** The lines the reader has yet to return. */
    ghost function Remaining(): seq<string>
      reads this
      requires Valid()
    {
      Lines(text[pos..])
    }

    constructor (text: string)
      ensures Valid() && this.text == text && pos == 0
      ensures Remaining() == Lines(text)
    {
      this.text := text;
      pos := 0;
    }

    /** The next line without its terminator, or `None` at the end of the text. */
    method ReadLine() returns (line: Option<string>)
      requires Valid()
      modifies this
      ensures Valid()
      ensures line.None? <==> old(Remaining()) == []
      ensures line.None? ==> pos == old(pos)
      ensures line.Some? ==> line.value == old(Remaining())[0] && Remaining() == old(Remaining())[1..]
    {
      if pos == |text| {
        return None;
      }
      var rest := text[pos..];
      var e := FirstWhere(IsTerminator, rest);
      var next := NextLineStart(rest, e);
      line := Some(rest[..e]);
      assert text[pos + next..] == rest[next..];
      pos := pos + next;
    }
  }

  /**
   * Reads every line and appends it to the buffer with no separator; the
   * buffer ends up holding the lines joined, and the reader is exhausted.
   */
  method ReadBody(reader: LineReader) returns (buffer: string)
    requires reader.Valid()
    modifies reader
    ensures reader.Valid() && reader.Remaining() == []
    ensures buffer == Concat(old(reader.Remaining()))
  {
    ghost var all := reader.Remaining();
    buffer := "";
    while true
      invariant reader.Valid()
      invariant buffer + Concat(reader.Remaining()) == Concat(all)
      decreases |reader.Remaining()|
    {
      ghost var before := reader.Remaining();
      var line := reader.ReadLine();
      if line.None? {
        break;
      }
      assert Concat(before) == line.value + Concat(reader.Remaining());
      buffer := buffer + line.value;
    }
  }
}
