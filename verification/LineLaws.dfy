/** What the lines of a text are, and what a comparison of two texts says about
    their rows. */
module LineLaws {
  import opened Wrappers
  import opened Alignments
  import opened TextRows
  import opened Scripts
  import opened DiffSessions
  import Align

  // ------------------------------------------------------------ row by row

  /** The first line break at or after `from`, or the end of the text. */
  function BreakFrom(chars: string, from: nat): (end: nat)
    requires from <= |chars|
    ensures from <= end <= |chars|
    ensures forall i :: from <= i < end ==> chars[i] != '\n'
    ensures end < |chars| ==> chars[end] == '\n'
    decreases |chars| - from
  {
    if from == |chars| || chars[from] == '\n' then from else BreakFrom(chars, from + 1)
  }

  /** What a row says: the characters from its start to its line break, without
      a carriage return right before the break. */
  function RowText(chars: string, row: nat): (text: string)
    requires row < VisibleLines(chars)
    ensures '\n' !in text
  {
    StartIsInside(chars, row);
    var start := RowStart(chars, row);
    var end := BreakFrom(chars, start);
    if start < end < |chars| && chars[end - 1] == '\r' then chars[start..end - 1] else chars[start..end]
  }

  lemma {:induction false} LaterStartsAreLowerRows(chars: string, one: nat, other: nat)
    requires one < other <= |chars| && AtLineStart(chars, other)
    ensures RowOf(chars, one) < RowOf(chars, other)
  {
    RowsBetween(chars, one, other);
    assert chars[one..other][other - 1 - one] == '\n';
    SomeNewline(chars[one..other], other - 1 - one);
  }

  lemma {:induction false} RowStartIs(chars: string, row: nat, start: nat)
    requires row <= Newlines(chars) && start <= |chars| && AtLineStart(chars, start) && RowOf(chars, start) == row
    ensures RowStart(chars, row) == start
  {
    if RowStart(chars, row) < start {
      LaterStartsAreLowerRows(chars, RowStart(chars, row), start);
    } else if start < RowStart(chars, row) {
      LaterStartsAreLowerRows(chars, start, RowStart(chars, row));
    }
  }

  lemma {:induction false} VisibleIsMore(chars: string)
    ensures Newlines(chars) <= VisibleLines(chars)
  {
  }

  /** A row above a row start says the same if the text is cut off there. */
  lemma {:induction false} RowAboveSaysTheSame(chars: string, cut: nat, row: nat)
    requires cut <= |chars| && AtLineStart(chars, cut) && row < Newlines(chars[..cut])
    ensures row < VisibleLines(chars[..cut]) && row < VisibleLines(chars)
    ensures RowText(chars, row) == RowText(chars[..cut], row)
  {
    hide Newlines, RowStart, VisibleLines;
    VisibleIsMore(chars);
    VisibleIsMore(chars[..cut]);
    var front := chars[..cut];
    assert chars == front + chars[cut..];
    NewlinesConcat(front, chars[cut..]);
    var start := RowStart(front, row);
    assert front[..start] == chars[..start];
    RowStartIs(chars, row, start);
    StartIsInside(front, row);
    assert front[cut - 1] == '\n';
    assert BreakFrom(front, start) == BreakFrom(chars, start);
    assert forall i, j :: 0 <= i <= j <= cut ==> front[i..j] == chars[i..j];
  }

  lemma {:induction false} LastEndedRow(chars: string, start: nat)
    requires chars != [] && chars[|chars| - 1] == '\n' && start < |chars|
    requires forall i :: start <= i < |chars| - 1 ==> chars[i] != '\n'
    ensures Newlines(chars) == Newlines(chars[..start]) + 1
  {
    var body := chars[..|chars| - 1];
    assert body[..start] == chars[..start];
    assert body == body[..start] + body[start..];
    NewlinesConcat(body[..start], body[start..]);
    NoNewlines(body[start..]);
  }

  lemma {:induction false} LastEndedLine(chars: string, start: nat)
    requires chars != [] && chars[|chars| - 1] == '\n' && start < |chars| && AtLineStart(chars, start)
    requires forall i :: start <= i < |chars| - 1 ==> chars[i] != '\n'
    ensures Newlines(chars) == Newlines(chars[..start]) + 1
    ensures Newlines(chars[..start]) < VisibleLines(chars)
    ensures RowText(chars, Newlines(chars[..start])) == LineOf(chars[start..|chars| - 1], true)
  {
    hide Newlines, RowStart;
    LastEndedRow(chars, start);
    VisibleIsMore(chars);
    RowStartIs(chars, Newlines(chars[..start]), start);
    assert BreakFrom(chars, start) == |chars| - 1;
    var line := chars[start..|chars| - 1];
    assert line != [] ==> line[..|line| - 1] == chars[start..|chars| - 2];
  }

  /** The last line of a text that ends with a break, and where it starts. */
  lemma {:induction false} EndedLinesUnfold(chars: string) returns (start: nat)
    requires chars != [] && AtLineStart(chars, |chars|)
    ensures start < |chars| && AtLineStart(chars, start) && AtLineStart(chars[..start], start)
    ensures |EndedLines(chars[..start])| == Newlines(chars[..start])
    ensures Newlines(chars[..start]) < VisibleLines(chars)
    ensures EndedLines(chars) == EndedLines(chars[..start]) + [RowText(chars, Newlines(chars[..start]))]
  {
    hide RowText, LineOf, Newlines;
    var body := chars[..|chars| - 1];
    start := LastStart(body);
    assert body[..start] == chars[..start] && body[start..] == chars[start..|chars| - 1];
    assert start > 0 ==> body[start - 1] == chars[start - 1];
    assert forall i :: start <= i < |body| ==> body[i] == chars[i];
    LastEndedLine(chars, start);
    EndedLinesCount(chars[..start]);
  }

  lemma {:induction false} EndedLineIs(chars: string, k: nat)
    requires AtLineStart(chars, |chars|) && k < |EndedLines(chars)|
    ensures k < VisibleLines(chars) && EndedLines(chars)[k] == RowText(chars, k)
    decreases |chars|
  {
    hide RowText, Newlines, VisibleLines, BreakFrom, RowStart, LineOf, LastStart;
    assert chars != [];
    var start := EndedLinesUnfold(chars);
    hide EndedLines;
    if k < |EndedLines(chars[..start])| {
      EndedLineIs(chars[..start], k);
      RowAboveSaysTheSame(chars, start, k);
    }
  }

  /** Line `k` of a text is what its row `k` says. */
  lemma {:induction false} LineIsRowText(chars: string, k: nat)
    requires k < |Lines(chars)|
    ensures k < VisibleLines(chars) && Lines(chars)[k] == RowText(chars, k)
  {
    LinesAreVisible(chars);
    var start := LastStart(chars);
    EndedLinesCount(chars[..start]);
    if k < |EndedLines(chars[..start])| {
      EndedLineIs(chars[..start], k);
      RowAboveSaysTheSame(chars, start, k);
    } else {
      assert chars == chars[..start] + chars[start..];
      NewlinesConcat(chars[..start], chars[start..]);
      NoNewlines(chars[start..]);
      RowStartIs(chars, k, start);
      assert BreakFrom(chars, start) == |chars|;
    }
  }

  // ---------------------------------------------------------- written out

  /** The text without the carriage returns that stand right before a break. */
  function Bare(chars: string): string {
    if chars == [] then []
    else
      var n := |chars| - 1;
      if chars[n] == '\n' && n > 0 && chars[n - 1] == '\r' then Bare(chars[..n - 1]) + "\n"
      else Bare(chars[..n]) + [chars[n]]
  }

  /** Lines one after another, each with its line break; the last only if the
      text ends with one. */
  function WrittenOut(lines: seq<string>, ended: bool): string {
    if lines == [] then ""
    else WrittenOut(lines[..|lines| - 1], true) + lines[|lines| - 1] + if ended then "\n" else ""
  }

  lemma {:induction false} BareSnoc(chars: string, last: char)
    requires last == '\n' && chars != [] ==> chars[|chars| - 1] != '\r'
    ensures Bare(chars + [last]) == Bare(chars) + [last]
  {
    assert (chars + [last])[..|chars|] == chars;
  }

  lemma {:induction false} BareBreak(chars: string)
    ensures Bare(chars + "\r\n") == Bare(chars) + "\n"
  {
    assert (chars + "\r\n")[..|chars|] == chars;
  }

  lemma {:induction false} BareConcat(front: string, back: string)
    requires AtLineStart(front, |front|)
    ensures Bare(front + back) == Bare(front) + Bare(back)
    decreases |back|
  {
    hide Bare;
    var n := |back| - 1;
    if back == [] {
      assert front + back == front;
      BareNothing();
    } else if n > 0 && back[n] == '\n' && back[n - 1] == '\r' {
      assert back == back[..n - 1] + "\r\n";
      assert front + back == (front + back[..n - 1]) + "\r\n";
      BareConcat(front, back[..n - 1]);
      BareBreak(back[..n - 1]);
      BareBreak(front + back[..n - 1]);
    } else {
      assert back == back[..n] + [back[n]];
      assert front + back == (front + back[..n]) + [back[n]];
      BareConcat(front, back[..n]);
      BareSnoc(back[..n], back[n]);
      BareSnoc(front + back[..n], back[n]);
    }
  }

  lemma {:induction false} BareNothing()
    ensures Bare([]) == []
  {
  }

  lemma {:induction false} NothingToBare(chars: string)
    requires forall i :: 0 < i < |chars| && chars[i] == '\n' ==> chars[i - 1] != '\r'
    ensures Bare(chars) == chars
  {
    if chars != [] {
      NothingToBare(chars[..|chars| - 1]);
    }
  }

  lemma {:induction false} BareLine(line: string)
    requires '\n' !in line
    ensures Bare(line + "\n") == LineOf(line, true) + "\n" && Bare(line) == line
  {
    NothingToBare(line);
    var n := |line|;
    assert (line + "\n")[..n] == line;
    if n > 0 {
      assert (line + "\n")[..n - 1] == line[..n - 1];
      NothingToBare(line[..n - 1]);
    }
  }

  lemma {:induction false} WrittenOutSnoc(lines: seq<string>, line: string, ended: bool)
    ensures WrittenOut(lines + [line], ended) == WrittenOut(lines, true) + line + if ended then "\n" else ""
  {
    assert (lines + [line])[..|lines|] == lines;
  }

  lemma {:induction false} EndedLinesWriteOut(chars: string)
    requires AtLineStart(chars, |chars|)
    ensures WrittenOut(EndedLines(chars), true) == Bare(chars)
    decreases |chars|
  {
    hide Bare, WrittenOut, LineOf;
    if chars == [] {
      NothingWrittenOut();
    } else {
      var body := chars[..|chars| - 1];
      var start := LastStart(body);
      EndedLinesWriteOut(body[..start]);
      BareLine(body[start..]);
      BareConcat(body[..start], body[start..] + "\n");
      assert chars == body[..start] + (body[start..] + "\n");
      WrittenOutSnoc(EndedLines(body[..start]), LineOf(body[start..], true), true);
    }
  }

  lemma {:induction false} NothingWrittenOut()
    ensures WrittenOut([], true) == WrittenOut([], false) == Bare([]) == []
  {
  }

  /** Written out again, the lines of a text are the text, but for carriage
      returns in front of line breaks. */
  lemma {:induction false} LinesWriteOut(chars: string)
    ensures WrittenOut(Lines(chars), chars != [] && chars[|chars| - 1] == '\n') == Bare(chars)
    ensures '\r' !in chars ==> Bare(chars) == chars
    ensures forall k :: 0 <= k < |Lines(chars)| ==> '\n' !in Lines(chars)[k]
  {
    if '\r' !in chars {
      NothingToBare(chars);
    }
    forall k | 0 <= k < |Lines(chars)| ensures '\n' !in Lines(chars)[k] {
      LineIsRowText(chars, k);
    }
    hide Bare;
    NothingWrittenOut();
    var start := LastStart(chars);
    EndedLinesWriteOut(chars[..start]);
    if start == |chars| {
      assert chars[..start] == chars;
      assert Lines(chars) == EndedLines(chars);
    } else {
      BareLine(chars[start..]);
      BareConcat(chars[..start], chars[start..]);
      assert chars == chars[..start] + chars[start..];
      WrittenOutSnoc(EndedLines(chars[..start]), chars[start..], false);
    }
  }
}
