/** Rows of a document: where its line breaks are and what its lines say. */
module TextRows {
  import opened Texts

  function Newlines(chars: string): (n: nat)
    ensures n <= |chars|
  {
    if chars == [] then 0
    else Newlines(chars[..|chars| - 1]) + (if chars[|chars| - 1] == '\n' then 1 else 0)
  }

  /** The row an offset lies in. */
  function RowOf(chars: string, offset: nat): nat
    requires offset <= |chars|
  {
    Newlines(chars[..offset])
  }

  /** How far into its row an offset lies. */
  function ColOf(chars: string, offset: nat): (col: nat)
    requires offset <= |chars|
    ensures col <= offset
    ensures col == 0 <==> AtLineStart(chars, offset)
  {
    if AtLineStart(chars, offset) then 0 else ColOf(chars, offset - 1) + 1
  }

  predicate AtLineStart(chars: string, offset: nat)
    requires offset <= |chars|
  {
    offset == 0 || chars[offset - 1] == '\n'
  }

  /** Rows a reader sees: a final line break does not open another one. */
  function VisibleLines(chars: string): nat {
    Newlines(chars) + (if chars != [] && chars[|chars| - 1] != '\n' then 1 else 0)
  }

  // -------------------------------------------------------------- counting

  lemma {:induction false} NewlinesConcat(front: string, back: string)
    ensures Newlines(front + back) == Newlines(front) + Newlines(back)
  {
    if back == [] {
      assert front + back == front;
    } else {
      var n := |back| - 1;
      assert (front + back)[..|front| + n] == front + back[..n];
      NewlinesConcat(front, back[..n]);
    }
  }

  lemma {:induction false} RowsBetween(chars: string, lo: nat, hi: nat)
    requires lo <= hi <= |chars|
    ensures RowOf(chars, hi) == RowOf(chars, lo) + Newlines(chars[lo..hi])
  {
    assert chars[..hi] == chars[..lo] + chars[lo..hi];
    NewlinesConcat(chars[..lo], chars[lo..hi]);
  }

  lemma {:induction false} SomeNewline(chars: string, at: nat)
    requires at < |chars| && chars[at] == '\n'
    ensures Newlines(chars) > 0
  {
    assert chars == chars[..at] + chars[at..at + 1] + chars[at + 1..];
    NewlinesConcat(chars[..at] + chars[at..at + 1], chars[at + 1..]);
    NewlinesConcat(chars[..at], chars[at..at + 1]);
    assert chars[at..at + 1][..0] == [];
  }

  /** Any offset inside the text lies in a visible row. */
  lemma {:induction false} OffsetIsVisible(chars: string, offset: nat)
    requires offset < |chars|
    ensures RowOf(chars, offset) < VisibleLines(chars)
  {
    RowsBetween(chars, offset, |chars|);
    assert chars[..|chars|] == chars;
    if chars[|chars| - 1] == '\n' {
      assert chars[offset..|chars|][|chars| - 1 - offset] == '\n';
      SomeNewline(chars[offset..|chars|], |chars| - 1 - offset);
    }
  }

  /** The first row whose start is at or after an offset. */
  function FirstRowFrom(chars: string, offset: nat): nat
    requires offset <= |chars|
  {
    RowOf(chars, offset) + (if ColOf(chars, offset) > 0 then 1 else 0)
  }

  /** An offset further on never has an earlier first row. */
  lemma {:induction false} FirstRowAscends(chars: string, lo: nat, hi: nat)
    requires lo <= hi <= |chars|
    ensures FirstRowFrom(chars, lo) <= FirstRowFrom(chars, hi)
  {
    RowsBetween(chars, lo, hi);
    if lo < hi && chars[hi - 1] == '\n' {
      assert chars[lo..hi][hi - 1 - lo] == '\n';
      SomeNewline(chars[lo..hi], hi - 1 - lo);
    }
  }

  // ---------------------------------------------------- a row and its start

  /** Where row `row` starts. */
  function RowStart(chars: string, row: nat): (start: nat)
    requires row <= Newlines(chars)
    ensures start <= |chars| && AtLineStart(chars, start) && RowOf(chars, start) == row
  {
    if row == 0 then 0
    else if row == Newlines(chars) && chars[|chars| - 1] == '\n' then
      assert chars[..|chars|] == chars;
      |chars|
    else
      var start := RowStart(chars[..|chars| - 1], row);
      assert chars[..|chars| - 1][..start] == chars[..start];
      assert start > 0 ==> chars[..|chars| - 1][start - 1] == chars[start - 1];
      start
  }

  /** A visible row starts inside the text. */
  lemma {:induction false} StartIsInside(chars: string, row: nat)
    requires row < VisibleLines(chars)
    ensures row <= Newlines(chars) && RowStart(chars, row) < |chars|
  {
    assert chars[..|chars|] == chars;
  }

  // ----------------------------------------------------------------- lines

  /** One line, without its terminator: a carriage return counts as part of a
      line feed only when the line feed is there. */
  function LineOf(chars: string, ended: bool): string {
    if ended && chars != [] && chars[|chars| - 1] == '\r' then chars[..|chars| - 1] else chars
  }

  /** Where the last line starts. */
  function LastStart(chars: string): (start: nat)
    ensures start <= |chars|
    ensures AtLineStart(chars, start)
    ensures forall i :: start <= i < |chars| ==> chars[i] != '\n'
  {
    if chars == [] || chars[|chars| - 1] == '\n' then |chars|
    else
      var start := LastStart(chars[..|chars| - 1]);
      assert start > 0 ==> chars[start - 1] == chars[..|chars| - 1][start - 1];
      start
  }

  /** The lines of text that ends at a line break, or is empty. */
  function EndedLines(chars: string): seq<string>
    requires AtLineStart(chars, |chars|)
    decreases |chars|
  {
    if chars == [] then []
    else
      var body := chars[..|chars| - 1];
      var start := LastStart(body);
      assert AtLineStart(body, start);
      EndedLines(body[..start]) + [LineOf(body[start..], true)]
  }

  /** The lines of a text; a final line break does not open an empty one. */
  function Lines(chars: string): seq<string> {
    var start := LastStart(chars);
    EndedLines(chars[..start]) + (if start == |chars| then [] else [LineOf(chars[start..], false)])
  }

  lemma {:induction false} NoNewlines(chars: string)
    requires forall i :: 0 <= i < |chars| ==> chars[i] != '\n'
    ensures Newlines(chars) == 0
  {
    if chars != [] {
      NoNewlines(chars[..|chars| - 1]);
    }
  }

  lemma {:induction false} EndedLinesCount(chars: string)
    requires AtLineStart(chars, |chars|)
    ensures |EndedLines(chars)| == Newlines(chars)
    decreases |chars|
  {
    if chars != [] {
      var body := chars[..|chars| - 1];
      var start := LastStart(body);
      EndedLinesCount(body[..start]);
      assert body == body[..start] + body[start..];
      NewlinesConcat(body[..start], body[start..]);
      NoNewlines(body[start..]);
    }
  }

  /** A text has as many lines as it has visible rows. */
  lemma {:induction false} LinesAreVisible(chars: string)
    ensures |Lines(chars)| == VisibleLines(chars)
  {
    var start := LastStart(chars);
    EndedLinesCount(chars[..start]);
    assert chars == chars[..start] + chars[start..];
    NewlinesConcat(chars[..start], chars[start..]);
    NoNewlines(chars[start..]);
  }
}
