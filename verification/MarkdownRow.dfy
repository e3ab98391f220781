/** Splitting one row of a Markdown table into its cells. */
module MarkdownRow {
  import opened Escapes
  import opened Lists
  import opened Pieces
  import opened PythonText

  // ---------- Padding ----------

  lemma TrimPadded(c: string)
    requires Trimmed(c)
    ensures Trim(" " + c + " ") == c
  {
    var s := " " + c + " ";
    var d := TrimStartDrops(s);
    var t := s[d..];
    var n := TrimEndKeeps(t);
    assert c != "" ==> s[1] == c[0] && s[|c|] == c[|c| - 1];
    if c == "" {
      assert d == 2 by { assert s[0] == s[1] == ' '; }
    } else {
      assert d == 1;
      assert t == c + " ";
      assert t[|c| - 1] == c[|c| - 1] && t[|c|] == ' ';
      assert n == |c|;
    }
  }

  // ---------- The row as a forward automaton reads it ----------

  predicate Separator(body: string, i: nat)
    requires i < |body|
  {
    body[i] == '|' && !Escaped(body, i)
  }

  function Separators(body: string): nat -> bool {
    (i: nat) => i < |body| && Separator(body, i)
  }

  ghost predicate NoSeparator(s: string) {
    NoCut(Separators(s), 0, |s|)
  }

  /** The text between separators, from `start` on. */
  function Segments(body: string, start: nat): (segments: seq<string>)
    requires start <= |body|
    ensures segments != []
  {
    Cut(body, Separators(body), start)
  }

  function TrimAll(segments: seq<string>): seq<string> {
    seq(|segments|, i requires 0 <= i < |segments| => Trim(segments[i]))
  }

  predicate IsRow(row: string) {
    row != "" && row[0] == '|' && row[|row| - 1] == '|'
  }

  /** The row without its outer pipes, which may be one and the same. */
  function Body(row: string): string
    requires IsRow(row)
  {
    if |row| == 1 then "" else row[1..|row| - 1]
  }

  function Cells(line: string): seq<string> {
    var row := Trim(line);
    if IsRow(row) then TrimAll(Segments(Body(row), 0)) else []
  }

  // ---------- The loops ----------

  /** The backward count of backslashes is odd exactly where the forward automaton says "escaped". */
  method CountBackslashes(body: string, index: nat) returns (backslashes: nat)
    requires index <= |body|
    ensures backslashes % 2 == 1 <==> Escaped(body, index)
  {
    backslashes := 0;
    var cursor := index - 1;
    while cursor >= 0 && body[cursor] == '\\'
      invariant -1 <= cursor < index && cursor + backslashes == index - 1
      invariant Escaped(body, index) <==> (backslashes % 2 == 0) == Escaped(body, cursor + 1)
    {
      backslashes := backslashes + 1;
      cursor := cursor - 1;
    }
  }

  method SplitMarkdownRow(line: string) returns (cells: seq<string>)
    ensures cells == Cells(line)
  {
    var stripped := Trim(line);
    if !IsRow(stripped) {
      return [];
    }
    cells := SplitBody(Body(stripped));
  }

  method SplitBody(body: string) returns (cells: seq<string>)
    ensures cells == TrimAll(Segments(body, 0))
  {
    cells := [];
    var start := 0;
    ghost var whole, rest := TrimAll(Segments(body, 0)), TrimAll(Segments(body, 0));
    for index := 0 to |body|
      invariant 0 <= start <= index && NoCut(Separators(body), start, index)
      invariant rest == TrimAll(Segments(body, start))
      invariant whole == cells + rest
    {
      if body[index] != '|' {
        continue;
      }
      var backslashes := CountBackslashes(body, index);
      if backslashes % 2 == 0 {
        rest := CellEnds(body, start, index, cells, rest);
        cells := cells + [Trim(body[start..index])];
        start := index + 1;
      }
    }
    LastCell(body, start);
    cells := cells + [Trim(body[start..])];
  }

  lemma TrimAllUnfolds(segment: string, segments: seq<string>)
    ensures TrimAll([segment] + segments) == [Trim(segment)] + TrimAll(segments)
  {
  }

  lemma CellEnds(body: string, start: nat, n: nat, cells: seq<string>, rest: seq<string>) returns (rest': seq<string>)
    requires start <= n < |body| && Separator(body, n) && NoCut(Separators(body), start, n)
    requires rest == TrimAll(Segments(body, start))
    ensures rest' == TrimAll(Segments(body, n + 1))
    ensures cells + rest == (cells + [Trim(body[start..n])]) + rest'
  {
    CutOnce(body, Separators(body), start, n);
    TrimAllUnfolds(body[start..n], Segments(body, n + 1));
    rest' := TrimAll(Segments(body, n + 1));
  }

  lemma LastCell(body: string, start: nat)
    requires start <= |body| && NoCut(Separators(body), start, |body|)
    ensures TrimAll(Segments(body, start)) == [Trim(body[start..])]
  {
    CutNowhere(body, Separators(body), start);
  }

  // ---------- Nothing is lost between the pipes ----------

  /** The untrimmed segments, rejoined with pipes, are the text. */
  lemma SegmentsRejoin(body: string, start: nat)
    requires start <= |body|
    ensures Join(Segments(body, start), '|') == body[start..]
  {
    CutRejoins(body, Separators(body), '|', start);
  }

  lemma {:induction false} EscapedInPrefix(s: string, n: nat, j: nat)
    requires j <= n <= |s|
    ensures Escaped(s[..n], j) <==> Escaped(s, j)
  {
    if j == 0 {
    } else {
      EscapedInPrefix(s, n, j - 1);
    }
  }

  /** A slice that starts at an unescaped position reads its separators as the whole text does. */
  lemma SeparatorInSlice(s: string, d: nat, n: nat, i: nat)
    requires d + i < n <= |s| && !Escaped(s, d)
    ensures Separator(s[d..n], i) <==> Separator(s, d + i)
  {
    assert s[d..][..n - d] == s[d..n];
    EscapedInPrefix(s[d..], n - d, i);
    EscapedShifts(s, d, i);
  }

  lemma SliceKeepsNoSeparator(s: string, d: nat, n: nat)
    requires d <= n <= |s| && !Escaped(s, d) && NoCut(Separators(s), d, n)
    ensures NoSeparator(s[d..n])
  {
    forall i: nat | i < n - d
      ensures !Separators(s[d..n])(i)
    {
      SeparatorInSlice(s, d, n, i);
      assert !Separators(s)(d + i);
    }
  }

  ghost function WithoutSeparator(): string -> bool {
    (s: string) => NoSeparator(s)
  }

  /** No segment holds a separator. */
  lemma SegmentsHoldNoSeparator(body: string, start: nat)
    requires start <= |body| && !Escaped(body, start)
    ensures forall k :: 0 <= k < |Segments(body, start)| ==> NoSeparator(Segments(body, start)[k])
  {
    forall i: nat, k: nat | i <= k <= |body| && (i == start || (0 < i && Separators(body)(i - 1)))
                            && NoCut(Separators(body), i, k)
      ensures WithoutSeparator()(body[i..k])
    {
      SliceKeepsNoSeparator(body, i, k);
    }
    EachPiece(body, Separators(body), start, WithoutSeparator());
    assert forall k :: 0 <= k < |Segments(body, start)| ==> WithoutSeparator()(Segments(body, start)[k]);
  }

  lemma SeparatorShifts(body: string, d: nat, i: nat)
    requires d + i < |body| && !Escaped(body, d)
    ensures Separator(body[d..], i) <==> Separator(body, d + i)
  {
    EscapedShifts(body, d, i);
  }

  lemma SeparatorsShift(body: string, d: nat)
    requires d <= |body| && !Escaped(body, d)
    ensures forall i: nat :: i < |body| - d ==> Separators(body[d..])(i) == Separators(body)(d + i)
  {
    var before, after := Separators(body), Separators(body[d..]);
    forall i: nat | i < |body| - d
      ensures after(i) == before(d + i)
    {
      SeparatorShifts(body, d, i);
    }
  }

  /** Reading restarts after each separator: nothing escapes across a pipe. */
  lemma SegmentsShift(body: string, d: nat)
    requires d <= |body| && !Escaped(body, d)
    ensures Segments(body[d..], 0) == Segments(body, d)
  {
    SeparatorsShift(body, d);
    CutShifts(body, Separators(body), d, body[d..], Separators(body[d..]), 0, d);
  }

  // ---------- Round trip ----------

  /** A cell as it can stand in a row: trimmed, every pipe in it escaped. */
  ghost predicate IsCell(c: string) {
    Trimmed(c) && NoSeparator(c)
  }

  ghost predicate AllCells(cells: seq<string>) {
    forall k :: 0 <= k < |cells| ==> IsCell(cells[k])
  }

  /** Each cell between spaces and followed by a pipe. */
  function PrintCells(cells: seq<string>): string {
    if cells == [] then "" else (" " + cells[0] + " ") + ("|" + PrintCells(cells[1..]))
  }

  function PrintRow(cells: seq<string>): string {
    "|" + PrintCells(cells)
  }

  lemma TrimKeepsNoSeparator(s: string)
    requires NoSeparator(s)
    ensures NoSeparator(Trim(s))
  {
    var d := TrimStartDrops(s);
    SliceKeepsNoSeparator(s, d, |s|);
    assert s[d..|s|] == s[d..];
    var n := TrimEndKeeps(s[d..]);
    SliceKeepsNoSeparator(s[d..], 0, n);
    assert s[d..][0..n] == s[d..][..n];
  }

  /** Everything the splitter returns can stand in a row. */
  lemma CellsAreCells(line: string)
    ensures AllCells(Cells(line))
  {
    var row := Trim(line);
    if IsRow(row) {
      SegmentsAreCells(Body(row));
    }
  }

  lemma SegmentsAreCells(body: string)
    ensures AllCells(TrimAll(Segments(body, 0)))
  {
    var segments := Segments(body, 0);
    SegmentsHoldNoSeparator(body, 0);
    forall k | 0 <= k < |segments|
      ensures IsCell(TrimAll(segments)[k])
    {
      TrimTrims(segments[k]);
      TrimKeepsNoSeparator(segments[k]);
    }
  }

  /** A padded cell holds no separator and does not escape what follows it. */
  lemma PaddedCell(c: string, s: string)
    requires NoSeparator(c) && |s| >= |c| + 2 && s[0] == s[|c| + 1] == ' ' && s[1..|c| + 1] == c
    ensures !Escaped(s, |c| + 2) && NoCut(Separators(s), 0, |c| + 2)
  {
    forall i: nat | 1 <= i <= |c|
      ensures !Separator(s, i)
    {
      SeparatorInSlice(s, 1, |c| + 1, i - 1);
      assert !Separators(c)(i - 1);
    }
  }

  lemma PaddedCellAt(c: string, padded: string, body: string)
    requires NoSeparator(c) && padded == " " + c + " " && padded <= body
    ensures !Escaped(body, |padded|) && NoCut(Separators(body), 0, |padded|)
  {
    assert body[0] == padded[0] && body[|c| + 1] == padded[|c| + 1];
    assert body[1..|c| + 1] == padded[1..|c| + 1] == c;
    PaddedCell(c, body);
  }

  lemma PrintUnfolds(cells: seq<string>, padded: string, tail: string)
    requires cells != [] && padded == " " + cells[0] + " " && tail == PrintCells(cells[1..])
    ensures PrintCells(cells) == padded + ("|" + tail)
    ensures |cells| == 1 <==> tail == ""
    ensures tail != "" ==> tail[|tail| - 1] == '|'
  {
    if |cells| > 1 {
      PrintEndsWithPipe(cells[1..]);
    }
  }

  /** The text of a printed row is the first padded cell, or that cell, a pipe and the text of the rest. */
  lemma PrintedBody(printed: string, body: string, padded: string, tail: string)
    requires printed == padded + ("|" + tail) && printed == body + "|"
    requires tail != "" ==> tail[|tail| - 1] == '|'
    ensures tail == "" ==> body == padded
    ensures tail != "" ==> |body| > |padded| && body == padded + "|" + body[|padded| + 1..]
    ensures tail != "" ==> tail == body[|padded| + 1..] + "|"
  {
    WithoutLast(padded, "|" + tail, body);
    if tail != "" {
      BodyOfTail(padded, tail, body);
    }
  }

  lemma WithoutLast(front: string, back: string, body: string)
    requires back != "" && front + back == body + "|"
    ensures body == front + back[..|back| - 1]
  {
    assert (front + back)[..|front + back| - 1] == body;
  }

  lemma BodyOfTail(padded: string, tail: string, body: string)
    requires tail != "" && tail[|tail| - 1] == '|' && body == padded + ("|" + tail)[..|tail|]
    ensures |body| > |padded| && body == padded + "|" + body[|padded| + 1..] && tail == body[|padded| + 1..] + "|"
  {
    var rest := tail[..|tail| - 1];
    assert ("|" + tail)[..|tail|] == "|" + rest;
    assert body == padded + "|" + rest && body[|padded| + 1..] == rest;
    SplitLast(tail);
  }

  lemma {:induction false} PrintedSegments(cells: seq<string>, body: string)
    requires cells != [] && AllCells(cells)
    requires PrintCells(cells) == body + "|"
    ensures TrimAll(Segments(body, 0)) == cells
  {
    var padded := " " + cells[0] + " ";
    var n := |padded|;
    TrimPadded(cells[0]);
    PrintUnfolds(cells, padded, PrintCells(cells[1..]));
    PrintedBody(PrintCells(cells), body, padded, PrintCells(cells[1..]));
    PaddedCellAt(cells[0], padded, body);
    if |cells| == 1 {
      LastCell(body, 0);
      assert body[0..] == padded;
    } else {
      var rest := body[n + 1..];
      PrintedSegments(cells[1..], rest);
      SegmentsShift(body, n + 1);
      FirstCell(body, n, padded);
      assert cells == [cells[0]] + cells[1..];
    }
  }

  lemma FirstCell(body: string, n: nat, cell: string)
    requires n < |body| && Separator(body, n) && NoCut(Separators(body), 0, n) && cell == body[..n]
    ensures TrimAll(Segments(body, 0)) == [Trim(cell)] + TrimAll(Segments(body, n + 1))
  {
    CutOnce(body, Separators(body), 0, n);
    assert body[0..n] == cell;
    TrimAllUnfolds(cell, Segments(body, n + 1));
  }

  lemma {:induction false} PrintEndsWithPipe(cells: seq<string>)
    requires cells != []
    ensures var printed := PrintCells(cells); |printed| > 2 && printed[|printed| - 1] == '|'
  {
    if |cells| == 1 {
    } else {
      PrintEndsWithPipe(cells[1..]);
    }
  }

  /** Splitting a printed row gives back its cells. */
  lemma SplitUndoesPrint(cells: seq<string>)
    requires cells != [] && AllCells(cells)
    ensures Cells(PrintRow(cells)) == cells
  {
    var printed := PrintCells(cells);
    PrintEndsWithPipe(cells);
    SplitLast(printed);
    PrintedSegments(cells, printed[..|printed| - 1]);
    CellsOfBody(PrintRow(cells), printed[..|printed| - 1]);
  }

  lemma CellsOfBody(row: string, body: string)
    requires row == "|" + (body + "|")
    ensures Cells(row) == TrimAll(Segments(body, 0))
  {
    assert row[0] == '|' && row[|row| - 1] == '|';
    TrimmedIsFixed(row);
    assert Body(row) == body;
  }

  /** The lists of cells a row can hold are exactly the non-empty lists of printable cells, and
      printing a split row and splitting again changes nothing. */
  lemma CellsAreExactlyThePrintable(cells: seq<string>)
    requires cells != []
    ensures AllCells(cells) <==> exists line :: Cells(line) == cells
  {
    if AllCells(cells) {
      SplitUndoesPrint(cells);
    }
    if line :| Cells(line) == cells {
      CellsAreCells(line);
    }
  }

  /** A line gives no cells exactly when, stripped, it does not start and end with a pipe. */
  lemma NoCellsIff(line: string)
    ensures Cells(line) == [] <==> !("|" <= Trim(line) && exists front :: Trim(line) == front + "|")
  {
    var row := Trim(line);
    if row != "" && row[|row| - 1] == '|' {
      assert row == row[..|row| - 1] + "|";
    }
  }

  /** The cells are those of the text between the first and the last pipe of the stripped line. */
  lemma CellsAreBetweenThePipes(line: string, body: string)
    requires Trim(line) == "|" + body + "|"
    ensures Cells(line) == TrimAll(Segments(body, 0))
  {
    assert Trim(line) == "|" + (body + "|");
    TrimTrims(line);
    TrimmedIsFixed(Trim(line));
    CellsOfBody(Trim(line), body);
    assert Cells(Trim(line)) == Cells(line);
  }
}
