/** `parseCSV` of app.tsx: a permissive, line-by-line CSV reader. The text is
    cut into lines at `\r?\n`; line 0 is a header and is dropped, and so is
    every whitespace-only line. Every other line is scanned once with an
    "inside quotes" flag: a double quote only flips the flag (it never reaches
    the cell), a comma outside quotes ends a cell, anything else is kept.
    Cells are trimmed. A doubled quote `""` therefore yields nothing, unlike
    the escaped quote of section 2 of RFC 4180. */
module Csv {
  import opened Text

  // ---------------------------------------------------------------------------
  // Lines

  /** Drops one trailing carriage return: the `\r?` of the separator `\r?\n`. */
  function DropCR(s: string): string {
    if |s| > 0 && s[|s| - 1] == '\r' then s[..|s| - 1] else s
  }

  /** Position of the first line feed at or after `from`, or `|s|`. */
  function NextLF(s: string, from: nat): (k: nat)
    requires from <= |s|
    ensures from <= k <= |s|
    ensures k < |s| ==> s[k] == '\n'
    ensures forall m :: from <= m < k ==> s[m] != '\n'
    decreases |s| - from
  {
    if from == |s| || s[from] == '\n' then from else NextLF(s, from + 1)
  }

  /** `text.split(/\r?\n/)`. */
  function SplitLines(text: string): (lines: seq<string>)
    ensures |lines| >= 1
    decreases |text|
  {
    var k := NextLF(text, 0);
    if k == |text| then [text]
    else [DropCR(text[..k])] + SplitLines(text[k + 1..])
  }

  function CountChar(s: string, c: char): nat {
    if |s| == 0 then 0 else (if s[0] == c then 1 else 0) + CountChar(s[1..], c)
  }

  /** The text with every CR LF pair replaced by a single LF. */
  function CrlfToLf(s: string): string {
    if |s| == 0 then []
    else if |s| >= 2 && s[0] == '\r' && s[1] == '\n' then ['\n'] + CrlfToLf(s[2..])
    else [s[0]] + CrlfToLf(s[1..])
  }

  lemma {:induction false} CountCharAppend(a: string, b: string, c: char)
    ensures CountChar(a + b, c) == CountChar(a, c) + CountChar(b, c)
  {
    if |a| > 0 {
      assert (a + b)[1..] == a[1..] + b;
      CountCharAppend(a[1..], b, c);
    } else {
      assert a + b == b;
    }
  }

  lemma {:induction false} CountCharAbsent(s: string, c: char)
    requires forall m :: 0 <= m < |s| ==> s[m] != c
    ensures CountChar(s, c) == 0
  {
    if |s| > 0 { CountCharAbsent(s[1..], c); }
  }

  /** There is one more `SplitLines` piece than there are line feeds. */
  lemma {:induction false} SplitLinesCount(text: string)
    ensures |SplitLines(text)| == CountChar(text, '\n') + 1
    decreases |text|
  {
    var k := NextLF(text, 0);
    if k == |text| {
      CountCharAbsent(text, '\n');
    } else {
      var rest := text[k + 1..];
      SplitLinesCount(rest);
      assert text == text[..k] + [text[k]] + rest;
      CountCharAppend(text[..k] + [text[k]], rest, '\n');
      CountCharAppend(text[..k], [text[k]], '\n');
      CountCharAbsent(text[..k], '\n');
      assert CountChar([text[k]], '\n') == 1;
    }
  }

  /** No `SplitLines` piece holds a line feed. */
  lemma {:induction false} SplitLinesNoLF(text: string)
    ensures forall i, m :: 0 <= i < |SplitLines(text)| && 0 <= m < |SplitLines(text)[i]|
                           ==> SplitLines(text)[i][m] != '\n'
    decreases |text|
  {
    var k := NextLF(text, 0);
    if k < |text| {
      var rest := text[k + 1..];
      SplitLinesNoLF(rest);
      var lines := SplitLines(text);
      assert lines == [DropCR(text[..k])] + SplitLines(rest);
      forall i, m | 0 <= i < |lines| && 0 <= m < |lines[i]|
        ensures lines[i][m] != '\n'
      {
        if i == 0 {
          assert lines[0][m] == text[m];
        } else {
          assert lines[i] == SplitLines(rest)[i - 1];
        }
      }
    }
  }

  lemma {:induction false} CrlfToLfAppend(a: string, b: string)
    requires !(|a| > 0 && a[|a| - 1] == '\r' && |b| > 0 && b[0] == '\n')
    ensures CrlfToLf(a + b) == CrlfToLf(a) + CrlfToLf(b)
  {
    if |a| == 0 {
      assert a + b == b;
    } else if |a| >= 2 && a[0] == '\r' && a[1] == '\n' {
      var ab := a + b;
      assert ab[0] == '\r' && ab[1] == '\n';
      assert ab[2..] == a[2..] + b;
      CrlfToLfAppend(a[2..], b);
      assert CrlfToLf(ab) == ['\n'] + CrlfToLf(ab[2..]);
    } else {
      var ab := a + b;
      assert ab[0] == a[0];
      assert !(|ab| >= 2 && ab[0] == '\r' && ab[1] == '\n') by {
        if |a| == 1 && a[0] == '\r' {
          assert |b| == 0 || b[0] != '\n';
          assert |b| == 0 || ab[1] == b[0];
        } else if |a| >= 2 {
          assert ab[1] == a[1];
        }
      }
      assert ab[1..] == a[1..] + b;
      CrlfToLfAppend(a[1..], b);
      assert CrlfToLf(ab) == [ab[0]] + CrlfToLf(ab[1..]);
    }
  }

  lemma {:induction false} CrlfToLfNoLF(s: string)
    requires forall m :: 0 <= m < |s| ==> s[m] != '\n'
    ensures CrlfToLf(s) == s
  {
    if |s| > 0 { CrlfToLfNoLF(s[1..]); }
  }

  /** A line ended by a line feed loses the carriage return in front of it. */
  lemma CrlfToLfLine(x: string)
    requires forall m :: 0 <= m < |x| ==> x[m] != '\n'
    ensures CrlfToLf(x + "\n") == DropCR(x) + "\n"
  {
    if |x| > 0 && x[|x| - 1] == '\r' {
      CrlfToLfLineCR(x);
    } else {
      CrlfToLfLinePlain(x);
    }
  }

  lemma CrlfToLfLinePlain(x: string)
    requires forall m :: 0 <= m < |x| ==> x[m] != '\n'
    requires |x| == 0 || x[|x| - 1] != '\r'
    ensures CrlfToLf(x + "\n") == x + "\n"
  {
    CrlfToLfAppend(x, "\n");
    CrlfToLfNoLF(x);
    assert CrlfToLf("\n") == "\n";
  }

  lemma CrlfToLfLineCR(x: string)
    requires forall m :: 0 <= m < |x| ==> x[m] != '\n'
    requires |x| > 0 && x[|x| - 1] == '\r'
    ensures CrlfToLf(x + "\n") == x[..|x| - 1] + "\n"
  {
    var y := x[..|x| - 1];
    assert x + "\n" == y + "\r\n";
    CrlfToLfAppend(y, "\r\n");
    CrlfToLfNoLF(y);
    CrlfPair();
  }

  lemma CrlfPair()
    ensures CrlfToLf("\r\n") == "\n"
  {
    var s := "\r\n";
    assert |s| >= 2 && s[0] == '\r' && s[1] == '\n';
    assert s[2..] == [];
  }

  lemma {:induction false} JoinWithCons(a: string, rest: seq<string>, sep: char)
    requires |rest| > 0
    ensures JoinWith([a] + rest, sep) == a + [sep] + JoinWith(rest, sep)
    decreases |rest|
  {
    var all := [a] + rest;
    assert all[..|all| - 1] == [a] + rest[..|rest| - 1];
    if |rest| > 1 {
      JoinWithCons(a, rest[..|rest| - 1], sep);
    }
  }

  /** Joining the lines back with LF gives the text with its CR LF pairs
      turned into LF: nothing but the separators is lost. */
  lemma {:induction false} SplitLinesJoin(text: string)
    ensures JoinWith(SplitLines(text), '\n') == CrlfToLf(text)
    decreases |text|
  {
    var k := NextLF(text, 0);
    if k == |text| {
      CrlfToLfNoLF(text);
    } else {
      var x := text[..k];
      var rest := text[k + 1..];
      SplitLinesJoin(rest);
      assert text == (x + "\n") + rest;
      CrlfToLfAppend(x + "\n", rest);
      CrlfToLfLine(x);
      JoinWithCons(DropCR(x), SplitLines(rest), '\n');
    }
  }

  // ---------------------------------------------------------------------------
  // One line

  /** The loop of `parseCSV` over the characters of one line, from index `j`,
      with the flag, the cell being built and the cells already pushed. */
  function Scan(line: string, j: nat, inQuotes: bool, cell: string, cells: seq<string>): (r: seq<string>)
    requires j <= |line|
    ensures |r| > |cells| && r[..|cells|] == cells
    decreases |line| - j
  {
    if j == |line| then cells + [cell]
    else if line[j] == '"' then Scan(line, j + 1, !inQuotes, cell, cells)
    else if line[j] == ',' && !inQuotes then Scan(line, j + 1, inQuotes, [], cells + [cell])
    else Scan(line, j + 1, inQuotes, cell + [line[j]], cells)
  }

  /** The cells of a line before trimming. */
  function RawFields(line: string): (r: seq<string>)
    ensures |r| >= 1
  {
    Scan(line, 0, false, [], [])
  }

  /** The row `parseCSV` pushes for one line. The source trims each cell as it
      is pushed, which is the same as trimming every raw field. */
  function ParseLine(line: string): (row: seq<string>)
    ensures |row| == |RawFields(line)|
    ensures forall k :: 0 <= k < |row| ==> IsTrimmed(row[k])
  {
    var raw := RawFields(line);
    seq(|raw|, k requires 0 <= k < |raw| => Trim(raw[k]))
  }

  /** Number of double quotes among the first `j` characters. */
  function QuotesBefore(line: string, j: nat): nat
    requires j <= |line|
  {
    if j == 0 then 0 else QuotesBefore(line, j - 1) + (if line[j - 1] == '"' then 1 else 0)
  }

  /** A comma preceded by an even number of quotes: it ends a cell. */
  predicate IsSeparator(line: string, j: nat)
    requires j < |line|
  {
    line[j] == ',' && QuotesBefore(line, j) % 2 == 0
  }

  /** Number of separating commas among the first `j` characters. */
  function SeparatorsBefore(line: string, j: nat): nat
    requires j <= |line|
  {
    if j == 0 then 0 else SeparatorsBefore(line, j - 1) + (if IsSeparator(line, j - 1) then 1 else 0)
  }

  /** The line with its double quotes deleted. */
  function RemoveQuotes(s: string): (r: string)
    ensures '"' !in r
  {
    if |s| == 0 then []
    else RemoveQuotes(s[..|s| - 1]) + (if s[|s| - 1] == '"' then [] else [s[|s| - 1]])
  }

  predicate QuoteFree(cells: seq<string>) {
    forall k :: 0 <= k < |cells| ==> '"' !in cells[k]
  }

  lemma JoinWithExtendLast(cells: seq<string>, cell: string, c: char, sep: char)
    ensures JoinWith(cells + [cell + [c]], sep) == JoinWith(cells + [cell], sep) + [c]
  {
    if |cells| > 0 {
      assert (cells + [cell + [c]])[..|cells|] == cells;
      assert (cells + [cell])[..|cells|] == cells;
    }
  }

  lemma JoinWithPush(cells: seq<string>, cell: string, sep: char)
    ensures JoinWith(cells + [cell] + [[]], sep) == JoinWith(cells + [cell], sep) + [sep]
  {
    assert (cells + [cell] + [[]])[..|cells| + 1] == cells + [cell];
  }

  /** What the scan keeps true at every index `j`: the flag is the parity of
      the quotes seen, one cell was pushed per separator seen, and the cells
      joined back with commas are the quote-free prefix of the line. */
  predicate ScanState(line: string, j: nat, inQuotes: bool, cell: string, cells: seq<string>)
    requires j <= |line|
  {
    && (inQuotes <==> QuotesBefore(line, j) % 2 == 1)
    && |cells| == SeparatorsBefore(line, j)
    && JoinWith(cells + [cell], ',') == RemoveQuotes(line[..j])
    && QuoteFree(cells + [cell])
  }

  /** A quote flips the flag and nothing else. */
  lemma ScanQuoteStep(line: string, j: nat, inQuotes: bool, cell: string, cells: seq<string>)
    requires j < |line| && line[j] == '"'
    requires ScanState(line, j, inQuotes, cell, cells)
    ensures ScanState(line, j + 1, !inQuotes, cell, cells)
  {
    assert line[..j + 1][..j] == line[..j];
  }

  /** A comma outside quotes pushes the cell and starts an empty one. */
  lemma ScanCommaStep(line: string, j: nat, inQuotes: bool, cell: string, cells: seq<string>)
    requires j < |line| && line[j] == ',' && !inQuotes
    requires ScanState(line, j, inQuotes, cell, cells)
    ensures ScanState(line, j + 1, inQuotes, [], cells + [cell])
  {
    assert line[..j + 1][..j] == line[..j];
    JoinWithPush(cells, cell, ',');
    assert QuoteFree(cells + [cell] + [[]]) by {
      assert forall k :: 0 <= k < |cells| + 1 ==> (cells + [cell] + [[]])[k] == (cells + [cell])[k];
    }
  }

  /** Any other character joins the cell. */
  lemma ScanCharStep(line: string, j: nat, inQuotes: bool, cell: string, cells: seq<string>)
    requires j < |line| && line[j] != '"' && !(line[j] == ',' && !inQuotes)
    requires ScanState(line, j, inQuotes, cell, cells)
    ensures ScanState(line, j + 1, inQuotes, cell + [line[j]], cells)
  {
    var c := line[j];
    assert line[..j + 1][..j] == line[..j];
    JoinWithExtendLast(cells, cell, c, ',');
    assert QuoteFree(cells + [cell + [c]]) by {
      assert forall k :: 0 <= k < |cells| ==> (cells + [cell + [c]])[k] == (cells + [cell])[k];
      assert (cells + [cell])[|cells|] == cell;
    }
  }

  /** The scan from any state that keeps the invariant ends with the whole
      line accounted for. */
  lemma {:induction false} ScanInvariant(line: string, j: nat, inQuotes: bool, cell: string, cells: seq<string>)
    requires j <= |line|
    requires ScanState(line, j, inQuotes, cell, cells)
    ensures var r := Scan(line, j, inQuotes, cell, cells);
            && |r| == SeparatorsBefore(line, |line|) + 1
            && JoinWith(r, ',') == RemoveQuotes(line)
            && QuoteFree(r)
    decreases |line| - j
  {
    if j == |line| {
      assert line[..j] == line;
    } else if line[j] == '"' {
      ScanQuoteStep(line, j, inQuotes, cell, cells);
      ScanInvariant(line, j + 1, !inQuotes, cell, cells);
    } else if line[j] == ',' && !inQuotes {
      ScanCommaStep(line, j, inQuotes, cell, cells);
      ScanInvariant(line, j + 1, inQuotes, [], cells + [cell]);
    } else {
      ScanCharStep(line, j, inQuotes, cell, cells);
      ScanInvariant(line, j + 1, inQuotes, cell + [line[j]], cells);
    }
  }

  /** The raw fields of a line, joined back with commas, are the line minus
      its quotes; there is one more of them than there are separators. */
  lemma RawFieldsShape(line: string)
    ensures |RawFields(line)| == SeparatorsBefore(line, |line|) + 1
    ensures JoinWith(RawFields(line), ',') == RemoveQuotes(line)
    ensures QuoteFree(RawFields(line))
  {
    assert line[..0] == [];
    assert ScanState(line, 0, false, [], []);
    ScanInvariant(line, 0, false, [], []);
  }

  /** Each row has one cell more than the line has commas outside quotes, and
      every cell is trimmed and free of double quotes. */
  lemma ParseLineShape(line: string)
    ensures |ParseLine(line)| == SeparatorsBefore(line, |line|) + 1
    ensures forall k :: 0 <= k < |ParseLine(line)| ==>
              ParseLine(line)[k] == Trim(RawFields(line)[k])
    ensures forall k :: 0 <= k < |ParseLine(line)| ==>
              IsTrimmed(ParseLine(line)[k]) && '"' !in ParseLine(line)[k]
  {
    RawFieldsShape(line);
    var raw := RawFields(line);
    forall k | 0 <= k < |raw|
      ensures '"' !in ParseLine(line)[k]
    {
      assert '"' !in raw[k];
    }
  }

  // ---------------------------------------------------------------------------
  // Writing a row: the inverse of the scan

  /** One cell as a sheet writes it: bare, or between double quotes. */
  function Field(cell: string, quoted: bool): string {
    if quoted then ['"'] + cell + ['"'] else cell
  }

  /** A cell the scan can read back: no double quote inside, and no comma
      unless it is quoted. */
  predicate Writable(cell: string, quoted: bool) {
    '"' !in cell && (quoted || ',' !in cell)
  }

  /** The cells written as one line, separated by commas. */
  function WriteRow(cells: seq<string>, quoted: seq<bool>): string
    requires |cells| == |quoted| > 0
  {
    if |cells| == 1 then Field(cells[0], quoted[0])
    else Field(cells[0], quoted[0]) + [','] + WriteRow(cells[1..], quoted[1..])
  }

  /** The scan reads only what follows its position. */
  lemma {:induction false} ScanShift(a: string, b: string, j: nat, inQuotes: bool, cell: string, cells: seq<string>)
    requires j <= |b|
    ensures Scan(a + b, |a| + j, inQuotes, cell, cells) == Scan(b, j, inQuotes, cell, cells)
    decreases |b| - j
  {
    if j < |b| {
      assert (a + b)[|a| + j] == b[j];
      if b[j] == '"' {
        ScanShift(a, b, j + 1, !inQuotes, cell, cells);
      } else if b[j] == ',' && !inQuotes {
        ScanShift(a, b, j + 1, inQuotes, [], cells + [cell]);
      } else {
        ScanShift(a, b, j + 1, inQuotes, cell + [b[j]], cells);
      }
    }
  }

  /** A stretch without quotes, and without commas unless inside quotes,
      goes into the current cell unchanged. */
  lemma {:induction false} ScanPlain(line: string, j: nat, n: nat, inQuotes: bool, cell: string, cells: seq<string>)
    requires j + n <= |line|
    requires forall i :: j <= i < j + n ==> line[i] != '"' && (inQuotes || line[i] != ',')
    ensures Scan(line, j, inQuotes, cell, cells) == Scan(line, j + n, inQuotes, cell + line[j..j + n], cells)
    decreases n
  {
    if n > 0 {
      assert line[j] != '"' && !(line[j] == ',' && !inQuotes);
      assert Scan(line, j, inQuotes, cell, cells) == Scan(line, j + 1, inQuotes, cell + [line[j]], cells);
      ScanPlain(line, j + 1, n - 1, inQuotes, cell + [line[j]], cells);
      assert line[j..j + n] == [line[j]] + line[j + 1..j + n];
      assert cell + [line[j]] + line[j + 1..j + n] == cell + line[j..j + n];
    } else {
      assert cell + line[j..j] == cell;
    }
  }

  /** Scanning over one written cell from the start of a line leaves exactly
      that cell under construction, outside quotes. */
  lemma ScanField(line: string, c: string, quoted: bool, cells: seq<string>)
    requires Writable(c, quoted)
    requires |Field(c, quoted)| <= |line| && line[..|Field(c, quoted)|] == Field(c, quoted)
    ensures Scan(line, 0, false, [], cells) == Scan(line, |Field(c, quoted)|, false, c, cells)
  {
    var f := Field(c, quoted);
    assert forall i :: 0 <= i < |f| ==> line[i] == f[i];
    if quoted {
      assert line[0] == '"';
      assert forall i :: 1 <= i < 1 + |c| ==> line[i] == c[i - 1];
      ScanPlain(line, 1, |c|, true, [], cells);
      assert line[1..1 + |c|] == c;
      assert [] + c == c;
      assert line[1 + |c|] == '"';
    } else {
      ScanPlain(line, 0, |c|, false, [], cells);
      assert line[0..|c|] == c;
      assert [] + c == c;
    }
  }

  lemma {:induction false} ScanWriteRow(cells: seq<string>, quoted: seq<bool>, acc: seq<string>)
    requires |cells| == |quoted| > 0
    requires forall k :: 0 <= k < |cells| ==> Writable(cells[k], quoted[k])
    ensures Scan(WriteRow(cells, quoted), 0, false, [], acc) == acc + cells
    decreases |cells|
  {
    var line := WriteRow(cells, quoted);
    var f := Field(cells[0], quoted[0]);
    assert line[..|f|] == f;
    ScanField(line, cells[0], quoted[0], acc);
    if |cells| == 1 {
      assert [cells[0]] == cells;
    } else {
      var rest := WriteRow(cells[1..], quoted[1..]);
      assert line == (f + [',']) + rest;
      assert line[|f|] == ',';
      ScanWriteRow(cells[1..], quoted[1..], acc + [cells[0]]);
      ScanShift(f + [','], rest, 0, false, [], acc + [cells[0]]);
      assert acc + [cells[0]] + cells[1..] == acc + cells;
    }
  }

  /** Any cells a sheet can write, each bare or quoted, are read back exactly:
      a comma inside quotes stays in its cell, and only the commas between
      cells separate. */
  lemma RawFieldsWriteRow(cells: seq<string>, quoted: seq<bool>)
    requires |cells| == |quoted| > 0
    requires forall k :: 0 <= k < |cells| ==> Writable(cells[k], quoted[k])
    ensures RawFields(WriteRow(cells, quoted)) == cells
  {
    ScanWriteRow(cells, quoted, []);
    assert [] + cells == cells;
  }

  /** Cells without surrounding whitespace are parsed back as written. */
  lemma ParseLineWriteRow(cells: seq<string>, quoted: seq<bool>)
    requires |cells| == |quoted| > 0
    requires forall k :: 0 <= k < |cells| ==> Writable(cells[k], quoted[k]) && IsTrimmed(cells[k])
    ensures ParseLine(WriteRow(cells, quoted)) == cells
  {
    RawFieldsWriteRow(cells, quoted);
    forall k | 0 <= k < |cells|
      ensures ParseLine(WriteRow(cells, quoted))[k] == cells[k]
    {
      TrimTrimmed(cells[k]);
    }
  }

  /** A quoted cell holding a comma, then a bare cell: the comma inside the
      quotes does not separate. */
  lemma QuotedSeparatorExample()
    ensures RawFields("\"a,b\",c") == ["a,b", "c"]
  {
    assert WriteRow(["a,b", "c"], [true, false]) == "\"a,b\",c";
    RawFieldsWriteRow(["a,b", "c"], [true, false]);
  }

  // ---------------------------------------------------------------------------
  // The whole text

  /** The lines whose trim is not empty, in order. */
  function NonBlank(lines: seq<string>): (r: seq<string>)
    ensures forall k :: 0 <= k < |r| ==> !IsBlank(r[k])
  {
    if |lines| == 0 then []
    else if IsBlank(lines[0]) then NonBlank(lines[1..])
    else [lines[0]] + NonBlank(lines[1..])
  }

  /** The rows of the lines, as the loop body produces them: a line whose
      trim is empty is skipped, any other line is parsed. */
  function Rows(lines: seq<string>): (rows: seq<seq<string>>)
    ensures |rows| <= |lines|
  {
    if |lines| == 0 then []
    else if Trim(lines[0]) == [] then Rows(lines[1..])
    else [ParseLine(lines[0])] + Rows(lines[1..])
  }

  /** One row per non-blank line, in order. */
  lemma {:induction false} RowsMatchNonBlank(lines: seq<string>)
    ensures |Rows(lines)| == |NonBlank(lines)|
    ensures forall k :: 0 <= k < |Rows(lines)| ==> Rows(lines)[k] == ParseLine(NonBlank(lines)[k])
  {
    if |lines| > 0 {
      RowsMatchNonBlank(lines[1..]);
    }
  }

  /** `parseCSV`: one row for every line after the first that is not
      whitespace-only, in order. */
  function ParseCsv(text: string): (rows: seq<seq<string>>)
    ensures |rows| == |NonBlank(SplitLines(text)[1..])|
    ensures forall k :: 0 <= k < |rows| ==>
              rows[k] == ParseLine(NonBlank(SplitLines(text)[1..])[k])
  {
    RowsMatchNonBlank(SplitLines(text)[1..]);
    Rows(SplitLines(text)[1..])
  }

  /** The example of a quoted comma: three cells, quotes gone. */
  lemma QuotedCommaExample()
    ensures ParseCsv("H\n\"a\",\"b,c\",\"d\"") == [["a", "b,c", "d"]]
  {
    var line := "\"a\",\"b,c\",\"d\"";
    QuotedCommaSplit();
    QuotedCommaRow();
    assert Trim(line) != [] by {
      assert !IsWhitespace(line[0]);
    }
    assert Rows([line]) == [ParseLine(line)];
  }

  lemma QuotedCommaRow()
    ensures ParseLine("\"a\",\"b,c\",\"d\"") == ["a", "b,c", "d"]
  {
    QuotedCommaLine();
    TrimTrimmed("a");
    TrimTrimmed("b,c");
    TrimTrimmed("d");
  }

  lemma QuotedCommaSplit()
    ensures SplitLines("H\n\"a\",\"b,c\",\"d\"") == ["H", "\"a\",\"b,c\",\"d\""]
  {
    var text := "H\n\"a\",\"b,c\",\"d\"";
    var line := "\"a\",\"b,c\",\"d\"";
    assert NextLF(text, 0) == 1;
    assert NextLF(line, 0) == |line|;
    assert text[..1] == "H" && text[2..] == line;
    assert SplitLines(line) == [line];
  }

  lemma QuotedCommaLine()
    ensures RawFields("\"a\",\"b,c\",\"d\"") == ["a", "b,c", "d"]
  {
    var line := "\"a\",\"b,c\",\"d\"";
    assert Scan(line, 13, false, "d", ["a", "b,c"]) == ["a", "b,c", "d"];
    assert Scan(line, 12, true, "d", ["a", "b,c"]) == ["a", "b,c", "d"];
    assert "" + [line[11]] == "d";
    assert Scan(line, 11, true, "", ["a", "b,c"]) == ["a", "b,c", "d"];
    assert Scan(line, 10, false, "", ["a", "b,c"]) == ["a", "b,c", "d"];
    assert Scan(line, 9, false, "b,c", ["a"]) == ["a", "b,c", "d"];
    assert Scan(line, 8, true, "b,c", ["a"]) == ["a", "b,c", "d"];
    assert "b," + [line[7]] == "b,c";
    assert Scan(line, 7, true, "b,", ["a"]) == ["a", "b,c", "d"];
    assert "b" + [line[6]] == "b,";
    assert Scan(line, 6, true, "b", ["a"]) == ["a", "b,c", "d"];
    assert "" + [line[5]] == "b";
    assert Scan(line, 5, true, "", ["a"]) == ["a", "b,c", "d"];
    assert Scan(line, 4, false, "", ["a"]) == ["a", "b,c", "d"];
    assert Scan(line, 3, false, "a", []) == ["a", "b,c", "d"];
    assert Scan(line, 2, true, "a", []) == ["a", "b,c", "d"];
    assert "" + [line[1]] == "a";
    assert Scan(line, 1, true, "", []) == ["a", "b,c", "d"];
    assert Scan(line, 0, false, "", []) == ["a", "b,c", "d"];
  }
}
