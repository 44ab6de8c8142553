/** What the CSV readers make of a text, from its parts: a text may be cut at a line break, and a line at a delimiter,
    wherever no quote is open; a piece without quotes is a cell as it stands. */
module CsvCuts {
  import opened Text
  import opened Csv

  // ---------------------------------------------------------------- the importer's reader, cut at line breaks

  /** An odd number of quotes leaves one open. */
  lemma {:induction false} QuoteOpen(d: char, text: string)
    requires d != '"'
    ensures FeedAll(d, START, text).mode == Quoted <==> Quotes(text) % 2 == 1
  {
    if text != "" { QuoteOpen(d, text[..|text| - 1]); }
  }

  /** Rows that are finished already are only carried along. */
  lemma {:induction false} FeedCarries(d: char, st: Scan, done: Rows, text: string)
    ensures var end := FeedAll(d, st, text);
      FeedAll(d, st.(rows := done + st.rows), text) == end.(rows := done + end.rows)
  {
    if text != "" {
      var n := |text| - 1;
      FeedCarries(d, st, done, text[..n]);
      var end := FeedAll(d, st, text[..n]);
      OneCarries(d, end, done, text[n]);
    }
  }

  lemma OneCarries(d: char, st: Scan, done: Rows, c: char)
    ensures Feed(d, st.(rows := done + st.rows), c) == Feed(d, st, c).(rows := done + Feed(d, st, c).rows)
  {
    hide Trim;
    Assoc(done, st.rows, [st.row + [Trim(st.cell)]]);
  }

  /** The carriage return just read is complete unless a line feed follows. */
  lemma CrDone(d: char, done: Rows, text: string)
    requires text != "" ==> text[0] != '\n'
    ensures Finish(FeedAll(d, Scan(CrSeen, "", [], done), text)) == Finish(FeedAll(d, Scan(Plain, "", [], done), text))
  {
    if text != "" {
      FeedHead(d, Scan(CrSeen, "", [], done), text);
      FeedHead(d, Scan(Plain, "", [], done), text);
    }
  }

  lemma CarriesRows(d: char, done: Rows, text: string)
    ensures NonBlank(Finish(FeedAll(d, START.(rows := done), text))) == NonBlank(done) + ParsedRows(d, text)
  {
    var end := FeedAll(d, START, text);
    FeedCarries(d, START, done, text);
    assert START.rows == [] && done + [] == done;
    hide FeedAll, Filter, HasText;
    Assoc(done, end.rows, [end.row + [Trim(end.cell)]]);
    FilterAppend(HasText, done, Finish(end));
  }

  /** The state in which a line break leaves the reader. */
  lemma BreakEnds(d: char, st: Scan, brk: string)
    requires d !in ['"', '\r', '\n'] && brk in ["\n", "\r", "\r\n"]
    requires st.mode == Plain || st.mode == QuoteSeen || (st.mode == CrSeen && brk != "\n")
    ensures FeedAll(d, st, brk)
         == Scan(if brk == "\r" then CrSeen else Plain, "", [], st.rows + [st.row + [Trim(st.cell)]])
  {
    FeedHead(d, st, brk);
    if |brk| == 2 { FeedHead(d, Feed(d, st, '\r'), brk[1..]); }
    assert brk[1..] == "" || brk[1..] == "\n";
  }

  /** At a line break a finished line and an unfinished one count the same. */
  lemma BreakCounts(st: Scan)
    ensures NonBlank(st.rows + [st.row + [Trim(st.cell)]]) == NonBlank(Finish(st))
  {
    if |st.cell| == 0 && |st.row| == 0 {
      assert st.row + [Trim(st.cell)] == [""];
      EmptyRead(st.rows);
    }
  }

  lemma {:induction false} CrLast(d: char, text: string)
    requires FeedAll(d, START, text).mode == CrSeen
    ensures text != "" && text[|text| - 1] == '\r'
  {
  }

  /** A text is read as its parts are, one after the other, when it is cut at a line break outside quotes: a line feed,
      a carriage return, or both together. */
  lemma RowCut(d: char, a: string, brk: string, b: string)
    requires d !in ['"', '\r', '\n'] && Quotes(a) % 2 == 0 && brk in ["\n", "\r", "\r\n"]
    requires brk == "\n" && a != "" ==> a[|a| - 1] != '\r'
    requires brk == "\r" && b != "" ==> b[0] != '\n'
    ensures ParsedRows(d, a + (brk + b)) == ParsedRows(d, a) + ParsedRows(d, b)
  {
    var st := FeedAll(d, START, a);
    QuoteOpen(d, a);
    if st.mode == CrSeen { CrLast(d, a); }
    FeedAppend(d, START, a, brk + b);
    FeedAppend(d, st, brk, b);
    BreakEnds(d, st, brk);
    hide FeedAll, Filter, HasText, Trim;
    var done := st.rows + [st.row + [Trim(st.cell)]];
    BreakCounts(st);
    if brk == "\r" { CrDone(d, done, b); }
    CarriesRows(d, done, b);
  }

  // ---------------------------------------------------------------- a line, cut at delimiters

  /** The cells of a text that is a single line. */
  function CellsOfLine(d: char, line: string): seq<string> {
    var end := FeedAll(d, START, line);
    end.row + [Trim(end.cell)]
  }

  lemma {:induction false} OneLine(d: char, line: string)
    requires NoBreak(line)
    ensures var end := FeedAll(d, START, line); end.rows == [] && end.mode != CrSeen
  {
    if line != "" {
      assert NoBreak(line[..|line| - 1]);
      OneLine(d, line[..|line| - 1]);
    }
  }

  /** A text without line breaks is one row of these cells, or none if they are all empty. */
  lemma LineExactly(d: char, line: string)
    requires NoBreak(line)
    ensures ParsedRows(d, line) == if HasText(CellsOfLine(d, line)) then [CellsOfLine(d, line)] else []
  {
    var end := FeedAll(d, START, line);
    OneLine(d, line);
    BreakCounts(end);
    assert [] + [CellsOfLine(d, line)] == [CellsOfLine(d, line)];
    NonBlankOne(CellsOfLine(d, line));
  }

  /** Cells that are finished already are only carried along, within a line. */
  lemma {:induction false} LineCarries(d: char, st: Scan, done: seq<string>, line: string)
    requires NoBreak(line)
    ensures var end := FeedAll(d, st, line);
      FeedAll(d, st.(row := done + st.row), line) == end.(row := done + end.row)
  {
    if line != "" {
      var n := |line| - 1;
      assert NoBreak(line[..n]);
      LineCarries(d, st, done, line[..n]);
      var end := FeedAll(d, st, line[..n]);
      Assoc(done, end.row, [Trim(end.cell)]);
    }
  }

  /** A line is read as its parts are when it is cut at a delimiter outside quotes. */
  lemma CellCut(d: char, a: string, b: string)
    requires d !in ['"', '\r', '\n'] && NoBreak(a) && NoBreak(b) && Quotes(a) % 2 == 0
    ensures CellsOfLine(d, a + ([d] + b)) == CellsOfLine(d, a) + CellsOfLine(d, b)
  {
    var st, end := FeedAll(d, START, a), FeedAll(d, START, b);
    QuoteOpen(d, a);
    OneLine(d, a);
    FeedAppend(d, START, a, [d] + b);
    FeedHead(d, st, [d] + b);
    assert ([d] + b)[1..] == b;
    assert Feed(d, st, d) == START.(row := CellsOfLine(d, a));
    LineCarries(d, START, CellsOfLine(d, a), b);
    assert CellsOfLine(d, a) + START.row == CellsOfLine(d, a);
    hide FeedAll, Trim;
    Assoc(CellsOfLine(d, a), end.row, [Trim(end.cell)]);
  }

  /** A piece without delimiters, quotes and line breaks is one cell, trimmed; so is a quoted piece, whatever it holds
      between its quotes, with two quotes for each of its own. */
  lemma OneCell(d: char, piece: string, cell: string)
    requires d !in ['"', '\r', '\n'] && NoBreak(piece) && d !in piece && '"' !in piece
    ensures CellsOfLine(d, piece) == [Trim(piece)]
    ensures CellsOfLine(d, Escape(cell)) == [Trim(cell)]
  {
    PlainPiece(d, piece);
    FeedEscaped(d, START, cell);
  }

  lemma {:induction false} PlainPiece(d: char, piece: string)
    requires d != '"' && NoBreak(piece) && d !in piece && '"' !in piece
    ensures FeedAll(d, START, piece) == START.(cell := piece)
  {
    if piece != "" {
      var n := |piece| - 1;
      assert piece == piece[..n] + [piece[n]] && NoBreak(piece[..n]);
      PlainPiece(d, piece[..n]);
    }
  }

  // ---------------------------------------------------------------- the scripts' reader

  /** Within a line the two readers read the same cells. */
  lemma SameCells(line: string)
    requires NoBreak(line)
    ensures ParsedLine(line) == CellsOfLine(',', line)
  {
    SameScan([], line);
  }

  /** Two quotes inside quotes are one quote, spelled out. */
  lemma DoubledExactly(a: string, b: string, c: char)
    ensures Escape(a) == "\"" + Doubled(a) + "\""
    ensures Doubled("") == "" && Doubled(a + b) == Doubled(a) + Doubled(b)
    ensures Doubled([c]) == if c == '"' then "\"\"" else [c]
  {
    DoubledAppend(a, b);
    assert [c][1..] == "";
    assert DoubledOne(c) + "" == DoubledOne(c);
  }

  lemma {:induction false} DoubledAppend(a: string, b: string)
    ensures Doubled(a + b) == Doubled(a) + Doubled(b)
  {
    if a == "" {
      assert a + b == b;
    } else {
      assert (a + b)[1..] == a[1..] + b;
      DoubledAppend(a[1..], b);
      Assoc(DoubledOne(a[0]), Doubled(a[1..]), Doubled(b));
    }
  }
}
