/** The import CSV reader, the audit-log CSV writer and the one-line reader of the import scripts. */
module Csv {
  import opened Text

  type Rows = seq<seq<string>>

  // ---------------------------------------------------------------- the row reader

  /** `QuoteSeen` and `CrSeen` replace the loop's one-character lookahead. */
  datatype Mode = Plain | Quoted | QuoteSeen | CrSeen

  datatype Scan = Scan(mode: Mode, cell: string, row: seq<string>, rows: Rows) {
    function EndCell(): Scan {
      this.(mode := Plain, cell := "", row := row + [Trim(cell)])
    }
    function EndRow(next: Mode): Scan {
      Scan(next, "", [], rows + [row + [Trim(cell)]])
    }
  }

  const START := Scan(Plain, "", [], [])

  function FeedPlain(d: char, st: Scan, c: char): Scan {
    if c == '"' then st.(mode := Quoted)
    else if c == d then st.EndCell()
    else if c == '\r' then st.EndRow(CrSeen)
    else if c == '\n' then st.EndRow(Plain)
    else st.(mode := Plain, cell := st.cell + [c])
  }

  function Feed(d: char, st: Scan, c: char): Scan {
    match st.mode
    case Plain => FeedPlain(d, st, c)
    case Quoted => if c == '"' then st.(mode := QuoteSeen) else st.(cell := st.cell + [c])
    case QuoteSeen => if c == '"' then st.(mode := Quoted, cell := st.cell + "\"") else FeedPlain(d, st, c)
    case CrSeen => if c == '\n' then st.(mode := Plain) else FeedPlain(d, st, c)
  }

  function FeedAll(d: char, st: Scan, text: string): Scan {
    if text == "" then st else Feed(d, FeedAll(d, st, text[..|text| - 1]), text[|text| - 1])
  }

  function Finish(st: Scan): Rows {
    if |st.cell| > 0 || |st.row| > 0 then st.rows + [st.row + [Trim(st.cell)]] else st.rows
  }

  predicate HasText(row: seq<string>) {
    exists i | 0 <= i < |row| :: |row[i]| > 0
  }

  function NonBlank(rows: Rows): Rows {
    Filter(HasText, rows)
  }

  function ParsedRows(d: char, text: string): Rows {
    NonBlank(Finish(FeedAll(d, START, text)))
  }

  lemma {:induction false} FeedAppend(d: char, st: Scan, a: string, b: string)
    ensures FeedAll(d, st, a + b) == FeedAll(d, FeedAll(d, st, a), b)
  {
    if b == "" {
      assert a + b == a;
    } else {
      assert (a + b)[..|a + b| - 1] == a + b[..|b| - 1];
      FeedAppend(d, st, a, b[..|b| - 1]);
    }
  }

  lemma FeedOne(d: char, st: Scan, text: string, i: nat) returns (next: Scan)
    requires i < |text| && st == FeedAll(d, START, text[..i])
    ensures next == Feed(d, st, text[i]) == FeedAll(d, START, text[..i + 1])
  {
    next := Feed(d, st, text[i]);
    assert text[..i + 1][..i] == text[..i];
  }

  lemma FeedHead(d: char, st: Scan, text: string)
    requires text != ""
    ensures FeedAll(d, st, text) == FeedAll(d, Feed(d, st, text[0]), text[1..])
  {
    FeedAppend(d, st, [text[0]], text[1..]);
    assert [text[0]] + text[1..] == text;
    assert FeedAll(d, st, [text[0]]) == Feed(d, st, text[0]) by {
      assert [text[0]][..0] == "";
    }
  }

  /** The state the loop keeps in its variables, as a scan at a point where no lookahead is due. */
  ghost predicate LoopState(st: Scan, text: string, i: nat, inQuotes: bool)
  {
    match st.mode
    case Plain => !inQuotes
    case Quoted => inQuotes
    case QuoteSeen => !inQuotes && (i < |text| ==> text[i] != '"')
    case CrSeen => !inQuotes && (i < |text| ==> text[i] != '\n')
  }

  lemma FeedNothing(d: char)
    ensures forall text: string :: FeedAll(d, START, text[..0]) == START
  {
  }

  method ParseCsvRows(text: string, delimiter: char) returns (result: Rows)
    ensures result == ParsedRows(delimiter, text)
  {
    hide FeedAll, Trim, Filter;
    var rows: Rows := [];
    var currentRow: seq<string> := [];
    var currentCell := "";
    var inQuotes := false;
    var i := 0;
    ghost var st := START;
    FeedNothing(delimiter);
    while i < |text|
      invariant 0 <= i <= |text|
      invariant st == FeedAll(delimiter, START, text[..i])
      invariant LoopState(st, text, i, inQuotes) && st == Scan(st.mode, currentCell, currentRow, rows)
    {
      var c := text[i];
      st := FeedOne(delimiter, st, text, i);
      if inQuotes {
        if c == '"' {
          if i + 1 < |text| && text[i + 1] == '"' {
            currentCell := currentCell + "\"";
            i := i + 1;
            st := FeedOne(delimiter, st, text, i);
          } else {
            inQuotes := false;
          }
        } else {
          currentCell := currentCell + [c];
        }
      } else if c == '"' {
        inQuotes := true;
      } else if c == delimiter {
        currentRow := currentRow + [Trim(currentCell)];
        currentCell := "";
      } else if c == '\r' {
        if i + 1 < |text| && text[i + 1] == '\n' {
          i := i + 1;
          st := FeedOne(delimiter, st, text, i);
        }
        rows := rows + [currentRow + [Trim(currentCell)]];
        currentRow, currentCell := [], "";
      } else if c == '\n' {
        rows := rows + [currentRow + [Trim(currentCell)]];
        currentRow, currentCell := [], "";
      } else {
        currentCell := currentCell + [c];
      }
      i := i + 1;
    }
    assert text[..i] == text;
    if |currentCell| > 0 || |currentRow| > 0 {
      rows := rows + [currentRow + [Trim(currentCell)]];
    }
    result := Filter(HasText, rows);
  }

  // ---------------------------------------------------------------- the writer

  function DoubledOne(c: char): string {
    if c == '"' then "\"\"" else [c]
  }

  function Doubled(s: string): string {
    if s == "" then "" else DoubledOne(s[0]) + Doubled(s[1..])
  }

  function Escape(cell: string): string {
    "\"" + Doubled(cell) + "\""
  }

  function PrintRow(d: char, row: seq<string>): string {
    Join(Map(Escape, row), [d])
  }

  function RowPrinter(d: char): seq<string> -> string {
    (row: seq<string>) => PrintRow(d, row)
  }

  function PrintRows(d: char, rows: Rows): string {
    Join(Map(RowPrinter(d), rows), "\n")
  }

  lemma PrintRowsCons(d: char, rows: Rows)
    requires |rows| > 1
    ensures PrintRows(d, rows) == PrintRow(d, rows[0]) + ("\n" + PrintRows(d, rows[1..]))
  {
    assert Map(RowPrinter(d), rows)[1..] == Map(RowPrinter(d), rows[1..]);
  }

  function TrimRow(row: seq<string>): seq<string> {
    Map(Trim, row)
  }

  lemma FeedDoubledOne(d: char, st: Scan, c: char)
    requires st.mode == Quoted
    ensures FeedAll(d, st, DoubledOne(c)) == st.(cell := st.cell + [c])
  {
    FeedHead(d, st, DoubledOne(c));
    if c == '"' { FeedHead(d, Feed(d, st, c), [c]); }
    assert [c][1..] == "" && DoubledOne(c)[1..] == if c == '"' then [c] else "";
  }

  lemma {:induction false} FeedDoubled(d: char, st: Scan, cell: string)
    requires st.mode == Quoted
    ensures FeedAll(d, st, Doubled(cell)) == st.(cell := st.cell + cell)
    decreases |cell|
  {
    if cell == "" {
      assert st.cell + cell == st.cell;
    } else {
      hide FeedAll, DoubledOne;
      FeedAppend(d, st, DoubledOne(cell[0]), Doubled(cell[1..]));
      FeedDoubledOne(d, st, cell[0]);
      FeedDoubled(d, st.(cell := st.cell + [cell[0]]), cell[1..]);
      assert st.cell + [cell[0]] + cell[1..] == st.cell + cell;
    }
  }

  lemma FeedEscaped(d: char, st: Scan, cell: string)
    requires st.mode == Plain && st.cell == ""
    ensures FeedAll(d, st, Escape(cell)) == st.(mode := QuoteSeen, cell := cell)
  {
    var open := st.(mode := Quoted);
    FeedHead(d, st, Escape(cell));
    assert Escape(cell)[1..] == Doubled(cell) + "\"";
    FeedAppend(d, open, Doubled(cell), "\"");
    FeedDoubled(d, open, cell);
    FeedHead(d, open.(cell := cell), "\"");
    assert "" + cell == cell;
  }

  lemma PrintRowCons(d: char, row: seq<string>)
    requires |row| > 1
    ensures PrintRow(d, row) == Escape(row[0]) + ([d] + PrintRow(d, row[1..]))
  {
    assert Map(Escape, row)[1..] == Map(Escape, row[1..]);
  }

  lemma FeedFirstCell(d: char, st: Scan, row: seq<string>) returns (next: Scan)
    requires d !in ['"', '\r', '\n'] && |row| > 1 && st.mode == Plain && st.cell == ""
    ensures next == st.(row := st.row + [Trim(row[0])])
    ensures FeedAll(d, st, PrintRow(d, row)) == FeedAll(d, next, PrintRow(d, row[1..]))
  {
    var open := st.(mode := QuoteSeen, cell := row[0]);
    var rest := PrintRow(d, row[1..]);
    next := open.EndCell();
    FeedEscaped(d, st, row[0]);
    PrintRowCons(d, row);
    FeedAppend(d, st, Escape(row[0]), [d] + rest);
    FeedHead(d, open, [d] + rest);
    assert ([d] + rest)[1..] == rest;
  }

  lemma PrintOne(d: char, row: seq<string>)
    requires |row| == 1
    ensures PrintRow(d, row) == Escape(row[0])
  {
  }

  /** A printed row is read back with its last cell still open. */
  lemma {:induction false} FeedRow(d: char, st: Scan, row: seq<string>) returns (end: Scan)
    requires d !in ['"', '\r', '\n'] && row != [] && st.mode == Plain && st.cell == ""
    ensures end == FeedAll(d, st, PrintRow(d, row))
    ensures end.mode == QuoteSeen && end.rows == st.rows && end.row + [Trim(end.cell)] == st.row + TrimRow(row)
    decreases |row|
  {
    hide FeedAll, PrintRow;
    if |row| == 1 {
      PrintOne(d, row);
      FeedEscaped(d, st, row[0]);
      end := st.(mode := QuoteSeen, cell := row[0]);
      assert TrimRow(row) == [Trim(row[0])];
    } else {
      var next := FeedFirstCell(d, st, row);
      end := FeedRow(d, next, row[1..]);
      assert TrimRow(row) == [Trim(row[0])] + TrimRow(row[1..]);
      Assoc(st.row, [Trim(row[0])], TrimRow(row[1..]));
    }
  }

  lemma NonBlankOne(row: seq<string>)
    ensures NonBlank([row]) == if HasText(row) then [row] else []
  {
    assert [row][1..] == [];
    assert Filter(HasText, [row][1..]) == [];
  }

  /** One printed row, read from the start of a line: what it adds at a line feed or at the end of the text. */
  lemma FeedLine(d: char, done: Rows, row: seq<string>) returns (read: seq<string>)
    requires d !in ['"', '\r', '\n']
    ensures var end := FeedAll(d, START.(rows := done), PrintRow(d, row));
      && Feed(d, end, '\n') == START.(rows := done + [read])
      && NonBlank(Finish(end)) == NonBlank(done + [read])
    ensures NonBlank(done + [read]) == NonBlank(done) + NonBlank([TrimRow(row)])
  {
    var st := START.(rows := done);
    hide FeedAll, PrintRow, Filter, Trim, HasText;
    if row == [] {
      read := [""];
      EmptyLine(d, st);
      EmptyRead(done);
      assert [] + [Trim("")] == [""];
      assert NonBlank(done) + [] == NonBlank(done);
    } else {
      var end := FeedRow(d, st, row);
      read := end.row + [Trim(end.cell)];
      assert [] + TrimRow(row) == TrimRow(row) && st.row == [];
      LineEnds(d, end);
      FilterAppend(HasText, done, [read]);
    }
  }

  /** A row whose last quote has just been read ends in the same way at a line feed and at the end of the text. */
  lemma LineEnds(d: char, end: Scan)
    requires d !in ['"', '\r', '\n'] && end.mode == QuoteSeen
    ensures var read := end.row + [Trim(end.cell)];
      Feed(d, end, '\n') == START.(rows := end.rows + [read]) && NonBlank(Finish(end)) == NonBlank(end.rows + [read])
  {
    if end.cell == "" && end.row == [] {
      EmptyRead(end.rows);
      hide Filter, Trim, HasText;
      assert end.row + [Trim(end.cell)] == [""];
    }
  }

  lemma EmptyRead(done: Rows)
    ensures Trim("") == "" && NonBlank(done + [[""]]) == NonBlank(done) && NonBlank([[]]) == []
  {
    FilterAppend(HasText, done, [[""]]);
    NonBlankOne([""]);
    NonBlankOne([]);
    hide Filter;
    assert NonBlank(done) + [] == NonBlank(done);
  }

  lemma EmptyLine(d: char, st: Scan)
    ensures FeedAll(d, st, PrintRow(d, [])) == st && TrimRow([]) == []
  {
  }

  lemma NonBlankTrimmed(done: Rows, read: seq<string>, rows: Rows)
    requires rows != [] && NonBlank(done + [read]) == NonBlank(done) + NonBlank([TrimRow(rows[0])])
    ensures NonBlank(done) + NonBlank(Map(TrimRow, rows)) == NonBlank(done + [read]) + NonBlank(Map(TrimRow, rows[1..]))
  {
    FilterAppend(HasText, [TrimRow(rows[0])], Map(TrimRow, rows[1..]));
    MapCons(TrimRow, rows);
    Assoc(NonBlank(done), NonBlank([TrimRow(rows[0])]), NonBlank(Map(TrimRow, rows[1..])));
  }

  lemma FeedFirstRow(d: char, done: Rows, rows: Rows, read: seq<string>)
    requires |rows| > 1
    requires Feed(d, FeedAll(d, START.(rows := done), PrintRow(d, rows[0])), '\n') == START.(rows := done + [read])
    ensures FeedAll(d, START.(rows := done), PrintRows(d, rows))
         == FeedAll(d, START.(rows := done + [read]), PrintRows(d, rows[1..]))
  {
    var st, line, rest := START.(rows := done), PrintRow(d, rows[0]), PrintRows(d, rows[1..]);
    PrintRowsCons(d, rows);
    FeedAppend(d, st, line, "\n" + rest);
    FeedHead(d, FeedAll(d, st, line), "\n" + rest);
    assert ("\n" + rest)[1..] == rest;
  }

  lemma {:induction false} FeedRows(d: char, done: Rows, rows: Rows)
    requires d !in ['"', '\r', '\n']
    ensures NonBlank(Finish(FeedAll(d, START.(rows := done), PrintRows(d, rows))))
         == NonBlank(done) + NonBlank(Map(TrimRow, rows))
    decreases |rows|
  {
    if rows == [] {
      assert NonBlank(done) + [] == NonBlank(done);
    } else {
      var read := FeedLine(d, done, rows[0]);
      NonBlankTrimmed(done, read, rows);
      if |rows| == 1 {
        assert PrintRows(d, rows) == PrintRow(d, rows[0]);
        assert Map(TrimRow, rows[1..]) == [];
      } else {
        FeedFirstRow(d, done, rows, read);
        FeedRows(d, done + [read], rows[1..]);
      }
    }
  }

  /** Reading what was written gives back the rows, cells trimmed and blank rows dropped. */
  lemma RoundTrip(d: char, rows: Rows)
    requires d !in ['"', '\r', '\n']
    ensures ParsedRows(d, PrintRows(d, rows)) == NonBlank(Map(TrimRow, rows))
  {
    FeedRows(d, [], rows);
  }

  /** The cells of one audit event, in the order the export writes them; a missing actor or address is empty. */
  datatype AuditLine = AuditLine(createdAt: string, actorEmail: string, action: string, entityType: string,
                                 entityLabel: string, ipAddress: string)
  {
    function Cells(): seq<string> {
      [createdAt, actorEmail, action, entityType, entityLabel, ipAddress]
    }
  }

  const HEADER := ["Timestamp", "Actor", "Action", "Entity Type", "Entity", "IP Address"]

  function CellsOf(events: seq<AuditLine>): Rows {
    Map((e: AuditLine) => e.Cells(), events)
  }

  function ExportCsv(events: seq<AuditLine>): string {
    PrintRows(',', [HEADER] + CellsOf(events))
  }

  lemma {:induction false} AllKept(rows: Rows)
    requires forall i | 0 <= i < |rows| :: HasText(TrimRow(rows[i]))
    ensures NonBlank(Map(TrimRow, rows)) == Map(TrimRow, rows)
  {
    if rows != [] { AllKept(rows[1..]); }
  }

  lemma HeaderKept()
    ensures TrimRow(HEADER) == HEADER && HasText(TrimRow(HEADER))
  {
    forall h | h in HEADER ensures Trim(h) == h {
      assert CleanEdges(IsSpace, h);
      TrimShape(IsSpace, h);
    }
    MapFixed(Trim, HEADER);
    assert |HEADER[0]| > 0;
  }

  lemma ExportedKept(events: seq<AuditLine>, i: nat)
    requires i < |events| && Trim(events[i].createdAt) != ""
    ensures HasText(TrimRow(CellsOf(events)[i]))
  {
    MapAt((e: AuditLine) => e.Cells(), events, i);
    MapAt(Trim, events[i].Cells(), 0);
    assert |TrimRow(CellsOf(events)[i])[0]| > 0;
  }

  /** Every exported event can be read back by the importer: no row is lost, split or merged, whatever its text. */
  lemma ExportReadsBack(events: seq<AuditLine>)
    requires forall i | 0 <= i < |events| :: Trim(events[i].createdAt) != ""
    ensures ParsedRows(',', ExportCsv(events)) == [HEADER] + Map(TrimRow, CellsOf(events))
  {
    var rows := [HEADER] + CellsOf(events);
    hide TrimRow, HasText, ParsedRows, PrintRows;
    HeaderKept();
    forall i | 0 <= i < |rows| ensures HasText(TrimRow(rows[i])) {
      if i > 0 { ExportedKept(events, i - 1); }
    }
    AllKept(rows);
    RoundTrip(',', rows);
    MapCons(TrimRow, rows);
    assert rows[1..] == CellsOf(events);
  }

  /** What is read back, cell by cell. */
  lemma ExportedCells(events: seq<AuditLine>, i: nat)
    requires (forall k | 0 <= k < |events| :: Trim(events[k].createdAt) != "") && i < |events|
    ensures var read, e := ParsedRows(',', ExportCsv(events)), events[i];
      && |read| == |events| + 1
      && read[0] == ["Timestamp", "Actor", "Action", "Entity Type", "Entity", "IP Address"]
      && read[i + 1] == [Trim(e.createdAt), Trim(e.actorEmail), Trim(e.action), Trim(e.entityType),
                         Trim(e.entityLabel), Trim(e.ipAddress)]
  {
    hide ParsedRows, ExportCsv, Trim, TrimRow, CellsOf;
    ExportReadsBack(events);
    CellsAt(events, i);
    TrimSix(events[i].Cells());
  }

  lemma CellsAt(events: seq<AuditLine>, i: nat)
    requires i < |events|
    ensures |Map(TrimRow, CellsOf(events))| == |events|
    ensures Map(TrimRow, CellsOf(events))[i] == TrimRow(events[i].Cells())
  {
    hide TrimRow;
    MapAt((e: AuditLine) => e.Cells(), events, i);
    MapAt(TrimRow, CellsOf(events), i);
  }

  lemma TrimSix(cells: seq<string>)
    requires |cells| == 6
    ensures TrimRow(cells)
         == [Trim(cells[0]), Trim(cells[1]), Trim(cells[2]), Trim(cells[3]), Trim(cells[4]), Trim(cells[5])]
  {
    hide Trim;
    var trimmed := Map(Trim, cells);
    MapAt(Trim, cells, 0);
    MapAt(Trim, cells, 1);
    MapAt(Trim, cells, 2);
    MapAt(Trim, cells, 3);
    MapAt(Trim, cells, 4);
    MapAt(Trim, cells, 5);
    hide Map;
  }

  // ---------------------------------------------------------------- the one-line reader

  datatype LineMode = Open | InQuotes | AfterQuote

  datatype LineScan = LineScan(mode: LineMode, cell: string, cells: seq<string>)

  const LINE_START := LineScan(Open, "", [])

  function FeedOpen(st: LineScan, c: char): LineScan {
    if c == '"' then st.(mode := InQuotes)
    else if c == ',' then LineScan(Open, "", st.cells + [Trim(st.cell)])
    else st.(mode := Open, cell := st.cell + [c])
  }

  function FeedLineChar(st: LineScan, c: char): LineScan {
    match st.mode
    case Open => FeedOpen(st, c)
    case InQuotes => if c == '"' then st.(mode := AfterQuote) else st.(cell := st.cell + [c])
    case AfterQuote => if c == '"' then st.(mode := InQuotes, cell := st.cell + "\"") else FeedOpen(st, c)
  }

  function ScanLine(line: string): LineScan {
    if line == "" then LINE_START else FeedLineChar(ScanLine(line[..|line| - 1]), line[|line| - 1])
  }

  function ParsedLine(line: string): seq<string> {
    ScanLine(line).cells + [Trim(ScanLine(line).cell)]
  }

  lemma ScanOne(st: LineScan, line: string, i: nat) returns (next: LineScan)
    requires i < |line| && st == ScanLine(line[..i])
    ensures next == FeedLineChar(st, line[i]) == ScanLine(line[..i + 1])
  {
    next := FeedLineChar(st, line[i]);
    assert line[..i + 1][..i] == line[..i];
  }

  method ParseCSVLine(line: string) returns (result: seq<string>)
    ensures result == ParsedLine(line)
  {
    result := [];
    var current := "";
    var inQuotes := false;
    var i := 0;
    ghost var st := LINE_START;
    while i < |line|
      invariant 0 <= i <= |line| && st == ScanLine(line[..i])
      invariant st == LineScan(st.mode, current, result)
      invariant inQuotes <==> st.mode == InQuotes
      invariant st.mode == AfterQuote && i < |line| ==> line[i] != '"'
    {
      var c := line[i];
      st := ScanOne(st, line, i);
      if c == '"' {
        if inQuotes && i + 1 < |line| && line[i + 1] == '"' {
          current := current + "\"";
          i := i + 1;
          st := ScanOne(st, line, i);
        } else {
          inQuotes := !inQuotes;
        }
      } else if c == ',' && !inQuotes {
        result := result + [Trim(current)];
        current := "";
      } else {
        current := current + [c];
      }
      i := i + 1;
    }
    assert line[..i] == line;
    result := result + [Trim(current)];
  }

  // ---------------------------------------------------------------- the two readers agree

  function Quotes(s: string): nat {
    if s == "" then 0 else Quotes(s[..|s| - 1]) + if s[|s| - 1] == '"' then 1 else 0
  }

  /** `inQuotes` is the parity of the quotes read so far. */
  lemma {:induction false} QuoteParity(line: string)
    ensures ScanLine(line).mode == InQuotes <==> Quotes(line) % 2 == 1
  {
    if line != "" {
      QuoteParity(line[..|line| - 1]);
    }
  }

  function ModeOf(m: LineMode): Mode {
    match m
    case Open => Plain
    case InQuotes => Quoted
    case AfterQuote => QuoteSeen
  }

  ghost predicate NoBreak(line: string) {
    forall i | 0 <= i < |line| :: line[i] != '\r' && line[i] != '\n'
  }

  /** Within one line the two readers move in step. */
  lemma {:induction false} SameScan(done: Rows, line: string)
    requires NoBreak(line)
    ensures var st := ScanLine(line);
      FeedAll(',', START.(rows := done), line) == Scan(ModeOf(st.mode), st.cell, st.cells, done)
  {
    if line != "" {
      SameScan(done, line[..|line| - 1]);
    }
  }

  /** Splitting at LF or CR LF, as the scripts do. */
  function SplitLines(text: string): (lines: seq<string>)
    ensures |lines| >= 1
  {
    if text == "" then [""]
    else if text[0] == '\n' then [""] + SplitLines(text[1..])
    else if text[0] == '\r' && |text| > 1 && text[1] == '\n' then [""] + SplitLines(text[2..])
    else var rest := SplitLines(text[1..]); [[text[0]] + rest[0]] + rest[1..]
  }

  ghost predicate NoLoneCr(text: string) {
    forall i | 0 <= i < |text| :: text[i] == '\r' ==> i + 1 < |text| && text[i + 1] == '\n'
  }

  ghost predicate EvenQuotes(lines: seq<string>) {
    forall i | 0 <= i < |lines| :: Quotes(lines[i]) % 2 == 0
  }

  function ParsedLines(lines: seq<string>): Rows {
    NonBlank(Map(ParsedLine, Filter((l: string) => l != "", lines)))
  }

  /** The first line of a text, and what follows its line break. */
  lemma {:induction false} FirstLine(text: string) returns (line: string, brk: string, rest: string)
    requires NoLoneCr(text)
    ensures IsFirstLine(text, line, brk, rest)
  {
    if text == "" || text[0] == '\n' || text[0] == '\r' {
      line := "";
      brk := if text == "" then "" else if text[0] == '\n' then "\n" else "\r\n";
      rest := text[|brk|..];
      EmptyFirstLine(text);
    } else {
      TailNoLoneCr(text, 1);
      var tail: string;
      tail, brk, rest := FirstLine(text[1..]);
      line := [text[0]] + tail;
      LongerLine(text, tail, brk, rest);
    }
  }

  /** `line` is the first line of the text, `brk` its line break, if any, and `rest` what follows. */
  ghost predicate IsFirstLine(text: string, line: string, brk: string, rest: string) {
    && NoBreak(line) && text == line + (brk + rest) && brk in ["", "\n", "\r\n"]
    && (brk == "" ==> rest == "" && SplitLines(text) == [line])
    && (brk != "" ==> SplitLines(text) == [line] + SplitLines(rest) && NoLoneCr(rest))
  }

  lemma TailNoLoneCr(text: string, n: nat)
    requires NoLoneCr(text) && n <= |text|
    ensures NoLoneCr(text[n..])
  {
  }

  lemma EmptyFirstLine(text: string)
    requires NoLoneCr(text) && (text == "" || text[0] == '\n' || text[0] == '\r')
    ensures var brk := if text == "" then "" else if text[0] == '\n' then "\n" else "\r\n";
      |brk| <= |text| && IsFirstLine(text, "", brk, text[|brk|..])
  {
    var brk := if text == "" then "" else if text[0] == '\n' then "\n" else "\r\n";
    TailNoLoneCr(text, |brk|);
    hide NoLoneCr;
    assert text == brk + text[|brk|..];
    assert "" + text == text;
  }

  lemma LongerLine(text: string, tail: string, brk: string, rest: string)
    requires text != "" && text[0] != '\n' && text[0] != '\r' && IsFirstLine(text[1..], tail, brk, rest)
    ensures IsFirstLine(text, [text[0]] + tail, brk, rest)
  {
    var lines := SplitLines(rest);
    LongerLines(text, tail, lines);
    hide SplitLines, NoLoneCr;
    assert text == [text[0]] + text[1..];
    Assoc([text[0]], tail, brk + rest);
  }

  lemma LongerLines(text: string, tail: string, lines: seq<string>)
    requires text != "" && text[0] != '\n' && text[0] != '\r'
    ensures SplitLines(text[1..]) == [tail] ==> SplitLines(text) == [[text[0]] + tail]
    ensures SplitLines(text[1..]) == [tail] + lines ==> SplitLines(text) == [[text[0]] + tail] + lines
  {
    assert ([tail] + lines)[1..] == lines && [tail][1..] == [];
  }

  lemma FeedBreak(d: char, st: Scan, brk: string)
    requires d == ',' && st.mode in [Plain, QuoteSeen] && brk in ["\n", "\r\n"]
    ensures var end := FeedAll(d, st, brk);
      end.cell == "" && end.row == [] && end.rows == st.rows + [st.row + [Trim(st.cell)]]
      && end.mode == Plain
  {
    FeedHead(d, st, brk);
    if |brk| == 2 { FeedHead(d, Feed(d, st, '\r'), brk[1..]); }
  }

  lemma {:induction false} AgreeFrom(done: Rows, text: string)
    requires NoLoneCr(text) && EvenQuotes(SplitLines(text))
    ensures NonBlank(Finish(FeedAll(',', START.(rows := done), text)))
         == NonBlank(done) + ParsedLines(SplitLines(text))
    decreases |text|
  {
    var line, brk, rest := FirstLine(text);
    assert Quotes(SplitLines(text)[0]) % 2 == 0;
    hide FeedAll, Quotes, ParsedLines, Filter, Trim, SplitLines, ParsedLine;
    if brk == "" {
      assert text == line;
      LastLine(done, line);
    } else {
      LineThenBreak(done, line, brk, rest);
      forall i | 0 <= i < |SplitLines(rest)| ensures Quotes(SplitLines(rest)[i]) % 2 == 0 {
        assert SplitLines(rest)[i] == SplitLines(text)[i + 1];
      }
      AgreeFrom(done + [ParsedLine(line)], rest);
      LineCounts(done, line);
      LinesCons(line, SplitLines(rest));
      Assoc(NonBlank(done), ParsedLines([line]), ParsedLines(SplitLines(rest)));
    }
  }

  lemma LastLine(done: Rows, line: string)
    requires NoBreak(line)
    ensures NonBlank(Finish(FeedAll(',', START.(rows := done), line))) == NonBlank(done) + ParsedLines([line])
  {
    SameScan(done, line);
    LineCounts(done, line);
  }

  lemma LineThenBreak(done: Rows, line: string, brk: string, rest: string)
    requires NoBreak(line) && Quotes(line) % 2 == 0 && brk in ["\n", "\r\n"]
    ensures FeedAll(',', START.(rows := done), line + (brk + rest))
         == FeedAll(',', START.(rows := done + [ParsedLine(line)]), rest)
  {
    var st := START.(rows := done);
    var mid := FeedAll(',', st, line);
    QuoteParity(line);
    SameScan(done, line);
    hide FeedAll, Quotes, Trim, ScanLine;
    FeedAppend(',', st, line, brk + rest);
    FeedAppend(',', mid, brk, rest);
    FeedBreak(',', mid, brk);
  }

  /** A line's row counts the same whether or not empty lines are dropped first. */
  lemma LineCounts(done: Rows, line: string)
    ensures NonBlank(done + [ParsedLine(line)]) == NonBlank(done) + ParsedLines([line])
    ensures var st := ScanLine(line);
      NonBlank(Finish(Scan(ModeOf(st.mode), st.cell, st.cells, done))) == NonBlank(done) + ParsedLines([line])
  {
    var row, st := ParsedLine(line), ScanLine(line);
    FilterAppend(HasText, done, [row]);
    NonBlankOne(row);
    LinesOne(line);
    if |st.cell| == 0 && |st.cells| == 0 {
      assert row == [""];
      assert NonBlank(done) + [] == NonBlank(done);
    }
  }

  lemma LinesOne(line: string)
    ensures ParsedLines([line]) == NonBlank([ParsedLine(line)])
  {
    assert [line][1..] == [];
    if line == "" {
      assert ParsedLine(line) == [""];
      NonBlankOne([""]);
    } else {
      assert Filter((l: string) => l != "", [line]) == [line];
      assert Map(ParsedLine, [line]) == [ParsedLine(line)];
    }
  }

  lemma LinesCons(line: string, lines: seq<string>)
    ensures ParsedLines([line] + lines) == ParsedLines([line]) + ParsedLines(lines)
  {
    var keep := (l: string) => l != "";
    FilterAppend(keep, [line], lines);
    MapAppend(ParsedLine, Filter(keep, [line]), Filter(keep, lines));
    FilterAppend(HasText, Map(ParsedLine, Filter(keep, [line])), Map(ParsedLine, Filter(keep, lines)));
  }

  /** The importer's reader equals splitting into lines and reading each with the scripts' reader. */
  lemma ReadersAgree(text: string)
    requires NoLoneCr(text) && EvenQuotes(SplitLines(text))
    ensures ParsedRows(',', text) == ParsedLines(SplitLines(text))
  {
    AgreeFrom([], text);
    assert NonBlank([]) == [];
  }
}
