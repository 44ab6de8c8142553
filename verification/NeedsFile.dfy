/** Reading a CSV file of Needs: delimiter, header and rows, on top of the CSV reader. */
module NeedsFile {
  import opened Wrappers
  import opened Text
  import opened Csv
  import opened NeedsImport

  const BOM := '\U{feff}'

  datatype Field = Title | Statement | Village | ReferenceId

  const FIELDS := [Title, Statement, Village, ReferenceId]

  function Aliases(f: Field): seq<string> {
    match f
    case Title => ["title", "need title"]
    case Statement => ["statement", "need statement"]
    case Village => ["governorate", "governorates", "village", "villages"]
    case ReferenceId => ["reference id", "referenceid", "reference", "ref id"]
  }

  function DropSpaces(s: string): (r: string)
    ensures |r| <= |s|
  {
    if s != "" && IsSpace(s[0]) then DropSpaces(s[1..]) else s
  }

  /** Replaces every run of white space by one space. */
  function CollapseSpaces(s: string): string
    decreases |s|
  {
    if s == "" then ""
    else if IsSpace(s[0]) then " " + CollapseSpaces(DropSpaces(s[1..]))
    else [s[0]] + CollapseSpaces(s[1..])
  }

  function NormalizeHeader(lower: CaseMap, value: string): string {
    CollapseSpaces(lower(Trim(value)))
  }

  predicate Names(lower: CaseMap, cell: string, f: Field) {
    NormalizeHeader(lower, cell) in Aliases(f)
  }

  /** The first column that has one of the field's names, if there is one. */
  ghost predicate IsColumn(lower: CaseMap, header: seq<string>, f: Field, column: Option<nat>) {
    match column
    case None => forall i | 0 <= i < |header| :: !Names(lower, header[i], f)
    case Some(c) => c < |header| && Names(lower, header[c], f) && forall i | 0 <= i < c :: !Names(lower, header[i], f)
  }

  function ColumnOf(index: map<Field, nat>, f: Field): Option<nat> {
    if f in index then Some(index[f]) else None
  }

  /** Every field is read from its first column that has one of its names. */
  ghost predicate IsColumnIndex(lower: CaseMap, header: seq<string>, index: map<Field, nat>) {
    forall f: Field :: IsColumn(lower, header, f, ColumnOf(index, f))
  }

  method FindColumn(lower: CaseMap, header: seq<string>, f: Field) returns (column: Option<nat>)
    ensures IsColumn(lower, header, f, column)
  {
    for i := 0 to |header|
      invariant forall k | 0 <= k < i :: !Names(lower, header[k], f)
    {
      if Names(lower, header[i], f) { return Some(i); }
    }
    return None;
  }

  lemma EveryField(f: Field)
    ensures exists k :: 0 <= k < |FIELDS| && FIELDS[k] == f
  {
    var k := match f case Title => 0 case Statement => 1 case Village => 2 case ReferenceId => 3;
    assert FIELDS[k] == f;
  }

  method BuildColumnIndex(lower: CaseMap, header: seq<string>) returns (index: map<Field, nat>)
    ensures IsColumnIndex(lower, header, index)
  {
    hide IsColumn;
    index := map[];
    for k := 0 to |FIELDS|
      invariant forall f | f in index :: f in FIELDS[..k]
      invariant forall j | 0 <= j < k :: IsColumn(lower, header, FIELDS[j], ColumnOf(index, FIELDS[j]))
    {
      var field := FIELDS[k];
      var column := FindColumn(lower, header, field);
      if column.Some? { index := index[field := column.value]; }
    }
    forall f: Field ensures IsColumn(lower, header, f, ColumnOf(index, f)) {
      EveryField(f);
    }
  }

  lemma IndexUnique(lower: CaseMap, header: seq<string>, x: map<Field, nat>, y: map<Field, nat>)
    requires IsColumnIndex(lower, header, x) && IsColumnIndex(lower, header, y)
    ensures x == y
  {
    hide Names;
    forall f: Field ensures ColumnOf(x, f) == ColumnOf(y, f) {
      assert IsColumn(lower, header, f, ColumnOf(x, f)) && IsColumn(lower, header, f, ColumnOf(y, f));
    }
    assert x.Keys == y.Keys by {
      forall f: Field ensures f in x <==> f in y {
        assert ColumnOf(x, f) == ColumnOf(y, f);
      }
    }
    forall f | f in x ensures x[f] == y[f] {
      assert ColumnOf(x, f) == ColumnOf(y, f);
    }
  }

  /** No column is read for two fields. */
  lemma ColumnsDisjoint(lower: CaseMap, header: seq<string>, index: map<Field, nat>, f: Field, g: Field)
    requires IsColumnIndex(lower, header, index) && f in index && g in index && f != g
    ensures index[f] != index[g]
  {
    assert IsColumn(lower, header, f, ColumnOf(index, f)) && IsColumn(lower, header, g, ColumnOf(index, g));
    AliasesDiffer(f, g, NormalizeHeader(lower, header[index[f]]));
  }

  lemma AliasesDiffer(f: Field, g: Field, name: string)
    requires f != g && name in Aliases(f)
    ensures name !in Aliases(g)
  {
    forall b | b in Aliases(g) ensures b[0] != name[0] || |b| != |name| {
    }
  }

  function Cell(cells: seq<string>, index: map<Field, nat>, f: Field): string {
    if f in index && index[f] < |cells| then Trim(cells[index[f]]) else ""
  }

  function CellsToRow(cells: seq<string>, index: map<Field, nat>, n: nat): ParsedRow {
    ParsedRow(n, Cell(cells, index, Title), Cell(cells, index, Statement), Cell(cells, index, Village),
        Cell(cells, index, ReferenceId))
  }

  function Numbered(rows: Rows, index: map<Field, nat>, n: nat): seq<ParsedRow> {
    if rows == [] then [] else [CellsToRow(rows[0], index, n)] + Numbered(rows[1..], index, n + 1)
  }

  function Count(s: string, c: char): nat {
    if s == "" then 0 else (if s[0] == c then 1 else 0) + Count(s[1..], c)
  }

  function DetectDelimiter(line: string): char {
    var commas, semicolons, tabs := Count(line, ','), Count(line, ';'), Count(line, '\t');
    if semicolons > commas && semicolons > tabs then ';'
    else if tabs > commas && tabs > semicolons then '\t'
    else ','
  }

  /** The text up to its first line break, quoted or not. */
  function HeadLine(text: string): string {
    if text == "" || text[0] == '\r' || text[0] == '\n' then "" else [text[0]] + HeadLine(text[1..])
  }

  function WithoutBom(text: string): string {
    if text != "" && text[0] == BOM then text[1..] else text
  }

  /** The rows are those below the header of the parsed text, numbered from two. */
  ghost predicate IsParse(lower: CaseMap, file: string, rows: seq<ParsedRow>) {
    var text := WithoutBom(file);
    var parsed := ParsedRows(DetectDelimiter(HeadLine(text)), text);
    if Trim(text) == "" || |parsed| < 2 then rows == []
    else exists index :: IsColumnIndex(lower, parsed[0], index) && rows == Numbered(parsed[1..], index, 2)
  }

  method ParseCsvNeeds(lower: CaseMap, file: string) returns (rows: seq<ParsedRow>)
    ensures IsParse(lower, file, rows)
  {
    var text := WithoutBom(file);
    if Trim(text) == "" { return []; }
    var delimiter := DetectDelimiter(HeadLine(text));
    var parsed := ParseCsvRows(text, delimiter);
    if |parsed| < 2 { return []; }
    var index := BuildColumnIndex(lower, parsed[0]);
    return Numbered(parsed[1..], index, 2);
  }

  // ---------------------------------------------------------------- what a read file says, column by column

  /** The value is that of the first column whose header, normalised, is one of the names; empty if there is none, or
      if the row ends before it. */
  ghost predicate ValueUnder(lower: CaseMap, header: seq<string>, cells: seq<string>, names: set<string>,
                             value: string)
  {
    if forall i | 0 <= i < |header| :: NormalizeHeader(lower, header[i]) !in names then value == ""
    else exists c | 0 <= c < |header| ::
      && NormalizeHeader(lower, header[c]) in names
      && (forall i | 0 <= i < c :: NormalizeHeader(lower, header[i]) !in names)
      && value == if c < |cells| then Trim(cells[c]) else ""
  }

  lemma CellUnder(lower: CaseMap, header: seq<string>, cells: seq<string>, index: map<Field, nat>, f: Field,
                  names: set<string>)
    requires IsColumnIndex(lower, header, index) && forall name :: name in names <==> name in Aliases(f)
    ensures ValueUnder(lower, header, cells, names, Cell(cells, index, f))
  {
    assert IsColumn(lower, header, f, ColumnOf(index, f));
    hide Aliases, NormalizeHeader, Trim;
    if f in index {
      assert NormalizeHeader(lower, header[index[f]]) in names;
    }
  }

  lemma {:induction false} NumberedAt(rows: Rows, index: map<Field, nat>, n: nat, k: nat)
    requires k < |rows|
    ensures |Numbered(rows, index, n)| == |rows| && Numbered(rows, index, n)[k] == CellsToRow(rows[k], index, n + k)
    decreases k
  {
    NumberedLength(rows, index, n);
    if k > 0 { NumberedAt(rows[1..], index, n + 1, k - 1); }
  }

  lemma {:induction false} NumberedLength(rows: Rows, index: map<Field, nat>, n: nat)
    ensures |Numbered(rows, index, n)| == |rows|
  {
    if rows != [] { NumberedLength(rows[1..], index, n + 1); }
  }

  /** One row for each line below the header, numbered from two, and each of its fields read from the column that has
      one of the field's names. */
  lemma RowsExactly(lower: CaseMap, file: string, rows: seq<ParsedRow>, k: nat)
    requires IsParse(lower, file, rows) && k < |rows|
    ensures var text := WithoutBom(file);
      var parsed := ParsedRows(DetectDelimiter(HeadLine(text)), text);
      && |rows| == |parsed| - 1 && rows[k].row == k + 2
      && ValueUnder(lower, parsed[0], parsed[k + 1], {"title", "need title"}, rows[k].title)
      && ValueUnder(lower, parsed[0], parsed[k + 1], {"statement", "need statement"}, rows[k].statement)
      && ValueUnder(lower, parsed[0], parsed[k + 1], {"governorate", "governorates", "village", "villages"},
                    rows[k].village)
      && ValueUnder(lower, parsed[0], parsed[k + 1], {"reference id", "referenceid", "reference", "ref id"},
                    rows[k].referenceId)
  {
    var text := WithoutBom(file);
    hide ParsedRows, DetectDelimiter, HeadLine, Trim, IsColumnIndex, ValueUnder, Numbered, Cell;
    var parsed := ParsedRows(DetectDelimiter(HeadLine(text)), text);
    var index :| IsColumnIndex(lower, parsed[0], index) && rows == Numbered(parsed[1..], index, 2);
    NumberedLength(parsed[1..], index, 2);
    NumberedAt(parsed[1..], index, 2, k);
    assert parsed[1..][k] == parsed[k + 1];
    CellUnder(lower, parsed[0], parsed[k + 1], index, Title, {"title", "need title"});
    CellUnder(lower, parsed[0], parsed[k + 1], index, Statement, {"statement", "need statement"});
    CellUnder(lower, parsed[0], parsed[k + 1], index, Village, {"governorate", "governorates", "village", "villages"});
    CellUnder(lower, parsed[0], parsed[k + 1], index, ReferenceId,
              {"reference id", "referenceid", "reference", "ref id"});
  }

  /** One byte order mark in front of the text makes no difference. */
  lemma BomExactly(lower: CaseMap, text: string, rows: seq<ParsedRow>)
    requires text != "" ==> text[0] != '\U{feff}'
    ensures IsParse(lower, ['\U{feff}'] + text, rows) <==> IsParse(lower, text, rows)
    ensures WithoutBom(text) == text
  {
    assert (['\U{feff}'] + text)[1..] == text;
  }

  /** The first line: as much of the text as there is before a line break. */
  lemma {:induction false} HeadLineExactly(text: string)
    ensures HeadLine(text) <= text && '\r' !in HeadLine(text) && '\n' !in HeadLine(text)
    ensures |HeadLine(text)| == |text| || text[|HeadLine(text)|] in ['\r', '\n']
  {
    if text != "" && text[0] != '\r' && text[0] != '\n' {
      HeadLineExactly(text[1..]);
      assert text == [text[0]] + text[1..];
    }
  }

  lemma {:induction false} CountMultiset(s: string, c: char)
    ensures Count(s, c) == multiset(s)[c]
  {
    if s != "" {
      CountMultiset(s[1..], c);
      assert s == [s[0]] + s[1..];
    }
  }

  /** A semicolon or a tab separates the cells if the first line has more of it than of either other mark, and otherwise
      a comma does. */
  lemma DelimiterExactly(line: string)
    ensures var d, n := DetectDelimiter(line), multiset(line);
      && d in [',', ';', '\t']
      && (d == ';' <==> n[';'] > n[','] && n[';'] > n['\t'])
      && (d == '\t' <==> n['\t'] > n[','] && n['\t'] > n[';'])
  {
    CountMultiset(line, ',');
    CountMultiset(line, ';');
    CountMultiset(line, '\t');
  }

  lemma {:induction false} DropSpacesAll(spaces: string, rest: string)
    requires (forall c | c in spaces :: IsSpace(c)) && (rest == "" || !IsSpace(rest[0]))
    ensures DropSpaces(spaces + rest) == rest
  {
    if spaces == "" {
      assert spaces + rest == rest;
    } else {
      assert (spaces + rest)[1..] == spaces[1..] + rest && spaces[0] in spaces;
      DropSpacesAll(spaces[1..], rest);
    }
  }

  /** A header without white space is only lower-cased; any run of white space between words reads as one space. */
  lemma {:induction false} HeaderWords(word: string, spaces: string, rest: string)
    requires (forall c | c in word :: !IsSpace(c)) && spaces != "" && (forall c | c in spaces :: IsSpace(c))
    requires rest == "" || !IsSpace(rest[0])
    ensures CollapseSpaces(word) == word
    ensures CollapseSpaces(word + (spaces + rest)) == word + (" " + CollapseSpaces(rest))
  {
    if word == "" {
      assert word + (spaces + rest) == spaces + rest && (spaces + rest)[1..] == spaces[1..] + rest;
      assert spaces[0] in spaces;
      DropSpacesAll(spaces[1..], rest);
      assert word + (" " + CollapseSpaces(rest)) == " " + CollapseSpaces(rest);
    } else {
      assert word[0] in word && word == [word[0]] + word[1..];
      assert (word + (spaces + rest))[1..] == word[1..] + (spaces + rest);
      HeaderWords(word[1..], spaces, rest);
    }
  }

  /** White space around a header does not matter. */
  lemma HeaderSpelling(lower: CaseMap, before: string, name: string, after: string)
    requires CleanEdges(IsSpace, name)
    requires (forall c | c in before :: IsSpace(c)) && forall c | c in after :: IsSpace(c)
    ensures NormalizeHeader(lower, before + name + after) == CollapseSpaces(lower(name))
  {
    TrimPadded(IsSpace, before, name, after);
  }

  // ---------------------------------------------------------------- reading a written file

  lemma {:induction false} TrimEndKeepsHead(s: string)
    requires s != "" && !IsSpace(s[0])
    ensures TrimEnd(IsSpace, s) != ""
  {
    if IsSpace(s[|s| - 1]) { TrimEndKeepsHead(s[..|s| - 1]); }
  }

  lemma PrintedHead(d: char, header: seq<string>, rows: Rows)
    requires header != []
    ensures PrintRows(d, [header] + rows) != "" && PrintRows(d, [header] + rows)[0] == '"'
    ensures rows == [] ==> PrintRows(d, [header] + rows) == PrintRow(d, header)
    ensures rows != [] ==> PrintRows(d, [header] + rows) == PrintRow(d, header) + ("\n" + PrintRows(d, rows))
  {
    var all := [header] + rows;
    assert all[0] == header && all[1..] == rows;
    if |header| > 1 { PrintRowCons(d, header); } else { PrintOne(d, header); }
    assert PrintRow(d, header)[0] == '"';
    if rows == [] {
      assert Map(RowPrinter(d), all) == [PrintRow(d, header)] + Map(RowPrinter(d), []);
    } else {
      PrintRowsCons(d, all);
    }
  }

  lemma NamesTrimmed(lower: CaseMap, cell: string, f: Field)
    ensures Names(lower, Trim(cell), f) <==> Names(lower, cell, f)
  {
    TrimShape(IsSpace, cell);
    TrimShape(IsSpace, Trim(cell));
  }

  lemma HeaderTrimmed(lower: CaseMap, header: seq<string>, f: Field, column: Option<nat>)
    requires IsColumn(lower, TrimRow(header), f, column)
    ensures IsColumn(lower, header, f, column)
  {
    hide Names;
    forall i | 0 <= i < |header| ensures Names(lower, TrimRow(header)[i], f) <==> Names(lower, header[i], f) {
      MapAt(Trim, header, i);
      NamesTrimmed(lower, header[i], f);
    }
  }

  /** A file written with any header and rows is read back: the rows' cells under the names that the header gives them,
      trimmed, blank rows dropped, whenever the first line lets the delimiter be recognised. */
  lemma FileReadsBack(lower: CaseMap, d: char, header: seq<string>, rows: Rows, read: seq<ParsedRow>,
                      index: map<Field, nat>)
    requires d in [',', ';', '\t'] && HasText(TrimRow(header))
    requires DetectDelimiter(HeadLine(PrintRows(d, [header] + rows))) == d
    requires IsParse(lower, PrintRows(d, [header] + rows), read) && IsColumnIndex(lower, header, index)
    ensures read == Numbered(NonBlank(Map(TrimRow, rows)), index, 2)
  {
    var all, text := [header] + rows, PrintRows(d, [header] + rows);
    PrintedHead(d, header, rows);
    TrimEndKeepsHead(text);
    RoundTrip(d, all);
    MapCons(TrimRow, all);
    assert all[1..] == rows;
    var parsed := ParsedRows(d, text);
    var body := NonBlank(Map(TrimRow, rows));
    assert parsed == [TrimRow(header)] + body by {
      assert ([TrimRow(header)] + Map(TrimRow, rows))[1..] == Map(TrimRow, rows);
    }
    assert parsed[1..] == body;
    if |parsed| >= 2 {
      var x :| IsColumnIndex(lower, parsed[0], x) && read == Numbered(parsed[1..], x, 2);
      forall f: Field ensures IsColumn(lower, header, f, ColumnOf(x, f)) {
        HeaderTrimmed(lower, header, f, ColumnOf(x, f));
      }
      IndexUnique(lower, header, x, index);
    }
  }

  // ---------------------------------------------------------------- when the delimiter is recognised

  predicate IsMark(c: char) {
    c in [',', ';', '\t', '"', '\r', '\n']
  }

  lemma {:induction false} CountAppend(a: string, b: string, c: char)
    ensures Count(a + b, c) == Count(a, c) + Count(b, c)
  {
    if a == "" {
      assert a + b == b;
    } else {
      assert (a + b)[1..] == a[1..] + b;
      CountAppend(a[1..], b, c);
    }
  }

  lemma {:induction false} PlainCell(s: string, c: char)
    requires Without(IsMark, s) && IsMark(c) && c != '"'
    ensures Escape(s) == "\"" + s + "\"" && Count(Escape(s), c) == 0 && NoBreak(Escape(s))
  {
    PlainDoubled(s);
    PlainCount(s, c);
    CountAppend("\"" + s, "\"", c);
    CountAppend("\"", s, c);
    assert ("\"")[1..] == "";
    forall i | 0 <= i < |Escape(s)| ensures Escape(s)[i] != '\r' && Escape(s)[i] != '\n' {
      if 0 < i <= |s| { assert Escape(s)[i] == s[i - 1] && !IsMark(s[i - 1]); }
    }
  }

  lemma {:induction false} PlainDoubled(s: string)
    requires Without(IsMark, s)
    ensures Doubled(s) == s
  {
    if s != "" { PlainDoubled(s[1..]); }
  }

  lemma {:induction false} PlainCount(s: string, c: char)
    requires Without(IsMark, s) && IsMark(c)
    ensures Count(s, c) == 0
  {
    if s != "" { PlainCount(s[1..], c); }
  }

  /** A printed row of plain names has one delimiter less than names, and no other mark that could be taken for one. */
  lemma {:induction false} PlainRow(d: char, header: seq<string>, c: char)
    requires header != [] && AllWithout(IsMark, header) && d in [',', ';', '\t'] && c in [',', ';', '\t']
    ensures Count(PrintRow(d, header), c) == if c == d then |header| - 1 else 0
    ensures NoBreak(PrintRow(d, header))
  {
    assert Without(IsMark, header[0]);
    PlainCell(header[0], c);
    if |header| == 1 {
      PrintOne(d, header);
    } else {
      PrintRowCons(d, header);
      PlainRow(d, header[1..], c);
      CountAppend(Escape(header[0]), [d] + PrintRow(d, header[1..]), c);
      CountAppend([d], PrintRow(d, header[1..]), c);
      assert [d][1..] == "";
    }
  }

  lemma {:induction false} HeadLineOf(line: string, rest: string)
    requires NoBreak(line)
    ensures HeadLine(line + ("\n" + rest)) == line && HeadLine(line) == line
  {
    if line != "" {
      assert (line + ("\n" + rest))[1..] == line[1..] + ("\n" + rest);
      HeadLineOf(line[1..], rest);
      assert line == [line[0]] + line[1..];
    }
  }

  /** Under a header of two or more plain names every delimiter is recognised; under a single name only the comma. */
  lemma DelimiterRecognised(d: char, header: seq<string>, rows: Rows)
    requires d in [',', ';', '\t'] && header != [] && AllWithout(IsMark, header)
    ensures DetectDelimiter(HeadLine(PrintRows(d, [header] + rows))) == d <==> |header| > 1 || d == ','
  {
    PrintedHead(d, header, rows);
    PlainRow(d, header, ',');
    PlainRow(d, header, ';');
    PlainRow(d, header, '\t');
    HeadLineOf(PrintRow(d, header), if rows == [] then "" else PrintRows(d, rows));
  }
}
