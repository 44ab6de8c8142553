/** Importing Needs from a file or a bulk payload, skipping Needs the study already has. */
module NeedsImport {
  import opened Wrappers
  import opened Text
  import opened NeedKeys

  const MAX_IMPORT_ROWS := 2000
  const MAX_TITLE := 300

  datatype ParsedRow = ParsedRow(row: nat, title: string, statement: string, village: string, referenceId: string)

  datatype Need = Need(title: string, statement: string, village: seq<string>, referenceId: Option<string>)

  /** The two import paths validate differently. */
  datatype Source = FileImport | BulkImport

  /** A row to import, and whether the database accepts it when it is created. */
  datatype Attempt = Attempt(row: ParsedRow, saves: bool)

  datatype Verdict = Invalid | Duplicate | SaveFailed | Imported

  datatype RowError = RowError(row: nat, duplicate: bool)

  datatype ImportResult = ImportResult(totalRows: nat, imported: nat, failed: nat, errors: seq<RowError>)

  datatype ImportError = StudyNotFound | UnsupportedFileType | ImportTooLarge | EmptyPayload

  predicate IsValid(src: Source, r: ParsedRow) {
    match src
    case FileImport => r.title != "" && |r.title| <= MAX_TITLE && r.statement != "" && r.village != ""
                       && |SplitVillages(r.village)| != 0
    case BulkImport => r.title != "" && r.statement != ""
  }

  function RowKey(lower: CaseMap, r: ParsedRow): string {
    DedupeKey(lower, r.title, r.village, r.referenceId)
  }

  function NeedKey(lower: CaseMap, n: Need): string {
    DedupeKey(lower, n.title, Join(n.village, ","), n.referenceId.GetOr(""))
  }

  function NeedOf(r: ParsedRow): Need {
    Need(r.title, r.statement, SplitVillages(r.village), if r.referenceId == "" then None else Some(r.referenceId))
  }

  ghost function KeysOf(lower: CaseMap, needs: seq<Need>): set<string> {
    set n | n in needs :: NeedKey(lower, n)
  }

  function Judge(lower: CaseMap, src: Source, seen: set<string>, a: Attempt): Verdict {
    if !IsValid(src, a.row) then Invalid
    else if RowKey(lower, a.row) in seen then Duplicate
    else if !a.saves then SaveFailed
    else Imported
  }

  /** The keys known after a list of attempts. */
  function Seen(lower: CaseMap, src: Source, known: set<string>, todo: seq<Attempt>): set<string> {
    if todo == [] then known
    else
      var a, seen := todo[|todo| - 1], Seen(lower, src, known, todo[..|todo| - 1]);
      if Judge(lower, src, seen, a) == Imported then seen + {RowKey(lower, a.row)} else seen
  }

  /** What happens to the `i`-th attempt. */
  function VerdictAt(lower: CaseMap, src: Source, known: set<string>, todo: seq<Attempt>, i: nat): Verdict
    requires i < |todo|
  {
    Judge(lower, src, Seen(lower, src, known, todo[..i]), todo[i])
  }

  function Verdicts(lower: CaseMap, src: Source, known: set<string>, todo: seq<Attempt>): seq<Verdict> {
    seq(|todo|, i requires 0 <= i < |todo| => VerdictAt(lower, src, known, todo, i))
  }

  function Stored(todo: seq<Attempt>, vs: seq<Verdict>): seq<Need>
    requires |vs| == |todo|
  {
    if todo == [] then []
    else Stored(todo[..|todo| - 1], vs[..|todo| - 1])
         + if vs[|todo| - 1] == Imported then [NeedOf(todo[|todo| - 1].row)] else []
  }

  function Errors(todo: seq<Attempt>, vs: seq<Verdict>): seq<RowError>
    requires |vs| == |todo|
  {
    if todo == [] then []
    else
      var v := vs[|todo| - 1];
      Errors(todo[..|todo| - 1], vs[..|todo| - 1])
      + if v == Imported then [] else [RowError(todo[|todo| - 1].row.row, v == Duplicate)]
  }

  /** The Needs one import adds. */
  function Added(lower: CaseMap, src: Source, known: set<string>, todo: seq<Attempt>): seq<Need> {
    Stored(todo, Verdicts(lower, src, known, todo))
  }

  function Report(lower: CaseMap, src: Source, known: set<string>, todo: seq<Attempt>): ImportResult {
    var vs := Verdicts(lower, src, known, todo);
    ImportResult(|todo|, |Stored(todo, vs)|, |Errors(todo, vs)|, Errors(todo, vs))
  }

  lemma VerdictsSnoc(lower: CaseMap, src: Source, known: set<string>, todo: seq<Attempt>, i: nat)
    requires i < |todo|
    ensures Verdicts(lower, src, known, todo[..i + 1])
         == Verdicts(lower, src, known, todo[..i]) + [VerdictAt(lower, src, known, todo, i)]
  {
    hide Judge, Seen;
    forall j | 0 <= j <= i ensures VerdictAt(lower, src, known, todo[..i + 1], j)
        == VerdictAt(lower, src, known, todo, j) {
      assert todo[..i + 1][..j] == todo[..j];
    }
    forall j | 0 <= j < i ensures VerdictAt(lower, src, known, todo[..i], j) == VerdictAt(lower, src, known, todo, j) {
      assert todo[..i][..j] == todo[..j];
    }
  }

  lemma Advance(lower: CaseMap, src: Source, known: set<string>, todo: seq<Attempt>, i: nat) returns (v: Verdict)
    requires i < |todo|
    ensures v == Judge(lower, src, Seen(lower, src, known, todo[..i]), todo[i]) == VerdictAt(lower, src, known, todo, i)
    ensures Seen(lower, src, known, todo[..i + 1])
         == Seen(lower, src, known, todo[..i]) + if v == Imported then {RowKey(lower, todo[i].row)} else {}
    ensures Added(lower, src, known, todo[..i + 1])
         == Added(lower, src, known, todo[..i]) + if v == Imported then [NeedOf(todo[i].row)] else []
    ensures Errors(todo[..i + 1], Verdicts(lower, src, known, todo[..i + 1]))
         == Errors(todo[..i], Verdicts(lower, src, known, todo[..i]))
            + if v == Imported then [] else [RowError(todo[i].row.row, v == Duplicate)]
  {
    v := VerdictAt(lower, src, known, todo, i);
    VerdictsSnoc(lower, src, known, todo, i);
    assert todo[..i + 1][..i] == todo[..i];
    var vs := Verdicts(lower, src, known, todo[..i]);
    assert (vs + [v])[..i] == vs;
  }

  // ---------------------------------------------------------------- what is stored and reported, column by column

  /** The Need has the row's title and statement, the row's villages, and the row's reference id if there is one. */
  ghost predicate IsNeedOf(n: Need, r: ParsedRow) {
    && n.title == r.title && n.statement == r.statement && n.village == SplitVillages(r.village)
    && (r.referenceId == "" ==> n.referenceId == None)
    && (r.referenceId != "" ==> n.referenceId == Some(r.referenceId))
  }

  /** `at` lists the places of a verdict that is or is not `Imported`, in order. */
  ghost predicate Places(at: seq<nat>, vs: seq<Verdict>, imported: bool) {
    && (forall k, l | 0 <= k < l < |at| :: at[k] < at[l])
    && (forall i :: i in at <==> 0 <= i < |vs| && ((vs[i] == Imported) <==> imported))
  }

  ghost predicate StoresAt(added: seq<Need>, todo: seq<Attempt>, at: seq<nat>) {
    |at| == |added| && forall k | 0 <= k < |at| :: at[k] < |todo| && IsNeedOf(added[k], todo[at[k]].row)
  }

  /** The Needs are, in order, one for each imported row, and hold that row's columns. */
  ghost predicate StoresRows(added: seq<Need>, todo: seq<Attempt>, vs: seq<Verdict>) {
    |vs| == |todo| && exists at: seq<nat> :: Places(at, vs, true) && StoresAt(added, todo, at)
  }

  ghost predicate ReportsAt(errors: seq<RowError>, todo: seq<Attempt>, vs: seq<Verdict>, at: seq<nat>)
    requires |vs| == |todo|
  {
    |at| == |errors| && forall k | 0 <= k < |at| ::
      at[k] < |todo| && errors[k].row == todo[at[k]].row.row && (errors[k].duplicate <==> vs[at[k]] == Duplicate)
  }

  /** The errors are, in order, one for each other row, with its number and whether it is a duplicate. */
  ghost predicate ReportsRows(errors: seq<RowError>, todo: seq<Attempt>, vs: seq<Verdict>) {
    |vs| == |todo| && exists at: seq<nat> :: Places(at, vs, false) && ReportsAt(errors, todo, vs, at)
  }

  lemma PlacesSnoc(at: seq<nat>, vs: seq<Verdict>, imported: bool)
    requires vs != [] && Places(at, vs[..|vs| - 1], imported)
    ensures var n := |vs| - 1;
      Places(if vs[n] == Imported <==> imported then at + [n] else at, vs, imported)
  {
    var n := |vs| - 1;
    forall k | 0 <= k < |at| ensures at[k] < n { assert at[k] in at; }
  }

  lemma StoresNext(added: seq<Need>, todo: seq<Attempt>, at: seq<nat>, n: Need)
    requires todo != [] && StoresAt(added, todo[..|todo| - 1], at)
    ensures StoresAt(added, todo, at)
    ensures IsNeedOf(n, todo[|todo| - 1].row) ==> StoresAt(added + [n], todo, at + [|todo| - 1])
  {
    forall k | 0 <= k < |at| ensures at[k] < |todo| && IsNeedOf(added[k], todo[at[k]].row) {
      assert todo[..|todo| - 1][at[k]] == todo[at[k]];
    }
  }

  lemma StoredSnoc(todo: seq<Attempt>, vs: seq<Verdict>)
    requires |vs| == |todo| > 0
    ensures var n := |todo| - 1; var one := NeedOf(todo[n].row);
      && Stored(todo, vs) == (if vs[n] == Imported then Stored(todo[..n], vs[..n]) + [one]
                              else Stored(todo[..n], vs[..n]))
      && IsNeedOf(one, todo[n].row)
  {
  }

  lemma StoresRowsAt(added: seq<Need>, todo: seq<Attempt>, vs: seq<Verdict>, at: seq<nat>)
    requires |vs| == |todo| && Places(at, vs, true) && StoresAt(added, todo, at)
    ensures StoresRows(added, todo, vs)
  {
  }

  lemma {:induction false} StoredRows(todo: seq<Attempt>, vs: seq<Verdict>)
    requires |vs| == |todo|
    ensures StoresRows(Stored(todo, vs), todo, vs)
  {
    if todo == [] {
      assert Places([], vs, true) && StoresAt([], todo, []);
    } else {
      var n := |todo| - 1;
      var some, one := Stored(todo[..n], vs[..n]), NeedOf(todo[n].row);
      StoredRows(todo[..n], vs[..n]);
      StoredSnoc(todo, vs);
      hide Stored, Places, StoresAt, IsNeedOf, NeedOf;
      var at: seq<nat> :| Places(at, vs[..n], true) && StoresAt(some, todo[..n], at);
      PlacesSnoc(at, vs, true);
      StoresNext(some, todo, at, one);
      hide StoresRows;
      StoresRowsAt(Stored(todo, vs), todo, vs, if vs[n] == Imported then at + [n] else at);
    }
  }

  lemma ReportsNext(errors: seq<RowError>, todo: seq<Attempt>, vs: seq<Verdict>, at: seq<nat>)
    requires |vs| == |todo| > 0 && ReportsAt(errors, todo[..|todo| - 1], vs[..|todo| - 1], at)
    ensures var n := |todo| - 1;
      && ReportsAt(errors, todo, vs, at)
      && ReportsAt(errors + [RowError(todo[n].row.row, vs[n] == Duplicate)], todo, vs, at + [n])
  {
    var n := |todo| - 1;
    forall k | 0 <= k < |at| ensures at[k] < n && todo[..n][at[k]] == todo[at[k]] && vs[..n][at[k]] == vs[at[k]] {
    }
  }

  lemma {:induction false} ReportedRows(todo: seq<Attempt>, vs: seq<Verdict>)
    requires |vs| == |todo|
    ensures ReportsRows(Errors(todo, vs), todo, vs)
  {
    if todo == [] {
      assert Places([], vs, false) && ReportsAt([], todo, vs, []);
    } else {
      var n := |todo| - 1;
      var some, one := Errors(todo[..n], vs[..n]), RowError(todo[n].row.row, vs[n] == Duplicate);
      ReportedRows(todo[..n], vs[..n]);
      assert Errors(todo, vs) == some + if vs[n] == Imported then [] else [one];
      hide Errors, Places, ReportsAt;
      var at: seq<nat> :| Places(at, vs[..n], false) && ReportsAt(some, todo[..n], vs[..n], at);
      PlacesSnoc(at, vs, false);
      ReportsNext(some, todo, vs, at);
      assert some + [] == some;
    }
  }

  /** What one import adds and reports, column by column. */
  lemma ImportExactly(lower: CaseMap, src: Source, known: set<string>, todo: seq<Attempt>)
    ensures var vs, report := Verdicts(lower, src, known, todo), Report(lower, src, known, todo);
      && StoresRows(Added(lower, src, known, todo), todo, vs) && ReportsRows(report.errors, todo, vs)
      && report.totalRows == |todo| && report.imported == |Added(lower, src, known, todo)|
      && report.failed == |report.errors| && report.imported + report.failed == |todo|
  {
    var vs := Verdicts(lower, src, known, todo);
    StoredRows(todo, vs);
    ReportedRows(todo, vs);
    RowsAccounted(todo, vs);
  }

  /** Which rows are valid: a file's need a title of at most 300 characters, a statement and a village; a bulk payload's
      need a title and a statement. */
  lemma ValidExactly(r: ParsedRow)
    ensures IsValid(FileImport, r) <==> 1 <= |r.title| <= 300 && r.statement != "" && SplitVillages(r.village) != []
    ensures IsValid(BulkImport, r) <==> r.title != "" && r.statement != ""
  {
    SplitVillagesNone();
  }

  lemma ImportNothing(lower: CaseMap, src: Source, known: set<string>)
    ensures Seen(lower, src, known, []) == known && Added(lower, src, known, []) == []
    ensures Errors([], Verdicts(lower, src, known, [])) == []
  {
  }

  class NeedsImportService {
    var needs: seq<Need>

    constructor ()
      ensures needs == []
    {
      needs := [];
    }

    method KnownKeys(lower: CaseMap) returns (seen: set<string>)
      ensures seen == KeysOf(lower, needs)
    {
      seen := {};
      for i := 0 to |needs|
        invariant seen == KeysOf(lower, needs[..i])
      {
        assert needs[..i + 1] == needs[..i] + [needs[i]];
        seen := seen + {NeedKey(lower, needs[i])};
      }
      assert needs[..|needs|] == needs;
    }

    method ImportRows(lower: CaseMap, src: Source, todo: seq<Attempt>) returns (result: ImportResult)
      modifies this
      ensures needs == old(needs) + Added(lower, src, KeysOf(lower, old(needs)), todo)
      ensures result == Report(lower, src, KeysOf(lower, old(needs)), todo)
      ensures old(needs) <= needs
          && StoresRows(needs[|old(needs)|..], todo, Verdicts(lower, src, KeysOf(lower, old(needs)), todo))
      ensures ReportsRows(result.errors, todo, Verdicts(lower, src, KeysOf(lower, old(needs)), todo))
      ensures result.totalRows == |todo| == result.imported + result.failed
          && result.imported == |needs| - |old(needs)| && result.failed == |result.errors|
    {
      hide Seen, Added, Errors, VerdictAt, StoresRows, ReportsRows, KeysOf, Places, IsValid, RowKey, NeedOf;
      ghost var known := KeysOf(lower, needs);
      ImportNothing(lower, src, known);
      assert todo[..0] == [];
      var seenKeys := KnownKeys(lower);
      var errors: seq<RowError> := [];
      var imported := 0;
      for i := 0 to |todo|
        invariant seenKeys == Seen(lower, src, known, todo[..i])
        invariant needs == old(needs) + Added(lower, src, known, todo[..i])
        invariant imported == |Added(lower, src, known, todo[..i])|
        invariant errors == Errors(todo[..i], Verdicts(lower, src, known, todo[..i]))
      {
        var r := todo[i].row;
        ghost var v := Advance(lower, src, known, todo, i);
        if !IsValid(src, r) {
          errors := errors + [RowError(r.row, false)];
        } else {
          var key := RowKey(lower, r);
          if key in seenKeys {
            errors := errors + [RowError(r.row, true)];
          } else if todo[i].saves {
            needs := needs + [NeedOf(r)];
            seenKeys := seenKeys + {key};
            imported := imported + 1;
          } else {
            errors := errors + [RowError(r.row, false)];
          }
        }
      }
      assert todo[..|todo|] == todo;
      result := ImportResult(|todo|, imported, |errors|, errors);
      ImportExactly(lower, src, known, todo);
      assert result == Report(lower, src, known, todo);
      assert needs[|old(needs)|..] == Added(lower, src, known, todo);
    }

    /** `supported` says that the file is of a kind that can be read; `todo` are the rows read from it. */
    method ImportFromFile(lower: CaseMap, studyExists: bool, supported: bool, todo: seq<Attempt>)
        returns (result: Result<ImportResult, ImportError>)
      modifies this
      ensures
        if !studyExists then result == Failure(StudyNotFound) && needs == old(needs)
        else if !supported then result == Failure(UnsupportedFileType) && needs == old(needs)
        else if |todo| > 2000 then result == Failure(ImportTooLarge) && needs == old(needs)
        else
          && result == Success(Report(lower, FileImport, KeysOf(lower, old(needs)), todo))
          && needs == old(needs) + Added(lower, FileImport, KeysOf(lower, old(needs)), todo)
          && StoresRows(needs[|old(needs)|..], todo, Verdicts(lower, FileImport, KeysOf(lower, old(needs)), todo))
    {
      if !studyExists { return Failure(StudyNotFound); }
      if !supported { return Failure(UnsupportedFileType); }
      if |todo| > MAX_IMPORT_ROWS { return Failure(ImportTooLarge); }
      var r := ImportRows(lower, FileImport, todo);
      return Success(r);
    }

    method ImportBulk(lower: CaseMap, studyExists: bool, items: seq<Attempt>)
        returns (result: Result<ImportResult, ImportError>)
      modifies this
      ensures
        if !studyExists then result == Failure(StudyNotFound) && needs == old(needs)
        else if items == [] then result == Failure(EmptyPayload) && needs == old(needs)
        else if |items| > 2000 then result == Failure(ImportTooLarge) && needs == old(needs)
        else
          && result == Success(Report(lower, BulkImport, KeysOf(lower, old(needs)), Cleaned(items)))
          && needs == old(needs) + Added(lower, BulkImport, KeysOf(lower, old(needs)), Cleaned(items))
          && StoresRows(needs[|old(needs)|..], Cleaned(items),
                        Verdicts(lower, BulkImport, KeysOf(lower, old(needs)), Cleaned(items)))
    {
      if !studyExists { return Failure(StudyNotFound); }
      if |items| == 0 { return Failure(EmptyPayload); }
      if |items| > MAX_IMPORT_ROWS { return Failure(ImportTooLarge); }
      var r := ImportRows(lower, BulkImport, Cleaned(items));
      return Success(r);
    }
  }

  /** A bulk item is trimmed and numbered from one before it is judged. */
  function Cleaned(items: seq<Attempt>): (r: seq<Attempt>)
    ensures |r| == |items|
  {
    seq(|items|, i requires 0 <= i < |items| =>
      var r := items[i].row;
      Attempt(ParsedRow(i + 1, Trim(r.title), Trim(r.statement), Trim(r.village), Trim(r.referenceId)), items[i].saves))
  }

  /** So a bulk item is imported under its trimmed columns and reported under its place in the payload. */
  lemma CleanedExactly(items: seq<Attempt>, i: nat)
    requires i < |items|
    ensures var a := Cleaned(items)[i]; var r := items[i].row;
      && a.saves == items[i].saves && a.row.row == i + 1
      && a.row.title == Trim(r.title) && a.row.statement == Trim(r.statement)
      && a.row.village == Trim(r.village) && a.row.referenceId == Trim(r.referenceId)
  {
  }

  // ---------------------------------------------------------------- properties

  /** The verdict on a row by its columns: which check stops it, if any does. */
  lemma VerdictExactly(lower: CaseMap, src: Source, known: set<string>, todo: seq<Attempt>, i: nat)
    requires i < |todo|
    ensures var v, key := VerdictAt(lower, src, known, todo, i), RowKey(lower, todo[i].row);
      && (v == Invalid <==> !IsValid(src, todo[i].row))
      && (v == Duplicate <==> IsValid(src, todo[i].row) && (key in known || HasStorable(lower, src, todo[..i], key)))
      && (v == SaveFailed <==>
            && IsValid(src, todo[i].row) && key !in known && !HasStorable(lower, src, todo[..i], key)
            && !todo[i].saves)
  {
    SeenExactly(lower, src, known, todo[..i], RowKey(lower, todo[i].row));
  }

  /** The key of a stored Need, rebuilt from its columns, is the key of the row it came from. */
  lemma StoredKey(lower: CaseMap, r: ParsedRow)
    ensures NeedKey(lower, NeedOf(r)) == RowKey(lower, r)
  {
    SplitVillagesShape(r.village);
    Resplit(SplitVillages(r.village));
  }

  /** The running key set always equals the keys of what is stored. */
  lemma {:induction false} SeenIsStored(lower: CaseMap, src: Source, needs: seq<Need>, todo: seq<Attempt>)
    ensures Seen(lower, src, KeysOf(lower, needs), todo)
         == KeysOf(lower, needs + Added(lower, src, KeysOf(lower, needs), todo))
  {
    var known := KeysOf(lower, needs);
    if todo == [] {
      assert needs + Added(lower, src, known, todo) == needs;
    } else {
      var n := |todo| - 1;
      SeenIsStored(lower, src, needs, todo[..n]);
      var v := Advance(lower, src, known, todo, n);
      assert todo[..n + 1] == todo;
      var before := needs + Added(lower, src, known, todo[..n]);
      if v == Imported {
        StoredKey(lower, todo[n].row);
        var one := NeedOf(todo[n].row);
        assert needs + Added(lower, src, known, todo) == before + [one];
        assert KeysOf(lower, before + [one]) == KeysOf(lower, before) + {NeedKey(lower, one)};
      } else {
        assert needs + Added(lower, src, known, todo) == before;
      }
    }
  }

  lemma {:induction false} SeenAppend(lower: CaseMap, src: Source, known: set<string>, xs: seq<Attempt>,
                                      ys: seq<Attempt>)
    ensures Seen(lower, src, known, xs + ys) == Seen(lower, src, Seen(lower, src, known, xs), ys)
  {
    if ys == [] {
      assert xs + ys == xs;
    } else {
      assert (xs + ys)[..|xs + ys| - 1] == xs + ys[..|ys| - 1];
      SeenAppend(lower, src, known, xs, ys[..|ys| - 1]);
    }
  }

  lemma AddedNothing(lower: CaseMap, src: Source, known: set<string>)
    ensures Added(lower, src, known, []) == []
  {
  }

  lemma {:induction false} AddedAppend(lower: CaseMap, src: Source, known: set<string>, xs: seq<Attempt>,
                                       ys: seq<Attempt>)
    ensures Added(lower, src, known, xs + ys)
         == Added(lower, src, known, xs) + Added(lower, src, Seen(lower, src, known, xs), ys)
  {
    hide Added, Seen, Errors, Verdicts, VerdictAt, Judge;
    if ys == [] {
      assert xs + ys == xs;
      AddedNothing(lower, src, Seen(lower, src, known, xs));
    } else {
      var n, all := |ys| - 1, xs + ys;
      AddedAppend(lower, src, known, xs, ys[..n]);
      var v := Advance(lower, src, known, all, |xs| + n);
      var w := Advance(lower, src, Seen(lower, src, known, xs), ys, n);
      assert all[..|xs| + n] == xs + ys[..n] && all[..|xs| + n + 1] == all && ys[..n + 1] == ys;
      SeenAppend(lower, src, known, xs, ys[..n]);
      assert v == w;
      Assoc(Added(lower, src, known, xs), Added(lower, src, Seen(lower, src, known, xs), ys[..n]),
            if w == Imported then [NeedOf(ys[n].row)] else []);
    }
  }

  /** Importing A and then B, with the keys reloaded in between, stores what importing A followed by B stores. */
  lemma ImportInTwoParts(lower: CaseMap, src: Source, needs: seq<Need>, xs: seq<Attempt>, ys: seq<Attempt>)
    ensures var first := needs + Added(lower, src, KeysOf(lower, needs), xs);
      needs + Added(lower, src, KeysOf(lower, needs), xs + ys) == first + Added(lower, src, KeysOf(lower, first), ys)
  {
    var known := KeysOf(lower, needs);
    SeenIsStored(lower, src, needs, xs);
    AddedAppend(lower, src, known, xs, ys);
    Assoc(needs, Added(lower, src, known, xs), Added(lower, src, Seen(lower, src, known, xs), ys));
  }

  /** The known keys only grow, and an attempt's key is known afterwards unless it was invalid or failed to save. */
  lemma {:induction false} SeenGrows(lower: CaseMap, src: Source, known: set<string>, todo: seq<Attempt>, i: nat)
    requires i < |todo|
    ensures known <= Seen(lower, src, known, todo[..i]) <= Seen(lower, src, known, todo)
    ensures VerdictAt(lower, src, known, todo, i) in [Imported, Duplicate]
        ==> RowKey(lower, todo[i].row) in Seen(lower, src, known, todo)
  {
    var n := |todo| - 1;
    hide RowKey, IsValid;
    if i < n {
      SeenGrows(lower, src, known, todo[..n], i);
      assert todo[..n][..i] == todo[..i];
    } else if n > 0 {
      SeenGrows(lower, src, known, todo[..n], 0);
      assert todo[..n] == todo[..i];
    }
  }

  /** Some attempt of the list is valid, saves, and has the key. */
  ghost predicate HasStorable(lower: CaseMap, src: Source, todo: seq<Attempt>, key: string) {
    exists a | a in todo :: IsValid(src, a.row) && a.saves && RowKey(lower, a.row) == key
  }

  lemma {:induction false} SeenExactly(lower: CaseMap, src: Source, known: set<string>, todo: seq<Attempt>, key: string)
    ensures key in Seen(lower, src, known, todo) <==> key in known || HasStorable(lower, src, todo, key)
  {
    if todo != [] {
      var n := |todo| - 1;
      SeenExactly(lower, src, known, todo[..n], key);
      assert todo == todo[..n] + [todo[n]];
    }
  }

  /** A row is imported exactly when it is valid, saves, is not known, and is the first such row of its key. */
  lemma FirstOfItsKey(lower: CaseMap, src: Source, known: set<string>, todo: seq<Attempt>, i: nat)
    requires i < |todo|
    ensures VerdictAt(lower, src, known, todo, i) == Imported
       <==> && IsValid(src, todo[i].row) && todo[i].saves && RowKey(lower, todo[i].row) !in known
            && !HasStorable(lower, src, todo[..i], RowKey(lower, todo[i].row))
  {
    SeenExactly(lower, src, known, todo[..i], RowKey(lower, todo[i].row));
  }

  /** Importing the same rows again stores nothing, when the first import's saves succeeded. */
  lemma {:induction false} ReimportAddsNothing(lower: CaseMap, src: Source, needs: seq<Need>, xs: seq<Attempt>,
                                               again: seq<Attempt>)
    requires forall a | a in xs :: a.saves
    requires forall b | b in again :: exists a | a in xs :: a.row == b.row
    ensures var first := needs + Added(lower, src, KeysOf(lower, needs), xs);
      Added(lower, src, KeysOf(lower, first), again) == []
  {
    var first := needs + Added(lower, src, KeysOf(lower, needs), xs);
    var known := KeysOf(lower, first);
    if again != [] {
      var n := |again| - 1;
      assert forall b | b in again[..n] :: b in again;
      assert again[n] in again;
      ReimportAddsNothing(lower, src, needs, xs, again[..n]);
      var v := Advance(lower, src, known, again, n);
      assert again[..n + 1] == again;
      if IsValid(src, again[n].row) {
        var key := RowKey(lower, again[n].row);
        SeenIsStored(lower, src, needs, xs);
        SeenExactly(lower, src, KeysOf(lower, needs), xs, key);
        SeenExactly(lower, src, known, again[..n], key);
      }
    }
  }

  ghost predicate DistinctKeys(lower: CaseMap, needs: seq<Need>) {
    forall i, j | 0 <= i < j < |needs| :: NeedKey(lower, needs[i]) != NeedKey(lower, needs[j])
  }

  /** Imports never give a study two Needs with one key. */
  lemma {:induction false} KeysStayDistinct(lower: CaseMap, src: Source, needs: seq<Need>, todo: seq<Attempt>)
    requires DistinctKeys(lower, needs)
    ensures DistinctKeys(lower, needs + Added(lower, src, KeysOf(lower, needs), todo))
  {
    var known := KeysOf(lower, needs);
    if todo == [] {
      assert needs + Added(lower, src, known, todo) == needs;
    } else {
      var n := |todo| - 1;
      KeysStayDistinct(lower, src, needs, todo[..n]);
      SeenIsStored(lower, src, needs, todo[..n]);
      var v := Advance(lower, src, known, todo, n);
      assert todo[..n + 1] == todo;
      StoredKey(lower, todo[n].row);
      var before := needs + Added(lower, src, known, todo[..n]);
      if v == Imported {
        var after := before + [NeedOf(todo[n].row)];
        assert needs + Added(lower, src, known, todo) == after;
        forall i | 0 <= i < |before| ensures NeedKey(lower, before[i]) != NeedKey(lower, after[|before|]) {
          assert NeedKey(lower, before[i]) in KeysOf(lower, before);
        }
      } else {
        assert needs + Added(lower, src, known, todo) == before;
      }
    }
  }

  /** Every row is either stored or reported, never both. */
  lemma {:induction false} RowsAccounted(todo: seq<Attempt>, vs: seq<Verdict>)
    requires |vs| == |todo|
    ensures |Stored(todo, vs)| + |Errors(todo, vs)| == |todo|
  {
    if todo != [] {
      RowsAccounted(todo[..|todo| - 1], vs[..|todo| - 1]);
    }
  }
}
