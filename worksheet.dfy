/**
 * What `processWorksheet` and `convert` compute, as functions of the
 * worksheet, the fonts the column pass left, and the dictionary's languages:
 * the early exits, the header row, the languages, then the data rows.
 */
module Sheets {
  import opened Wrappers
  import opened Text
  import opened Widths
  import opened Fields
  import opened Workbook
  import opened Entities
  import opened Registry
  import opened Header
  import opened Rows

  /** What `convert` and `processWorksheet` return: null, an error message, or an exception. */
  datatype Report = Success | Message(text: string) | Aborted(fault: Fault)

  /** `error(sheet, msg)`. */
  function SheetError(sheetNo: nat, msg: string): string {
    "Worksheet " + NatToString(sheetNo) + ": " + msg
  }

  /** A count attribute that says there is nothing: absent or "0". */
  predicate NoCount(s: string) {
    s == "" || s == "0"
  }

  /** A font as the header loop reads it: its face and its width slot. */
  datatype FontValue = FontValue(face: FontFace, width: nat)

  /**
   * The fonts the header loop chooses from once the column pass is over: the
   * width an inline `<Font>` gets (the default font's), the fonts filed per
   * column index, and the table font.
   */
  datatype FontView = FontView(inline: nat, columns: map<int, FontValue>, table: FontValue)

  function WidthsOf(view: FontView): FontWidths {
    FontWidths(view.inline, map k | k in view.columns :: view.columns[k].width, view.table.width)
  }

  /** The face of the font chosen for header column `c`, by the same fallback as its width. */
  function ColumnFace(cell: Cell, c: nat, view: FontView): FontFace {
    match FontSourceOf(cell, c, view.columns.Keys)
    case InlineFont(face) => face
    case ColumnFont => view.columns[c].face
    case TableFont => view.table.face
  }

  /** The language candidate of each header column: its code and `LanguageFont(name, size, languageName)`. */
  function Candidates(cells: seq<Cell>, fields: seq<FieldSpec>, view: FontView): (r: seq<Candidate>)
    requires |fields| <= |cells|
    ensures |r| == |fields|
    ensures forall c :: 0 <= c < |r| ==> r[c].code == fields[c].languageCode
  {
    if |fields| == 0 then []
    else
      var c := |fields| - 1;
      var face := ColumnFace(cells[c], c, view);
      Candidates(cells, fields[..c], view) + [Candidate(fields[c].languageCode, LanguageFont(face.name, face.size, fields[c].languageName))]
  }

  /** How the outcome of `addWords` becomes that of the worksheet. */
  function RowsOutcome(sheetNo: nat, halt: Halt): Report {
    match halt
    case Finished => Success
    case Failed(e) => Message(SheetError(sheetNo, RowMessage(e)))
    case Crashed(f) => Aborted(f)
  }

  /**
   * The part of `processWorksheet` after the column pass: the header row (a
   * missing one is a null dereference), its specs, the languages they add,
   * then the data rows, and the languages as they are left.
   */
  function SheetTail(sheetNo: nat, rows: seq<seq<Cell>>, view: FontView, languages: seq<Language>, env: Collaborators): (Report, seq<Language>)
  {
    if |rows| == 0 then (Aborted(NullReference), languages)
    else if |rows[0]| == 0 then (Message(SheetError(sheetNo, "There are no fields specified")), languages)
    else match HeaderFields(rows[0], WidthsOf(view))
      case Err(e) => (Message(SheetError(sheetNo, HeaderMessage(e))), languages)
      case Abort(f) => (Aborted(f), languages)
      case Ok(fields) =>
        HeaderAccepted(rows[0], WidthsOf(view));
        LanguagesStage(sheetNo, rows, fields, view, languages, env)
  }

  /** After an accepted header: `addLanguages`, then `addWords` over the data rows. */
  function LanguagesStage(sheetNo: nat, rows: seq<seq<Cell>>, fields: seq<FieldSpec>, view: FontView, languages: seq<Language>, env: Collaborators): (Report, seq<Language>)
    requires 0 < |fields| && |rows| > 0 && |fields| <= |rows[0]|
  {
    var added := LanguagesAfter(env.sameLanguage, languages, Candidates(rows[0], fields, view));
    if |added| == 0 then (Message(SheetError(sheetNo, "The dictionary has no languages specified")), languages)
    else
      var o := Words(Sheet(fields, fields[0].languageKey, env), rows, added);
      (RowsOutcome(sheetNo, o.halt), o.languages)
  }

  /** `processWorksheet(sheetNo, sheet)`, given the fonts its column pass leaves. */
  function WorksheetResult(sheetNo: nat, sheet: Worksheet, view: FontView, languages: seq<Language>, env: Collaborators): (Report, seq<Language>)
  {
    if sheet.table.None? then (Message(SheetError(sheetNo, "No dictionary data is present ")), languages)
    else if NoCount(sheet.table.value.rowCount) then (Message(SheetError(sheetNo, "No row data")), languages)
    else if NoCount(sheet.table.value.columnCount) then (Message(SheetError(sheetNo, "No column data")), languages)
    else SheetTail(sheetNo, sheet.table.value.rows, view, languages, env)
  }

  /**
   * What processing one worksheet computes from its number, the worksheet, the
   * fonts its header loop reads and the languages before it.
   */
  type SheetRun = (nat, Worksheet, FontView, seq<Language>) -> (Report, seq<Language>)

  /** `processWorksheet` of a dictionary whose collaborators are `env`. */
  function Runner(env: Collaborators): SheetRun {
    (sheetNo: nat, sheet: Worksheet, view: FontView, languages: seq<Language>) => WorksheetResult(sheetNo, sheet, view, languages, env)
  }

  /**
   * The worksheet loop of `convert` over the sheets processed, the `w`-th with
   * the fonts `views[w]`: it stops at the first sheet that does not succeed.
   */
  function SheetsFrom(run: SheetRun, sheets: seq<Worksheet>, views: seq<FontView>, w: nat, languages: seq<Language>): (Report, seq<Language>)
    requires |views| <= |sheets|
    decreases |views| - w
  {
    if w >= |views| then (Success, languages)
    else
      var (o, after) := run(w, sheets[w], views[w], languages);
      if o.Success? then SheetsFrom(run, sheets, views, w + 1, after) else (o, after)
  }

  /**
   * Processing one more worksheet after a run of successes: the result is that
   * worksheet's, started from the languages the others left.
   */
  lemma {:induction false} SheetsFromExtend(run: SheetRun, sheets: seq<Worksheet>, views: seq<FontView>, v: FontView, w: nat, languages: seq<Language>)
    requires |views| < |sheets| && w <= |views|
    requires SheetsFrom(run, sheets, views, w, languages).0 == Success
    ensures SheetsFrom(run, sheets, views + [v], w, languages) ==
      run(|views|, sheets[|views|], v, SheetsFrom(run, sheets, views, w, languages).1)
    decreases |views| - w
  {
    if w < |views| {
      assert (views + [v])[w] == views[w];
      var after := run(w, sheets[w], views[w], languages).1;
      SheetsFromExtend(run, sheets, views, v, w + 1, after);
    }
  }

  // ---------------------------------------------------------------------------
  // Properties

  /** A message that names worksheet `sheetNo`: "Worksheet n: ...". */
  ghost predicate Names(sheetNo: nat, text: string) {
    exists msg :: text == SheetError(sheetNo, msg)
  }

  lemma NamedBy(sheetNo: nat, msg: string)
    ensures Names(sheetNo, SheetError(sheetNo, msg))
  {
  }

  /** Every message the header, language and row stages report names the worksheet. */
  lemma SheetTailNamed(sheetNo: nat, rows: seq<seq<Cell>>, view: FontView, languages: seq<Language>, env: Collaborators)
    ensures var o := SheetTail(sheetNo, rows, view, languages, env).0;
      o.Message? ==> Names(sheetNo, o.text)
  {
    if |rows| > 0 && |rows[0]| == 0 {
      NamedBy(sheetNo, "There are no fields specified");
    } else if |rows| > 0 {
      match HeaderFields(rows[0], WidthsOf(view))
      case Err(e) => NamedBy(sheetNo, HeaderMessage(e));
      case Abort(_) =>
      case Ok(fields) =>
        HeaderAccepted(rows[0], WidthsOf(view));
        LanguagesStageNamed(sheetNo, rows, fields, view, languages, env);
    }
  }

  lemma LanguagesStageNamed(sheetNo: nat, rows: seq<seq<Cell>>, fields: seq<FieldSpec>, view: FontView, languages: seq<Language>, env: Collaborators)
    requires 0 < |fields| && |rows| > 0 && |fields| <= |rows[0]|
    ensures var o := LanguagesStage(sheetNo, rows, fields, view, languages, env).0;
      o.Message? ==> Names(sheetNo, o.text)
  {
    var added := LanguagesAfter(env.sameLanguage, languages, Candidates(rows[0], fields, view));
    if |added| == 0 {
      NamedBy(sheetNo, "The dictionary has no languages specified");
    } else {
      var halt := Words(Sheet(fields, fields[0].languageKey, env), rows, added).halt;
      if halt.Failed? {
        NamedBy(sheetNo, RowMessage(halt.error));
      }
    }
  }

  /** Every message a worksheet reports names the worksheet: "Worksheet n: ...". */
  lemma WorksheetMessagesNamed(sheetNo: nat, sheet: Worksheet, view: FontView, languages: seq<Language>, env: Collaborators)
    ensures var o := WorksheetResult(sheetNo, sheet, view, languages, env).0;
      o.Message? ==> Names(sheetNo, o.text)
  {
    if sheet.table.None? {
      NamedBy(sheetNo, "No dictionary data is present ");
    } else if NoCount(sheet.table.value.rowCount) {
      NamedBy(sheetNo, "No row data");
    } else if NoCount(sheet.table.value.columnCount) {
      NamedBy(sheetNo, "No column data");
    } else {
      SheetTailNamed(sheetNo, sheet.table.value.rows, view, languages, env);
    }
  }

  /**
   * Once the header row is accepted, "The dictionary has no languages
   * specified" cannot follow: the first column's language code is non-empty,
   * so at least one language is listed.
   */
  lemma AcceptedHeaderHasLanguages(cells: seq<Cell>, view: FontView, languages: seq<Language>, env: Collaborators)
    requires |cells| > 0 && HeaderFields(cells, WidthsOf(view)).Ok?
    ensures var fields := HeaderFields(cells, WidthsOf(view)).value;
      |fields| == |cells| &&
      |LanguagesAfter(env.sameLanguage, languages, Candidates(cells, fields, view))| > 0
  {
    var fields := HeaderFields(cells, WidthsOf(view)).value;
    HeaderAccepted(cells, WidthsOf(view));
    var cs := Candidates(cells, fields, view);
    LanguagesAfterEmptyIff(env.sameLanguage, languages, cs);
    assert cs[0].code != "";
  }

  /** A worksheet never drops a language: the list it leaves is at least as long. */
  lemma WorksheetKeepsLanguages(sheetNo: nat, sheet: Worksheet, view: FontView, languages: seq<Language>, env: Collaborators)
    ensures |WorksheetResult(sheetNo, sheet, view, languages, env).1| >= |languages|
  {
    if sheet.table.Some? && |sheet.table.value.rows| > 0 {
      var t := sheet.table.value;
      var h := HeaderFields(t.rows[0], WidthsOf(view));
      if h.Ok? {
        HeaderAccepted(t.rows[0], WidthsOf(view));
        LanguagesAfterKeepsExisting(env.sameLanguage, languages, Candidates(t.rows[0], h.value, view));
      }
    }
  }
}
