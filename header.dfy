/**
 * The header row of a worksheet (the column loop of `processWorksheet`): each
 * header cell names a field, the first must be the Word in the dictionary's
 * default language, translation columns without a code inherit that language,
 * and each column's width is finalised from four candidates.
 */
module Header {
  import opened Wrappers
  import opened Text
  import opened Widths
  import opened Fields
  import opened Workbook

  /** The ways a header row is rejected, in the order the column loop checks them. */
  datatype HeaderError =
    | MissingHeader(column: nat)  // a header cell names a later column
    | IllegalHeader(field: string)
    | FirstNotWord
    | NoInitialLanguage
    | SecondWord

  /** The message the source reports for each header error (its wording kept as is). */
  function HeaderMessage(e: HeaderError): string {
    match e
    case MissingHeader(column) => "There is now field header for column " + NatToString(column)
    case IllegalHeader(field) => "Column header for field " + field + " is illegal"
    case FirstNotWord => "The first column field must be 'Word'"
    case NoInitialLanguage => "There is no language code in the initial field"
    case SecondWord => "Only one word can be specified on a row"
  }

  /**
   * The font widths a header column may take: the width slot of an inline
   * `<Font>` (copied from the default font), those of the fonts the column pass
   * filed by column index, and that of the table font.
   */
  datatype FontWidths = FontWidths(inline: nat, columns: map<int, nat>, table: nat)

  /** Where a header column's font comes from: its own `<Font>`, the column pass, or the table. */
  datatype FontSource = InlineFont(face: FontFace) | ColumnFont | TableFont

  function FontSourceOf(cell: Cell, c: nat, filed: set<int>): FontSource {
    if cell.font.Some? then InlineFont(cell.font.value)
    else if c in filed then ColumnFont
    else TableFont
  }

  /** The width slot of the font chosen for header column `c`. */
  function FontWidth(cell: Cell, c: nat, widths: FontWidths): nat {
    match FontSourceOf(cell, c, widths.columns.Keys)
    case InlineFont(_) => widths.inline
    case ColumnFont => widths.columns[c]
    case TableFont => widths.table
  }

  /**
   * Header column `c`: the index check, the field header, the first-column
   * rules, language inheritance and the Word check for later columns, then the
   * width as `maxValue(ss:Width, field width, font width, table font width)`.
   * An accepted first column is the Word with its own, non-empty code; an
   * accepted later Word column has a code other than the default.
   */
  function HeaderColumn(cell: Cell, c: nat, defaultCode: string, widths: FontWidths): (r: Status<FieldSpec, HeaderError>)
    ensures !r.Abort?
    ensures r.Ok? ==> ParseHeader(Trim(cell.text)).Some?
    ensures r.Ok? && c == 0 ==>
      r.value.name == WordField && r.value.languageCode != "" &&
      r.value.languageCode == ParseHeader(Trim(cell.text)).value.languageCode
    ensures r.Ok? && c > 0 && r.value.name == WordField ==> r.value.languageCode != defaultCode
  {
    if cell.index.Some? && cell.index.value - 1 > c then Err(MissingHeader(c + 1))
    else
      var field := Trim(cell.text);
      match ParseHeader(field)
      case None => Err(IllegalHeader(field))
      case Some(spec) =>
        if c == 0 && spec.name != WordField then Err(FirstNotWord)
        else if c == 0 && spec.languageCode == "" then Err(NoInitialLanguage)
        else
          var code := if c > 0 && spec.kind == Translation && spec.languageCode == "" then defaultCode
                      else spec.languageCode;
          if c > 0 && spec.name == WordField && code == defaultCode then Err(SecondWord)
          else
            var width := MaxValue(cell.width, Amount(spec.width), Amount(FontWidth(cell, c, widths)), Amount(widths.table));
            Ok(spec.(languageCode := code, width := Value(width)))
  }

  /** The check applied to each header column. */
  type ColumnCheck = (Cell, nat, string) -> Status<FieldSpec, HeaderError>

  /**
   * The column loop from column `c` on: the specs of the columns, or the first
   * error. Column 0's code becomes the default the later columns are checked
   * against.
   */
  function ColumnsFrom(check: ColumnCheck, cells: seq<Cell>, c: nat, defaultCode: string): Status<seq<FieldSpec>, HeaderError>
    decreases |cells| - c
  {
    if c >= |cells| then Ok([])
    else match check(cells[c], c, defaultCode)
      case Ok(spec) =>
        var next := if c == 0 then spec.languageCode else defaultCode;
        Prepend([spec], ColumnsFrom(check, cells, c + 1, next))
      case Err(e) => Err(e)
      case Abort(f) => Abort(f)
  }

  /** The check of a worksheet whose fonts have the given widths. */
  function Checker(widths: FontWidths): ColumnCheck {
    (cell: Cell, c: nat, d: string) => HeaderColumn(cell, c, d, widths)
  }

  /** The header row's column specs: `columnFields` once the loop has finished. */
  function HeaderFields(cells: seq<Cell>, widths: FontWidths): Status<seq<FieldSpec>, HeaderError> {
    ColumnsFrom(Checker(widths), cells, 0, "")
  }

  function Prepend(specs: seq<FieldSpec>, s: Status<seq<FieldSpec>, HeaderError>): Status<seq<FieldSpec>, HeaderError> {
    match s
    case Ok(rest) => Ok(specs + rest)
    case Err(e) => Err(e)
    case Abort(f) => Abort(f)
  }

  lemma PrependNothing(s: Status<seq<FieldSpec>, HeaderError>)
    ensures Prepend([], s) == s
  {
    if s.Ok? {
      assert [] + s.value == s.value;
    }
  }

  lemma PrependTwice(a: seq<FieldSpec>, b: seq<FieldSpec>, s: Status<seq<FieldSpec>, HeaderError>)
    ensures Prepend(a, Prepend(b, s)) == Prepend(a + b, s)
  {
    if s.Ok? {
      assert a + (b + s.value) == (a + b) + s.value;
    }
  }

  /**
   * One column of the loop: its check either ends the loop with the row's
   * result, or moves its spec onto those accepted and goes on from the next
   * column with the code it chose.
   */
  lemma HeaderStep(check: ColumnCheck, cells: seq<Cell>, specs: seq<FieldSpec>, c: nat, defaultCode: string)
    requires c < |cells|
    requires Prepend(specs, ColumnsFrom(check, cells, c, defaultCode)) == ColumnsFrom(check, cells, 0, "")
    ensures var h := check(cells[c], c, defaultCode);
      && (h.Err? ==> ColumnsFrom(check, cells, 0, "") == Err(h.error))
      && (h.Abort? ==> ColumnsFrom(check, cells, 0, "") == Abort(h.fault))
      && (h.Ok? ==>
            Prepend(specs + [h.value], ColumnsFrom(check, cells, c + 1, if c == 0 then h.value.languageCode else defaultCode)) ==
            ColumnsFrom(check, cells, 0, ""))
  {
    var h := check(cells[c], c, defaultCode);
    if h.Ok? {
      PrependTwice(specs, [h.value], ColumnsFrom(check, cells, c + 1, if c == 0 then h.value.languageCode else defaultCode));
    }
  }

  /** Past the last column the specs accepted are the row's. */
  lemma HeaderDone(check: ColumnCheck, cells: seq<Cell>, specs: seq<FieldSpec>, defaultCode: string)
    requires Prepend(specs, ColumnsFrom(check, cells, |cells|, defaultCode)) == ColumnsFrom(check, cells, 0, "")
    ensures ColumnsFrom(check, cells, 0, "") == Ok(specs)
  {
    assert specs + [] == specs;
  }

  /** The default language code: that of the first column's header. */
  function DefaultCode(cells: seq<Cell>): string {
    if |cells| > 0 && ParseHeader(Trim(cells[0].text)).Some? then ParseHeader(Trim(cells[0].text)).value.languageCode
    else ""
  }

  ghost predicate NeverAborts(check: ColumnCheck) {
    forall cell, c, d :: !check(cell, c, d).Abort?
  }

  /** A loop whose checks never abort never aborts, and an accepted row has one spec per cell. */
  lemma {:induction false} ColumnsFromShape(check: ColumnCheck, cells: seq<Cell>, c: nat, defaultCode: string)
    requires NeverAborts(check)
    requires c <= |cells|
    ensures !ColumnsFrom(check, cells, c, defaultCode).Abort?
    ensures ColumnsFrom(check, cells, c, defaultCode).Ok? ==> |ColumnsFrom(check, cells, c, defaultCode).value| == |cells| - c
    decreases |cells| - c
  {
    if c < |cells| {
      var h := check(cells[c], c, defaultCode);
      if h.Ok? {
        ColumnsFromShape(check, cells, c + 1, if c == 0 then h.value.languageCode else defaultCode);
      }
    }
  }

  /**
   * Past column 0 the loop accepts exactly when every column passes its check
   * against the default, and then column `k`'s spec is the one its check
   * produced; otherwise the error is that of the first failing column.
   */
  lemma {:induction false} ColumnsFromColumns(check: ColumnCheck, cells: seq<Cell>, c: nat, defaultCode: string)
    requires NeverAborts(check)
    requires 0 < c <= |cells|
    ensures ColumnsFrom(check, cells, c, defaultCode).Ok? <==>
      forall k :: c <= k < |cells| ==> check(cells[k], k, defaultCode).Ok?
    ensures ColumnsFrom(check, cells, c, defaultCode).Ok? ==>
      |ColumnsFrom(check, cells, c, defaultCode).value| == |cells| - c &&
      forall k :: c <= k < |cells| ==>
        ColumnsFrom(check, cells, c, defaultCode).value[k - c] == check(cells[k], k, defaultCode).value
    ensures ColumnsFrom(check, cells, c, defaultCode).Err? ==>
      exists k :: c <= k < |cells| && check(cells[k], k, defaultCode) == Err(ColumnsFrom(check, cells, c, defaultCode).error) &&
        forall j :: c <= j < k ==> check(cells[j], j, defaultCode).Ok?
    decreases |cells| - c
  {
    if c < |cells| {
      ColumnsFromShape(check, cells, c, defaultCode);
      var h := check(cells[c], c, defaultCode);
      if h.Ok? {
        ColumnsFromColumns(check, cells, c + 1, defaultCode);
        ColumnsFromShape(check, cells, c + 1, defaultCode);
      }
    }
  }

  /** The header check never aborts. */
  lemma CheckerNeverAborts(widths: FontWidths)
    ensures NeverAborts(Checker(widths))
  {
    forall cell, c, d
      ensures !Checker(widths)(cell, c, d).Abort?
    {
      assert Checker(widths)(cell, c, d) == HeaderColumn(cell, c, d, widths);
    }
  }

  /**
   * For any check that never aborts, an accepted row has one spec per cell:
   * column 0's is its own check's, and each later column's is its check
   * against column 0's code.
   */
  lemma ColumnsFromAccepted(check: ColumnCheck, cells: seq<Cell>)
    requires NeverAborts(check) && ColumnsFrom(check, cells, 0, "").Ok?
    ensures var fields := ColumnsFrom(check, cells, 0, "").value;
      |fields| == |cells| &&
      (|cells| > 0 ==>
        check(cells[0], 0, "") == Ok(fields[0]) &&
        forall k :: 0 < k < |cells| ==> check(cells[k], k, fields[0].languageCode) == Ok(fields[k]))
  {
    ColumnsFromShape(check, cells, 0, "");
    if |cells| > 0 {
      var d := check(cells[0], 0, "").value.languageCode;
      ColumnsFromColumns(check, cells, 1, d);
      ColumnsFromShape(check, cells, 1, d);
    }
  }

  /** An accepted first column is the Word, and its code is the row's default code. */
  lemma FirstColumnCode(cell: Cell, cells: seq<Cell>, widths: FontWidths)
    requires |cells| > 0 && cells[0] == cell
    requires HeaderColumn(cell, 0, "", widths).Ok?
    ensures var spec := HeaderColumn(cell, 0, "", widths).value;
      spec.name == WordField && spec.languageCode != "" && spec.languageCode == DefaultCode(cells)
  {
  }

  /**
   * An accepted header row: one spec per cell; column 0 is the Word and has a
   * language code, which is the default code; every later column is its
   * field's own check against that default.
   */
  lemma HeaderAccepted(cells: seq<Cell>, widths: FontWidths)
    requires HeaderFields(cells, widths).Ok?
    ensures var fields := HeaderFields(cells, widths).value;
      |fields| == |cells| &&
      (|cells| > 0 ==>
        fields[0].name == WordField && fields[0].languageCode != "" &&
        fields[0].languageCode == DefaultCode(cells) &&
        forall k :: 0 < k < |cells| ==> HeaderColumn(cells[k], k, DefaultCode(cells), widths) == Ok(fields[k]))
  {
    var check := Checker(widths);
    CheckerNeverAborts(widths);
    ColumnsFromAccepted(check, cells);
    if |cells| > 0 {
      var fields := ColumnsFrom(check, cells, 0, "").value;
      assert check(cells[0], 0, "") == HeaderColumn(cells[0], 0, "", widths);
      FirstColumnCode(cells[0], cells, widths);
      var d := fields[0].languageCode;
      forall k | 0 < k < |cells|
        ensures HeaderColumn(cells[k], k, d, widths) == Ok(fields[k])
      {
        assert check(cells[k], k, d) == HeaderColumn(cells[k], k, d, widths);
      }
    }
  }

  /**
   * A header row is rejected with the error of its first failing column, the
   * first column being checked on its own and the later ones against its code.
   */
  lemma HeaderRejected(cells: seq<Cell>, widths: FontWidths)
    requires HeaderFields(cells, widths).Err?
    ensures var e := HeaderFields(cells, widths).error;
      |cells| > 0 &&
      (HeaderColumn(cells[0], 0, "", widths) == Err(e) ||
       (HeaderColumn(cells[0], 0, "", widths).Ok? &&
        exists k :: 0 < k < |cells| && HeaderColumn(cells[k], k, DefaultCode(cells), widths) == Err(e) &&
          forall j :: 0 < j < k ==> HeaderColumn(cells[j], j, DefaultCode(cells), widths).Ok?))
  {
    var check := Checker(widths);
    CheckerNeverAborts(widths);
    var h := check(cells[0], 0, "");
    assert h == HeaderColumn(cells[0], 0, "", widths);
    if h.Ok? {
      var d := h.value.languageCode;
      ColumnsFromColumns(check, cells, 1, d);
      ColumnsFromShape(check, cells, 1, d);
      var e := HeaderFields(cells, widths).error;
      var k :| 1 <= k < |cells| && check(cells[k], k, d) == Err(e) &&
        forall j :: 1 <= j < k ==> check(cells[j], j, d).Ok?;
      assert check(cells[k], k, d) == HeaderColumn(cells[k], k, d, widths);
      forall j | 0 < j < k
        ensures HeaderColumn(cells[j], j, d, widths).Ok?
      {
        assert check(cells[j], j, d) == HeaderColumn(cells[j], j, d, widths);
      }
    }
  }

  /**
   * Language rules for a later column that passes: a translation column
   * without a code gets the default code, any other column keeps its own; a
   * Word column never has the default code.
   */
  lemma LaterColumnLanguage(cell: Cell, c: nat, defaultCode: string, widths: FontWidths)
    requires c > 0 && HeaderColumn(cell, c, defaultCode, widths).Ok?
    ensures var spec := ParseHeader(Trim(cell.text));
      var result := HeaderColumn(cell, c, defaultCode, widths).value;
      spec.Some? &&
      result.languageCode == (if spec.value.kind == Translation && spec.value.languageCode == "" then defaultCode
                              else spec.value.languageCode) &&
      (result.name == WordField ==> result.languageCode != defaultCode) &&
      result.name == spec.value.name && result.languageKey == spec.value.languageKey &&
      result.kind == spec.value.kind && result.apply == spec.value.apply
  {
  }

  /**
   * The finalised width of a passing column is the largest of its `ss:Width`,
   * its field's nominal width, its font's width slot and the table font's.
   */
  lemma ColumnWidth(cell: Cell, c: nat, defaultCode: string, widths: FontWidths)
    requires HeaderColumn(cell, c, defaultCode, widths).Ok?
    ensures var nominal := ParseHeader(Trim(cell.text)).value.width;
      var w := HeaderColumn(cell, c, defaultCode, widths).value.width;
      w == Max(Max(Value(cell.width), nominal), Max(FontWidth(cell, c, widths), widths.table)) &&
      w >= nominal && w >= Value(cell.width) && w >= FontWidth(cell, c, widths) && w >= widths.table
  {
  }

  /**
   * The first-column rules: a first header that is legal but not the Word fails
   * with FirstNotWord, and a Word without a code fails with NoInitialLanguage.
   */
  lemma FirstColumnRules(cell: Cell, widths: FontWidths, defaultCode: string)
    requires cell.index.None? || cell.index.value <= 1
    requires ParseHeader(Trim(cell.text)).Some?
    ensures ParseHeader(Trim(cell.text)).value.name != WordField ==>
      HeaderColumn(cell, 0, defaultCode, widths) == Err(FirstNotWord)
    ensures ParseHeader(Trim(cell.text)).value.name == WordField && ParseHeader(Trim(cell.text)).value.languageCode == "" ==>
      HeaderColumn(cell, 0, defaultCode, widths) == Err(NoInitialLanguage)
  {
  }
}
