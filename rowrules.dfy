/**
 * The rules of `addWords` stated over the cell step: how the gloss flag
 * decides new definitions, when references and examples continue, where
 * items are attached, which languages a cell may change, and what happens
 * when a cell's `ss:Index` jumps.
 */
module RowRules {
  import opened Wrappers
  import opened Text
  import opened Fields
  import opened OntologyFields
  import opened Workbook
  import opened Entities
  import opened Cells
  import opened Registry
  import opened Rows

  /** The cell is read at its own counter: no `ss:Index`, or one naming that position. */
  predicate InPlace(sheet: Sheet, cell: Cell, c: nat) {
    CellColumn(cell, c) == c && c < |sheet.fields|
  }

  /** `Definition` is the one field name the switch sends to its Definition case. */
  lemma DefinitionCategory(name: string)
    ensures CategoryOf(name) == DefinitionCell <==> name == "Definition"
  {
  }

  /**
   * The flag after a cell: a Definition cell sets it when its language is the
   * default and keeps it otherwise; every other field clears it.
   */
  lemma GlossFlagRule(sheet: Sheet, st: RowState, cell: Cell, r: nat, c: nat)
    requires Valid(st)
    ensures var f := CellStep(sheet, st, cell, r, c);
      f.Next? ==>
        var col := f.column - 1;
        col == CellColumn(cell, c) && col < |sheet.fields| &&
        f.state.gloss == (sheet.fields[col].name == "Definition" &&
                          (st.gloss || CellLanguage(sheet, col) == sheet.defaultKey))
  {
    var f := CellStep(sheet, st, cell, r, c);
    if f.Next? {
      DefinitionCategory(sheet.fields[f.column - 1].name);
    }
  }

  /**
   * A Definition cell opens a new "Definition" group, attached as the word's
   * last row, exactly when its being in the default language agrees with the
   * flag, or there is no group, or the current group is the word itself;
   * otherwise it adds indigenous data to the current group. A default-language
   * cell is the group's gloss either way.
   */
  lemma DefinitionStepRule(sheet: Sheet, st: RowState, cell: Cell, field: FieldSpec, lang: string, col: nat)
    requires Valid(st) && st.word.Some?
    ensures var f := DefinitionStep(sheet, st, cell, field, lang, col);
      var isDefault := lang == sheet.defaultKey;
      var n := |st.store|;
      && f.Next?
      && (OpensDefinition(sheet, st, lang) ==>
            && |f.state.store| == n + 1
            && f.state.group == Some(n)
            && f.state.store[n].item.kind == GroupItem
            && f.state.store[n].item.name == "Definition"
            && f.state.store[n].item.gloss == (if isDefault then cell.text else "")
            && f.state.store[st.word.value].rows == st.store[st.word.value].rows + [n])
      && (!OpensDefinition(sheet, st, lang) ==>
            var g := st.group.value;
            && |f.state.store| == n
            && f.state.group == st.group
            && f.state.store[g].item.indigenous == st.store[g].item.indigenous[lang := cell.text]
            && f.state.store[g].item.gloss == (if isDefault then cell.text else st.store[g].item.gloss))
  {
    ConfiguredShape(NewItem(sheet.env, GroupItem, "Definition"), lang, cell, field);
  }

  lemma DefinitionRule(sheet: Sheet, st: RowState, cell: Cell, r: nat, c: nat)
    requires Valid(st) && st.word.Some? && InPlace(sheet, cell, c)
    requires sheet.fields[c].name == "Definition"
    ensures CellStep(sheet, st, cell, r, c) == DefinitionStep(sheet, st, cell, sheet.fields[c], CellLanguage(sheet, c), c)
    ensures CellStep(sheet, st, cell, r, c).Next?
  {
    DefinitionCategory(sheet.fields[c].name);
    DefinitionStepRule(sheet, st, cell, sheet.fields[c], CellLanguage(sheet, c), c);
  }

  /**
   * A reference-type cell continues the current Reference exactly when it is
   * in another language than the default and the current reference has the
   * same title; a new one is made otherwise. Either way the reference is the
   * current one afterwards, titled by the field, and is appended once more to
   * the columns of its apply target.
   */
  lemma ReferenceStepRule(sheet: Sheet, st: RowState, cell: Cell, field: FieldSpec, lang: string, col: nat)
    requires Valid(st) && Route(st, field.apply).Some?
    ensures var f := ReferenceStep(sheet, st, cell, field, lang, col);
      var n := |st.store|;
      var t := Route(st, field.apply).value;
      var h := if OpensReference(sheet, st, field, lang) then n else st.reference.value;
      && f.Next?
      && |f.state.store| == (if OpensReference(sheet, st, field, lang) then n + 1 else n)
      && f.state.reference == Some(h)
      && f.state.store[h].item.kind == ReferenceItem
      && f.state.store[h].item.title == field.name
      && t < n
      && f.state.store[t].columns == st.store[t].columns + [h]
  {
  }

  lemma ReferenceRule(sheet: Sheet, st: RowState, cell: Cell, r: nat, c: nat)
    requires Valid(st) && InPlace(sheet, cell, c)
    requires CategoryOf(sheet.fields[c].name) == ReferenceCell
    ensures CellStep(sheet, st, cell, r, c) ==
      ReferenceStep(sheet, st.(gloss := false), cell, sheet.fields[c], CellLanguage(sheet, c), c)
  {
  }

  /**
   * An Example cell makes a new "Unit", attached as the last row of its apply
   * target, exactly when it is in the default language or there is no
   * example yet; otherwise it adds indigenous data to the current example.
   */
  lemma ExampleStepRule(sheet: Sheet, st: RowState, cell: Cell, field: FieldSpec, lang: string, col: nat)
    requires Valid(st) && Route(st, field.apply).Some?
    ensures var f := ExampleStep(sheet, st, cell, field, lang, col);
      var n := |st.store|;
      var t := Route(st, field.apply).value;
      && f.Next?
      && ((lang == sheet.defaultKey || st.example.None?) ==>
            && |f.state.store| == n + 1
            && f.state.example == Some(n)
            && f.state.store[n].item.kind == UnitItem
            && f.state.store[n].item.name == "Unit"
            && f.state.store[n].item.gloss == (if lang == sheet.defaultKey then cell.text else "")
            && t < n && f.state.store[t].rows == st.store[t].rows + [n])
      && (!(lang == sheet.defaultKey || st.example.None?) ==>
            var x := st.example.value;
            && |f.state.store| == n
            && f.state.example == st.example
            && f.state.store[x].item.indigenous == st.store[x].item.indigenous[lang := cell.text])
  {
    ConfiguredShape(NewItem(sheet.env, UnitItem, "Unit"), lang, cell, field);
  }

  lemma ExampleRule(sheet: Sheet, st: RowState, cell: Cell, r: nat, c: nat)
    requires Valid(st) && InPlace(sheet, cell, c)
    requires CategoryOf(sheet.fields[c].name) == ExampleCell
    ensures CellStep(sheet, st, cell, r, c) ==
      ExampleStep(sheet, st.(gloss := false), cell, sheet.fields[c], CellLanguage(sheet, c), c)
  {
  }

  /**
   * A comment-type cell always makes a new Comment and attaches it to the word
   * when its apply target is "w" (any case), else to the current group: as a
   * row for "Row Comment", as a column otherwise. "Comment" and "Row Comment"
   * leave it untitled; the others take the field name as title. With no such
   * target the source dereferences null.
   */
  lemma CommentStepRule(sheet: Sheet, st: RowState, cell: Cell, field: FieldSpec, lang: string, col: nat, asRow: bool, clearTitle: bool)
    requires Valid(st)
    ensures var f := CommentStep(sheet, st, cell, field, lang, col, asRow, clearTitle);
      var target := if EqualsIgnoreCase(field.apply, "w") then st.word else st.group;
      var n := |st.store|;
      && (f.Next? <==> target.Some?)
      && (target.None? ==> f == Halted(Crashed(NullReference), st.languages))
      && (f.Next? ==>
            && |f.state.store| == n + 1
            && f.state.store[n].item.kind == CommentItem
            && f.state.store[n].item.title == (if clearTitle then "" else field.name)
            && target.value < n
            && (asRow ==> f.state.store[target.value].rows == st.store[target.value].rows + [n])
            && (!asRow ==> f.state.store[target.value].columns == st.store[target.value].columns + [n]))
  {
    var made := Configured(NewItem(sheet.env, CommentItem, ""), lang, cell, field);
    ConfiguredShape(NewItem(sheet.env, CommentItem, ""), lang, cell, field);
    var item := if clearTitle then made.(title := "") else made;
    var added := AddNew(st, item, field.apply, asRow);
    if added.Some? {
      assert CommentStep(sheet, st, cell, field, lang, col, asRow, clearTitle) == Next(st.(store := added.value), col + 1);
    }
  }

  lemma CommentRule(sheet: Sheet, st: RowState, cell: Cell, r: nat, c: nat)
    requires Valid(st) && InPlace(sheet, cell, c)
    requires CategoryOf(sheet.fields[c].name).CommentCell?
    ensures var k := CategoryOf(sheet.fields[c].name);
      CellStep(sheet, st, cell, r, c) ==
        CommentStep(sheet, st.(gloss := false), cell, sheet.fields[c], CellLanguage(sheet, c), c, k.asRow, k.clearTitle)
  {
  }

  /** Of the comment-type fields, "Comment" and "Row Comment" are untitled and only "Row Comment" is a row. */
  lemma CommentCategories(name: string)
    requires CategoryOf(name).CommentCell?
    ensures CategoryOf(name).clearTitle <==> name == "Comment" || name == "Row Comment"
    ensures CategoryOf(name).asRow <==> name == "Row Comment"
  {
  }

  /**
   * An ontology cell whose text does not decode is an "Illegal Ontology data"
   * error naming the row and column; text that decodes becomes a new Ontology
   * item holding the tuple, attached as a column of its apply target.
   */
  lemma OntologyStepRule(sheet: Sheet, st: RowState, cell: Cell, field: FieldSpec, kind: OntologyKind, r: nat, col: nat)
    requires Valid(st)
    ensures var f := OntologyStep(sheet, st, cell, field, kind, r, col);
      var decoded := MakeOntologyField(kind, cell.text);
      var n := |st.store|;
      && (decoded.Err? ==> f == Halted(Failed(IllegalOntology(r, col)), st.languages))
      && (decoded.Abort? ==> f == Halted(Crashed(decoded.fault), st.languages))
      && (decoded.Ok? ==> (f.Next? <==> Route(st, field.apply).Some?))
      && (f.Next? ==>
            && decoded.Ok?
            && |f.state.store| == n + 1
            && f.state.store[n].item.kind == OntologyItem
            && f.state.store[n].item.ontology == Some(decoded.value)
            && Route(st, field.apply).value < n
            && f.state.store[Route(st, field.apply).value].columns == st.store[Route(st, field.apply).value].columns + [n])
  {
  }

  lemma OntologyRule(sheet: Sheet, st: RowState, cell: Cell, r: nat, c: nat)
    requires Valid(st) && InPlace(sheet, cell, c)
    requires CategoryOf(sheet.fields[c].name).OntologyCell?
    ensures CellStep(sheet, st, cell, r, c) ==
      OntologyStep(sheet, st.(gloss := false), cell, sheet.fields[c], CategoryOf(sheet.fields[c].name).kind, r, c)
  {
  }

  /**
   * The languages a cell may change: only a Reversals cell in another
   * language than the default, and then each language whose code is the
   * cell's receives the reverse word once, keyed back to the word, unless the
   * word's key is empty; every other cell leaves the languages as they were.
   */
  lemma LanguagesRule(sheet: Sheet, st: RowState, cell: Cell, r: nat, c: nat)
    requires Valid(st)
    ensures var f := CellStep(sheet, st, cell, r, c);
      f.Next? && !(sheet.fields[f.column - 1].name == "Reversals" && CellLanguage(sheet, f.column - 1) != sheet.defaultKey) ==>
        f.state.languages == st.languages
  {
    CellStepAt(sheet, st, cell, r, c);
  }

  /** A cell that goes through is the field step of the column it is read as. */
  lemma CellStepAt(sheet: Sheet, st: RowState, cell: Cell, r: nat, c: nat)
    requires Valid(st)
    ensures var f := CellStep(sheet, st, cell, r, c);
      f.Next? ==> (0 <= CellColumn(cell, c) < |sheet.fields| && f.column == CellColumn(cell, c) + 1 &&
        f == FieldStep(sheet, st, cell, r, CellColumn(cell, c)))
  {
  }

  lemma ReversalStepRule(sheet: Sheet, st: RowState, cell: Cell, field: FieldSpec, lang: string, col: nat)
    requires Valid(st) && field.name == "Reversals" && lang != sheet.defaultKey
    ensures var f := ReferenceStep(sheet, st, cell, field, lang, col);
      f.Next? ==>
        st.word.Some? &&
        var key := sheet.env.wordKey(Graph(f.state.store, st.word.value));
        forall i :: 0 <= i < |st.languages| ==>
          f.state.languages[i] ==
            (if st.languages[i].code == lang && key != "" then MergeWord(st.languages[i], ReverseWord(sheet.env, cell.text, sheet.defaultKey, key))
             else st.languages[i])
  {
    var f := ReferenceStep(sheet, st, cell, field, lang, col);
    if f.Next? {
      var key := sheet.env.wordKey(Graph(f.state.store, st.word.value));
      MirrorPointwise(st.languages, lang, ReverseWord(sheet.env, cell.text, sheet.defaultKey, key), key);
    }
  }

  /** No cell changes a language whose code is the default key. */
  lemma CellKeepsDefaultLanguage(sheet: Sheet, st: RowState, cell: Cell, r: nat, c: nat, t: nat)
    requires Valid(st) && t < |st.languages| && st.languages[t].code == sheet.defaultKey
    ensures var f := CellStep(sheet, st, cell, r, c);
      (f.Next? ==> f.state.languages[t] == st.languages[t]) && (f.Halted? ==> f.languages == st.languages)
  {
  }

  /**
   * What an `ss:Index` does: naming a column before the counter is a
   * duplicate; a jump from the first cell means the row has no word; a jump
   * to a column the header does not have throws; a jump past `fieldLen`
   * makes `addWords` return at once with no error; any other jump reads the
   * cell as the column it names.
   */
  lemma JumpRule(sheet: Sheet, st: RowState, cell: Cell, r: nat, c: nat)
    requires Valid(st)
    ensures var col := CellColumn(cell, c);
      var f := CellStep(sheet, st, cell, r, c);
      && (col < c ==> f == Halted(Failed(DuplicateColumns(r)), st.languages))
      && (c == 0 && col > 0 ==> f == Halted(Failed(NoWord(r)), st.languages))
      && (0 < c < col && |sheet.fields| <= col ==> f == Halted(Crashed(IndexOutOfBounds), st.languages))
      && (0 < c < col && FieldLen < col < |sheet.fields| ==> f == Halted(Finished, st.languages))
      && ((col == c || 0 < c < col <= FieldLen) && col < |sheet.fields| ==> f == FieldStep(sheet, st, cell, r, col))
  {
  }

  /**
   * A header field with no case in the row switch is an "Illegal field
   * specifier" error: of the field names a header accepts, exactly
   * Annotations and Morphemes.
   */
  lemma IllegalFieldsRule()
    ensures forall k :: 0 <= k < |FieldTable| ==>
      (CategoryOf(FieldTable[k].name) == IllegalCell <==>
        FieldTable[k].name == "Annotations" || FieldTable[k].name == "Morphemes")
  {
    WordFieldsAgree();
    EntryFieldsAgree();
    CommentaryFieldsAgree();
    RemarkFieldsAgree();
    OntologyFieldsAgree();
  }

  /** The field name reaches the illegal branch exactly when it is Annotations or Morphemes. */
  predicate IllegalAgrees(name: string) {
    (CategoryOf(name) == IllegalCell) == (name == "Annotations" || name == "Morphemes")
  }

  /** Rows 0 to 9 of the table: Word and the reference-type fields. */
  lemma WordFieldsAgree()
    ensures forall k :: 0 <= k < 10 ==> IllegalAgrees(FieldTable[k].name)
  {
  }

  /** Rows 10 to 11 of the table: Definition and Example. */
  lemma EntryFieldsAgree()
    ensures forall k :: 10 <= k < 12 ==> IllegalAgrees(FieldTable[k].name)
  {
  }

  /** Rows 12 to 18 of the table: the commentary fields Annotations to Morphemes. */
  lemma CommentaryFieldsAgree()
    ensures forall k :: 12 <= k < 19 ==> IllegalAgrees(FieldTable[k].name)
  {
  }

  /** Rows 19 to 24 of the table: the commentary fields Refer To to Thesaurus. */
  lemma RemarkFieldsAgree()
    ensures forall k :: 19 <= k < 25 ==> IllegalAgrees(FieldTable[k].name)
  {
  }

  /** Rows 25 to 32 of the table: the comments and the ontology fields. */
  lemma OntologyFieldsAgree()
    ensures forall k :: 25 <= k < 33 ==> IllegalAgrees(FieldTable[k].name)
  {
  }

  lemma IllegalFieldFails(sheet: Sheet, st: RowState, cell: Cell, r: nat, c: nat)
    requires Valid(st) && InPlace(sheet, cell, c)
    requires CategoryOf(sheet.fields[c].name) == IllegalCell
    ensures CellStep(sheet, st, cell, r, c) == Halted(Failed(IllegalField(r, c)), st.languages)
  {
  }

  /**
   * When the header's first field is Word, a row that gets through all its
   * cells has a word: the first cell made it, at handle 0, and nothing later
   * replaces it.
   */
  lemma RowHasWord(sheet: Sheet, gloss: bool, languages: seq<Language>, cells: seq<Cell>, r: nat)
    requires |sheet.fields| > 0 && sheet.fields[0].name == WordField && |cells| > 0
    ensures var f := RowFrom(sheet, StartRow(gloss, languages), cells, r, 0);
      f.Next? ==> f.state.word == Some(0)
  {
    var st := StartRow(gloss, languages);
    match CellStep(sheet, st, cells[0], r, 0)
    case Next(next, column) =>
      assert next.word == Some(0);
    case Halted(_, _) =>
  }

  /** A row leaves the default language as it found it, or stops. */
  lemma {:induction false} RowKeepsDefaultLanguage(sheet: Sheet, st: RowState, cells: seq<Cell>, r: nat, c: nat, t: nat)
    requires Valid(st) && t < |st.languages| && st.languages[t].code == sheet.defaultKey
    decreases |cells| - c
    ensures var f := RowFrom(sheet, st, cells, r, c);
      (f.Next? ==> f.state.languages[t] == st.languages[t]) && (f.Halted? ==> f.languages[t] == st.languages[t])
  {
    if c < |cells| {
      CellKeepsDefaultLanguage(sheet, st, cells[c], r, c, t);
      match CellStep(sheet, st, cells[c], r, c)
      case Next(next, column) =>
        RowKeepsDefaultLanguage(sheet, next, cells, r, column, t);
      case Halted(_, _) =>
    }
  }

  /** The words a row merges into a language: a row's store, rooted at a Word. */
  predicate WordGraph(g: Graph) {
    WellFormed(g.nodes) && g.root < |g.nodes| && g.nodes[g.root].item.kind == WordItem
  }

  /**
   * The default language keeps the words it had, gains at most one word per
   * row, and every word it gains is a well-formed item graph rooted at a Word.
   * That a completed row's word is among them is `CompletedRowMerged`.
   */
  lemma {:induction false} DefaultLanguageGrowth(sheet: Sheet, rows: seq<seq<Cell>>, r: nat, gloss: bool, languages: seq<Language>, t: nat)
    requires t < |languages| && languages[t].code == sheet.defaultKey && r <= |rows|
    decreases |rows| - r
    ensures var o := RowsFrom(sheet, rows, r, gloss, languages, Some(t));
      var before := languages[t].merged;
      var after := o.languages[t].merged;
      && o.languages[t].code == sheet.defaultKey
      && |before| <= |after| <= |before| + (|rows| - r)
      && after[..|before|] == before
      && forall k :: |before| <= k < |after| ==> WordGraph(after[k])
  {
    if r < |rows| {
      var st0 := StartRow(gloss, languages);
      RowKeepsDefaultLanguage(sheet, st0, rows[r], r, 0, t);
      var f := RowFrom(sheet, st0, rows[r], r, 0);
      if f.Next? && f.state.word.Some? {
        var st := f.state;
        var g := Graph(st.store, st.word.value);
        var merged := st.languages[t := MergeWord(st.languages[t], g)];
        RowsFromCompleted(sheet, rows, r, gloss, languages, t);
        DefaultLanguageGrowth(sheet, rows, r + 1, st.gloss, merged, t);
        GrowByOne(languages[t].merged, g, RowsFrom(sheet, rows, r + 1, st.gloss, merged, Some(t)).languages[t].merged);
      }
    }
  }

  /**
   * The word of a row that completes is in the default language once the
   * rows are done, as the next word after the ones it had before the row.
   */
  lemma CompletedRowMerged(sheet: Sheet, rows: seq<seq<Cell>>, r: nat, gloss: bool, languages: seq<Language>, t: nat)
    requires t < |languages| && languages[t].code == sheet.defaultKey && r < |rows|
    requires var f := RowFrom(sheet, StartRow(gloss, languages), rows[r], r, 0);
      f.Next? && f.state.word.Some?
    ensures var st := RowFrom(sheet, StartRow(gloss, languages), rows[r], r, 0).state;
      var before := languages[t].merged;
      var after := RowsFrom(sheet, rows, r, gloss, languages, Some(t)).languages[t].merged;
      |before| < |after| && after[..|before|] == before && after[|before|] == Graph(st.store, st.word.value)
  {
    var st := RowFrom(sheet, StartRow(gloss, languages), rows[r], r, 0).state;
    var g := Graph(st.store, st.word.value);
    RowKeepsDefaultLanguage(sheet, StartRow(gloss, languages), rows[r], r, 0, t);
    var merged := st.languages[t := MergeWord(st.languages[t], g)];
    RowsFromCompleted(sheet, rows, r, gloss, languages, t);
    DefaultLanguageGrowth(sheet, rows, r + 1, st.gloss, merged, t);
    var after := RowsFrom(sheet, rows, r + 1, st.gloss, merged, Some(t)).languages[t].merged;
    assert merged[t].merged == languages[t].merged + [g];
    assert after[..|languages[t].merged| + 1] == languages[t].merged + [g];
    assert after[|languages[t].merged|] == (languages[t].merged + [g])[|languages[t].merged|];
    assert after[..|languages[t].merged|] == (languages[t].merged + [g])[..|languages[t].merged|];
  }

  /** A row that completes with a word merges it into the target language and goes on with the next row. */
  lemma RowsFromCompleted(sheet: Sheet, rows: seq<seq<Cell>>, r: nat, gloss: bool, languages: seq<Language>, t: nat)
    requires t < |languages| && r < |rows|
    requires var f := RowFrom(sheet, StartRow(gloss, languages), rows[r], r, 0);
      f.Next? && f.state.word.Some?
    ensures var st := RowFrom(sheet, StartRow(gloss, languages), rows[r], r, 0).state;
      var merged := st.languages[t := MergeWord(st.languages[t], Graph(st.store, st.word.value))];
      RowsFrom(sheet, rows, r, gloss, languages, Some(t)) == RowsFrom(sheet, rows, r + 1, st.gloss, merged, Some(t))
  {
  }

  lemma GrowByOne(before: seq<Graph>, g: Graph, after: seq<Graph>)
    requires WordGraph(g) && |before| + 1 <= |after| && after[..|before| + 1] == before + [g]
    requires forall k :: |before| + 1 <= k < |after| ==> WordGraph(after[k])
    ensures after[..|before|] == before
    ensures forall k :: |before| <= k < |after| ==> WordGraph(after[k])
  {
    assert after[..|before|] == (before + [g])[..|before|];
    assert after[|before|] == (before + [g])[|before|];
  }
}
