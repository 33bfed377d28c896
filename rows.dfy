/**
 * The data rows of a worksheet (`addWords`, `addToColumn`, `addToRow`): each
 * row builds one Word from its cells, column by column, with a current word,
 * group, example and reference, and a gloss flag that outlives the row.
 */
module Rows {
  import opened Wrappers
  import opened Text
  import opened Fields
  import opened OntologyFields
  import opened Workbook
  import opened Entities
  import opened Cells
  import opened Registry

  /** `fieldLen`: the number of slots in one column spec. */
  const FieldLen: nat := 7

  /** The errors `addWords` reports, with the row and column they name. */
  datatype RowError =
    | DuplicateColumns(row: nat)
    | NoWord(row: nat)
    | IllegalOntology(row: nat, column: nat)
    | IllegalField(row: nat, column: nat)

  function RowMessage(e: RowError): string {
    match e
    case DuplicateColumns(r) => "Row " + NatToString(r) + " has duplicate columns"
    case NoWord(r) => "Row " + NatToString(r) + " has No word specified"
    case IllegalOntology(r, c) => "Illegal Ontology data on row " + NatToString(r) + " column " + NatToString(c)
    case IllegalField(r, c) => "Illegal field specifier row " + NatToString(r) + " column " + NatToString(c)
  }

  /**
   * The locals of `addWords` while it is in a row: the row's item store, the
   * handles of the current word, group, example and reference, the
   * `definitionGloss` flag, and the dictionary's languages.
   */
  datatype RowState = RowState(
    store: seq<Node>,
    word: Option<nat>,
    group: Option<nat>,
    example: Option<nat>,
    reference: Option<nat>,
    gloss: bool,
    languages: seq<Language>)

  /** How `addWords` stops: returning null, returning an error, or with an exception. */
  datatype Halt = Finished | Failed(error: RowError) | Crashed(fault: Fault)

  /** After one cell: the state and the next column counter, or a stop. */
  datatype Flow = Next(state: RowState, column: nat) | Halted(halt: Halt, languages: seq<Language>)

  /** What `addWords` works from: the column specs, the default language key, the collaborators. */
  datatype Sheet = Sheet(fields: seq<FieldSpec>, defaultKey: string, env: Collaborators)

  /**
   * The handles name items of the store of the right kinds, the store is well
   * formed, and there is a group only when there is a word.
   */
  predicate Valid(st: RowState) {
    && WellFormed(st.store)
    && (st.word.Some? ==> st.word.value < |st.store| && st.store[st.word.value].item.kind == WordItem)
    && (st.group.Some? ==> st.word.Some? && st.group.value < |st.store| && IsGroup(st.store[st.group.value].item.kind))
    && (st.example.Some? ==> st.example.value < |st.store| && st.store[st.example.value].item.kind == UnitItem)
    && (st.reference.Some? ==> st.reference.value < |st.store| && st.store[st.reference.value].item.kind == ReferenceItem)
  }

  /** The state at the start of a row: nothing current, the flag carried over. */
  function StartRow(gloss: bool, languages: seq<Language>): (st: RowState)
    ensures Valid(st)
  {
    RowState([], None, None, None, None, gloss, languages)
  }

  /** A newly constructed item of the given kind and constructor argument. */
  function NewItem(env: Collaborators, kind: ItemKind, name: string): Item {
    Item(kind, name, "", "", "", "", map[], env.initialSize(kind), None)
  }

  /** The store with the item at `h` replaced. */
  function Put(store: seq<Node>, h: nat, item: Item): (r: seq<Node>)
    requires h < |store|
    ensures |r| == |store| && r[h].item == item
    ensures r[h].rows == store[h].rows && r[h].columns == store[h].columns
    ensures forall k :: 0 <= k < |r| && k != h ==> r[k] == store[k]
  {
    store[h := store[h].(item := item)]
  }

  /** `target.addRow(item)` or `target.addColumn(item)` with `item` at `h`. */
  function Attach(store: seq<Node>, target: nat, h: nat, asRow: bool): (r: seq<Node>)
    requires target < |store|
    ensures |r| == |store| && r[target].item == store[target].item
    ensures asRow ==> r[target].rows == store[target].rows + [h] && r[target].columns == store[target].columns
    ensures !asRow ==> r[target].columns == store[target].columns + [h] && r[target].rows == store[target].rows
    ensures forall k :: 0 <= k < |r| && k != target ==> r[k] == store[k]
  {
    if asRow then store[target := store[target].(rows := store[target].rows + [h])]
    else store[target := store[target].(columns := store[target].columns + [h])]
  }

  /** Attaching changes no item. */
  lemma AttachKeepsItems(store: seq<Node>, target: nat, h: nat, asRow: bool)
    requires target < |store|
    ensures forall k :: 0 <= k < |store| ==> Attach(store, target, h, asRow)[k].item == store[k].item
  {
  }

  lemma WellFormedAppend(store: seq<Node>, item: Item)
    requires WellFormed(store)
    ensures WellFormed(store + [Node(item, [], [])])
  {
    var s := store + [Node(item, [], [])];
    forall h | 0 <= h < |s|
      ensures forall k :: 0 <= k < |s[h].rows| ==> s[h].rows[k] < |s| && Rank(s[s[h].rows[k]].item.kind) < Rank(s[h].item.kind)
      ensures forall k :: 0 <= k < |s[h].columns| ==> s[h].columns[k] < |s| && Rank(s[s[h].columns[k]].item.kind) < Rank(s[h].item.kind)
    {
      if h < |store| {
        assert s[h] == store[h];
        forall k | 0 <= k < |s[h].rows| ensures s[s[h].rows[k]] == store[store[h].rows[k]] { }
        forall k | 0 <= k < |s[h].columns| ensures s[s[h].columns[k]] == store[store[h].columns[k]] { }
      }
    }
  }

  lemma WellFormedPut(store: seq<Node>, h: nat, item: Item)
    requires WellFormed(store) && h < |store| && item.kind == store[h].item.kind
    ensures WellFormed(Put(store, h, item))
  {
  }

  lemma WellFormedAttach(store: seq<Node>, target: nat, h: nat, asRow: bool)
    requires WellFormed(store) && target < |store| && h < |store|
    requires Rank(store[h].item.kind) < Rank(store[target].item.kind)
    ensures WellFormed(Attach(store, target, h, asRow))
  {
    var s := Attach(store, target, h, asRow);
    forall n | 0 <= n < |s|
      ensures forall k :: 0 <= k < |s[n].rows| ==> s[n].rows[k] < |s| && Rank(s[s[n].rows[k]].item.kind) < Rank(s[n].item.kind)
      ensures forall k :: 0 <= k < |s[n].columns| ==> s[n].columns[k] < |s| && Rank(s[s[n].columns[k]].item.kind) < Rank(s[n].item.kind)
    {
      forall k | 0 <= k < |s[n].rows| ensures s[s[n].rows[k]].item == store[s[n].rows[k]].item {
        assert s[n].rows[k] < |store| by {
          if n == target && asRow && k == |store[target].rows| { } else { }
        }
      }
      forall k | 0 <= k < |s[n].columns| ensures s[s[n].columns[k]].item == store[s[n].columns[k]].item {
        assert s[n].columns[k] < |store| by {
          if n == target && !asRow && k == |store[target].columns| { } else { }
        }
      }
    }
  }

  /** `addToColumn`/`addToRow`: an apply target of "w" (any case) is the word, any other the group. */
  function Route(st: RowState, apply: string): Option<nat> {
    if EqualsIgnoreCase(apply, "w") then st.word else st.group
  }

  /**
   * A new item added to the store and attached as a column or row of its
   * apply target; a missing target is the source's null dereference.
   */
  function AddNew(st: RowState, item: Item, apply: string, asRow: bool): (r: Option<seq<Node>>)
    requires Valid(st) && Rank(item.kind) == 0
    ensures r.Some? <==> Route(st, apply).Some?
    ensures r.Some? ==> WellFormed(r.value) && |r.value| == |st.store| + 1 && r.value[|st.store|] == Node(item, [], [])
    ensures r.Some? ==> forall k :: 0 <= k < |st.store| ==> r.value[k].item == st.store[k].item
    ensures r.Some? ==> var t := Route(st, apply).value;
      t < |st.store| &&
      (asRow ==> r.value[t].rows == st.store[t].rows + [|st.store|] && r.value[t].columns == st.store[t].columns) &&
      (!asRow ==> r.value[t].columns == st.store[t].columns + [|st.store|] && r.value[t].rows == st.store[t].rows) &&
      forall k :: 0 <= k < |st.store| && k != t ==> r.value[k] == st.store[k]
  {
    var target := Route(st, apply);
    if target.None? then None
    else
      var s := st.store + [Node(item, [], [])];
      WellFormedAppend(st.store, item);
      WellFormedAttach(s, target.value, |st.store|, asRow);
      Some(Attach(s, target.value, |st.store|, asRow))
  }

  lemma ValidKeepsItems(st: RowState, store: seq<Node>)
    requires Valid(st) && WellFormed(store) && |store| >= |st.store|
    requires forall k :: 0 <= k < |st.store| ==> store[k].item.kind == st.store[k].item.kind
    ensures Valid(st.(store := store))
  {
  }

  /** A reference item may become the current reference; the languages play no part in validity. */
  lemma ValidWithReference(st: RowState, h: nat, languages: seq<Language>)
    requires Valid(st) && h < |st.store| && st.store[h].item.kind == ReferenceItem
    ensures Valid(st.(reference := Some(h), languages := languages))
  {
  }

  // ---------------------------------------------------------------------------
  // Reversals

  /** The word a Reversals cell creates in another language: the cell text, keyed back. */
  function ReverseWord(env: Collaborators, data: string, defaultKey: string, key: string): Graph {
    Graph([Node(NewItem(env, WordItem, data).(indigenous := map[defaultKey := key]), [], [])], 0)
  }

  /** One language of the reversal loop: merged when its code is the cell's language and the key is non-empty. */
  function MirrorOne(language: Language, lang: string, reverse: Graph, key: string): Language {
    if language.code == lang && key != "" then MergeWord(language, reverse) else language
  }

  /** The reversal loop over the languages, in order. */
  function Mirror(languages: seq<Language>, lang: string, reverse: Graph, key: string): (r: seq<Language>)
    ensures |r| == |languages|
  {
    if |languages| == 0 then []
    else Mirror(languages[..|languages| - 1], lang, reverse, key) + [MirrorOne(languages[|languages| - 1], lang, reverse, key)]
  }

  /**
   * The reverse word goes into exactly the languages whose code is the cell's
   * language, once each, and only when the word's key is non-empty; every
   * other language is left as it was.
   */
  lemma {:induction false} MirrorPointwise(languages: seq<Language>, lang: string, reverse: Graph, key: string)
    ensures forall i :: 0 <= i < |languages| ==>
      Mirror(languages, lang, reverse, key)[i] ==
        (if languages[i].code == lang && key != "" then languages[i].(merged := languages[i].merged + [reverse]) else languages[i])
  {
    if |languages| > 0 {
      MirrorPointwise(languages[..|languages| - 1], lang, reverse, key);
    }
  }

  /**
   * The reversal loop of a Reversals cell in language `lang`, for the row's
   * word: it never reaches a language whose code is the default key.
   */
  function Reversed(sheet: Sheet, languages: seq<Language>, lang: string, text: string, word: Graph): (r: seq<Language>)
    requires lang != sheet.defaultKey
    ensures |r| == |languages|
    ensures forall t :: 0 <= t < |languages| && languages[t].code == sheet.defaultKey ==> r[t] == languages[t]
  {
    var key := sheet.env.wordKey(word);
    var reverse := ReverseWord(sheet.env, text, sheet.defaultKey, key);
    MirrorPointwise(languages, lang, reverse, key);
    Mirror(languages, lang, reverse, key)
  }

  // ---------------------------------------------------------------------------
  // The cell switch

  /** The branches of the `switch (fieldType)` of `addWords`. */
  datatype Category =
    | WordCell
    | ReferenceCell
    | DefinitionCell
    | ExampleCell
    | CommentCell(asRow: bool, clearTitle: bool)
    | OntologyCell(kind: OntologyKind)
    | IllegalCell

  function CategoryOf(name: string): Category {
    if name == "Word" then WordCell
    else if name in ["Compare", "Encyclopedia Info", "Gloss", "References", "Restrictions",
                     "Usage", "Variants", "Lexical Function", "Reversals"] then ReferenceCell
    else if name == "Definition" then DefinitionCell
    else if name == "Example" then ExampleCell
    else if name in ["Antonyms", "Categories", "Etymology", "Language Links", "Main Entry",
                     "Refer To", "Spelling", "Subentry", "Synonyms", "Table", "Thesaurus"] then CommentCell(false, false)
    else if name == "Comment" then CommentCell(false, true)
    else if name == "Row Comment" then CommentCell(true, true)
    else if name == "Ontology" then OntologyCell(OntologyData)
    else if name == "Ontology-C" then OntologyCell(OntologyValue)
    else if name == "Ontology-PC" then OntologyCell(OntologyParentValue)
    else if name == "Ontology-P/C" then OntologyCell(OntologyParentSlashValue)
    else if name == "Ontology-C/D" then OntologyCell(OntologyValueData)
    else if name == "Ontology-PC/D" then OntologyCell(OntologyParentValueData)
    else IllegalCell
  }

  /** What a successful step promises: a valid state, the languages' count kept, the counter one past the column. */
  predicate Advances(f: Flow, st: RowState, col: nat) {
    f.Next? ==> (Valid(f.state) && |f.state.languages| == |st.languages| && f.column == col + 1 &&
      (st.word.Some? ==> f.state.word == st.word))
  }

  predicate KeepsCount(f: Flow, st: RowState) {
    f.Halted? ==> |f.languages| == |st.languages|
  }

  /** A step that stops hands back the languages it was given. */
  predicate HaltsInPlace(f: Flow, st: RowState) {
    f.Halted? ==> f.languages == st.languages
  }

  /** A step that leaves every language whose code is the default key as it was. */
  predicate KeepsDefault(f: Flow, st: RowState, defaultKey: string) {
    f.Next? ==> (|f.state.languages| == |st.languages| &&
      forall t :: 0 <= t < |st.languages| && st.languages[t].code == defaultKey ==>
        f.state.languages[t] == st.languages[t])
  }

  /** A step that leaves the gloss flag and the languages alone. */
  predicate KeepsRest(f: Flow, st: RowState) {
    f.Next? ==> f.state.gloss == st.gloss && f.state.languages == st.languages
  }

  /** A Word cell: the first makes the row's word (and current group); later ones add indigenous data. */
  function WordStep(sheet: Sheet, st: RowState, cell: Cell, field: FieldSpec, lang: string, col: nat): (f: Flow)
    requires Valid(st)
    ensures Advances(f, st, col) && HaltsInPlace(f, st) && KeepsRest(f, st)
  {
    if st.word.None? then
      var item := Configured(NewItem(sheet.env, WordItem, cell.text), lang, cell, field);
      ConfiguredShape(NewItem(sheet.env, WordItem, cell.text), lang, cell, field);
      WellFormedAppend(st.store, item);
      var h := |st.store|;
      Next(st.(store := st.store + [Node(item, [], [])], word := Some(h), group := Some(h)), col + 1)
    else
      var w := st.word.value;
      var item := st.store[w].item;
      WellFormedPut(st.store, w, item.(indigenous := item.indigenous[lang := cell.text]));
      Next(st.(store := Put(st.store, w, item.(indigenous := item.indigenous[lang := cell.text]))), col + 1)
  }

  /** Whether a reference-type cell starts a new Reference or continues the current one. */
  predicate OpensReference(sheet: Sheet, st: RowState, field: FieldSpec, lang: string)
    requires Valid(st)
  {
    lang == sheet.defaultKey || st.reference.None? || st.store[st.reference.value].item.title != field.name
  }

  /**
   * A reference-type cell: a new Reference unless the cell continues the
   * current one (a non-default language under the same title); either way the
   * reference is configured and attached to its apply target once more, and
   * a Reversals cell in another language mirrors the word into that language.
   */
  function ReferenceStep(sheet: Sheet, st: RowState, cell: Cell, field: FieldSpec, lang: string, col: nat): (f: Flow)
    requires Valid(st)
    ensures Advances(f, st, col) && HaltsInPlace(f, st) && KeepsDefault(f, st, sheet.defaultKey)
    ensures f.Next? ==> f.state.gloss == st.gloss
    ensures f.Next? && !(field.name == "Reversals" && lang != sheet.defaultKey) ==> f.state.languages == st.languages
  {
    var (store1, h) := ConfigureReference(sheet, st, cell, field, lang);
    var target := Route(st, field.apply);
    if target.None? then Halted(Crashed(NullReference), st.languages)
    else
      WellFormedAttach(store1, target.value, h, false);
      var store2 := Attach(store1, target.value, h, false);
      AttachKeepsItems(store1, target.value, h, false);
      ValidKeepsItems(st, store2);
      var languages :=
        if field.name == "Reversals" && lang != sheet.defaultKey then
          Reversed(sheet, st.languages, lang, cell.text, Graph(store2, st.word.value))
        else st.languages;
      var next := st.(store := store2, reference := Some(h), languages := languages);
      ValidWithReference(st.(store := store2), h, languages);
      Next(next, col + 1)
  }

  /**
   * The reference a reference-type cell works on, configured for the cell: a
   * new one at the end of the store, or the current one; nothing else changes.
   */
  function ConfigureReference(sheet: Sheet, st: RowState, cell: Cell, field: FieldSpec, lang: string): (r: (seq<Node>, nat))
    requires Valid(st)
    ensures var (store, h) := r;
      && WellFormed(store)
      && |store| == (if OpensReference(sheet, st, field, lang) then |st.store| + 1 else |st.store|)
      && h == (if OpensReference(sheet, st, field, lang) then |st.store| else st.reference.value)
      && store[h].item.kind == ReferenceItem && store[h].item.title == field.name
      && (forall k :: 0 <= k < |st.store| ==> store[k].item.kind == st.store[k].item.kind)
      && (forall k :: 0 <= k < |st.store| && k != h ==> store[k] == st.store[k])
  {
    var open := OpensReference(sheet, st, field, lang);
    var blank := NewItem(sheet.env, ReferenceItem, "");
    var store0 := if open then st.store + [Node(blank, [], [])] else st.store;
    var h := if open then |st.store| else st.reference.value;
    var item := Configured(store0[h].item, lang, cell, field);
    ConfiguredShape(store0[h].item, lang, cell, field);
    WellFormedAppend(st.store, blank);
    WellFormedPut(store0, h, item);
    (Put(store0, h, item), h)
  }

  /** Whether a Definition cell opens a new group. */
  predicate OpensDefinition(sheet: Sheet, st: RowState, lang: string)
    requires Valid(st)
  {
    (lang == sheet.defaultKey) == st.gloss || st.group.None? || st.store[st.group.value].item.kind == WordItem
  }

  /**
   * A Definition cell: a new "Definition" group attached as a row of the word,
   * or indigenous data on the current group; a default-language cell sets the
   * group's gloss and the flag.
   */
  function DefinitionStep(sheet: Sheet, st: RowState, cell: Cell, field: FieldSpec, lang: string, col: nat): (f: Flow)
    requires Valid(st)
    ensures Advances(f, st, col) && HaltsInPlace(f, st)
    ensures f.Next? ==> f.state.gloss == (st.gloss || lang == sheet.defaultKey) && f.state.languages == st.languages
  {
    var isDefault := lang == sheet.defaultKey;
    if OpensDefinition(sheet, st, lang) then
      var made := Configured(NewItem(sheet.env, GroupItem, "Definition"), lang, cell, field);
      ConfiguredShape(NewItem(sheet.env, GroupItem, "Definition"), lang, cell, field);
      var item := made.(size := Size(DefinitionWidgetWidth, WidgetHeight), gloss := if isDefault then cell.text else made.gloss);
      if st.word.None? then Halted(Crashed(NullReference), st.languages)
      else
        var h := |st.store|;
        WellFormedAppend(st.store, item);
        WellFormedAttach(st.store + [Node(item, [], [])], st.word.value, h, true);
        var store := Attach(st.store + [Node(item, [], [])], st.word.value, h, true);
        Next(st.(store := store, group := Some(h), gloss := st.gloss || isDefault), col + 1)
    else
      var g := st.group.value;
      var current := st.store[g].item;
      var item := current.(indigenous := current.indigenous[lang := cell.text], gloss := if isDefault then cell.text else current.gloss);
      WellFormedPut(st.store, g, item);
      Next(st.(store := Put(st.store, g, item), gloss := st.gloss || isDefault), col + 1)
  }

  /**
   * An Example cell: a new "Unit" attached as a row of its apply target when
   * the language is the default or there is no example yet, otherwise
   * indigenous data on the current example.
   */
  function ExampleStep(sheet: Sheet, st: RowState, cell: Cell, field: FieldSpec, lang: string, col: nat): (f: Flow)
    requires Valid(st)
    ensures Advances(f, st, col) && HaltsInPlace(f, st) && KeepsRest(f, st)
  {
    var isDefault := lang == sheet.defaultKey;
    if isDefault || st.example.None? then
      var made := Configured(NewItem(sheet.env, UnitItem, "Unit"), lang, cell, field);
      ConfiguredShape(NewItem(sheet.env, UnitItem, "Unit"), lang, cell, field);
      var item := made.(size := Size(ExampleWidgetWidth, TextHeight), gloss := if isDefault then cell.text else made.gloss);
      match AddNew(st, item, field.apply, true)
      case None => Halted(Crashed(NullReference), st.languages)
      case Some(store) =>
        ValidKeepsItems(st, store);
        Next(st.(store := store, example := Some(|st.store|)), col + 1)
    else
      var x := st.example.value;
      var current := st.store[x].item;
      WellFormedPut(st.store, x, current.(indigenous := current.indigenous[lang := cell.text]));
      Next(st.(store := Put(st.store, x, current.(indigenous := current.indigenous[lang := cell.text]))), col + 1)
  }

  /** A comment-type cell: a new Comment attached as a column (or, for Row Comment, a row). */
  function CommentStep(sheet: Sheet, st: RowState, cell: Cell, field: FieldSpec, lang: string, col: nat, asRow: bool, clearTitle: bool): (f: Flow)
    requires Valid(st)
    ensures Advances(f, st, col) && HaltsInPlace(f, st) && KeepsRest(f, st)
  {
    var made := Configured(NewItem(sheet.env, CommentItem, ""), lang, cell, field);
    ConfiguredShape(NewItem(sheet.env, CommentItem, ""), lang, cell, field);
    var item := if clearTitle then made.(title := "") else made;
    match AddNew(st, item, field.apply, asRow)
    case None => Halted(Crashed(NullReference), st.languages)
    case Some(store) =>
      ValidKeepsItems(st, store);
      Next(st.(store := store), col + 1)
  }

  /** An ontology cell: the decoded tuple attached as a column; undecodable text is an error. */
  function OntologyStep(sheet: Sheet, st: RowState, cell: Cell, field: FieldSpec, kind: OntologyKind, r: nat, col: nat): (f: Flow)
    requires Valid(st)
    ensures Advances(f, st, col) && HaltsInPlace(f, st) && KeepsRest(f, st)
  {
    match MakeOntologyField(kind, cell.text)
    case Err(_) => Halted(Failed(IllegalOntology(r, col)), st.languages)
    case Abort(fault) => Halted(Crashed(fault), st.languages)
    case Ok(o) =>
      match AddNew(st, NewItem(sheet.env, OntologyItem, "").(ontology := Some(o)), field.apply, false)
      case None => Halted(Crashed(NullReference), st.languages)
      case Some(store) =>
        ValidKeepsItems(st, store);
        Next(st.(store := store), col + 1)
  }

  /** The language key of column `col`: its own, or the default when it has none. */
  function CellLanguage(sheet: Sheet, col: nat): string
    requires col < |sheet.fields|
  {
    if sheet.fields[col].languageKey == "" then sheet.defaultKey else sheet.fields[col].languageKey
  }

  /**
   * The switch on the column's field name; every field but Definition (the
   * one name that reaches `DefinitionCell`) first clears the gloss flag.
   */
  function FieldStep(sheet: Sheet, st: RowState, cell: Cell, r: nat, col: nat): (f: Flow)
    requires Valid(st) && col < |sheet.fields|
    ensures Advances(f, st, col) && HaltsInPlace(f, st) && KeepsDefault(f, st, sheet.defaultKey)
    ensures f.Next? ==> (f.state.gloss ==
      (CategoryOf(sheet.fields[col].name) == DefinitionCell && (st.gloss || CellLanguage(sheet, col) == sheet.defaultKey)))
    ensures f.Next? && !(sheet.fields[col].name == "Reversals" && CellLanguage(sheet, col) != sheet.defaultKey) ==>
      f.state.languages == st.languages
  {
    var field := sheet.fields[col];
    var lang := CellLanguage(sheet, col);
    var s := st.(gloss := false);
    match CategoryOf(field.name)
    case WordCell => WordStep(sheet, s, cell, field, lang, col)
    case ReferenceCell => ReferenceStep(sheet, s, cell, field, lang, col)
    case DefinitionCell => DefinitionStep(sheet, st, cell, field, lang, col)
    case ExampleCell => ExampleStep(sheet, s, cell, field, lang, col)
    case CommentCell(asRow, clearTitle) => CommentStep(sheet, s, cell, field, lang, col, asRow, clearTitle)
    case OntologyCell(kind) => OntologyStep(sheet, s, cell, field, kind, r, col)
    case IllegalCell => Halted(Failed(IllegalField(r, col)), st.languages)
  }

  /** The column a cell at counter `c` is read as: its `ss:Index` less one, or `c`. */
  function CellColumn(cell: Cell, c: nat): int {
    if cell.index.Some? then cell.index.value - 1 else c
  }

  /**
   * One cell of row `r` at counter `c`: an index before the counter is a
   * duplicate, a jump from the first cell means there is no word; the column
   * read must exist in the header (else the array access throws), and after a
   * jump past `fieldLen` the whole of `addWords` returns at once.
   */
  function CellStep(sheet: Sheet, st: RowState, cell: Cell, r: nat, c: nat): (f: Flow)
    requires Valid(st)
    ensures f.Next? ==> f.column > c
    ensures Advances(f, st, if f.Next? then f.column - 1 else 0) && HaltsInPlace(f, st) && KeepsDefault(f, st, sheet.defaultKey)
  {
    var col := CellColumn(cell, c);
    if col < c then Halted(Failed(DuplicateColumns(r)), st.languages)
    else if col > c && c == 0 then Halted(Failed(NoWord(r)), st.languages)
    else if col >= |sheet.fields| then Halted(Crashed(IndexOutOfBounds), st.languages)
    else if col > c && col > FieldLen then Halted(Finished, st.languages)
    else FieldStep(sheet, st, cell, r, col)
  }

  /** The cells of row `r` from counter `c` on. */
  function RowFrom(sheet: Sheet, st: RowState, cells: seq<Cell>, r: nat, c: nat): (f: Flow)
    requires Valid(st)
    decreases |cells| - c
    ensures f.Next? ==> Valid(f.state) && |f.state.languages| == |st.languages|
    ensures f.Next? && st.word.Some? ==> f.state.word == st.word
    ensures KeepsCount(f, st)
  {
    if c >= |cells| then Next(st, c)
    else match CellStep(sheet, st, cells[c], r, c)
      case Next(next, column) => RowFrom(sheet, next, cells, r, column)
      case Halted(h, languages) => Halted(h, languages)
  }

  /** The outcome of `addWords`: how it stopped and the languages it left. */
  datatype Outcome = Outcome(halt: Halt, languages: seq<Language>)

  /**
   * Rows `r..`: each row that completes merges its word into the default
   * language; a missing default language or a row without a word is a null
   * dereference at the merge.
   */
  function RowsFrom(sheet: Sheet, rows: seq<seq<Cell>>, r: nat, gloss: bool, languages: seq<Language>, target: Option<nat>): (o: Outcome)
    requires target.Some? ==> target.value < |languages|
    decreases |rows| - r
    ensures |o.languages| == |languages|
  {
    if r >= |rows| then Outcome(Finished, languages)
    else match RowFrom(sheet, StartRow(gloss, languages), rows[r], r, 0)
      case Halted(h, after) => Outcome(h, after)
      case Next(st, _) =>
        if target.None? || st.word.None? then Outcome(Crashed(NullReference), st.languages)
        else
          var merged := st.languages[target.value := MergeWord(st.languages[target.value], Graph(st.store, st.word.value))];
          RowsFrom(sheet, rows, r + 1, st.gloss, merged, target)
  }

  /** `addWords(rows, columnFields, columnFonts)`: the data rows start at row 1. */
  function Words(sheet: Sheet, rows: seq<seq<Cell>>, languages: seq<Language>): Outcome {
    RowsFrom(sheet, rows, 1, false, languages, LanguageIndex(languages, sheet.defaultKey))
  }
}
