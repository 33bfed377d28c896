/**
 * The dictionary records the conversion builds (Word, Group, Reference, Unit,
 * Comment, Ontology), the languages words are merged into, and the dictionary
 * that owns languages and authors.
 *
 * The items of one spreadsheet row live in a store, a sequence of nodes; a
 * word's rows and columns hold handles (positions in the store), so that an
 * item attached to a word can still be changed afterwards, as the source does
 * through object references.
 */
module Entities {
  import opened Wrappers
  import opened OntologyFields

  // Widget heights of the dictionary application's constants; their values
  // are not part of this model, and no proof depends on them.
  const WidgetHeight: int
  const TextHeight: int
  const AreaWidgetHeight: int

  /** A `java.awt.Dimension`. */
  datatype Size = Size(width: int, height: int)

  /** The item classes; a Word is a kind of Group. */
  datatype ItemKind = WordItem | GroupItem | ReferenceItem | UnitItem | CommentItem | OntologyItem

  predicate IsGroup(kind: ItemKind) {
    kind == WordItem || kind == GroupItem
  }

  /**
   * The fields of an item the conversion sets: the constructor argument
   * (`name`), title, gloss, phonetics, comment text, the indigenous data per
   * language key, the widget size, and the ontology tuple of an Ontology item.
   */
  datatype Item = Item(
    kind: ItemKind,
    name: string,
    title: string,
    gloss: string,
    phonetics: string,
    comment: string,
    indigenous: map<string, string>,
    size: Size,
    ontology: Option<Ontology>)

  /** An item in the row store with the handles of its rows and columns. */
  datatype Node = Node(item: Item, rows: seq<nat>, columns: seq<nat>)

  /** A word as it is merged into a language: the row's store and the word's handle. */
  datatype Graph = Graph(nodes: seq<Node>, root: nat)

  /** Words hold groups and leaves, groups hold leaves, leaves hold nothing. */
  function Rank(kind: ItemKind): nat {
    match kind
    case WordItem => 2
    case GroupItem => 1
    case _ => 0
  }

  /**
   * Every handle in the store names a node of the store of strictly lower
   * rank: the item graph of a row is finite and acyclic.
   */
  predicate WellFormed(store: seq<Node>) {
    forall h :: 0 <= h < |store| ==>
      (forall k :: 0 <= k < |store[h].rows| ==>
        store[h].rows[k] < |store| && Rank(store[store[h].rows[k]].item.kind) < Rank(store[h].item.kind)) &&
      (forall k :: 0 <= k < |store[h].columns| ==>
        store[h].columns[k] < |store| && Rank(store[store[h].columns[k]].item.kind) < Rank(store[h].item.kind))
  }

  /** `new LanguageFont(name, size, languageName)`. */
  datatype LanguageFont = LanguageFont(name: string, size: nat, languageName: string)

  /** A dictionary language: its code, its font and the words merged into it, in order. */
  datatype Language = Language(code: string, font: LanguageFont, merged: seq<Graph>)

  /**
   * The behaviour of classes outside this file that the conversion calls:
   * `Language.compareTo(..) == 0`, `Word.getKey()` and the size a newly made
   * item of each kind starts with.
   */
  datatype Collaborators = Collaborators(
    sameLanguage: (Language, Language) -> bool,
    wordKey: Graph -> string,
    initialSize: ItemKind -> Size)

  /** `language.mergeWord(word)`: the word is added to the language's words. */
  function MergeWord(language: Language, word: Graph): (r: Language)
    ensures r.code == language.code && r.font == language.font
    ensures r.merged == language.merged + [word]
  {
    language.(merged := language.merged + [word])
  }

  /** The dictionary under construction: its authors (by name) and languages. */
  class Dictionary {
    var authors: seq<string>
    var languages: seq<Language>

    constructor (authors: seq<string>, languages: seq<Language>)
      ensures this.authors == authors && this.languages == languages
    {
      this.authors := authors;
      this.languages := languages;
    }
  }
}
