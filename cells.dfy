/**
 * `configureCell`: a new or continued item takes its field's name as title,
 * grows to its field's width at the area height, and takes the text of the
 * cell's `<Data>` and `<Phonetics>` children according to its kind.
 */
module Cells {
  import opened Wrappers
  import opened Text
  import opened Fields
  import opened Workbook
  import opened Entities

  /** `size.height = AREA_WIDGET_HEIGHT` and the width raised to the field's width. */
  function Sized(size: Size, width: nat): (r: Size)
    ensures r.height == AreaWidgetHeight
    ensures r.width >= width && r.width >= size.width
    ensures r.width == width || r.width == size.width
  {
    Size(if width > size.width then width else size.width, AreaWidgetHeight)
  }

  /** Items whose `<Data>` text is stored as indigenous data in the cell's language. */
  predicate TakesIndigenous(kind: ItemKind) {
    kind == GroupItem || kind == ReferenceItem || kind == UnitItem
  }

  /** Items that keep a `<Phonetics>` text: groups (words included) and comments. */
  predicate TakesPhonetics(kind: ItemKind) {
    kind == WordItem || kind == GroupItem || kind == CommentItem
  }

  /**
   * One child element of the cell: `<Data>` goes to a group that is not a
   * word, else to a comment's text, a reference's or unit's indigenous data;
   * `<Phonetics>` goes to a group's (or word's) phonetics, else a comment's.
   * The text is trimmed; every other element is ignored.
   */
  function ApplyChild(item: Item, lang: string, child: CellChild): Item
  {
    var data := Trim(child.text);
    if child.tag == "Data" then
      if item.kind == GroupItem then item.(indigenous := item.indigenous[lang := data])
      else if item.kind == CommentItem then item.(comment := data)
      else if item.kind == ReferenceItem || item.kind == UnitItem then item.(indigenous := item.indigenous[lang := data])
      else item
    else if child.tag == "Phonetics" then
      if IsGroup(item.kind) then item.(phonetics := data)
      else if item.kind == CommentItem then item.(phonetics := data)
      else item
    else item
  }

  /** The item after the loop over the cell's children. */
  function ApplyChildren(item: Item, lang: string, children: seq<CellChild>): Item
  {
    if |children| == 0 then item
    else ApplyChild(ApplyChildren(item, lang, children[..|children| - 1]), lang, children[|children| - 1])
  }

  /** `configureCell(lang, cell, item, fieldData, fontData)` on the parts modelled. */
  function Configured(item: Item, lang: string, cell: Cell, field: FieldSpec): Item
  {
    ApplyChildren(item.(title := field.name, size := Sized(item.size, field.width)), lang, cell.children)
  }

  /** The trimmed text of the last child with the given tag, if any. */
  function LastText(children: seq<CellChild>, tag: string): Option<string>
  {
    if |children| == 0 then None
    else if children[|children| - 1].tag == tag then Some(Trim(children[|children| - 1].text))
    else LastText(children[..|children| - 1], tag)
  }

  /** The children loop changes only the indigenous data, the comment text and the phonetics. */
  lemma {:induction false} ApplyChildrenKeeps(item: Item, lang: string, children: seq<CellChild>)
    ensures var r := ApplyChildren(item, lang, children);
      && r.kind == item.kind && r.name == item.name && r.title == item.title && r.gloss == item.gloss
      && r.size == item.size && r.ontology == item.ontology
  {
    if |children| > 0 {
      ApplyChildrenKeeps(item, lang, children[..|children| - 1]);
    }
  }

  /**
   * The last `<Data>` child decides the indigenous data in the cell's language
   * of groups, references and units; words, comments and ontologies keep theirs.
   */
  lemma {:induction false} ApplyChildrenIndigenous(item: Item, lang: string, children: seq<CellChild>)
    ensures var data := LastText(children, "Data");
      ApplyChildren(item, lang, children).indigenous ==
        (if TakesIndigenous(item.kind) && data.Some? then item.indigenous[lang := data.value] else item.indigenous)
  {
    if |children| > 0 {
      var prefix := children[..|children| - 1];
      var last := children[|children| - 1];
      ApplyChildrenIndigenous(item, lang, prefix);
      ApplyChildrenKeeps(item, lang, prefix);
      var before := ApplyChildren(item, lang, prefix);
      ApplyChildIndigenous(before, lang, last);
      if last.tag == "Data" && TakesIndigenous(item.kind) && LastText(prefix, "Data").Some? {
        MapOverwrite(item.indigenous, lang, LastText(prefix, "Data").value, Trim(last.text));
      }
    }
  }

  /** One child's effect on the indigenous data. */
  lemma ApplyChildIndigenous(item: Item, lang: string, child: CellChild)
    ensures ApplyChild(item, lang, child).indigenous ==
      (if TakesIndigenous(item.kind) && child.tag == "Data" then item.indigenous[lang := Trim(child.text)] else item.indigenous)
  {
  }

  lemma MapOverwrite(m: map<string, string>, k: string, a: string, b: string)
    ensures m[k := a][k := b] == m[k := b]
  {
  }

  /** The last `<Data>` child decides a comment's text; other items keep theirs. */
  lemma {:induction false} ApplyChildrenComment(item: Item, lang: string, children: seq<CellChild>)
    ensures var data := LastText(children, "Data");
      ApplyChildren(item, lang, children).comment ==
        (if item.kind == CommentItem && data.Some? then data.value else item.comment)
  {
    if |children| > 0 {
      ApplyChildrenComment(item, lang, children[..|children| - 1]);
      ApplyChildrenKeeps(item, lang, children[..|children| - 1]);
    }
  }

  /** The last `<Phonetics>` child decides the phonetics of groups, words and comments. */
  lemma {:induction false} ApplyChildrenPhonetics(item: Item, lang: string, children: seq<CellChild>)
    ensures var r := ApplyChildren(item, lang, children);
      var phonetics := LastText(children, "Phonetics");
      r.phonetics == (if TakesPhonetics(item.kind) && phonetics.Some? then phonetics.value else item.phonetics)
  {
    if |children| > 0 {
      ApplyChildrenPhonetics(item, lang, children[..|children| - 1]);
      ApplyChildrenKeeps(item, lang, children[..|children| - 1]);
    }
  }

  /**
   * What `configureCell` promises: the title is the field name, the height
   * the area height, the width the larger of the field's and the item's own;
   * the kind, the constructor argument, the gloss and the ontology tuple are kept.
   */
  lemma ConfiguredShape(item: Item, lang: string, cell: Cell, field: FieldSpec)
    ensures var r := Configured(item, lang, cell, field);
      && r.title == field.name
      && r.size.height == AreaWidgetHeight
      && r.size.width == (if field.width > item.size.width then field.width else item.size.width)
      && r.kind == item.kind && r.name == item.name && r.gloss == item.gloss && r.ontology == item.ontology
  {
    ApplyChildrenKeeps(item.(title := field.name, size := Sized(item.size, field.width)), lang, cell.children);
  }
}
