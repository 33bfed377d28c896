/**
 * Fonts, the style table (`processStyles`) and the column pass
 * (`processColumnCells`). A font is a shared, mutable record: the style table,
 * the table font and the column table hold the same objects, and the column
 * pass widens a font's width slot through whichever of them it is reached by.
 */
module Styles {
  import opened Wrappers
  import opened Widths
  import opened Workbook

  /** The font the conversion starts from: Calabri, Swiss, 12, black. */
  const InitialFace: FontFace := FontFace("Calabri", "Swiss", 12, "#000000")

  /** The width slot of the initial font; every font copied from it keeps it. */
  const InitialWidth: nat := 50

  /**
   * One font array `{name, family, size, colour, width}`. Only the width slot is
   * ever written after the array is made.
   */
  class FontData {
    const face: FontFace
    var width: nat

    constructor (face: FontFace, width: nat)
      ensures this.face == face && this.width == width
    {
      this.face := face;
      this.width := width;
    }
  }

  // ---------------------------------------------------------------------------
  // processStyles

  /**
   * One step of `processStyles` over the table of stored fonts, each named by
   * the index of the style whose `<Font>` it was made from: an empty id is
   * skipped, an own font is stored, otherwise the parent's entry is copied
   * when the parent is already stored, and nothing happens when it is not.
   */
  function StyleStep(table: map<string, nat>, i: nat, style: StyleDef): map<string, nat>
  {
    if style.id == "" then table
    else if style.font.Some? then table[style.id := i]
    else if style.parent in table then table[style.id := table[style.parent]]
    else table
  }

  /** The style table after `processStyles` has seen `styles`, in order. */
  function StyleTable(styles: seq<StyleDef>): map<string, nat>
  {
    if |styles| == 0 then map[]
    else StyleStep(StyleTable(styles[..|styles| - 1]), |styles| - 1, styles[|styles| - 1])
  }

  /**
   * Every key of the table is the non-empty id of some style, and every stored
   * font comes from a style that has its own `<Font>`.
   */
  lemma {:induction false} StyleTableSound(styles: seq<StyleDef>)
    ensures forall id :: id in StyleTable(styles) ==>
      id != "" && exists i :: 0 <= i < |styles| && styles[i].id == id
    ensures forall id :: id in StyleTable(styles) ==>
      StyleTable(styles)[id] < |styles| && styles[StyleTable(styles)[id]].font.Some?
  {
    if |styles| > 0 {
      var prefix := styles[..|styles| - 1];
      StyleTableSound(prefix);
      forall id | id in StyleTable(styles)
        ensures id != "" && exists i :: 0 <= i < |styles| && styles[i].id == id
      {
        if id !in StyleTable(prefix) {
          assert styles[|styles| - 1].id == id;
        } else {
          var i :| 0 <= i < |prefix| && prefix[i].id == id;
          assert styles[i].id == id;
        }
      }
    }
  }

  /** The empty id is never a key, so `processFont("")`'s own check is never the one that decides. */
  lemma EmptyIdNeverStored(styles: seq<StyleDef>)
    ensures "" !in StyleTable(styles)
  {
    StyleTableSound(styles);
  }

  /** A style with its own font stores a font made from it under its id. */
  lemma OwnFontStored(styles: seq<StyleDef>, i: nat)
    requires i < |styles| && styles[i].id != "" && styles[i].font.Some?
    ensures var table := StyleTable(styles[..i + 1]);
      styles[i].id in table && table[styles[i].id] == i
  {
    assert styles[..i + 1][..i] == styles[..i];
  }

  /**
   * Inheritance is single-level and by sharing: a style without a font whose
   * parent is already stored gets the very font stored for the parent.
   */
  lemma InheritedSharesParent(styles: seq<StyleDef>, i: nat)
    requires i < |styles| && styles[i].id != "" && styles[i].font.None?
    requires styles[i].parent in StyleTable(styles[..i])
    ensures var table := StyleTable(styles[..i + 1]);
      styles[i].id in table && table[styles[i].id] == StyleTable(styles[..i])[styles[i].parent]
  {
    assert styles[..i + 1][..i] == styles[..i];
  }

  /**
   * A parent that no earlier style declares never resolves: a style without a
   * font that names it leaves the table as it was.
   */
  lemma {:induction false} LaterParentNeverResolves(styles: seq<StyleDef>, i: nat)
    requires i < |styles| && styles[i].font.None?
    requires forall j :: 0 <= j < i ==> styles[j].id != styles[i].parent
    ensures StyleTable(styles[..i + 1]) == StyleTable(styles[..i])
  {
    assert styles[..i + 1][..i] == styles[..i];
    StyleTableSound(styles[..i]);
    assert forall j :: 0 <= j < |styles[..i]| ==> styles[..i][j].id != styles[i].parent;
  }

  // ---------------------------------------------------------------------------
  // processColumnCells

  /**
   * What the column pass does with one `<Column>`: the 0-based column index it
   * files the font under, the style it looks up, and the width candidate (the
   * table default when that is greater than the column's own width).
   */
  datatype Visit = Visit(index: int, styleId: string, candidate: Measure)

  /** The column index `processColumnCells` uses for the column at position `fc`. */
  function ColumnIndex(column: ColumnDef, fc: nat): int {
    if column.index.Some? then column.index.value - 1 else fc
  }

  /**
   * The visits of the column pass from position `fc` on. The position doubles as
   * the column counter: after a column that names a later index the counter
   * jumps to it, so the `<Column>` elements in between are never looked at.
   */
  function VisitsFrom(columns: seq<ColumnDef>, defaultWidth: Measure, fc: nat): (r: seq<Visit>)
    decreases |columns| - fc
    ensures fc <= |columns| ==> |r| <= |columns| - fc
  {
    if fc >= |columns| then []
    else
      var index := ColumnIndex(columns[fc], fc);
      var next: nat := (if index > fc then index else fc) + 1;
      [Visit(index, columns[fc].styleId, Candidate(defaultWidth, columns[fc].width))]
        + VisitsFrom(columns, defaultWidth, next)
  }

  function Visits(columns: seq<ColumnDef>, defaultWidth: Measure): seq<Visit> {
    VisitsFrom(columns, defaultWidth, 0)
  }

  /**
   * A column naming a later index makes the pass skip every column element up to
   * that index: the next one visited is the one at position index + 1.
   */
  lemma ColumnJumpSkips(columns: seq<ColumnDef>, defaultWidth: Measure, fc: nat)
    requires fc < |columns| && columns[fc].index.Some? && columns[fc].index.value - 1 > fc
    ensures VisitsFrom(columns, defaultWidth, fc)
      == [Visit(columns[fc].index.value - 1, columns[fc].styleId, Candidate(defaultWidth, columns[fc].width))]
         + VisitsFrom(columns, defaultWidth, columns[fc].index.value)
  {
  }

  /**
   * The width a font has after the visits: each visit whose style is stored as
   * this very font widens it to that visit's candidate.
   */
  function WidthAfter(font: FontData, width: nat, visits: seq<Visit>, styles: map<string, FontData>): nat
  {
    if |visits| == 0 then width
    else
      var before := WidthAfter(font, width, visits[..|visits| - 1], styles);
      var v := visits[|visits| - 1];
      if v.styleId in styles && styles[v.styleId] == font then Widen(before, v.candidate) else before
  }

  /**
   * The pass only ever widens, and each font ends exactly as wide as the widest
   * of its old width and the candidates of the visits that reach it.
   */
  lemma {:induction false} WidthAfterIsMax(font: FontData, width: nat, visits: seq<Visit>, styles: map<string, FontData>)
    ensures WidthAfter(font, width, visits, styles) >= width
    ensures forall j :: 0 <= j < |visits| && visits[j].styleId in styles && styles[visits[j].styleId] == font ==>
      WidthAfter(font, width, visits, styles) >= Value(visits[j].candidate)
    ensures WidthAfter(font, width, visits, styles) == width ||
      exists j :: 0 <= j < |visits| && visits[j].styleId in styles && styles[visits[j].styleId] == font &&
        WidthAfter(font, width, visits, styles) == Value(visits[j].candidate)
  {
    if |visits| > 0 {
      var prefix := visits[..|visits| - 1];
      WidthAfterIsMax(font, width, prefix, styles);
      var before := WidthAfter(font, width, prefix, styles);
      if before != width {
        var j :| 0 <= j < |prefix| && prefix[j].styleId in styles && styles[prefix[j].styleId] == font &&
          before == Value(prefix[j].candidate);
        assert visits[j] == prefix[j];
      }
    }
  }

  /** A font that is not in the style table keeps its width. */
  lemma {:induction false} WidthAfterUnreached(font: FontData, width: nat, visits: seq<Visit>, styles: map<string, FontData>)
    requires font !in styles.Values
    ensures WidthAfter(font, width, visits, styles) == width
  {
    if |visits| > 0 {
      WidthAfterUnreached(font, width, visits[..|visits| - 1], styles);
      var v := visits[|visits| - 1];
      if v.styleId in styles {
        assert styles[v.styleId] in styles.Values;
      }
    }
  }

  /** For each column index filed, the position of the last visit that files it. */
  function LastVisit(visits: seq<Visit>): map<int, nat>
  {
    if |visits| == 0 then map[]
    else LastVisit(visits[..|visits| - 1])[visits[|visits| - 1].index := |visits| - 1]
  }

  /**
   * Each index filed points at a visit that names it, and every visit's index
   * is filed, at that visit or a later one: later columns overwrite earlier ones.
   */
  lemma {:induction false} LastVisitSound(visits: seq<Visit>)
    ensures var r := LastVisit(visits);
      && (forall k :: k in r ==> r[k] < |visits| && visits[r[k]].index == k)
      && (forall j :: 0 <= j < |visits| ==> visits[j].index in r && j <= r[visits[j].index])
  {
    if |visits| > 0 {
      var prefix := visits[..|visits| - 1];
      LastVisitSound(prefix);
      var r := LastVisit(visits);
      forall j | 0 <= j < |visits|
        ensures visits[j].index in r && j <= r[visits[j].index]
      {
        if j < |prefix| {
          assert visits[j] == prefix[j];
        }
      }
    }
  }
}
