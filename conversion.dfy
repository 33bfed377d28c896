/**
 * The converter object: the dictionary it fills, its default font, and the
 * style table that maps style ids to shared font records. Each loop of the
 * source is a method here, named after the source method it sits in, or after
 * the part of it that it models (`ColumnStep`, `ColumnPass`, `ProcessRows`),
 * and proved against the function that says what that loop computes.
 */
module Conversion {
  import opened Wrappers
  import opened Text
  import opened Widths
  import opened Fields
  import opened Workbook
  import opened Styles
  import opened Entities
  import opened Registry
  import opened Header
  import opened Cells
  import opened Rows
  import opened Sheets

  /**
   * The font filed for a column by the visit at position `j`, now `width`
   * wide: the style's own font when the visit's style is in the table,
   * otherwise a copy of the table font made at that visit, widened to the
   * visit's candidate.
   */
  ghost predicate Filed(styles: map<string, FontData>, tableFont: FontData, tableWidth: nat, visits: seq<Visit>, j: int, font: FontData, width: nat)
  {
    && 0 <= j < |visits|
    && var v := visits[j];
      if v.styleId in styles then font == styles[v.styleId]
      else
        && font !in styles.Values
        && font.face == tableFont.face
        && width == Widen(WidthAfter(tableFont, tableWidth, visits[..j], styles), v.candidate)
  }

  /**
   * Where the column pass stands after the visits `done`, `w` giving the
   * width of each font record it mentions: the indices filed are those
   * visited; every style font and the table font is as wide as `WidthAfter`
   * says from its width at the start; each index holds the font its last
   * visit filed.
   */
  ghost predicate PassFacts(styles: map<string, FontData>, tableFont: FontData, tableWidth: nat, start: map<FontData, nat>,
                            done: seq<Visit>, specs: map<int, FontData>, w: map<FontData, nat>)
  {
    && styles.Values <= w.Keys && tableFont in w && specs.Values <= w.Keys
    && specs.Keys == LastVisit(done).Keys
    && (forall f :: f in styles.Values ==> f in start && w[f] == WidthAfter(f, start[f], done, styles))
    && w[tableFont] == WidthAfter(tableFont, tableWidth, done, styles)
    && (forall k :: k in specs ==> Filed(styles, tableFont, tableWidth, done, LastVisit(done)[k], specs[k], w[specs[k]]))
  }

  /** Every font record in `w` is as wide as `w` says. */
  ghost predicate WidthsAre(w: map<FontData, nat>)
    reads w.Keys
  {
    forall f :: f in w ==> f.width == w[f]
  }

  /**
   * The style map follows the style table model: the same keys, each id
   * holding the record made for the style index the table gives it.
   */
  ghost predicate Tracks(styles: map<string, FontData>, table: map<string, nat>, made: map<nat, FontData>) {
    && styles.Keys == table.Keys
    && forall id :: id in styles ==> table[id] in made && styles[id] == made[table[id]]
  }

  ghost predicate Injective(made: map<nat, FontData>) {
    forall a, b :: a in made && b in made && made[a] == made[b] ==> a == b
  }

  /** Each record made so far comes from an earlier style's own `<Font>` and has the default width. */
  ghost predicate MadeFrom(made: map<nat, FontData>, defs: seq<StyleDef>, i: nat, width: nat)
    reads made.Values
  {
    forall k :: k in made ==>
      k < i && k < |defs| && defs[k].font.Some? && made[k].face == defs[k].font.value && made[k].width == width
  }

  /**
   * The style map after `processStyles`, over the style table model: the same
   * keys; each font has the face of the style it was made from and the given
   * width; two ids share a record exactly when they resolve to the same style.
   */
  ghost predicate Matches(styles: map<string, FontData>, defs: seq<StyleDef>, width: nat)
    reads styles.Values
  {
    var table := StyleTable(defs);
    && styles.Keys == table.Keys
    && (forall id :: id in styles ==>
          table[id] < |defs| && defs[table[id]].font.Some? &&
          styles[id].face == defs[table[id]].font.value && styles[id].width == width)
    && (forall a, b :: a in styles && b in styles ==> (styles[a] == styles[b] <==> table[a] == table[b]))
  }

  lemma TrackOwn(styles: map<string, FontData>, table: map<string, nat>, made: map<nat, FontData>, id: string, i: nat, font: FontData)
    requires Tracks(styles, table, made) && i !in made
    ensures Tracks(styles[id := font], table[id := i], made[i := font])
  {
    forall k | k in styles && k != id
      ensures table[k] in made && styles[k] == made[table[k]]
    {
    }
  }

  lemma TrackParent(styles: map<string, FontData>, table: map<string, nat>, made: map<nat, FontData>, id: string, parent: string)
    requires Tracks(styles, table, made) && parent in styles
    ensures Tracks(styles[id := styles[parent]], table[id := table[parent]], made)
  {
  }

  lemma TracksMatch(styles: map<string, FontData>, defs: seq<StyleDef>, made: map<nat, FontData>, width: nat)
    requires Tracks(styles, StyleTable(defs), made) && Injective(made) && MadeFrom(made, defs, |defs|, width)
    ensures Matches(styles, defs, width)
  {
  }

  /** One more visit files its index under the newest position. */
  lemma LastVisitStep(done: seq<Visit>, v: Visit)
    ensures LastVisit(done + [v]) == LastVisit(done)[v.index := |done|]
  {
    assert (done + [v])[..|done|] == done;
  }

  /** One more visit widens a font exactly when its style resolves to that font. */
  lemma WidthAfterStep(font: FontData, width: nat, done: seq<Visit>, v: Visit, styles: map<string, FontData>)
    ensures WidthAfter(font, width, done + [v], styles) ==
      if v.styleId in styles && styles[v.styleId] == font then Widen(WidthAfter(font, width, done, styles), v.candidate)
      else WidthAfter(font, width, done, styles)
  {
    assert (done + [v])[..|done|] == done;
  }

  /** What was filed at an earlier visit is described the same way after a later one. */
  lemma FiledExtends(styles: map<string, FontData>, tableFont: FontData, tableWidth: nat, done: seq<Visit>, v: Visit, j: int, font: FontData, width: nat)
    requires 0 <= j < |done|
    ensures Filed(styles, tableFont, tableWidth, done + [v], j, font, width) == Filed(styles, tableFont, tableWidth, done, j, font, width)
  {
    assert (done + [v])[..j] == done[..j];
    assert (done + [v])[j] == done[j];
  }

  /**
   * The pass visits the column at `fc` (the visit `v`), then goes on after the
   * index it named or after `fc`, whichever is later.
   */
  lemma VisitsFromStep(columns: seq<ColumnDef>, defaultWidth: Measure, fc: nat, done: seq<Visit>, v: Visit, next: nat, done2: seq<Visit>)
    requires fc < |columns|
    requires v == Visit(ColumnIndex(columns[fc], fc), columns[fc].styleId, Widths.Candidate(defaultWidth, columns[fc].width))
    requires next == (if v.index > fc then v.index else fc) + 1
    requires done2 == done + [v]
    ensures done2 + VisitsFrom(columns, defaultWidth, next) == done + VisitsFrom(columns, defaultWidth, fc)
  {
    assert VisitsFrom(columns, defaultWidth, fc) == [v] + VisitsFrom(columns, defaultWidth, next);
    assert (done + [v]) + VisitsFrom(columns, defaultWidth, next) == done + ([v] + VisitsFrom(columns, defaultWidth, next));
  }

  /** A column whose style is in the table widens that style's font and files it. */
  lemma StyleVisitStep(styles: map<string, FontData>, tableFont: FontData, tableWidth: nat, start: map<FontData, nat>,
                       done: seq<Visit>, specs: map<int, FontData>, w: map<FontData, nat>, v: Visit)
    requires PassFacts(styles, tableFont, tableWidth, start, done, specs, w) && v.styleId in styles
    ensures var data := styles[v.styleId];
      PassFacts(styles, tableFont, tableWidth, start, done + [v], specs[v.index := data], w[data := Widen(w[data], v.candidate)])
  {
    var data := styles[v.styleId];
    var w' := w[data := Widen(w[data], v.candidate)];
    forall f | f in styles.Values
      ensures w'[f] == WidthAfter(f, start[f], done + [v], styles)
    {
      WidthAfterStep(f, start[f], done, v, styles);
    }
    WidthAfterStep(tableFont, tableWidth, done, v, styles);
    LastVisitStep(done, v);
    forall k | k in specs && k != v.index
      ensures Filed(styles, tableFont, tableWidth, done + [v], LastVisit(done)[k], specs[k], w'[specs[k]])
    {
      var j := LastVisit(done)[k];
      FiledExtends(styles, tableFont, tableWidth, done, v, j, specs[k], w'[specs[k]]);
      if specs[k] == data {
        assert done[j].styleId in styles;
      }
    }
    assert (done + [v])[..|done|] == done;
  }

  /** A column whose style is not in the table files a new copy of the table font; no width changes. */
  lemma CopyVisitStep(styles: map<string, FontData>, tableFont: FontData, tableWidth: nat, start: map<FontData, nat>,
                      done: seq<Visit>, specs: map<int, FontData>, w: map<FontData, nat>, v: Visit, data: FontData)
    requires PassFacts(styles, tableFont, tableWidth, start, done, specs, w) && v.styleId !in styles
    requires data !in w && data.face == tableFont.face
    ensures PassFacts(styles, tableFont, tableWidth, start, done + [v], specs[v.index := data], w[data := Widen(w[tableFont], v.candidate)])
  {
    var w' := w[data := Widen(w[tableFont], v.candidate)];
    forall f | f in styles.Values
      ensures w'[f] == WidthAfter(f, start[f], done + [v], styles)
    {
      WidthAfterStep(f, start[f], done, v, styles);
    }
    WidthAfterStep(tableFont, tableWidth, done, v, styles);
    LastVisitStep(done, v);
    forall k | k in specs && k != v.index
      ensures Filed(styles, tableFont, tableWidth, done + [v], LastVisit(done)[k], specs[k], w'[specs[k]])
    {
      FiledExtends(styles, tableFont, tableWidth, done, v, LastVisit(done)[k], specs[k], w'[specs[k]]);
    }
    assert (done + [v])[..|done|] == done;
  }

  /**
   * The pass's facts, read off the font records themselves: each style font
   * is as wide as `WidthAfter` says, and the font filed under each index is
   * its last visit's.
   */
  lemma PassViewFacts(styles: map<string, FontData>, tableFont: FontData, tableWidth: nat, start: map<FontData, nat>,
                      visits: seq<Visit>, specs: map<int, FontData>, w: map<FontData, nat>)
    requires PassFacts(styles, tableFont, tableWidth, start, visits, specs, w) && WidthsAre(w)
    ensures forall f :: f in styles.Values ==> f in start && f.width == WidthAfter(f, start[f], visits, styles)
    ensures tableFont.width == WidthAfter(tableFont, tableWidth, visits, styles)
    ensures forall k :: k in specs ==>
      var j := LastVisit(visits)[k];
      && 0 <= j < |visits|
      && (visits[j].styleId in styles ==> specs[k] == styles[visits[j].styleId])
      && (visits[j].styleId !in styles ==>
            && specs[k].face == tableFont.face
            && specs[k].width == Widen(WidthAfter(tableFont, tableWidth, visits[..j], styles), visits[j].candidate))
  {
  }

  /** The facts hold for any widths that agree on the records they mention. */
  lemma PassFactsAgree(styles: map<string, FontData>, tableFont: FontData, tableWidth: nat, start: map<FontData, nat>,
                       done: seq<Visit>, specs: map<int, FontData>, w: map<FontData, nat>, w2: map<FontData, nat>)
    requires PassFacts(styles, tableFont, tableWidth, start, done, specs, w)
    requires styles.Values <= w2.Keys && tableFont in w2 && specs.Values <= w2.Keys
    requires forall f :: f in w2 ==> f in w && w2[f] == w[f]
    ensures PassFacts(styles, tableFont, tableWidth, start, done, specs, w2)
  {
  }

  class ExcelConversion {
    const dictionary: Dictionary
    const env: Collaborators
    /** The font used where nothing else applies; never widened. */
    const defaultFont: FontData
    /** The style table: style id to the font record it resolves to. */
    var styles: map<string, FontData>

    /** The default font is not a style font, and the empty id is never a key. */
    ghost predicate Valid()
      reads this
    {
      defaultFont !in styles.Values && "" !in styles
    }

    /** After `processStyles(defs)`: the style map matches the style table model. */
    ghost predicate StylesMatch(defs: seq<StyleDef>)
      reads this, styles.Values, defaultFont
    {
      Matches(styles, defs, defaultFont.width)
    }

    /**
     * The constructor: the default font is the document's first `<Font>` laid
     * over `current` (the converter's default font as this conversion finds
     * it), with the initial width; then the styles are processed.
     */
    constructor (current: FontFace, documentFont: Option<FontFace>, styleDefs: seq<StyleDef>, dictionary: Dictionary, env: Collaborators)
      ensures this.dictionary == dictionary && this.env == env
      ensures defaultFont.face == (if documentFont.Some? then documentFont.value else current)
      ensures defaultFont.width == InitialWidth
      ensures Valid() && StylesMatch(styleDefs)
      ensures fresh(defaultFont) && forall id :: id in styles ==> fresh(styles[id])
    {
      this.dictionary := dictionary;
      this.env := env;
      defaultFont := new FontData(if documentFont.Some? then documentFont.value else current, InitialWidth);
      styles := map[];
      new;
      ProcessStyles(styleDefs);
    }

    /** `processFont(node)`: a copy of the default font carrying the node's `<Font>`, or null. */
    method ProcessFont(font: Option<FontFace>) returns (r: FontData?)
      ensures font.None? ==> r == null
      ensures font.Some? ==> r != null && fresh(r) && r.face == font.value && r.width == defaultFont.width
    {
      if font.None? {
        return null;
      }
      r := new FontData(font.value, defaultFont.width);
    }

    /** `processStyles(styleNodes)`: the style table, built in document order. */
    method ProcessStyles(defs: seq<StyleDef>)
      modifies this
      ensures Valid() && StylesMatch(defs)
      ensures forall id :: id in styles ==> fresh(styles[id])
    {
      styles := map[];
      ghost var made: map<nat, FontData> := map[];
      var i := 0;
      while i < |defs|
        invariant 0 <= i <= |defs|
        invariant Tracks(styles, StyleTable(defs[..i]), made)
        invariant MadeFrom(made, defs, i, defaultFont.width)
        invariant Injective(made)
        invariant forall k :: k in made ==> fresh(made[k])
      {
        assert defs[..i + 1][..i] == defs[..i];
        ghost var table := StyleTable(defs[..i]);
        var style := defs[i];
        if style.id != "" {
          var font := ProcessFont(style.font);
          if font != null {
            TrackOwn(styles, table, made, style.id, i, font);
            styles := styles[style.id := font];
            made := made[i := font];
          } else if style.parent in styles {
            TrackParent(styles, table, made, style.id, style.parent);
            styles := styles[style.id := styles[style.parent]];
          }
        }
        i := i + 1;
      }
      assert defs[..i] == defs;
      TracksMatch(styles, defs, made, defaultFont.width);
      EmptyIdNeverStored(defs);
    }

    /** `processFont(id)`: the style's own font record (not a copy), or null. */
    function FontForStyle(id: string): (r: FontData?)
      reads this
      requires Valid()
      ensures id == "" ==> r == null
      ensures r != null <==> id in styles
      ensures r != null ==> r == styles[id]
    {
      if id == "" then null
      else if id in styles then styles[id]
      else null
    }

    /** The width of every font record the column pass can reach. */
    ghost function Snapshot(tableFont: FontData, specs: map<int, FontData>): map<FontData, nat>
      reads this, styles.Values, tableFont, specs.Values
    {
      map f | f in styles.Values + specs.Values + {tableFont} :: f.width
    }

    /** `PassFacts` of the fonts as they are now. */
    ghost predicate PassState(tableFont: FontData, tableWidth: nat, start: map<FontData, nat>, done: seq<Visit>, specs: map<int, FontData>)
      reads this, styles.Values, tableFont, specs.Values
    {
      PassFacts(styles, tableFont, tableWidth, start, done, specs, Snapshot(tableFont, specs))
    }

    /** The width of every style font, by record. */
    ghost function StyleWidths(): map<FontData, nat>
      reads this, styles.Values
    {
      map f | f in styles.Values :: f.width
    }

    /** Before any column: nothing filed, every font at its starting width. */
    lemma PassStarts(tableFont: FontData, start: map<FontData, nat>)
      requires start == StyleWidths()
      ensures PassState(tableFont, tableFont.width, start, [], map[])
    {
    }

    /**
     * `processColumnCells(tableFont, defaultCellWidth, columns)`. Every style
     * font a column reaches is widened in place to the widest candidate that
     * reaches it; the table font is widened only when it is itself a style font;
     * each column index is filed with the font of the last column that names it.
     */
    method ProcessColumnCells(tableFont: FontData, defaultWidth: Measure, columns: seq<ColumnDef>) returns (specs: map<int, FontData>)
      requires Valid()
      modifies styles.Values
      ensures PassState(tableFont, old(tableFont.width), old(StyleWidths()), Visits(columns, defaultWidth), specs)
    {
      ghost var visits := Visits(columns, defaultWidth);
      ghost var tableWidth := tableFont.width;
      ghost var start := StyleWidths();
      assert start == old(StyleWidths()) && tableWidth == old(tableFont.width);
      ghost var done: seq<Visit> := [];
      specs := map[];
      PassStarts(tableFont, start);
      ghost var w := Snapshot(tableFont, specs);
      var fc: nat := 0;
      while fc < |columns|
        invariant done + VisitsFrom(columns, defaultWidth, fc) == visits
        invariant PassFacts(styles, tableFont, tableWidth, start, done, specs, w) && WidthsAre(w)
        decreases |columns| - fc
      {
        fc, specs, done, w := ColumnStep(tableFont, defaultWidth, columns, fc, tableWidth, start, done, specs, w);
      }
      assert done == visits;
      PassFactsAgree(styles, tableFont, tableWidth, start, visits, specs, w, Snapshot(tableFont, specs));
    }

    /** The body of the column loop: the column at `fc`, then the position after it. */
    method ColumnStep(tableFont: FontData, defaultWidth: Measure, columns: seq<ColumnDef>, fc: nat,
                      ghost tableWidth: nat, ghost start: map<FontData, nat>, ghost done: seq<Visit>, specs: map<int, FontData>,
                      ghost w: map<FontData, nat>)
      returns (next: nat, specs2: map<int, FontData>, ghost done2: seq<Visit>, ghost w2: map<FontData, nat>)
      requires Valid() && fc < |columns|
      requires PassFacts(styles, tableFont, tableWidth, start, done, specs, w) && WidthsAre(w)
      modifies styles.Values
      ensures next > fc
      ensures done2 + VisitsFrom(columns, defaultWidth, next) == done + VisitsFrom(columns, defaultWidth, fc)
      ensures PassFacts(styles, tableFont, tableWidth, start, done2, specs2, w2) && WidthsAre(w2)
    {
      var column := columns[fc];
      var index := ColumnIndex(column, fc);
      var candidate := Widths.Candidate(defaultWidth, column.width);
      next := fc;
      if index > next {
        next := index;
      }
      var data;
      data, w2 := FileColumn(tableFont, index, column.styleId, candidate, tableWidth, start, done, specs, w);
      specs2 := specs[index := data];
      done2 := done + [Visit(index, column.styleId, candidate)];
      next := next + 1;
      VisitsFromStep(columns, defaultWidth, fc, done, Visit(index, column.styleId, candidate), next, done2);
    }

    /**
     * One `<Column>` of the pass: the style's own font, or a new copy of the
     * table font when the style is not in the table, widened to the candidate,
     * then filed under `index`.
     */
    method FileColumn(tableFont: FontData, index: int, styleId: string, candidate: Measure,
                      ghost tableWidth: nat, ghost start: map<FontData, nat>, ghost done: seq<Visit>, specs: map<int, FontData>,
                      ghost w: map<FontData, nat>)
      returns (data: FontData, ghost w2: map<FontData, nat>)
      requires Valid()
      requires PassFacts(styles, tableFont, tableWidth, start, done, specs, w) && WidthsAre(w)
      modifies styles.Values
      ensures PassFacts(styles, tableFont, tableWidth, start, done + [Visit(index, styleId, candidate)], specs[index := data], w2)
      ensures WidthsAre(w2)
    {
      if styleId in styles {
        data, w2 := FileStyleFont(tableFont, index, styleId, candidate, tableWidth, start, done, specs, w);
      } else {
        data, w2 := FileTableCopy(tableFont, index, styleId, candidate, tableWidth, start, done, specs, w);
      }
    }

    /**
     * One `<Column>` of the pass whose style is in the table: the style's own
     * font is widened in place to the candidate and filed under `index`.
     */
    method FileStyleFont(tableFont: FontData, index: int, styleId: string, candidate: Measure,
                         ghost tableWidth: nat, ghost start: map<FontData, nat>, ghost done: seq<Visit>, specs: map<int, FontData>,
                         ghost w: map<FontData, nat>)
      returns (data: FontData, ghost w2: map<FontData, nat>)
      requires Valid() && styleId in styles
      requires PassFacts(styles, tableFont, tableWidth, start, done, specs, w) && WidthsAre(w)
      modifies styles.Values
      ensures data == styles[styleId]
      ensures PassFacts(styles, tableFont, tableWidth, start, done + [Visit(index, styleId, candidate)], specs[index := data], w2)
      ensures WidthsAre(w2)
    {
      data := styles[styleId];
      StyleVisitStep(styles, tableFont, tableWidth, start, done, specs, w, Visit(index, styleId, candidate));
      if IsGreater(candidate, Amount(data.width)) {
        data.width := Value(candidate);
      }
      w2 := w[data := Widen(w[data], candidate)];
    }

    /**
     * One `<Column>` of the pass whose style is not in the table: a new copy of
     * the table font, widened to the candidate, is filed under `index`; no
     * style font changes.
     */
    method FileTableCopy(tableFont: FontData, index: int, styleId: string, candidate: Measure,
                         ghost tableWidth: nat, ghost start: map<FontData, nat>, ghost done: seq<Visit>, specs: map<int, FontData>,
                         ghost w: map<FontData, nat>)
      returns (data: FontData, ghost w2: map<FontData, nat>)
      requires Valid() && styleId !in styles
      requires PassFacts(styles, tableFont, tableWidth, start, done, specs, w) && WidthsAre(w)
      ensures fresh(data) && data.face == tableFont.face && data.width == Widen(tableFont.width, candidate)
      ensures PassFacts(styles, tableFont, tableWidth, start, done + [Visit(index, styleId, candidate)], specs[index := data], w2)
      ensures WidthsAre(w2)
    {
      data := new FontData(tableFont.face, tableFont.width);
      if IsGreater(candidate, Amount(data.width)) {
        data.width := Value(candidate);
      }
      CopyVisitStep(styles, tableFont, tableWidth, start, done, specs, w, Visit(index, styleId, candidate), data);
      w2 := w[data := Widen(w[tableFont], candidate)];
    }

    // -------------------------------------------------------------------------
    // The worksheet

    /** The table font of `processWorksheet`: the table's style font, or the default font. */
    function TableFont(table: Table): (r: FontData)
      reads this
      requires Valid()
      ensures table.styleId in styles ==> r == styles[table.styleId]
      ensures table.styleId !in styles ==> r == defaultFont
    {
      var font := FontForStyle(table.styleId);
      if font == null then defaultFont else font
    }

    /**
     * The header loop of `processWorksheet` over the header cells, each column
     * put to `check` in turn with the code column 0 chose, stopping at the
     * first column that fails. `Checker(widths)` is the check the source applies.
     */
    method CheckHeader(check: ColumnCheck, cells: seq<Cell>) returns (status: Status<seq<FieldSpec>, HeaderError>)
      ensures status == ColumnsFrom(check, cells, 0, "")
    {
      var specs: seq<FieldSpec> := [];
      var defaultCode := "";
      var c := 0;
      PrependNothing(ColumnsFrom(check, cells, 0, ""));
      while c < |cells|
        invariant 0 <= c <= |cells|
        invariant Prepend(specs, ColumnsFrom(check, cells, c, defaultCode)) == ColumnsFrom(check, cells, 0, "")
      {
        var h := check(cells[c], c, defaultCode);
        HeaderStep(check, cells, specs, c, defaultCode);
        if h.Err? {
          return Err(h.error);
        } else if h.Abort? {
          return Abort(h.fault);
        }
        specs, defaultCode := specs + [h.value], if c == 0 then h.value.languageCode else defaultCode;
        c := c + 1;
      }
      HeaderDone(check, cells, specs, defaultCode);
      return Ok(specs);
    }

    /**
     * `addLanguages(columnFields, columnFonts)`: each column with a code adds a
     * language unless one that compares equal is listed; the dictionary's list
     * is replaced only when the result is not empty.
     */
    method AddLanguages(cs: seq<Candidate>) returns (ok: bool)
      modifies dictionary
      ensures ok <==> |LanguagesAfter(env.sameLanguage, old(dictionary.languages), cs)| > 0
      ensures dictionary.languages == (if ok then LanguagesAfter(env.sameLanguage, old(dictionary.languages), cs) else old(dictionary.languages))
      ensures dictionary.authors == old(dictionary.authors)
    {
      var languages := dictionary.languages;
      var c := 0;
      while c < |cs|
        invariant 0 <= c <= |cs|
        invariant languages == LanguagesAfter(env.sameLanguage, old(dictionary.languages), cs[..c])
      {
        assert cs[..c + 1][..c] == cs[..c];
        if cs[c].code != "" {
          var language := NewLanguage(cs[c]);
          var found := false;
          var k := 0;
          while k < |languages|
            invariant 0 <= k <= |languages|
            invariant !found ==> forall j :: 0 <= j < k ==> !env.sameLanguage(languages[j], language)
            invariant found ==> Listed(env.sameLanguage, languages, language)
          {
            if env.sameLanguage(languages[k], language) {
              found := true;
              break;
            }
            k := k + 1;
          }
          if !found {
            languages := languages + [language];
          }
        }
        c := c + 1;
      }
      assert cs[..c] == cs;
      if |languages| == 0 {
        return false;
      }
      dictionary.languages := languages;
      return true;
    }

    /** `isAuthor(authors, name)`. */
    method IsAuthor(authors: seq<string>, name: string) returns (r: bool)
      ensures r <==> name in authors
    {
      var i := 0;
      while i < |authors|
        invariant 0 <= i <= |authors|
        invariant name !in authors[..i]
      {
        if authors[i] == name {
          return true;
        }
        assert authors[..i + 1] == authors[..i] + [authors[i]];
        i := i + 1;
      }
      assert authors[..i] == authors;
      return false;
    }

    /** `findLanguage(languages, name)`: the first language with that code. */
    method FindLanguage(languages: seq<Language>, code: string) returns (r: Option<nat>)
      ensures r == LanguageIndex(languages, code)
    {
      var i := 0;
      while i < |languages|
        invariant 0 <= i <= |languages|
        invariant forall k :: 0 <= k < i ==> languages[k].code != code
      {
        if languages[i].code == code {
          return Some(i);
        }
        i := i + 1;
      }
      return None;
    }

    /**
     * `addAuthors(properties)`: every author or last-author property whose
     * trimmed text is new and not empty is appended, in document order.
     */
    method AddAuthors(properties: seq<Property>)
      modifies dictionary
      ensures dictionary.authors == AuthorsAfter(old(dictionary.authors), properties)
      ensures dictionary.languages == old(dictionary.languages)
    {
      var authors := dictionary.authors;
      var c := 0;
      while c < |properties|
        invariant 0 <= c <= |properties|
        invariant authors == AuthorsAfter(old(dictionary.authors), properties[..c])
        invariant dictionary.languages == old(dictionary.languages)
      {
        assert properties[..c + 1][..c] == properties[..c];
        var p := properties[c];
        if IsAuthorProperty(p) {
          var text := Trim(p.text);
          var known := IsAuthor(authors, text);
          if !known && text != "" {
            authors := authors + [text];
          }
        }
        c := c + 1;
      }
      assert properties[..c] == properties;
      dictionary.authors := authors;
    }

    /** `configureCell(lang, cell, item, fieldData, fontData)` on the parts modelled. */
    method ConfigureCell(lang: string, cell: Cell, item: Item, field: FieldSpec) returns (r: Item)
      ensures r == Configured(item, lang, cell, field)
    {
      r := item.(title := field.name, size := Sized(item.size, field.width));
      ghost var start := r;
      var c := 0;
      while c < |cell.children|
        invariant 0 <= c <= |cell.children|
        invariant r == ApplyChildren(start, lang, cell.children[..c])
      {
        assert cell.children[..c + 1][..c] == cell.children[..c];
        r := ApplyChild(r, lang, cell.children[c]);
        c := c + 1;
      }
      assert cell.children[..c] == cell.children;
    }

    /** The reversal loop of `addWords`: the reverse word goes into each language with the cell's code. */
    method MirrorReversal(languages: seq<Language>, lang: string, reverse: Graph, key: string) returns (r: seq<Language>)
      ensures r == Mirror(languages, lang, reverse, key)
    {
      r := [];
      var t := 0;
      while t < |languages|
        invariant 0 <= t <= |languages|
        invariant r == Mirror(languages[..t], lang, reverse, key)
      {
        assert languages[..t + 1][..t] == languages[..t];
        var language := languages[t];
        if language.code == lang && key != "" {
          language := MergeWord(language, reverse);
        }
        r := r + [language];
        t := t + 1;
      }
      assert languages[..t] == languages;
    }

    /**
     * `addWords(rows, columnFields, columnFonts)`: the data rows from row 1,
     * each cell routed by its column's field, each completed row's word merged
     * into the default language. The languages are left as they stand when it
     * stops, whichever way it stops.
     */
    method AddWords(rows: seq<seq<Cell>>, fields: seq<FieldSpec>) returns (halt: Halt)
      requires |fields| > 0
      modifies dictionary
      ensures Outcome(halt, dictionary.languages) == Words(Sheet(fields, fields[0].languageKey, env), rows, old(dictionary.languages))
      ensures dictionary.authors == old(dictionary.authors)
    {
      var sheet := Sheet(fields, fields[0].languageKey, env);
      var languages := dictionary.languages;
      var target := FindLanguage(languages, sheet.defaultKey);
      var gloss := false;
      var r := 1;
      while r < |rows|
        invariant |languages| == |old(dictionary.languages)|
        invariant target.Some? ==> target.value < |languages|
        invariant RowsFrom(sheet, rows, r, gloss, languages, target) == Words(sheet, rows, old(dictionary.languages))
        decreases |rows| - r
      {
        var cells := rows[r];
        var st := StartRow(gloss, languages);
        var c := 0;
        while c < |cells|
          invariant Rows.Valid(st) && |st.languages| == |languages|
          invariant RowFrom(sheet, st, cells, r, c) == RowFrom(sheet, StartRow(gloss, languages), cells, r, 0)
          decreases |cells| - c
        {
          var f := CellStep(sheet, st, cells[c], r, c);
          if f.Halted? {
            dictionary.languages := f.languages;
            return f.halt;
          }
          st, c := f.state, f.column;
        }
        if target.None? || st.word.None? {
          dictionary.languages := st.languages;
          return Crashed(NullReference);
        }
        languages := st.languages[target.value := MergeWord(st.languages[target.value], Graph(st.store, st.word.value))];
        gloss := st.gloss;
        r := r + 1;
      }
      dictionary.languages := languages;
      return Finished;
    }

    /**
     * What the column pass of `table` leaves, from the table font's width
     * `tableWidth` and the style fonts' widths `start` before it: every style
     * font, and the table font, is as wide as `WidthAfter` says; the header
     * loop sees the table font and, for each column index filed, the font of
     * the last column naming it: the style's own, or a copy of the table font
     * made then, widened to that column's candidate.
     */
    ghost predicate PassLeft(table: Table, tableWidth: nat, start: map<FontData, nat>, view: FontView)
      requires Valid()
      reads this, styles.Values, TableFont(table)
    {
      var visits := Visits(table.columns, table.defaultWidth);
      var font := TableFont(table);
      && view.table == FontValue(font.face, font.width)
      && font.width == WidthAfter(font, tableWidth, visits, styles)
      && (forall f :: f in styles.Values ==> f in start && f.width == WidthAfter(f, start[f], visits, styles))
      && view.columns.Keys == LastVisit(visits).Keys
      && (forall k :: k in view.columns ==>
            var j := LastVisit(visits)[k];
            && 0 <= j < |visits|
            && (visits[j].styleId in styles ==>
                  view.columns[k] == FontValue(styles[visits[j].styleId].face, styles[visits[j].styleId].width))
            && (visits[j].styleId !in styles ==>
                  && view.columns[k].face == font.face
                  && view.columns[k].width == Widen(WidthAfter(font, tableWidth, visits[..j], styles), visits[j].candidate)))
    }

    /** The widths of the fonts a column pass leaves, as the header loop reads them. */
    method ColumnPass(table: Table) returns (view: FontView)
      requires Valid()
      modifies styles.Values
      ensures view.inline == defaultFont.width
      ensures PassLeft(table, old(TableFont(table).width), old(StyleWidths()), view)
    {
      var tableFont := TableFont(table);
      var specs := ProcessColumnCells(tableFont, table.defaultWidth, table.columns);
      view := FontView(defaultFont.width, map k | k in specs :: FontValue(specs[k].face, specs[k].width), FontValue(tableFont.face, tableFont.width));
      PassViewFacts(styles, tableFont, old(tableFont.width), old(StyleWidths()), Visits(table.columns, table.defaultWidth), specs, Snapshot(tableFont, specs));
    }

    /**
     * `processWorksheet(sheetNo, sheetNode)`: the early checks, the column pass,
     * the header row, the languages, then the data rows. `view` is what the
     * header loop reads of the fonts once the column pass is over.
     */
    method ProcessWorksheet(sheetNo: nat, sheet: Worksheet) returns (r: Report, view: FontView)
      requires Valid()
      modifies styles.Values, dictionary
      ensures (r, dictionary.languages) == WorksheetResult(sheetNo, sheet, view, old(dictionary.languages), env)
      ensures dictionary.authors == old(dictionary.authors)
      ensures view.inline == defaultFont.width
      ensures sheet.table.Some? && !NoCount(sheet.table.value.rowCount) && !NoCount(sheet.table.value.columnCount) ==>
        PassLeft(sheet.table.value, old(TableFont(sheet.table.value).width), old(StyleWidths()), view)
      ensures !(sheet.table.Some? && !NoCount(sheet.table.value.rowCount) && !NoCount(sheet.table.value.columnCount)) ==>
        StyleWidths() == old(StyleWidths())
    {
      view := FontView(defaultFont.width, map[], FontValue(defaultFont.face, defaultFont.width));
      if sheet.table.None? {
        return Message(SheetError(sheetNo, "No dictionary data is present ")), view;
      }
      var table := sheet.table.value;
      if NoCount(table.rowCount) {
        return Message(SheetError(sheetNo, "No row data")), view;
      }
      if NoCount(table.columnCount) {
        return Message(SheetError(sheetNo, "No column data")), view;
      }
      view := ColumnPass(table);
      r := ProcessRows(sheetNo, table.rows, view);
    }

    /** The rest of `processWorksheet` once the column pass is over: `SheetTail`. */
    method ProcessRows(sheetNo: nat, rows: seq<seq<Cell>>, view: FontView) returns (r: Report)
      modifies dictionary
      ensures (r, dictionary.languages) == SheetTail(sheetNo, rows, view, old(dictionary.languages), env)
      ensures dictionary.authors == old(dictionary.authors)
    {
      if |rows| == 0 {
        return Aborted(NullReference);
      }
      if |rows[0]| == 0 {
        return Message(SheetError(sheetNo, "There are no fields specified"));
      }
      var header := CheckHeader(Checker(WidthsOf(view)), rows[0]);
      if header.Err? {
        return Message(SheetError(sheetNo, HeaderMessage(header.error)));
      }
      if header.Abort? {
        return Aborted(header.fault);
      }
      var fields := header.value;
      HeaderAccepted(rows[0], WidthsOf(view));
      var ok := AddLanguages(Candidates(rows[0], fields, view));
      if !ok {
        return Message(SheetError(sheetNo, "The dictionary has no languages specified"));
      }
      var halt := AddWords(rows, fields);
      return RowsOutcome(sheetNo, halt);
    }

    /**
     * `convert()`: the authors first, then the worksheets in order until one
     * does not succeed. `views` holds what the header loop of each processed
     * worksheet read of the fonts.
     */
    method Convert(properties: Option<seq<Property>>, sheets: seq<Worksheet>) returns (r: Report, ghost views: seq<FontView>)
      requires Valid()
      modifies styles.Values, dictionary
      ensures dictionary.authors ==
        if properties.Some? then AuthorsAfter(old(dictionary.authors), properties.value) else old(dictionary.authors)
      ensures |sheets| == 0 ==>
        r == Message("There are no worksheets in this dictionary") && dictionary.languages == old(dictionary.languages)
      ensures |sheets| > 0 ==>
        && |views| <= |sheets|
        && (r.Success? ==> |views| == |sheets|)
        && (r, dictionary.languages) == SheetsFrom(Runner(env), sheets, views, 0, old(dictionary.languages))
    {
      views := [];
      if properties.Some? {
        AddAuthors(properties.value);
      }
      if |sheets| == 0 {
        return Message("There are no worksheets in this dictionary"), views;
      }
      ghost var start := dictionary.languages;
      var w := 0;
      while w < |sheets|
        invariant 0 <= w <= |sheets| && |views| == w
        invariant Valid()
        invariant dictionary.authors == if properties.Some? then AuthorsAfter(old(dictionary.authors), properties.value) else old(dictionary.authors)
        invariant (Success, dictionary.languages) == SheetsFrom(Runner(env), sheets, views, 0, start)
      {
        ghost var before := dictionary.languages;
        var result, view := ProcessWorksheet(w, sheets[w]);
        assert Runner(env)(w, sheets[w], view, before) == WorksheetResult(w, sheets[w], view, before, env);
        SheetsFromExtend(Runner(env), sheets, views, view, 0, start);
        views := views + [view];
        if !result.Success? {
          return result, views;
        }
        w := w + 1;
      }
      return Success, views;
    }
  }
}
