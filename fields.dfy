/**
 * Column headers: the fixed table of dictionary fields and the header grammar
 * `Name[:code[/variant]][:languageName][:apply]` (`verifyField`).
 */
module Fields {
  import opened Wrappers
  import opened Text

  // Widget widths of the dictionary application's constants; their values
  // are not part of this model, and no proof depends on them.
  const DefinitionWidgetWidth: nat
  const ColumnWidgetWidth: nat
  const RowWidgetWidth: nat
  const ExampleWidgetWidth: nat

  /** A field's item type: translation ("t") or comment ("c"). */
  datatype FieldKind = Translation | Commentary

  /** One row of the `fields` table: name, nominal width, item type. */
  datatype FieldDef = FieldDef(name: string, width: nat, kind: FieldKind)

  /** The name of the field every worksheet's first column must carry. */
  const WordField: string := "Word"

  /** The recognised fields, in the order the source lists them. */
  const FieldTable: seq<FieldDef> := [
    FieldDef("Word", DefinitionWidgetWidth, Translation),

    FieldDef("Compare", ColumnWidgetWidth, Translation),
    FieldDef("Encyclopedia Info", ColumnWidgetWidth, Translation),
    FieldDef("Gloss", ColumnWidgetWidth, Translation),
    FieldDef("Lexical Function", ColumnWidgetWidth, Translation),
    FieldDef("References", ColumnWidgetWidth, Translation),
    FieldDef("Reversals", ColumnWidgetWidth, Translation),
    FieldDef("Restrictions", ColumnWidgetWidth, Translation),
    FieldDef("Usage", ColumnWidgetWidth, Translation),
    FieldDef("Variants", ColumnWidgetWidth, Translation),

    FieldDef("Definition", RowWidgetWidth, Translation),
    FieldDef("Example", ExampleWidgetWidth, Translation),

    FieldDef("Annotations", ColumnWidgetWidth, Commentary),
    FieldDef("Antonyms", ColumnWidgetWidth, Commentary),
    FieldDef("Categories", ColumnWidgetWidth, Commentary),
    FieldDef("Etymology", ColumnWidgetWidth, Commentary),
    FieldDef("Language Links", ColumnWidgetWidth, Commentary),
    FieldDef("Main Entry", ColumnWidgetWidth, Commentary),
    FieldDef("Morphemes", ColumnWidgetWidth, Commentary),
    FieldDef("Refer To", ColumnWidgetWidth, Commentary),
    FieldDef("Spelling", ColumnWidgetWidth, Commentary),
    FieldDef("Subentry", ColumnWidgetWidth, Commentary),
    FieldDef("Synonyms", ColumnWidgetWidth, Commentary),
    FieldDef("Table", ColumnWidgetWidth, Commentary),
    FieldDef("Thesaurus", ColumnWidgetWidth, Commentary),

    FieldDef("Row Comment", RowWidgetWidth, Commentary),
    FieldDef("Comment", ColumnWidgetWidth, Commentary),
    FieldDef("Ontology", ColumnWidgetWidth, Commentary),
    FieldDef("Ontology-C", ColumnWidgetWidth, Commentary),
    FieldDef("Ontology-PC", ColumnWidgetWidth, Commentary),
    FieldDef("Ontology-P/C", ColumnWidgetWidth, Commentary),
    FieldDef("Ontology-C/D", ColumnWidgetWidth, Commentary),
    FieldDef("Ontology-PC/D", ColumnWidgetWidth, Commentary)
  ]

  /**
   * A parsed column header (one `String[]` row of `columnFields`). The width
   * is the field's nominal width until the worksheet finalises it.
   */
  datatype FieldSpec = FieldSpec(
    name: string,
    languageCode: string,
    languageName: string,
    languageKey: string,
    width: nat,
    kind: FieldKind,
    apply: string)

  /** The first row of `table` at or after `f` whose name is `name`. */
  function FirstNamed(table: seq<FieldDef>, name: string, f: nat): (r: Option<nat>)
    decreases |table| - f
    ensures r.Some? ==> f <= r.value < |table|
  {
    if f >= |table| then None
    else if table[f].name == name then Some(f)
    else FirstNamed(table, name, f + 1)
  }

  /**
   * The row found from `f` on carries `name` and no row between `f` and it
   * does; when none is found no row from `f` on carries it.
   */
  lemma {:induction false} FirstNamedSound(table: seq<FieldDef>, name: string, f: nat)
    ensures var r := FirstNamed(table, name, f);
      && (r.Some? ==> table[r.value].name == name && forall j :: f <= j < r.value ==> table[j].name != name)
      && (r.None? ==> forall j :: f <= j < |table| ==> table[j].name != name)
    decreases |table| - f
  {
    if f < |table| && table[f].name != name {
      FirstNamedSound(table, name, f + 1);
    }
  }

  /** The first row of the field table named exactly `name` (case-sensitive), if any. */
  function FieldIndex(name: string): (r: Option<nat>)
    ensures r.Some? ==> r.value < |FieldTable|
  {
    FirstNamed(FieldTable, name, 0)
  }

  /** A row that matches and has no matching row before it is the one found. */
  lemma FirstMatchIsFound(table: seq<FieldDef>, name: string, f: nat)
    requires f < |table| && table[f].name == name
    requires forall j :: 0 <= j < f ==> table[j].name != name
    ensures FirstNamed(table, name, 0) == Some(f)
  {
    FirstNamedSound(table, name, 0);
  }

  /** When no row matches, nothing is found. */
  lemma NoMatchIsNotFound(table: seq<FieldDef>, name: string)
    requires forall j :: 0 <= j < |table| ==> table[j].name != name
    ensures FirstNamed(table, name, 0) == None
  {
    FirstNamedSound(table, name, 0);
  }

  /** The language code and language key a header's second segment yields. */
  datatype LanguagePart = LanguagePart(code: string, key: string)

  /** The variant after `/`, cut to its first two characters. */
  function Variant(s: string): (r: string)
    ensures |r| <= 2 && |r| <= |s| && r == s[..|r|]
    ensures |s| <= 2 ==> r == s
  {
    if |s| > 2 then s[..2] else s
  }

  /**
   * The second header segment `code[/variant...]`: split on `/`; no parts is
   * the exception the source swallows; a first part that is neither empty nor
   * three characters is illegal; the variant is truncated in place and the
   * parts joined again for the code, while the key is `code/variant`.
   */
  function ParseLanguage(segment: string): (r: Option<LanguagePart>)
  {
    var parts := Split(segment, '/');
    if |parts| == 0 then None
    else if |parts[0]| != 3 && |parts[0]| > 0 then None
    else if |parts| > 1 then
      var adjusted := parts[1 := Variant(parts[1])];
      Some(LanguagePart(Join(adjusted, '/'), parts[0] + "/" + adjusted[1]))
    else
      Some(LanguagePart(Join(parts, '/'), parts[0]))
  }

  /** `verifyField`: the parsed header, or None where the source returns null. */
  function ParseHeader(field: string): Option<FieldSpec>
  {
    var segments := Split(field, ':');
    if |segments| == 0 then None
    else
      var language := if |segments| >= 2 then ParseLanguage(segments[1]) else Some(LanguagePart("", ""));
      var languageName := if |segments| > 2 then Trim(segments[2]) else "";
      var apply := if |segments| > 3 then Trim(segments[3]) else "w";
      match (language, FieldIndex(segments[0]))
      case (Some(l), Some(f)) =>
        Some(FieldSpec(FieldTable[f].name, l.code, languageName, l.key,
                       FieldTable[f].width, FieldTable[f].kind, apply))
      case _ => None
  }

  /** The search loop of `verifyField` over the rows of `table`: the first one named `name`. */
  method FindField(table: seq<FieldDef>, name: string) returns (r: Option<nat>)
    ensures r == FirstNamed(table, name, 0)
  {
    var f := 0;
    while f < |table|
      invariant 0 <= f <= |table|
      invariant forall j :: 0 <= j < f ==> table[j].name != name
    {
      if table[f].name == name {
        FirstMatchIsFound(table, name, f);
        return Some(f);
      }
      f := f + 1;
    }
    NoMatchIsNotFound(table, name);
    return None;
  }

  /**
   * `verifyField` as the source runs it: the segments first, then the loop
   * over the field table.
   */
  method VerifyField(field: string) returns (r: Option<FieldSpec>)
    ensures r == ParseHeader(field)
  {
    var fieldElements := Split(field, ':');
    if |fieldElements| == 0 {
      return None;
    }
    var language := LanguagePart("", "");
    var languageName, apply := "", "w";
    if |fieldElements| >= 2 {
      var parsed := ParseLanguage(fieldElements[1]);
      if parsed.None? {
        return None;
      }
      language := parsed.value;
    }
    if |fieldElements| > 2 {
      languageName := Trim(fieldElements[2]);
    }
    if |fieldElements| > 3 {
      apply := Trim(fieldElements[3]);
    }
    var found := FindField(FieldTable, fieldElements[0]);
    if found.None? {
      return None;
    }
    var dictionaryField := FieldTable[found.value];
    r := Some(FieldSpec(dictionaryField.name, language.code, languageName, language.key,
                        dictionaryField.width, dictionaryField.kind, apply));
  }

  /**
   * A header is accepted exactly when its first segment is the name of a field
   * in the table and its language segment (if any) is legal; the accepted
   * header carries that field's name, nominal width and type.
   */
  lemma {:induction false} HeaderAcceptedIff(field: string)
    ensures ParseHeader(field).Some? <==>
      (var segments := Split(field, ':');
       |segments| > 0 &&
       (exists f :: 0 <= f < |FieldTable| && FieldTable[f].name == segments[0]) &&
       (|segments| >= 2 ==> ParseLanguage(segments[1]).Some?))
    ensures ParseHeader(field).Some? ==>
      (var spec := ParseHeader(field).value;
       exists f :: 0 <= f < |FieldTable| && FieldTable[f] == FieldDef(spec.name, spec.width, spec.kind)
                   && spec.name == Split(field, ':')[0])
  {
    var segments := Split(field, ':');
    if |segments| > 0 {
      var index := FieldIndex(segments[0]);
      FirstNamedSound(FieldTable, segments[0], 0);
      if index.Some? {
        assert FieldTable[index.value].name == segments[0];
      }
    }
  }

  /**
   * The language code must be empty or exactly three characters: a non-empty
   * code part of any other length makes the header illegal.
   */
  lemma HeaderRejectsBadCode(field: string)
    requires |Split(field, ':')| >= 2
    ensures var parts := Split(Split(field, ':')[1], '/');
      |parts| > 0 && |parts[0]| != 3 && |parts[0]| > 0 ==> ParseHeader(field).None?
    ensures ParseHeader(field).Some? ==>
      var parts := Split(Split(field, ':')[1], '/');
      |parts| > 0 && (parts[0] == [] || |parts[0]| == 3)
  {
  }

  /**
   * The key of an accepted header is the code part, followed by `/` and the
   * variant cut to two characters when there is a variant; with no second
   * segment code and key are both empty.
   */
  lemma HeaderLanguageKey(field: string)
    requires ParseHeader(field).Some?
    ensures var segments := Split(field, ':');
      var spec := ParseHeader(field).value;
      if |segments| < 2 then spec.languageCode == "" && spec.languageKey == ""
      else
        var parts := Split(segments[1], '/');
        |parts| > 0 &&
        spec.languageKey == (if |parts| > 1 then parts[0] + "/" + Variant(parts[1]) else parts[0]) &&
        spec.languageCode == Join(if |parts| > 1 then parts[1 := Variant(parts[1])] else parts, '/')
  {
  }

  /**
   * The language name is the trimmed third segment (empty without one), and the
   * apply target is the trimmed fourth segment, "w" without one.
   */
  lemma HeaderNameAndApply(field: string)
    requires ParseHeader(field).Some?
    ensures var segments := Split(field, ':');
      var spec := ParseHeader(field).value;
      spec.languageName == (if |segments| > 2 then Trim(segments[2]) else "") &&
      spec.apply == (if |segments| > 3 then Trim(segments[3]) else "w")
  {
  }
}
