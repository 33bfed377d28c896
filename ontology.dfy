/**
 * Ontology cells (`makeOntologyField`): the cell text is decoded into a
 * (parent, child, value) triple according to one of six shapes.
 */
module OntologyFields {
  import opened Wrappers
  import opened Text

  /**
   * The six `ONTOLOGY_*` codes of the dictionary's constants (distinct
   * integers there), one per ontology column field.
   */
  datatype OntologyKind =
    | OntologyData             // "Ontology":      the whole text is the value
    | OntologyValue            // "Ontology-C":    the whole text is the child
    | OntologyParentValue      // "Ontology-PC":   parent, child
    | OntologyParentSlashValue // "Ontology-P/C":  parent, child
    | OntologyValueData        // "Ontology-C/D":  child, value
    | OntologyParentValueData  // "Ontology-PC/D": parent, child, value

  /** The arguments of the `Ontology` item constructor. */
  datatype Ontology = Ontology(parent: string, child: string, abbrev: string, value: string, kind: OntologyKind)

  /** The shapes whose text must split into exactly two parts. */
  predicate IsPair(kind: OntologyKind) {
    kind == OntologyParentValue || kind == OntologyParentSlashValue
  }

  /**
   * `makeOntologyField(type, data)`: `Err` where the source returns null (wrong
   * number of comma-separated parts), `Abort` where it reads past the end of
   * the split array (the child/value shape with fewer than two parts).
   */
  function MakeOntologyField(kind: OntologyKind, data: string): (r: Status<Ontology, ()>)
    ensures var parts := Split(data, ',');
      && (r.Err? <==> (IsPair(kind) && |parts| != 2) || (kind == OntologyParentValueData && |parts| != 3))
      && (r.Abort? <==> kind == OntologyValueData && |parts| < 2)
      && (r.Abort? ==> r.fault == IndexOutOfBounds)
    ensures r.Ok? ==> r.value.abbrev == "" && r.value.kind == kind
  {
    var parts := Split(data, ',');
    match kind
    case OntologyData => Ok(Ontology("", "", "", data, kind))
    case OntologyValue => Ok(Ontology("", data, "", data, kind))
    case OntologyParentValue | OntologyParentSlashValue =>
      if |parts| != 2 then Err(())
      else Ok(Ontology(Trim(parts[0]), Trim(parts[1]), "", data, kind))
    case OntologyValueData =>
      if |parts| < 2 then Abort(IndexOutOfBounds)
      else Ok(Ontology("", Trim(parts[0]), "", Trim(parts[1]), kind))
    case OntologyParentValueData =>
      if |parts| != 3 then Err(())
      else Ok(Ontology(Trim(parts[0]), Trim(parts[1]), "", Trim(parts[2]), kind))
  }

  /** A string that `trim` leaves alone. */
  predicate IsTrimmedText(s: string) {
    s == [] || (!IsTrimmed(s[0]) && !IsTrimmed(s[|s| - 1]))
  }

  /**
   * The value defaults to the whole cell text for every shape that does not
   * carry a value part; in particular the child shape gives child = value = text,
   * and only the two pair shapes and the child shape set a child from the text.
   */
  lemma ValueDefaultsToText(kind: OntologyKind, data: string)
    requires MakeOntologyField(kind, data).Ok?
    ensures var o := MakeOntologyField(kind, data).value;
      && (kind != OntologyValueData && kind != OntologyParentValueData ==> o.value == data)
      && (kind == OntologyValue ==> o.child == data && o.value == data && o.parent == "")
      && (kind == OntologyData ==> o.parent == "" && o.child == "")
      && (kind == OntologyValueData ==> o.parent == "")
  {
  }

  /**
   * Every part the split shapes take from the text is trimmed and free of
   * commas, and it is the trimmed form of the corresponding split part.
   */
  lemma {:induction false} PartsAreTrimmed(kind: OntologyKind, data: string)
    requires MakeOntologyField(kind, data).Ok?
    requires kind != OntologyData && kind != OntologyValue
    ensures var o := MakeOntologyField(kind, data).value;
      var parts := Split(data, ',');
      && IsTrimmedText(o.child) && ',' !in o.child
      && IsTrimmedText(o.parent) && ',' !in o.parent
      && (kind == OntologyValueData || kind == OntologyParentValueData ==> IsTrimmedText(o.value) && ',' !in o.value)
      && (kind == OntologyParentValueData ==> o.parent == Trim(parts[0]) && o.child == Trim(parts[1]) && o.value == Trim(parts[2]))
      && (IsPair(kind) ==> o.parent == Trim(parts[0]) && o.child == Trim(parts[1]))
      && (kind == OntologyValueData ==> o.child == Trim(parts[0]) && o.value == Trim(parts[1]))
  {
    var parts := Split(data, ',');
    SplitSound(data, ',');
    forall i | 0 <= i < |parts|
      ensures IsTrimmedText(Trim(parts[i])) && ',' !in Trim(parts[i])
    {
      TrimmedHasNoNewSeparator(parts[i], ',');
    }
  }

  /** Trimming keeps a separator-free string separator-free. */
  lemma TrimmedHasNoNewSeparator(s: string, sep: char)
    requires sep !in s
    ensures sep !in Trim(s)
    ensures IsTrimmedText(Trim(s))
  {
    TrimShape(s);
  }
}
