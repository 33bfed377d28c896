# ExcelConversion in Dafny

This project models the conversion engine of the dictionary editor, the class
`ExcelConversion`. The engine reads a workbook exported as XML Spreadsheet 2003
and fills a dictionary with authors, languages and words. It works in five
steps:

1. **Fonts and styles.** The document's first `<Font>` replaces the default
   font. Every `<Style>` is filed under its id, with its own font or with the
   font of a parent declared earlier.
2. **Column pass.** For each worksheet, the `<Column>`s widen the width slot of
   the shared font records and file a font for each column index.
3. **Header row.** The first row is parsed cell by cell with the grammar
   `Name[:code[/variant]][:languageName][:apply]`. The first column must be
   the Word in the dictionary's default language. Each column's width becomes
   the largest of four widths.
4. **Languages.** The header's language codes are added to the dictionary,
   without duplicates.
5. **Data rows.** Each data row builds one Word. A row is a state machine over
   its cells: a current word, group, example and reference, plus a gloss flag
   that outlives the row. The Word is merged into the default language.
   Reversal cells also put a mirrored word into another language.

The modules follow those steps:

| Module | File | What it models |
|---|---|---|
| `Text` | `text.dfy` | The `java.lang.String` operations the engine relies on |
| `Widths` | `widths.dfy` | `isGreater` and `maxValue` |
| `Workbook` | `workbook.dfy` | The workbook's elements, as records |
| `Styles` | `styles.dfy` | The style table and the column pass, as functions |
| `Fields` | `fields.dfy` | The field table and `verifyField` |
| `OntologyFields` | `ontology.dfy` | `makeOntologyField` |
| `Header` | `header.dfy` | The header loop of `processWorksheet` |
| `Entities` | `entities.dfy` | The dictionary records |
| `Registry` | `registry.dfy` | Languages and authors |
| `Cells` | `cells.dfy` | `configureCell` |
| `Rows` and `RowRules` | `rows.dfy`, `rowrules.dfy` | `addWords` and its rules |
| `Sheets` | `worksheet.dfy` | `processWorksheet` and `convert`, as functions |
| `Conversion` | `conversion.dfy` | The class |

The class `Conversion.ExcelConversion` holds the converter's state: the
dictionary, the default font and the style map. Each loop of the Java class
is a method here, named after the Java method it sits in, or after the part
of it that it models (`ColumnStep`, `ColumnPass`, `ProcessRows`). Its
postcondition ties the result, or the new state, to the function that
specifies it.

Fonts are a class, `Styles.FontData`. The source shares one `String[]` font
array between the style table, the table font and the column specs, and
writes the width slot through whichever of them reaches it. The model keeps
that sharing. The items of one row live in a store of nodes, and a word's rows
and columns hold handles into it. That way an item can still be changed after
it has been attached, as the source does through object references.

Three behaviours of the code are worth knowing, and the model has them:

- Row errors reach the caller as `"Worksheet <n>: <message>"` (lines 332-336),
  because `processWorksheet` wraps what `addWords` returns.
- The header message "There is now field header for column" (line 263) is
  worded as the code words it.
- The header fields `Annotations` and `Morphemes` are accepted by
  `verifyField`, but no case of the row switch handles them. Any data row that
  reaches such a column fails with "Illegal field specifier" (lines 837-838).
- A header code with a sort order, such as `Word:eng/us/1` in the
  code/variant/sort-order form named at line 101, has the code "eng/us/1" but
  the key "eng/us" (lines 404-421). `findLanguage` (lines 522-532) compares
  each language's code with the key, so it never finds the default language.
  The first data row that completes then dereferences null at line 842. For
  the same reason, a Reversals column with a three-part code never reaches its
  language (line 701).

Two details of the cell loop of `addWords` (lines 622-644) are modelled as
written; the lemma `RowRules.JumpRule` states both:

- After a forward `ss:Index` jump, the one counter serves both as the node
  position and as the column, so the nodes in between are never read.
- The jump test compares the column against `fieldLen` (7), not against the
  number of header columns. A jump past column 7 therefore ends `addWords` at
  once, without an error and without merging the row's word. A jump to a
  column the header does not have is an array access out of bounds, modelled
  as the fault `IndexOutOfBounds`.

The pass of `processColumnCells` over the `<Column>`s has the same jump,
stated by `Styles.ColumnJumpSkips`.

Java exceptions the code does not catch are outcomes of the model, not
preconditions, except the few that "## Left out" names (the colour parse of
`configureCell`, an absent `ss:Size`, a workbook without `<Styles>`). A missing header row and a missing default language are null
dereferences. So is a row without a word, where `Language.mergeWord(null)`
is assumed to throw (see "## Left out"). A cell past the header is an index out
of bounds, and so is an ontology cell of a child/value shape with fewer than
two parts.

## Model

All source paths are in `src/org/wolf/conversion/ExcelConversion.java`.

| member | source | states |
|---|---|---|
| Text.Trim | src/org/wolf/conversion/ExcelConversion.java:426-428 | `trim` never lengthens a string |
| Text.TrimShape | src/org/wolf/conversion/ExcelConversion.java:426-428 | the trimmed string is the middle of the original between a prefix and a suffix of characters up to U+0020, and neither starts nor ends with such a character |
| Text.TrimIdempotent | src/org/wolf/conversion/ExcelConversion.java:892-906 | trimming an already trimmed part changes nothing |
| Text.Pieces | src/org/wolf/conversion/ExcelConversion.java:399 | a split before dropping trailing empties always has at least one piece |
| Text.PiecesSeparatorFree | src/org/wolf/conversion/ExcelConversion.java:399 | no piece of a split contains the separator |
| Text.JoinPieces | src/org/wolf/conversion/ExcelConversion.java:421 | `String.join` of the pieces gives back the original string, which is why re-joining the code parts keeps the code intact |
| Text.PiecesCount | src/org/wolf/conversion/ExcelConversion.java:399 | a string has one piece more than it has separators |
| Text.DropTrailingEmpty | src/org/wolf/conversion/ExcelConversion.java:399 | dropping the trailing empty strings never adds parts |
| Text.DropTrailingEmptySound | src/org/wolf/conversion/ExcelConversion.java:399 | what `split` keeps is a prefix that does not end in an empty string, and everything it drops is empty |
| Text.Split | src/org/wolf/conversion/ExcelConversion.java:399 | with no separator in the string, `split` returns the string itself as its only part, even when it is empty |
| Text.SplitSound | src/org/wolf/conversion/ExcelConversion.java:407 | no part of a split contains the separator, and the last part kept is not empty |
| Text.NoSeparatorOnePiece | src/org/wolf/conversion/ExcelConversion.java:407 | a string without the separator is its own only piece |
| Text.SplitIsPrefixOfPieces | src/org/wolf/conversion/ExcelConversion.java:875 | the parts `split` returns are, in order, the leading pieces of the string |
| Text.AsciiLower | src/org/wolf/conversion/ExcelConversion.java:475 | lower-casing keeps the length |
| Text.AsciiLowerSound | src/org/wolf/conversion/ExcelConversion.java:475 | each upper-case ASCII letter is lowered and every other character is kept |
| Text.NatToString | src/org/wolf/conversion/ExcelConversion.java:1110 | a rendered row, column or sheet number is never empty and has no leading zero |
| Text.NatToStringDigits | src/org/wolf/conversion/ExcelConversion.java:1110 | a rendered number consists of decimal digits only |
| Text.NatToStringRoundTrip | src/org/wolf/conversion/ExcelConversion.java:1110 | reading the digits back gives the number, so the messages name rows and sheets unambiguously |
| Widths.MaxValue | src/org/wolf/conversion/ExcelConversion.java:1075-1091 | the answer is one of the four arguments (an empty first read as "0") and is never empty, and its number is the largest of the four |
| Widths.MaxValueKeepsEarlierOnTies | src/org/wolf/conversion/ExcelConversion.java:1080-1090 | a later argument replaces the running maximum only when strictly greater, so on a tie the earlier argument wins |
| Widths.Widen | src/org/wolf/conversion/ExcelConversion.java:379-382 | the width slot becomes the larger of itself and the candidate |
| Widths.Candidate | src/org/wolf/conversion/ExcelConversion.java:373-377 | the column's width candidate is the table default or the column's own width, whichever is numerically greater |
| Styles.FontData.constructor | src/org/wolf/conversion/ExcelConversion.java:1034-1051 | a font record holds the face and width it is made with |
| Styles.StyleTable | src/org/wolf/conversion/ExcelConversion.java:164-192 | the table `processStyles` builds, from style id to the record it shares; `Styles.StyleTableSound`, `Styles.OwnFontStored`, `Styles.InheritedSharesParent` and `Styles.LaterParentNeverResolves` state its contents |
| Styles.StyleTableSound | src/org/wolf/conversion/ExcelConversion.java:164-192 | every style id filed is the non-empty id of some style, and every filed font comes from a style with its own `<Font>` |
| Styles.EmptyIdNeverStored | src/org/wolf/conversion/ExcelConversion.java:173-177 | a style with an empty id is never filed |
| Styles.OwnFontStored | src/org/wolf/conversion/ExcelConversion.java:180-182 | a style with its own font is filed under its id, with the font made from that style |
| Styles.InheritedSharesParent | src/org/wolf/conversion/ExcelConversion.java:183-189 | a style without a font whose parent is already filed gets the very record of its parent, one level only |
| Styles.LaterParentNeverResolves | src/org/wolf/conversion/ExcelConversion.java:185-189 | a style without a font whose parent no earlier style declares leaves the table as it was |
| Styles.Visits | src/org/wolf/conversion/ExcelConversion.java:353-366 | the column pass from the first `<Column>`; `Styles.VisitsFrom` and `Styles.ColumnJumpSkips` state which columns it visits |
| Styles.VisitsFrom | src/org/wolf/conversion/ExcelConversion.java:353-366 | the column pass makes at most one visit per remaining `<Column>` |
| Styles.ColumnJumpSkips | src/org/wolf/conversion/ExcelConversion.java:362-366 | a `<Column>` naming a later index makes the pass skip every element up to that index |
| Styles.WidthAfter | src/org/wolf/conversion/ExcelConversion.java:368-382 | the width a font record has after the pass; `Styles.WidthAfterIsMax` and `Styles.WidthAfterUnreached` state its value |
| Styles.WidthAfterIsMax | src/org/wolf/conversion/ExcelConversion.java:373-382 | the pass only ever widens; each font ends as wide as the widest of its old width and the candidates of the columns that reach it |
| Styles.WidthAfterUnreached | src/org/wolf/conversion/ExcelConversion.java:368-371 | a font that is not in the style table, such as the default font, keeps its width |
| Styles.LastVisit | src/org/wolf/conversion/ExcelConversion.java:384 | which visit last filed each column index; `Styles.LastVisitSound` states that it is the last one and that every visited index is filed |
| Styles.LastVisitSound | src/org/wolf/conversion/ExcelConversion.java:384 | each column index filed holds the font of the last visit naming it, and every visit's index is filed |
| Fields.FirstNamed | src/org/wolf/conversion/ExcelConversion.java:433-449 | the search of the field table finds a row at or after its start |
| Fields.FirstNamedSound | src/org/wolf/conversion/ExcelConversion.java:433-437 | the row found carries the name and no row before it does; when none is found, no row carries the name |
| Fields.FieldIndex | src/org/wolf/conversion/ExcelConversion.java:433-437 | the field found is a row of the 33-entry table |
| Fields.FirstMatchIsFound | src/org/wolf/conversion/ExcelConversion.java:437-447 | the first row that matches is the one found |
| Fields.NoMatchIsNotFound | src/org/wolf/conversion/ExcelConversion.java:450-452 | an unknown field name is not found, so `verifyField` returns null |
| Fields.Variant | src/org/wolf/conversion/ExcelConversion.java:415-418 | the variant is cut to its first two characters, and one of at most two is kept whole |
| Fields.FindField | src/org/wolf/conversion/ExcelConversion.java:433-449 | the search loop returns the first row named as asked, or none |
| Fields.ParseLanguage | src/org/wolf/conversion/ExcelConversion.java:404-421 | the code segment's parse: its properties are stated by `Fields.HeaderAcceptedIff`, `Fields.HeaderRejectsBadCode` and `Fields.HeaderLanguageKey` |
| Fields.ParseHeader | src/org/wolf/conversion/ExcelConversion.java:395-453 | the reference definition of `verifyField`; `Fields.VerifyField` computes it, and `Fields.HeaderAcceptedIff`, `Fields.HeaderLanguageKey` and `Fields.HeaderNameAndApply` state what it yields |
| Fields.VerifyField | src/org/wolf/conversion/ExcelConversion.java:395-453 | the method computes the header grammar's parse, null exactly where the source returns null |
| Fields.HeaderAcceptedIff | src/org/wolf/conversion/ExcelConversion.java:399-449 | a header is accepted exactly when its name is in the field table and its language segment is legal; the spec then has that field's name, nominal width and type |
| Fields.HeaderRejectsBadCode | src/org/wolf/conversion/ExcelConversion.java:405-411 | a language code that is neither empty nor three characters makes the header illegal, and an accepted code has length 0 or 3 |
| Fields.HeaderLanguageKey | src/org/wolf/conversion/ExcelConversion.java:405-422 | the language key is the code, then "/" and the two-character variant when there is one; with no second segment, code and key are empty |
| Fields.HeaderNameAndApply | src/org/wolf/conversion/ExcelConversion.java:425-428 | the language name is the trimmed third segment (empty without one), and the apply target is the trimmed fourth segment ("w" without one) |
| OntologyFields.MakeOntologyField | src/org/wolf/conversion/ExcelConversion.java:873-913 | the pair shapes fail (null) exactly when the text does not split into two parts; the child/value shape aborts exactly when it has fewer than two parts; a decoded tuple has the cell's kind and an empty abbreviation |
| OntologyFields.ValueDefaultsToText | src/org/wolf/conversion/ExcelConversion.java:876-886 | the value is the whole cell text for every shape without a value part, and only the pair and child shapes take a child from the text |
| OntologyFields.PartsAreTrimmed | src/org/wolf/conversion/ExcelConversion.java:889-906 | every part a split shape takes is the trimmed form of its split part, and contains no comma |
| OntologyFields.TrimmedHasNoNewSeparator | src/org/wolf/conversion/ExcelConversion.java:892-906 | trimming a comma-free part leaves it comma-free and trimmed |
| Header.ColumnsFrom | src/org/wolf/conversion/ExcelConversion.java:250-323 | the header column loop from a given column; `Header.ColumnsFromShape`, `Header.ColumnsFromColumns` and `Header.ColumnsFromAccepted` state its result |
| Header.HeaderFields | src/org/wolf/conversion/ExcelConversion.java:250-323 | the header row's column specs; `Header.HeaderAccepted` and `Header.HeaderRejected` state both outcomes |
| Header.HeaderColumn | src/org/wolf/conversion/ExcelConversion.java:250-323 | checking one column never throws; an accepted column has a legal header; an accepted first column is the Word with a non-empty code; an accepted later Word column has a code other than the default |
| Header.HeaderStep | src/org/wolf/conversion/ExcelConversion.java:250-323 | each column either ends the loop with the row's result or adds its spec and passes on the code it chose |
| Header.HeaderDone | src/org/wolf/conversion/ExcelConversion.java:325 | past the last column, the specs accepted are the row's |
| Header.ColumnsFromShape | src/org/wolf/conversion/ExcelConversion.java:250-323 | a loop whose checks never throw never throws, and an accepted row has one spec per cell |
| Header.ColumnsFromColumns | src/org/wolf/conversion/ExcelConversion.java:250-303 | past column 0, the loop accepts exactly when every column passes against the default, and otherwise reports the first failing column |
| Header.CheckerNeverAborts | src/org/wolf/conversion/ExcelConversion.java:250-323 | the header check of a worksheet never throws |
| Header.ColumnsFromAccepted | src/org/wolf/conversion/ExcelConversion.java:250-323 | in an accepted row, column 0's spec is its own check's, and each later column's is its check against column 0's code |
| Header.FirstColumnCode | src/org/wolf/conversion/ExcelConversion.java:277-289 | an accepted first column is the Word, and its code is the default code |
| Header.HeaderAccepted | src/org/wolf/conversion/ExcelConversion.java:250-323 | an accepted header row has one spec per cell; column 0 is the Word with the default code, and every later column is its own check against it |
| Header.HeaderRejected | src/org/wolf/conversion/ExcelConversion.java:250-303 | a rejected header row reports the error of its first failing column |
| Header.LaterColumnLanguage | src/org/wolf/conversion/ExcelConversion.java:291-303 | a later translation column without a code takes the default code, and any other column keeps its own; every column keeps its own key, name, type and apply target; a Word column never has the default code |
| Header.ColumnWidth | src/org/wolf/conversion/ExcelConversion.java:316-322 | a column's final width is the largest of its `ss:Width`, its field's nominal width, its font's width slot and the table font's |
| Header.FirstColumnRules | src/org/wolf/conversion/ExcelConversion.java:277-289 | a legal first header that is not the Word fails with "must be a Word"; a Word without a code fails with "no initial language" |
| Entities.MergeWord | src/org/wolf/conversion/ExcelConversion.java:842 | merging appends the word and keeps the language's code and font |
| Entities.Dictionary.constructor | src/org/wolf/conversion/ExcelConversion.java:112 | the dictionary holds the authors and languages it is given |
| Registry.LanguagesAfter | src/org/wolf/conversion/ExcelConversion.java:545-580 | the language list `addLanguages` builds; `Registry.LanguagesAfterKeepsExisting`, `Registry.LanguagesAfterCovers` and `Registry.LanguagesAfterEmptyIff` state what it holds |
| Registry.LanguagesAfterKeepsExisting | src/org/wolf/conversion/ExcelConversion.java:540-576 | the languages already in the dictionary stay first and in order, and each language added comes from a column with a non-empty code |
| Registry.LanguagesAfterCovers | src/org/wolf/conversion/ExcelConversion.java:560-575 | every column with a code ends up listed, either added or matched by an equal language |
| Registry.LanguagesAfterEmptyIff | src/org/wolf/conversion/ExcelConversion.java:578-579 | the list is empty afterwards exactly when the dictionary had no language and no column has a code |
| Registry.LanguageIndex | src/org/wolf/conversion/ExcelConversion.java:522-532 | the position found holds the first language with the code; none means no language has it |
| Registry.AuthorsAfter | src/org/wolf/conversion/ExcelConversion.java:459-497 | the author list `addAuthors` builds; `Registry.AuthorsAfterKeepsExisting`, `Registry.AuthorsAfterAdded`, `Registry.AuthorsAfterDistinct` and `Registry.AuthorsAfterComplete` state what it holds |
| Registry.AuthorsAfterKeepsExisting | src/org/wolf/conversion/ExcelConversion.java:459-497 | the authors already present stay first and in order |
| Registry.AuthorsAfterAdded | src/org/wolf/conversion/ExcelConversion.java:476-493 | each author added is the non-empty trimmed text of an author or last-author property, and was not listed before |
| Registry.AuthorsAfterDistinct | src/org/wolf/conversion/ExcelConversion.java:480-483 | no name is added twice: a list without repeats stays without repeats |
| Registry.AuthorsAfterComplete | src/org/wolf/conversion/ExcelConversion.java:467-495 | every non-empty trimmed author name is in the list afterwards |
| Cells.Sized | src/org/wolf/conversion/ExcelConversion.java:953-960 | the item's size takes the area height, and its width becomes the larger of the field's width and its own |
| Cells.ApplyChild | src/org/wolf/conversion/ExcelConversion.java:962-1021 | one child element of the cell; `Cells.ApplyChildIndigenous` states its effect on the indigenous data |
| Cells.Configured | src/org/wolf/conversion/ExcelConversion.java:923-1022 | the item `configureCell` leaves; `Cells.ConfiguredShape`, `Cells.ApplyChildrenIndigenous`, `Cells.ApplyChildrenComment` and `Cells.ApplyChildrenPhonetics` state what it holds |
| Cells.ApplyChildrenKeeps | src/org/wolf/conversion/ExcelConversion.java:962-1021 | the loop over the cell's children changes only the indigenous data, comment text and phonetics |
| Cells.ApplyChildrenIndigenous | src/org/wolf/conversion/ExcelConversion.java:973-1006 | the last `<Data>` child sets the indigenous data in the cell's language for groups, references and units; words, comments and ontologies keep theirs |
| Cells.ApplyChildIndigenous | src/org/wolf/conversion/ExcelConversion.java:973-1006 | one `<Data>` child sets the trimmed text in the cell's language exactly for the indigenous kinds |
| Cells.ApplyChildrenComment | src/org/wolf/conversion/ExcelConversion.java:978-982 | the last `<Data>` child sets a comment's text; other items keep theirs |
| Cells.ApplyChildrenPhonetics | src/org/wolf/conversion/ExcelConversion.java:1008-1019 | the last `<Phonetics>` child sets the phonetics of groups, words and comments |
| Cells.ConfiguredShape | src/org/wolf/conversion/ExcelConversion.java:923-960 | a configured item is titled by the field, sized to the area height and the larger width, and keeps its kind, name, gloss and ontology tuple |
| Rows.StartRow | src/org/wolf/conversion/ExcelConversion.java:603-612 | a row starts with nothing current and a valid state |
| Rows.Put | src/org/wolf/conversion/ExcelConversion.java:659-669 | replacing an item in the store changes that item only and keeps its handles |
| Rows.Attach | src/org/wolf/conversion/ExcelConversion.java:850-865 | `addRow`/`addColumn` append the handle to the target's rows or columns and change nothing else |
| Rows.AddNew | src/org/wolf/conversion/ExcelConversion.java:850-865 | a new leaf is attached to the word when the apply target is "w" (any case), else to the current group; with no such target the source dereferences null |
| Rows.Mirror | src/org/wolf/conversion/ExcelConversion.java:694-707 | the reversal loop keeps the number of languages |
| Rows.MirrorPointwise | src/org/wolf/conversion/ExcelConversion.java:694-707 | exactly the languages with the cell's code receive the reverse word, once, unless its key is empty; the others are unchanged |
| Rows.Reversed | src/org/wolf/conversion/ExcelConversion.java:691-708 | a reversal keeps the number of languages and never changes the default language |
| Rows.WordStep | src/org/wolf/conversion/ExcelConversion.java:659-669 | a Word cell keeps the state valid, keeps the word once made, and leaves the gloss flag and languages alone |
| Rows.ReferenceStep | src/org/wolf/conversion/ExcelConversion.java:671-709 | a reference-type cell keeps the state valid and the gloss flag; only a Reversals cell in another language changes the languages, and never the default one |
| Rows.ConfigureReference | src/org/wolf/conversion/ExcelConversion.java:673-686 | the reference worked on is new at the end of the store or the current one, titled by the field; nothing else in the store changes |
| Rows.DefinitionStep | src/org/wolf/conversion/ExcelConversion.java:711-734 | a Definition cell keeps the state valid and sets the gloss flag when in the default language, keeping it otherwise |
| Rows.ExampleStep | src/org/wolf/conversion/ExcelConversion.java:736-750 | an Example cell keeps the state valid and leaves the gloss flag and languages alone |
| Rows.CommentStep | src/org/wolf/conversion/ExcelConversion.java:752-781 | a comment-type cell keeps the state valid and leaves the gloss flag and languages alone |
| Rows.OntologyStep | src/org/wolf/conversion/ExcelConversion.java:783-835 | an ontology cell keeps the state valid and leaves the gloss flag and languages alone |
| Rows.FieldStep | src/org/wolf/conversion/ExcelConversion.java:646-839 | every field but Definition clears the gloss flag; only a Reversals cell outside the default language changes the languages; a step that stops hands back the languages it got |
| Rows.CellStep | src/org/wolf/conversion/ExcelConversion.java:622-644 | a cell that goes through moves the counter forward and keeps the default language unchanged |
| Rows.RowFrom | src/org/wolf/conversion/ExcelConversion.java:615-840 | a row keeps the state valid, the number of languages and its word once made |
| Rows.RowsFrom | src/org/wolf/conversion/ExcelConversion.java:603-843 | the data rows keep the number of languages |
| Rows.CategoryOf | src/org/wolf/conversion/ExcelConversion.java:657-839 | the case of the row switch a field name reaches; `RowRules.DefinitionCategory`, `RowRules.CommentCategories` and `RowRules.IllegalFieldsRule` state which names reach which case |
| Rows.Words | src/org/wolf/conversion/ExcelConversion.java:594-847 | what `addWords` returns and leaves in the languages; `Conversion.ExcelConversion.AddWords` computes it, and `RowRules.JumpRule`, `RowRules.RowsFromCompleted`, `RowRules.CompletedRowMerged` and `RowRules.DefaultLanguageGrowth` state how it proceeds |
| RowRules.DefinitionCategory | src/org/wolf/conversion/ExcelConversion.java:653-657 | "Definition" is the one field name that reaches the Definition case |
| RowRules.GlossFlagRule | src/org/wolf/conversion/ExcelConversion.java:653-734 | after a cell, the gloss flag is set by a default-language Definition, kept by any other Definition, and cleared by every other field |
| RowRules.DefinitionStepRule | src/org/wolf/conversion/ExcelConversion.java:711-734 | a Definition opens a new group as the word's last row exactly when the flag agrees with its being in the default language, or there is no group, or the group is the word; otherwise it adds data to the current group |
| RowRules.DefinitionRule | src/org/wolf/conversion/ExcelConversion.java:711-734 | a Definition cell in place is the Definition step, which never fails |
| RowRules.ReferenceStepRule | src/org/wolf/conversion/ExcelConversion.java:673-686 | a reference-type cell continues the current reference exactly when it is in another language and the titles match; either way the reference becomes current, titled by the field, and is appended to its target's columns |
| RowRules.ReferenceRule | src/org/wolf/conversion/ExcelConversion.java:671-686 | a reference-type cell in place is the reference step |
| RowRules.ExampleStepRule | src/org/wolf/conversion/ExcelConversion.java:736-750 | an Example makes a new Unit as its target's last row exactly when in the default language or with no example yet; otherwise it adds data to the current example |
| RowRules.ExampleRule | src/org/wolf/conversion/ExcelConversion.java:736-750 | an Example cell in place is the Example step |
| RowRules.CommentStepRule | src/org/wolf/conversion/ExcelConversion.java:752-781 | a comment-type cell always makes a new Comment attached to its target, as a row for Row Comment and as a column otherwise; Comment and Row Comment leave it untitled |
| RowRules.CommentRule | src/org/wolf/conversion/ExcelConversion.java:752-781 | a comment-type cell in place is the comment step with its field's placement and title |
| RowRules.CommentCategories | src/org/wolf/conversion/ExcelConversion.java:768-781 | of the comment-type fields, exactly Comment and Row Comment are untitled, and only Row Comment is a row |
| RowRules.OntologyStepRule | src/org/wolf/conversion/ExcelConversion.java:783-835 | undecodable ontology text is an "Illegal Ontology data" error naming the row and column; decodable text becomes a new Ontology item as a column of its target |
| RowRules.OntologyRule | src/org/wolf/conversion/ExcelConversion.java:783-835 | an ontology cell in place is the ontology step for its field's shape |
| RowRules.LanguagesRule | src/org/wolf/conversion/ExcelConversion.java:688-708 | only a Reversals cell in another language changes the languages; every other cell leaves them as they were |
| RowRules.CellStepAt | src/org/wolf/conversion/ExcelConversion.java:622-649 | a cell that goes through is the field step of the column it is read as |
| RowRules.ReversalStepRule | src/org/wolf/conversion/ExcelConversion.java:688-708 | a Reversals cell in another language puts its text, keyed back to the word, into each language with its code, unless the word's key is empty |
| RowRules.CellKeepsDefaultLanguage | src/org/wolf/conversion/ExcelConversion.java:692-708 | no cell changes a language whose code is the default key |
| RowRules.JumpRule | src/org/wolf/conversion/ExcelConversion.java:622-644 | an index before the counter is a duplicate; a jump from the first cell means no word; a jump past the header throws; a jump past `fieldLen` ends `addWords` with no error; any other jump reads that column |
| RowRules.IllegalFieldsRule | src/org/wolf/conversion/ExcelConversion.java:837-838 | of the field table's names, exactly Annotations and Morphemes reach the default branch of the row switch |
| RowRules.IllegalFieldFails | src/org/wolf/conversion/ExcelConversion.java:837-838 | a cell in place in such a column is an "Illegal field specifier" error naming the row and column |
| RowRules.RowHasWord | src/org/wolf/conversion/ExcelConversion.java:659-663 | when the header's first field is Word, a row that gets through its cells has a word, made by its first cell |
| RowRules.RowKeepsDefaultLanguage | src/org/wolf/conversion/ExcelConversion.java:692-708 | a row leaves the default language as it found it, or stops |
| RowRules.DefaultLanguageGrowth | src/org/wolf/conversion/ExcelConversion.java:603-843 | the default language keeps its words and gains at most one per row, each a well-formed item graph rooted at a Word |
| RowRules.CompletedRowMerged | src/org/wolf/conversion/ExcelConversion.java:603-843 | the word of a row that completes is the next word of the default language once the rows are done, right after the words it had |
| RowRules.RowsFromCompleted | src/org/wolf/conversion/ExcelConversion.java:842 | a row that completes with a word is merged into the default language, and the next row goes on from there |
| Sheets.Candidates | src/org/wolf/conversion/ExcelConversion.java:546-558 | there is one language candidate per header column, with that column's code |
| Sheets.SheetsFrom | src/org/wolf/conversion/ExcelConversion.java:153-160 | the worksheet loop of `convert`; `Sheets.SheetsFromExtend` states one more step of it, and `Conversion.ExcelConversion.Convert` computes it |
| Sheets.SheetsFromExtend | src/org/wolf/conversion/ExcelConversion.java:153-158 | after a run of successful worksheets, processing one more gives that worksheet's result, started from the languages the others left |
| Sheets.SheetError | src/org/wolf/conversion/ExcelConversion.java:1108-1111 | the worksheet's error message; `Sheets.NamedBy` states its form |
| Sheets.SheetTail | src/org/wolf/conversion/ExcelConversion.java:234-339 | the header, language and row stages of `processWorksheet`; `Conversion.ExcelConversion.ProcessRows` computes it, and `Sheets.SheetTailNamed` states that its messages name the worksheet |
| Sheets.WorksheetResult | src/org/wolf/conversion/ExcelConversion.java:195-339 | what `processWorksheet` returns; `Conversion.ExcelConversion.ProcessWorksheet` computes it, and `Sheets.WorksheetMessagesNamed` and `Sheets.WorksheetKeepsLanguages` state its properties |
| Sheets.NamedBy | src/org/wolf/conversion/ExcelConversion.java:1108-1111 | `error(sheet, msg)` names the worksheet |
| Sheets.SheetTailNamed | src/org/wolf/conversion/ExcelConversion.java:234-336 | every message of the header, language and row stages names the worksheet |
| Sheets.LanguagesStageNamed | src/org/wolf/conversion/ExcelConversion.java:326-336 | the language and row stages' messages name the worksheet |
| Sheets.WorksheetMessagesNamed | src/org/wolf/conversion/ExcelConversion.java:195-339 | every message a worksheet reports has the form "Worksheet n: ..." |
| Sheets.AcceptedHeaderHasLanguages | src/org/wolf/conversion/ExcelConversion.java:326-329 | after an accepted header, "The dictionary has no languages specified" cannot follow |
| Sheets.WorksheetKeepsLanguages | src/org/wolf/conversion/ExcelConversion.java:326-336 | a worksheet never drops a language |
| Conversion.TrackOwn | src/org/wolf/conversion/ExcelConversion.java:180-182 | filing a new font record keeps the style map in step with the style table |
| Conversion.TrackParent | src/org/wolf/conversion/ExcelConversion.java:185-189 | filing the parent's record under a new id keeps the style map in step with the style table |
| Conversion.TracksMatch | src/org/wolf/conversion/ExcelConversion.java:164-192 | a style map in step with the table, whose records are distinct and made from the styles' fonts, has the table's keys, faces and sharing |
| Conversion.LastVisitStep | src/org/wolf/conversion/ExcelConversion.java:384 | one more column files its index at its own position |
| Conversion.WidthAfterStep | src/org/wolf/conversion/ExcelConversion.java:379-382 | one more column widens exactly the font its style is filed with |
| Conversion.VisitsFromStep | src/org/wolf/conversion/ExcelConversion.java:353-366 | one column visit followed by the rest of the pass is the pass from that column |
| Conversion.StyleVisitStep | src/org/wolf/conversion/ExcelConversion.java:368-384 | a column whose style is filed files and widens the style's own record |
| Conversion.CopyVisitStep | src/org/wolf/conversion/ExcelConversion.java:369-384 | a column whose style is not filed files a fresh copy of the table font, widened from the table font's current width |
| Conversion.ExcelConversion.constructor | src/org/wolf/conversion/ExcelConversion.java:117-135 | the default font is the document's `<Font>` over the current one, at the initial width, and the style map matches the style table |
| Conversion.ExcelConversion.ProcessFont | src/org/wolf/conversion/ExcelConversion.java:1034-1051 | no `<Font>` gives null; otherwise a new record with the font's face and the default font's width |
| Conversion.ExcelConversion.ProcessStyles | src/org/wolf/conversion/ExcelConversion.java:164-192 | the style map has the style table's ids, each record has its style's face and the default width, and two ids share a record exactly when they resolve to the same style |
| Conversion.ExcelConversion.FontForStyle | src/org/wolf/conversion/ExcelConversion.java:1058-1065 | an empty id gives null, and otherwise the style's own record exactly when it is filed |
| Conversion.ExcelConversion.PassStarts | src/org/wolf/conversion/ExcelConversion.java:351 | before any column, nothing is filed and every font is at its starting width |
| Conversion.ExcelConversion.ProcessColumnCells | src/org/wolf/conversion/ExcelConversion.java:348-387 | afterwards each font is as wide as `WidthAfter` says over the visited columns; each index holds the font its last visit filed, a style's own record or a widened table-font copy |
| Conversion.ExcelConversion.ColumnStep | src/org/wolf/conversion/ExcelConversion.java:353-385 | one `<Column>` moves the counter forward and keeps the pass's state in step with the visits |
| Conversion.ExcelConversion.FileColumn | src/org/wolf/conversion/ExcelConversion.java:368-384 | filing one column keeps the pass's state in step with the visits |
| Conversion.ExcelConversion.FileStyleFont | src/org/wolf/conversion/ExcelConversion.java:369-382 | a filed style's own record is widened and filed |
| Conversion.ExcelConversion.FileTableCopy | src/org/wolf/conversion/ExcelConversion.java:370-382 | an unfiled style gets a fresh copy of the table font, widened to the candidate |
| Conversion.ExcelConversion.TableFont | src/org/wolf/conversion/ExcelConversion.java:208-213 | the table font is the table style's record when filed, else the default font |
| Conversion.ExcelConversion.CheckHeader | src/org/wolf/conversion/ExcelConversion.java:250-323 | the header loop computes the column loop's result from column 0 |
| Conversion.ExcelConversion.AddLanguages | src/org/wolf/conversion/ExcelConversion.java:540-585 | the method succeeds exactly when the list afterwards is not empty; the languages are then the registry's result, and the authors are untouched |
| Conversion.ExcelConversion.IsAuthor | src/org/wolf/conversion/ExcelConversion.java:505-514 | true exactly when the name is among the authors |
| Conversion.ExcelConversion.FindLanguage | src/org/wolf/conversion/ExcelConversion.java:522-532 | the search returns the first language with the code, or none |
| Conversion.ExcelConversion.AddAuthors | src/org/wolf/conversion/ExcelConversion.java:459-497 | the authors become the deduplicated list the properties give, and the languages are untouched |
| Conversion.ExcelConversion.ConfigureCell | src/org/wolf/conversion/ExcelConversion.java:923-1022 | the loop over the children computes the configured item |
| Conversion.ExcelConversion.MirrorReversal | src/org/wolf/conversion/ExcelConversion.java:694-707 | the reversal loop computes the mirrored languages |
| Conversion.ExcelConversion.AddWords | src/org/wolf/conversion/ExcelConversion.java:594-847 | how the rows stop and the languages they leave are those of the row model; the authors are untouched |
| Conversion.ExcelConversion.ProcessWorksheet | src/org/wolf/conversion/ExcelConversion.java:195-339 | the report and the languages are the worksheet model's for the fonts `view` the header loop reads; after a column pass, `PassLeft` holds: every style font and the table font is widened as `WidthAfter` says, and each column index filed is seen with the face and width of its last column's font (the style's own, or a widened copy of the table font); without a column pass, no font width changes |
| Conversion.ExcelConversion.ColumnPass | src/org/wolf/conversion/ExcelConversion.java:205-231 | the column pass leaves the fonts as `PassLeft` states, from their widths before it, and the inline font width is the default font's |
| Conversion.ExcelConversion.ProcessRows | src/org/wolf/conversion/ExcelConversion.java:234-339 | the header row, the languages and the data rows compute the worksheet model's tail |
| Conversion.ExcelConversion.Convert | src/org/wolf/conversion/ExcelConversion.java:137-161 | authors come from the document properties when present; no worksheets is its own message; otherwise the worksheets run in order and stop at the first that does not succeed |

## Left out

- Document traversal is not modelled. Element lookup, `getElementsByTagName` and the skipping of nodes that are not elements become records that already hold the attributes and children the engine reads.
- `java.awt.Font`, `Color` and `makeFont` are not modelled, and neither is colour parsing (lines 940-951). Fonts keep only their face and width slot. Leaving the colour parse out changes outcomes: see the `Conversion.ExcelConversion.ConfigureCell` line below.
- Numbers are parsed with `Integer.parseInt` and `Double.parseDouble`. The model reads every numeric attribute as a natural number; fractional, negative and malformed numbers are left out. So is an absent `ss:Size`: `processFont` puts "" in the size slot (line 1045), and `addLanguages` then throws in `Integer.parseInt` (line 549); the model gives every font a whole-number size.
- `Widths.MaxValue`: compares whole numbers only and does not model widths with a fractional part.
- `Text.NatToString`: renders non-negative numbers only; the row, column and sheet numbers it renders are never negative.
- `Text.AsciiLower`: lowers ASCII letters only; no other Unicode case mapping is modelled.
- `Fields.ParseLanguage`: measures the language code in Unicode scalar values, where Java's `length()` (line 410) counts UTF-16 code units; a three-character code from outside the Basic Multilingual Plane is accepted here and rejected by the source.
- `Fields.Variant`: cuts the variant to two Unicode scalar values, where Java's `substring(0, 2)` (lines 415-417) cuts two UTF-16 code units; for a variant such as "𝔞x" the source keeps "𝔞" and the model keeps both characters.
- `Conversion.ExcelConversion.ConfigureCell`: does not model the font and colour it gives the item, nor the crash of the colour parse. When the colour of the cell's style, or else of the column font, has seven characters, lines 945-947 read each pair with base-10 `Integer.parseInt`. So a colour with a hex letter, such as `ss:Color="#FF0000"` or `"#1F497D"`, throws an uncaught `NumberFormatException`. The model configures the item and goes on, so `Conversion.ExcelConversion.Convert` reports success on such a workbook where the source throws.
- `Cells.ApplyChild`: where a `<Data>` child goes (lines 973-1004) depends on the item class hierarchy, which is not part of this model. The code shows only that a Word is a Group (line 662). The model assumes that neither Word nor Group is a Comment, Reference or Unit, so the `<Data>` child of a Word cell is ignored. `Cells.ApplyChildrenIndigenous` holds under that assumption only.
- `setActiveLanguages` (line 583) is not modelled: `DictionaryData` is not part of this model, so what it does is unknown here.
- The static `defaultFont` is shared between conversions. The model passes the current default into the constructor as `current`.
- A workbook without a `<Styles>` element leaves the style table null, and the column pass then throws. The model's constructor always takes a list of style definitions, so this crash is not modelled.
- The classes the engine calls but does not define are parameters of the model, in `Entities.Collaborators`. They are `Language.compareTo`, `Word.getKey`, the size a new item starts with, and the `Constants` values (widget widths and heights). Those values are declared without a definition.
- `Author.isClear` (line 487) is modelled as the trimmed name being empty, and `setIndigenousData` as an update of the item's map from language key to text.
- `Language.mergeWord` (lines 704 and 842) is modelled as appending the word to the language.
- `Registry.NewLanguage`: `new Language(languageCode, font)` (line 558) is assumed to keep the code, so that `getLanguageCode()` (lines 526 and 700) returns exactly the code it was made with. The other fixed readings of classes that are not part of this model are these:
  - `DictionaryData.getLanguages()` (lines 542 and 597) hands out the live `Language` objects. So `Conversion.ExcelConversion.AddWords` writes the merged languages back on every stop, although `setLanguages` (line 845) is reached only at the end.
  - `addRow` and `addColumn` (lines 721 and 853-864) append.
  - `getTitle` (lines 681 and 999) returns what the last `setTitle` (lines 771, 779 and 930) stored.
- `Rows.RowsFrom`: a data row without a `<Cell>` leaves the word null, and `Language.mergeWord(null)` at line 842 is assumed to throw, giving `Crashed(NullReference)`; what `mergeWord` does with null is decided in `Language`, which is not part of this model.
- `Conversion.ExcelConversion.Convert`: returns the fonts each worksheet's header reads as a ghost output, and states the result over them rather than over the document's fonts.
- `Conversion.ExcelConversion.CheckHeader`: takes the per-column check as a parameter; `Header.Checker` is the check the worksheet uses.
- The break at lines 252-253 (`c >= columnFields.length`) cannot fire, because the array has one entry per header cell.
