/**
 * The two deduplicating registries: the dictionary's languages
 * (`addLanguages`, `findLanguage`) and its authors (`addAuthors`, `isAuthor`).
 */
module Registry {
  import opened Wrappers
  import opened Text
  import opened Workbook
  import opened Entities

  // ---------------------------------------------------------------------------
  // Languages

  /** One column's candidate: its language code and the font made for it. */
  datatype Candidate = Candidate(code: string, font: LanguageFont)

  /** The language a candidate would add: `new Language(languageCode, font)`. */
  function NewLanguage(c: Candidate): Language {
    Language(c.code, c.font, [])
  }

  /** Some language already listed compares equal to `l`. */
  predicate Listed(same: (Language, Language) -> bool, languages: seq<Language>, l: Language) {
    exists k :: 0 <= k < |languages| && same(languages[k], l)
  }

  /**
   * One column of `addLanguages`: a column without a code is skipped; a
   * language is appended unless some listed language compares equal to it.
   */
  function AddCandidate(same: (Language, Language) -> bool, languages: seq<Language>, c: Candidate): seq<Language>
  {
    if c.code == "" then languages
    else if Listed(same, languages, NewLanguage(c)) then languages
    else languages + [NewLanguage(c)]
  }

  /** The language list after `addLanguages` has gone over the candidates in column order. */
  function LanguagesAfter(same: (Language, Language) -> bool, languages: seq<Language>, cs: seq<Candidate>): seq<Language>
  {
    if |cs| == 0 then languages
    else AddCandidate(same, LanguagesAfter(same, languages, cs[..|cs| - 1]), cs[|cs| - 1])
  }

  /**
   * The languages already in the dictionary stay first and in order, and each
   * language added comes from a column with a non-empty code.
   */
  lemma {:induction false} LanguagesAfterKeepsExisting(same: (Language, Language) -> bool, languages: seq<Language>, cs: seq<Candidate>)
    ensures var r := LanguagesAfter(same, languages, cs);
      |languages| <= |r| && r[..|languages|] == languages
    ensures var r := LanguagesAfter(same, languages, cs);
      forall k :: |languages| <= k < |r| ==>
        exists i :: 0 <= i < |cs| && cs[i].code != "" && r[k] == NewLanguage(cs[i])
  {
    if |cs| > 0 {
      var prefix := cs[..|cs| - 1];
      LanguagesAfterKeepsExisting(same, languages, prefix);
      var before := LanguagesAfter(same, languages, prefix);
      var r := LanguagesAfter(same, languages, cs);
      assert r[..|before|] == before;
      assert r[..|languages|] == before[..|languages|];
      forall k | |languages| <= k < |r|
        ensures exists i :: 0 <= i < |cs| && cs[i].code != "" && r[k] == NewLanguage(cs[i])
      {
        if k < |before| {
          assert r[k] == before[k];
          var i :| 0 <= i < |prefix| && prefix[i].code != "" && before[k] == NewLanguage(prefix[i]);
          assert cs[i] == prefix[i];
        } else {
          assert r[k] == NewLanguage(cs[|cs| - 1]);
        }
      }
      assert forall k :: |languages| <= k < |r| ==>
        exists i :: 0 <= i < |cs| && cs[i].code != "" && r[k] == NewLanguage(cs[i]);
    }
  }

  /**
   * Every column with a code is accounted for: either its language was
   * appended, or some language in the list compares equal to it.
   */
  lemma {:induction false} LanguagesAfterCovers(same: (Language, Language) -> bool, languages: seq<Language>, cs: seq<Candidate>)
    ensures var r := LanguagesAfter(same, languages, cs);
      forall i :: 0 <= i < |cs| && cs[i].code != "" ==>
        NewLanguage(cs[i]) in r || Listed(same, r, NewLanguage(cs[i]))
  {
    if |cs| > 0 {
      var prefix := cs[..|cs| - 1];
      LanguagesAfterCovers(same, languages, prefix);
      LanguagesAfterKeepsExisting(same, LanguagesAfter(same, languages, prefix), [cs[|cs| - 1]]);
      var before := LanguagesAfter(same, languages, prefix);
      var r := LanguagesAfter(same, languages, cs);
      assert r[..|before|] == before;
      forall i | 0 <= i < |cs| && cs[i].code != ""
        ensures NewLanguage(cs[i]) in r || Listed(same, r, NewLanguage(cs[i]))
      {
        if i < |prefix| {
          assert cs[i] == prefix[i];
          if NewLanguage(cs[i]) in before {
            var k :| 0 <= k < |before| && before[k] == NewLanguage(cs[i]);
            assert r[k] == before[k];
          } else {
            var k :| 0 <= k < |before| && same(before[k], NewLanguage(cs[i]));
            assert r[k] == before[k];
          }
        }
      }
    }
  }

  /**
   * `addLanguages` fails exactly when the list is empty at the end, which is
   * exactly when the dictionary had no language and no column has a code.
   */
  lemma {:induction false} LanguagesAfterEmptyIff(same: (Language, Language) -> bool, languages: seq<Language>, cs: seq<Candidate>)
    ensures |LanguagesAfter(same, languages, cs)| == 0 <==>
      |languages| == 0 && forall i :: 0 <= i < |cs| ==> cs[i].code == ""
  {
    LanguagesAfterKeepsExisting(same, languages, cs);
    LanguagesAfterCovers(same, languages, cs);
    var r := LanguagesAfter(same, languages, cs);
    if |languages| == 0 && |r| > 0 {
      var i :| 0 <= i < |cs| && cs[i].code != "" && r[0] == NewLanguage(cs[i]);
    }
  }

  /** The position of the first language whose code is `code`: `findLanguage`. */
  function LanguageIndex(languages: seq<Language>, code: string): (r: Option<nat>)
    ensures r.Some? ==> (r.value < |languages| && languages[r.value].code == code &&
      forall k :: 0 <= k < r.value ==> languages[k].code != code)
    ensures r.None? ==> forall k :: 0 <= k < |languages| ==> languages[k].code != code
  {
    if |languages| == 0 then None
    else if languages[0].code == code then Some(0)
    else match LanguageIndex(languages[1..], code)
      case Some(k) => Some(k + 1)
      case None => None
  }

  // ---------------------------------------------------------------------------
  // Authors

  /** `nodeName.toLowerCase()` is "author" or "lastauthor". */
  predicate IsAuthorProperty(p: Property) {
    AsciiLower(p.name) == "author" || AsciiLower(p.name) == "lastauthor"
  }

  /**
   * One property of `addAuthors`: an author or last-author element adds its
   * trimmed text as a new author unless that name is listed already or empty.
   */
  function AddAuthor(authors: seq<string>, p: Property): seq<string>
  {
    if !IsAuthorProperty(p) then authors
    else
      var name := Trim(p.text);
      if name in authors then authors
      else if name == "" then authors
      else authors + [name]
  }

  /** The author list after `addAuthors` has gone over the properties in order. */
  function AuthorsAfter(authors: seq<string>, ps: seq<Property>): seq<string>
  {
    if |ps| == 0 then authors
    else AddAuthor(AuthorsAfter(authors, ps[..|ps| - 1]), ps[|ps| - 1])
  }

  predicate Distinct(names: seq<string>) {
    forall i, j :: 0 <= i < j < |names| ==> names[i] != names[j]
  }

  /** The authors already present stay first and in order. */
  lemma {:induction false} AuthorsAfterKeepsExisting(authors: seq<string>, ps: seq<Property>)
    ensures var r := AuthorsAfter(authors, ps);
      |authors| <= |r| && r[..|authors|] == authors
  {
    if |ps| > 0 {
      var prefix := ps[..|ps| - 1];
      AuthorsAfterKeepsExisting(authors, prefix);
      var before := AuthorsAfter(authors, prefix);
      var r := AuthorsAfter(authors, ps);
      assert r[..|before|] == before;
      assert r[..|authors|] == before[..|authors|];
    }
  }

  /**
   * Each author added is the non-empty trimmed text of an author property and
   * was not listed before.
   */
  lemma {:induction false} AuthorsAfterAdded(authors: seq<string>, ps: seq<Property>)
    ensures var r := AuthorsAfter(authors, ps);
      forall k :: |authors| <= k < |r| ==> (r[k] != "" && r[k] !in authors &&
        exists i :: 0 <= i < |ps| && IsAuthorProperty(ps[i]) && r[k] == Trim(ps[i].text))
  {
    if |ps| > 0 {
      var prefix := ps[..|ps| - 1];
      AuthorsAfterAdded(authors, prefix);
      AuthorsAfterKeepsExisting(authors, prefix);
      var before := AuthorsAfter(authors, prefix);
      var r := AuthorsAfter(authors, ps);
      assert r[..|before|] == before;
      forall k | |authors| <= k < |r|
        ensures r[k] != "" && r[k] !in authors &&
          exists i :: 0 <= i < |ps| && IsAuthorProperty(ps[i]) && r[k] == Trim(ps[i].text)
      {
        if k < |before| {
          assert r[k] == before[k];
          var i :| 0 <= i < |prefix| && IsAuthorProperty(prefix[i]) && before[k] == Trim(prefix[i].text);
          assert ps[i] == prefix[i];
        } else {
          assert r[k] == Trim(ps[|ps| - 1].text);
        }
      }
    }
  }

  /** No name is added twice: a list without repeats stays without repeats. */
  lemma {:induction false} AuthorsAfterDistinct(authors: seq<string>, ps: seq<Property>)
    requires Distinct(authors)
    ensures Distinct(AuthorsAfter(authors, ps))
  {
    if |ps| > 0 {
      var prefix := ps[..|ps| - 1];
      AuthorsAfterDistinct(authors, prefix);
    }
  }

  /**
   * Every non-empty trimmed name of an author property ends up in the list
   * (added once, or found already there).
   */
  lemma {:induction false} AuthorsAfterComplete(authors: seq<string>, ps: seq<Property>)
    ensures forall i :: 0 <= i < |ps| && IsAuthorProperty(ps[i]) && Trim(ps[i].text) != "" ==>
      Trim(ps[i].text) in AuthorsAfter(authors, ps)
  {
    if |ps| > 0 {
      var prefix := ps[..|ps| - 1];
      AuthorsAfterComplete(authors, prefix);
      AuthorsAfterKeepsExisting(AuthorsAfter(authors, prefix), [ps[|ps| - 1]]);
      var before := AuthorsAfter(authors, prefix);
      var r := AuthorsAfter(authors, ps);
      assert r[..|before|] == before;
      forall i | 0 <= i < |ps| && IsAuthorProperty(ps[i]) && Trim(ps[i].text) != ""
        ensures Trim(ps[i].text) in r
      {
        if i < |prefix| {
          assert ps[i] == prefix[i];
          var k :| 0 <= k < |before| && before[k] == Trim(ps[i].text);
          assert r[k] == before[k];
        }
      }
    }
  }
}
