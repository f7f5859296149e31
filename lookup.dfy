/**
 * `get_lettre_info`: the read-only query behind `GET /lettre/<lettre>` and
 * `GET /lettre/<lettre>/<langue>`.
 */
module Lookup {
  import opened Wrappers
  import opened Text
  import opened OrderedDict
  import opened Alphabet

  /** A successful answer: one entry, or every entry of the letter. */
  datatype LetterInfo = OneLanguage(entry: Entry) | AllLanguages(entries: seq<Entry>)

  /** The two 404 answers; both carry the lower-cased keys. */
  datatype NotFound = LetterNotFound(lettre: string) | LanguageNotFound(langue: string, lettre: string)

  /** The `message` of the 404 body. */
  function Message(e: NotFound): string
  {
    match e
    case LetterNotFound(l) => "Lettre '" + l + "' non trouvée."
    case LanguageNotFound(g, l) => "Langue '" + g + "' non disponible pour la lettre '" + l + "'."
  }

  /** Whether the optional path segment `langue` is truthy in Python: present and non-empty. */
  predicate LanguageGiven(langue: Option<string>)
  {
    langue.Some? && langue.value != ""
  }

  /**
   * The handler: lower-case the letter and fail if it is not in the table;
   * otherwise, when a language is given, lower-case it and return its entry or
   * fail; when none is given, return all the letter's entries in table order.
   */
  function GetLettreInfo(data: Table, lettre: string, langue: Option<string>): (r: Result<LetterInfo, NotFound>)
    ensures r.Failure? && r.error.LetterNotFound? <==> Lower(lettre) !in Keys(data)
    ensures r.Failure? ==> r.error.lettre == Lower(lettre)
    ensures r.Success? && r.value.OneLanguage? <==> r.Success? && LanguageGiven(langue)
  {
    var l := Lower(lettre);
    match Get(data, l)
    case None => Failure(LetterNotFound(l))
    case Some(langs) =>
      if LanguageGiven(langue) then
        var g := Lower(langue.value);
        match Get(langs, g)
        case Some(e) => Success(OneLanguage(e))
        case None => Failure(LanguageNotFound(g, l))
      else
        Success(AllLanguages(Values(langs)))
  }

  /**
   * The 404 message names the lower-cased letter when the letter is unknown,
   * and otherwise the lower-cased language and letter.
   */
  lemma NotFoundMessages(data: Table, lettre: string, langue: Option<string>)
    ensures var r := GetLettreInfo(data, lettre, langue);
      r.Failure? && Lower(lettre) !in Keys(data) ==>
        Message(r.error) == "Lettre '" + Lower(lettre) + "' non trouvée."
    ensures var r := GetLettreInfo(data, lettre, langue);
      r.Failure? && Lower(lettre) in Keys(data) ==>
        && LanguageGiven(langue)
        && Message(r.error) == "Langue '" + Lower(langue.value) + "' non disponible pour la lettre '" + Lower(lettre) + "'."
  {
  }

  /** An unknown letter gives the letter error whatever the language argument is. */
  lemma UnknownLetter(data: Table, lettre: string, langue: Option<string>)
    requires Lower(lettre) !in Keys(data)
    ensures GetLettreInfo(data, lettre, langue) == Failure(LetterNotFound(Lower(lettre)))
  {
  }

  /**
   * Letter errors take precedence: the language error is given exactly when
   * the letter is known, a language is given and that language is not stored
   * for the letter.
   */
  lemma LanguageErrorOnlyForKnownLetter(data: Table, lettre: string, langue: Option<string>)
    ensures (GetLettreInfo(data, lettre, langue).Failure? && GetLettreInfo(data, lettre, langue).error.LanguageNotFound?)
        <==> (&& Get(data, Lower(lettre)).Some?
              && LanguageGiven(langue)
              && Lower(langue.value) !in Keys(Get(data, Lower(lettre)).value))
  {
  }

  /**
   * For a stored (letter, language) pair, any spelling of the two arguments
   * whose lower case is the stored key returns exactly the stored entry.
   */
  lemma StoredEntry(data: Table, i: nat, j: nat, lettre: string, langue: string)
    requires WellFormed(data)
    requires i < |data.items| && j < |data.items[i].1.items|
    requires Lower(lettre) == data.items[i].0
    requires Lower(langue) == data.items[i].1.items[j].0
    requires langue != ""
    ensures GetLettreInfo(data, lettre, Some(langue)) == Success(OneLanguage(data.items[i].1.items[j].1))
  {
    GetAt(data, i);
    GetAt(data.items[i].1, j);
  }

  /**
   * For a known letter, a given language that is not stored (after lower-casing)
   * gives the language error naming the lower-cased language and letter.
   */
  lemma UnknownLanguage(data: Table, lettre: string, langue: string)
    requires Lower(lettre) in Keys(data)
    requires langue != ""
    requires Lower(langue) !in Keys(Get(data, Lower(lettre)).value)
    ensures GetLettreInfo(data, lettre, Some(langue)) == Failure(LanguageNotFound(Lower(langue), Lower(lettre)))
  {
  }

  /**
   * Without a language (or with an empty one) the answer for the letter stored
   * at position `i` is its entries, one per stored language, in table order.
   */
  lemma {:induction false} AllEntriesInOrder(data: Table, i: nat, lettre: string, langue: Option<string>)
    requires UniqueKeys(data)
    requires i < |data.items|
    requires Lower(lettre) == data.items[i].0
    requires !LanguageGiven(langue)
    ensures GetLettreInfo(data, lettre, langue).Success?
    ensures GetLettreInfo(data, lettre, langue).value.AllLanguages?
    ensures var es := GetLettreInfo(data, lettre, langue).value.entries;
      && |es| == |data.items[i].1.items|
      && forall k :: 0 <= k < |es| ==> es[k] == data.items[i].1.items[k].1
  {
    GetAt(data, i);
  }

  /** Both arguments are case-insensitive: arguments with the same lower case get the same answer. */
  lemma CaseInsensitive(data: Table, l1: string, l2: string, g1: string, g2: string)
    requires Lower(l1) == Lower(l2) && Lower(g1) == Lower(g2)
    ensures GetLettreInfo(data, l1, Some(g1)) == GetLettreInfo(data, l2, Some(g2))
    ensures GetLettreInfo(data, l1, None) == GetLettreInfo(data, l2, None)
  {
  }

  /** `GET /lettre/A`: the seven entries of "a" in the order fr, en, es, jp, kr, ar, ru. */
  lemma AllLanguagesOfA()
    ensures GetLettreInfo(AlphabetData, "A", None) == Success(AllLanguages(Values(LettersA)))
    ensures |Values(LettersA)| == 7
    ensures Keys(LettersA) == ["fr", "en", "es", "jp", "kr", "ar", "ru"]
  {
    LettersShape();
    assert Lower("A") == "a";
  }

  /** `GET /lettre/b`: the seven entries of "b" in the order fr, en, es, jp, kr, ar, ru. */
  lemma AllLanguagesOfB()
    ensures GetLettreInfo(AlphabetData, "b", None) == Success(AllLanguages(Values(LettersB)))
    ensures |Values(LettersB)| == 7
    ensures Keys(LettersB) == ["fr", "en", "es", "jp", "kr", "ar", "ru"]
  {
    LettersShape();
    assert Lower("b") == "b";
    assert Get(AlphabetData, "b") == Some(LettersB);
  }

  /** `GET /lettre/B/JP` returns the Katakana entry of "b". */
  lemma ExampleStoredEntry()
    ensures GetLettreInfo(AlphabetData, "B", Some("JP")) == Success(OneLanguage(WithDescription("ビ", "bi", "Particule 'bi' en Katakana")))
  {
    AlphabetDataShape();
    assert Lower("B") == "b";
    assert Lower("JP") == "jp";
    StoredEntry(AlphabetData, 1, 3, "B", "JP");
  }

  /** `GET /lettre/c/fr` gives the letter error although "fr" is a stored language. */
  lemma ExampleUnknownLetter()
    ensures GetLettreInfo(AlphabetData, "c", Some("fr")) == Failure(LetterNotFound("c"))
  {
    AlphabetDataShape();
    assert Lower("c") == "c";
  }

  /** `GET /lettre/A/DE` gives the language error for "de" and "a". */
  lemma ExampleUnknownLanguage()
    ensures GetLettreInfo(AlphabetData, "A", Some("DE")) == Failure(LanguageNotFound("de", "a"))
  {
    LettersShape();
    assert Lower("A") == "a";
    assert Lower("DE") == "de";
    assert Get(AlphabetData, "a") == Some(LettersA);
    assert "de" !in TableLanguages;
  }
}
