/**
 * The static letter table `alphabet_data`: letter -> language -> entry,
 * both levels kept in declaration order. It is built once and never written.
 */
module Alphabet {
  import opened Wrappers
  import opened OrderedDict

  /**
   * One letter in one language. `lettre` and `prononciationStandard` are in
   * every entry of the table; an entry carries either an example word or a
   * description.
   */
  datatype Entry = Entry(
    lettre: string,
    prononciationStandard: string,
    motExemple: Option<string>,
    description: Option<string>)

  type Table = Dict<string, Dict<string, Entry>>

  /** An entry with an example word. */
  function WithExample(lettre: string, prononciation: string, mot: string): Entry
  {
    Entry(lettre, prononciation, Some(mot), None)
  }

  /** An entry with a description. */
  function WithDescription(lettre: string, prononciation: string, description: string): Entry
  {
    Entry(lettre, prononciation, None, Some(description))
  }

  const LettersA: Dict<string, Entry> := Dict([
    ("fr", WithExample("A", "ah", "Arbre")),
    ("en", WithExample("A", "ay as in car", "Apple")),
    ("es", WithExample("A", "ah", "Agua")),
    ("jp", WithDescription("ア", "a", "Lettre 'a' en Katakana")),
    ("kr", WithDescription("아", "a", "Voyelle 'a' en Hangeul")),
    ("ar", WithDescription("ا", "Alif", "Alif, voyelle longue 'a'")),
    ("ru", WithDescription("А", "a", "Lettre A en Cyrillique"))
  ])

  const LettersB: Dict<string, Entry> := Dict([
    ("fr", WithExample("B", "bé", "Bateau")),
    ("en", WithExample("B", "bee", "Ball")),
    ("es", WithExample("B", "beh", "Burro")),
    ("jp", WithDescription("ビ", "bi", "Particule 'bi' en Katakana")),
    ("kr", WithDescription("ㅂ", "b", "Consonne 'b' en Hangeul")),
    ("ar", WithDescription("ب", "ba", "Ba, deuxième lettre de l'alphabet arabe")),
    ("ru", WithDescription("Б", "be", "Lettre B en Cyrillique"))
  ])

  /** `alphabet_data`. */
  const AlphabetData: Table := Dict([("a", LettersA), ("b", LettersB)])

  /** The languages of each letter, in declaration order. */
  const TableLanguages: seq<string> := ["fr", "en", "es", "jp", "kr", "ar", "ru"]

  /** No key repeats at either level of the table, so every lookup has one answer. */
  ghost predicate WellFormed(t: Table)
  {
    && UniqueKeys(t)
    && forall i :: 0 <= i < |t.items| ==> UniqueKeys(t.items[i].1)
  }

  /** The seven language keys are pairwise different. */
  lemma TableLanguagesDistinct()
    ensures forall i, j :: 0 <= i < j < |TableLanguages| ==> TableLanguages[i] != TableLanguages[j]
  {
    var firsts := seq(|TableLanguages|, k requires 0 <= k < |TableLanguages| => TableLanguages[k][0]);
    assert firsts == ['f', 'e', 'e', 'j', 'k', 'a', 'r'];
    assert TableLanguages[1][1] != TableLanguages[2][1];
  }

  /** Each letter of the table has the seven languages in declaration order, with no language twice. */
  lemma LettersShape()
    ensures Keys(LettersA) == TableLanguages && UniqueKeys(LettersA)
    ensures Keys(LettersB) == TableLanguages && UniqueKeys(LettersB)
  {
    TableLanguagesDistinct();
    assert Keys(LettersA) == TableLanguages;
    assert Keys(LettersB) == TableLanguages;
  }

  /** The table holds the letters "a" and "b", each in the seven languages fr, en, es, jp, kr, ar, ru in that order. */
  lemma AlphabetDataShape()
    ensures WellFormed(AlphabetData)
    ensures Keys(AlphabetData) == ["a", "b"]
    ensures forall i :: 0 <= i < |AlphabetData.items| ==> Keys(AlphabetData.items[i].1) == TableLanguages
  {
    LettersShape();
    assert Keys(AlphabetData) == ["a", "b"];
  }
}
