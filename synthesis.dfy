/**
 * The pure prefix of `generate_audio`: normalising the text to speak and
 * checking the language code against the synthesis allow-list.
 */
module Synthesis {
  import opened Wrappers
  import opened Text

  /**
   * `text.replace('_', ' ').replace('/', '')`: the result holds neither an
   * underscore nor a slash and is shorter than the text by exactly its slashes.
   */
  function CleanText(text: string): (r: string)
    ensures '_' !in r && '/' !in r
    ensures |r| == |text| - Count(text, '/')
  {
    ReplaceKeepsCount(text, '_', " ", '/');
    Replace(Replace(text, '_', " "), '/', "")
  }

  /** What normalisation makes of one character on its own. */
  function CleanChar(c: char): string
  {
    if c == '_' then " " else if c == '/' then "" else [c]
  }

  /** Normalisation works character by character: it maps each character by CleanChar and keeps their order. */
  lemma CleanTextPerCharacter(a: string, b: string, c: char)
    ensures CleanText(a + b) == CleanText(a) + CleanText(b)
    ensures CleanText([c]) == CleanChar(c)
  {
    ReplaceAppend(a, b, '_', " ");
    ReplaceAppend(Replace(a, '_', " "), Replace(b, '_', " "), '/', "");
  }

  /** Normalising twice is normalising once. */
  lemma CleanTextIdempotent(text: string)
    ensures CleanText(CleanText(text)) == CleanText(text)
  {
    var t := CleanText(text);
    ReplaceAbsent(t, '_', " ");
    ReplaceAbsent(t, '/', "");
  }

  /** The two substitutions commute: deleting the slashes first gives the same text. */
  lemma {:induction false} SubstitutionsCommute(text: string)
    ensures Replace(Replace(text, '/', ""), '_', " ") == CleanText(text)
  {
    if text != [] {
      var c, rest := text[0], text[1..];
      assert text == [c] + rest;
      ReplaceAppend([c], rest, '/', "");
      ReplaceAppend(Replace([c], '/', ""), Replace(rest, '/', ""), '_', " ");
      CleanTextPerCharacter([c], rest, c);
      SubstitutionsCommute(rest);
    }
  }

  /** An independent reading of the normalisation: one pass over the text, character by character. */
  function CleanTextSpec(text: string): string
  {
    if text == [] then [] else CleanChar(text[0]) + CleanTextSpec(text[1..])
  }

  /** The chained replacements agree with the one-pass reading on every text. */
  lemma {:induction false} CleanTextMatchesSpec(text: string)
    ensures CleanText(text) == CleanTextSpec(text)
  {
    if text != [] {
      assert text == [text[0]] + text[1..];
      CleanTextPerCharacter([text[0]], text[1..], text[0]);
      CleanTextMatchesSpec(text[1..]);
    }
  }

  /** A text without separators is spoken as it is. */
  lemma CleanTextPlain(a: string)
    requires '_' !in a && '/' !in a
    ensures CleanText(a) == a
  {
    ReplaceAbsent(a, '_', " ");
    ReplaceAbsent(a, '/', "");
  }

  /** An underscore between two texts becomes a space between their normalisations. */
  lemma CleanTextJoinUnderscore(x: string, y: string)
    ensures CleanText(x + "_" + y) == CleanText(x) + " " + CleanText(y)
  {
    CleanTextPerCharacter(x + "_", y, '_');
    CleanTextPerCharacter(x, "_", '_');
  }

  /** A slash between two texts disappears. */
  lemma CleanTextJoinSlash(x: string, y: string)
    ensures CleanText(x + "/" + y) == CleanText(x) + CleanText(y)
  {
    CleanTextPerCharacter(x + "/", y, '/');
    CleanTextPerCharacter(x, "/", '/');
  }

  /** A text "a_b/c" whose three segments hold no separator is spoken as "a b" followed directly by "c". */
  lemma CleanTextSegments(a: string, b: string, c: string)
    requires '_' !in a + b + c && '/' !in a + b + c
    ensures CleanText(a + "_" + b + "/" + c) == a + " " + b + c
  {
    assert CleanText(a + "_" + b) == a + " " + b by {
      CleanTextJoinUnderscore(a, b);
      CleanTextPlain(a);
      CleanTextPlain(b);
    }
    assert CleanText(a + "_" + b + "/" + c) == a + " " + b + c by {
      CleanTextJoinSlash(a + "_" + b, c);
      CleanTextPlain(c);
    }
  }

  /** The path segment "bon_jour/ami" is spoken as "bon jourami": the slash is dropped, not turned into a space. */
  lemma CleanTextExample()
    ensures CleanText("bon_jour/ami") == "bon jourami"
  {
    assert "bon_jour/ami" == "bon" + "_" + "jour" + "/" + "ami";
    CleanTextSegments("bon", "jour", "ami");
    assert "bon" + " " + "jour" + "ami" == "bon jourami";
  }

  /** `supported_languages`, in the order written. */
  const SupportedLanguages: seq<string> := ["fr", "en", "es", "ja", "ko", "ar", "ru", "zh-CN", "de", "it", "pt"]

  /** The codes that a lower-cased argument can actually match: the allow-list without "zh-CN". */
  const ReachableLanguages: seq<string> := ["fr", "en", "es", "ja", "ko", "ar", "ru", "de", "it", "pt"]

  /** The 400 answer for an unsupported code, carrying the lower-cased code. */
  datatype UnsupportedLanguage = UnsupportedLanguage(code: string)

  /** The `message` of the 400 body. */
  function UnsupportedMessage(e: UnsupportedLanguage): string
  {
    "Code de langue '" + e.code + "' non supporté pour la synthèse vocale."
  }

  /** `lang_code.lower()` followed by the allow-list test; success carries the lower-cased code. */
  function ValidateLanguage(langCode: string): (r: Result<string, UnsupportedLanguage>)
    ensures r.Success? <==> Lower(langCode) in SupportedLanguages
    ensures r.Success? ==> r.value == Lower(langCode)
    ensures r.Failure? ==> r.error.code == Lower(langCode)
  {
    var code := Lower(langCode);
    if code in SupportedLanguages then Success(code) else Failure(UnsupportedLanguage(code))
  }

  /** A rejected code is answered with a message naming its lower case. */
  lemma RejectionMessage(langCode: string)
    requires ValidateLanguage(langCode).Failure?
    ensures UnsupportedMessage(ValidateLanguage(langCode).error)
      == "Code de langue '" + Lower(langCode) + "' non supporté pour la synthèse vocale."
  {
  }

  /** "zh-CN" is on the list but can never be accepted: a lower-cased code has no capital letters. */
  lemma ZhCnNeverAccepted(langCode: string)
    ensures ValidateLanguage(langCode) != Success("zh-CN")
  {
    if |langCode| == 5 {
      assert !IsUpper(Lower(langCode)[3]);
    }
  }

  /** A code is accepted exactly when its lower case is one of the ten reachable codes. */
  lemma AcceptedIff(langCode: string)
    ensures ValidateLanguage(langCode).Success? <==> Lower(langCode) in ReachableLanguages
  {
    ZhCnNeverAccepted(langCode);
  }

  /** Upper-case spellings of supported codes are accepted; "zh-CN" itself and "xx" are rejected. */
  lemma ValidateExamples()
    ensures ValidateLanguage("FR") == Success("fr")
    ensures ValidateLanguage("zh-CN") == Failure(UnsupportedLanguage("zh-cn"))
    ensures ValidateLanguage("xx") == Failure(UnsupportedLanguage("xx"))
  {
    assert Lower("FR") == "fr";
    assert Lower("zh-CN") == "zh-cn";
    assert Lower("xx") == "xx";
    assert "zh-cn" != "zh-CN" by { assert "zh-cn"[3] != "zh-CN"[3]; }
  }
}
