# Letter lookup and speech synthesis gateway, modelled in Dafny

The system is a small Flask service with two endpoints.

- `GET /lettre/<lettre>[/<langue>]` is handled by `get_lettre_info`, which answers from a static nested table `alphabet_data`, which maps letter to language to entry. Both arguments are lower-cased. An unknown letter aborts with 404, and that check comes first. A given language returns its one entry, or aborts with 404 when the letter does not have it. With no language, the handler returns every entry of the letter in the order the table was written.
- `GET /generate_audio/<lang_code>/<text>` first normalises the text: every `_` becomes a space and every `/` is deleted. It then lower-cases the language code and checks it against an eleven-code allow-list, answering 400 on a miss. On a hit it creates a temporary file and has the gTTS provider save MP3 audio into it. It sends the file inline as `audio/mpeg` and registers a close hook that removes the file. Any exception becomes a 500.

Modules, one per part of the handler file:

- `Wrappers`: `Option` and `Result`.
- `Text`: Python's `str.lower()` and `str.replace` with a one-character pattern, and `count`.
- `OrderedDict`: a Python dict as key-value pairs in insertion order, with membership, subscription and `values()`.
- `Alphabet`: the entry datatype and the table `alphabet_data`, written out.
- `Lookup`: `get_lettre_info`, a pure function returning `Result<LetterInfo, NotFound>`.
- `Synthesis`: the pure prefix of `generate_audio`, which normalises the text and validates the language.
- `Gateway`: the side-effecting tail of `generate_audio`, as a class `AudioServer`. Its fields are the temporary files on disk (`disk`), the counter that stands for unique temp-file names (`nextName`) and the list of provider calls made (`providerCalls`). The provider is a function parameter returning `Saved(mp3)` or `Raised(bytesWritten)`. Whether the temporary file can be created is a boolean parameter.

Points where the code behaves differently from what a reader might expect:

- The normalisation deletes `/` rather than turning it into a space, so "bon_jour/ami" is spoken as "bon jourami" (`Synthesis.CleanTextExample`).
- If the provider raises after the temporary file exists, the `except` branch (app.py:126-128) returns 500 without removing the file. `Gateway.AudioServer.GenerateAudio` and `Gateway.AudioServer.Serve` state exactly that: one file is left behind on that path, holding what was written.
- "zh-CN" is on the allow-list, but the code is compared after lower-casing, so it can never match. `Synthesis.ZhCnNeverAccepted` and `Synthesis.AcceptedIff` prove this, and `Synthesis.ValidateExamples` shows "zh-CN" itself rejected as "zh-cn".
- The letter table stores Japanese and Korean under "jp" and "kr". The synthesis allow-list uses "ja" and "ko". The two tables are independent, and the model keeps both as written.

## Model

| member | source | states |
|---|---|---|
| Text.Lower | app.py:75 | the lower case keeps the length, lowers every character in place and contains no capital letter |
| Text.LowerIdempotent | app.py:82 | lower-casing twice is lower-casing once |
| Text.LowerFixedIff | app.py:106 | a string is its own lower case exactly when it has no capital letter |
| Text.Replace | app.py:105 | replacing a character removes it unless the replacement contains it; a one-character replacement keeps the length; an empty replacement shortens by the number of occurrences |
| OrderedDict.Get | app.py:77-84 | a dict answers a key exactly when the key is in its key list, and the answer is a value stored beside that key |
| OrderedDict.GetAt | app.py:83-84 | with unique keys, subscripting by the key at position i gives the value at position i |
| OrderedDict.GetIff | app.py:83-84 | with unique keys, a key maps to v exactly when the pair is stored |
| OrderedDict.Values | app.py:91 | `list(d.values())` has one value per pair, in insertion order |
| Alphabet.LettersA | app.py:15-23 | the entries of "a", transcribed in declaration order |
| Alphabet.LettersB | app.py:24-32 | the entries of "b", transcribed in declaration order |
| Alphabet.AlphabetData | app.py:14-34 | `alphabet_data`: "a" then "b" |
| Alphabet.LettersShape | app.py:15-31 | each letter's languages are fr, en, es, jp, kr, ar, ru in that order, none twice |
| Alphabet.AlphabetDataShape | app.py:14-34 | the table holds the letters "a" and "b" with unique keys at both levels, each with those seven languages |
| Lookup.GetLettreInfo | app.py:64-91 | the letter error is given exactly when the lower-cased letter is absent; every error names the lower-cased letter; a single entry is returned exactly when a non-empty language is given |
| Lookup.Message | app.py:79 | the 404 messages, "Lettre '…' non trouvée." and "Langue '…' non disponible pour la lettre '…'." |
| Lookup.NotFoundMessages | app.py:77-86 | every error of the handler carries the message naming the lower-cased letter, or the lower-cased language and letter when the letter is known |
| Lookup.UnknownLetter | app.py:75-79 | an absent letter gives the letter error whatever the language argument is |
| Lookup.LanguageErrorOnlyForKnownLetter | app.py:77-86 | the language error is given exactly when the letter is found, a non-empty language is given, and its lower case is not stored for the letter |
| Lookup.StoredEntry | app.py:81-84 | for a stored pair, any spelling of letter and language with those lower cases returns exactly the stored entry |
| Lookup.UnknownLanguage | app.py:85-86 | a known letter with an unstored language gives the language error naming the lower-cased language and letter |
| Lookup.AllEntriesInOrder | app.py:87-91 | with no language or an empty one, the answer is the letter's entries, one per stored language, in table order |
| Lookup.CaseInsensitive | app.py:75-82 | arguments with the same lower case get the same answer |
| Lookup.AllLanguagesOfA | app.py:15-23 | `get_lettre_info("A")` returns the seven entries of "a", ordered fr, en, es, jp, kr, ar, ru |
| Lookup.AllLanguagesOfB | app.py:24-32 | `get_lettre_info("b")` returns the seven entries of "b" in the same language order |
| Lookup.ExampleStoredEntry | app.py:28 | `get_lettre_info("B", "JP")` returns the Katakana entry of "b" |
| Lookup.ExampleUnknownLetter | app.py:77-79 | `get_lettre_info("c", "fr")` aborts with the letter error for "c" |
| Lookup.ExampleUnknownLanguage | app.py:83-86 | `get_lettre_info("A", "DE")` aborts with the language error for "de" and "a" |
| Synthesis.CleanText | app.py:105 | the normalised text contains neither `_` nor `/` and is shorter than the input by exactly the number of `/` |
| Synthesis.CleanTextPerCharacter | app.py:105 | normalisation distributes over concatenation and maps one character by CleanChar, so the other characters keep their order |
| Synthesis.CleanTextIdempotent | app.py:105 | normalising twice is normalising once |
| Synthesis.SubstitutionsCommute | app.py:105 | deleting the slashes before replacing the underscores gives the same text |
| Synthesis.CleanTextMatchesSpec | app.py:105 | the chained replacements equal a one-pass character-by-character definition |
| Synthesis.CleanTextPlain | app.py:105 | a text without `_` and `/` is left unchanged |
| Synthesis.CleanTextJoinUnderscore | app.py:105 | an `_` between two texts becomes a space between their normalisations |
| Synthesis.CleanTextJoinSlash | app.py:105 | a `/` between two texts disappears |
| Synthesis.CleanTextSegments | app.py:105 | "a_b/c" with separator-free segments becomes "a b" followed directly by "c" |
| Synthesis.CleanTextExample | app.py:105 | "bon_jour/ami" becomes "bon jourami" |
| Synthesis.SupportedLanguages | app.py:108 | the eleven codes fr, en, es, ja, ko, ar, ru, zh-CN, de, it, pt as written |
| Synthesis.UnsupportedMessage | app.py:110 | the 400 message "Code de langue '…' non supporté pour la synthèse vocale." |
| Synthesis.RejectionMessage | app.py:106-110 | a rejected code is answered with the 400 message naming its lower case |
| Synthesis.ValidateLanguage | app.py:106-110 | a code is accepted exactly when its lower case is on the allow-list; acceptance and rejection both carry the lower-cased code |
| Synthesis.ZhCnNeverAccepted | app.py:106-109 | no argument is ever accepted as "zh-CN" |
| Synthesis.AcceptedIff | app.py:106-109 | a code is accepted exactly when its lower case is one of the ten codes fr, en, es, ja, ko, ar, ru, de, it, pt |
| Synthesis.ValidateExamples | app.py:106-110 | "FR" is accepted as "fr"; "zh-CN" and "xx" are rejected, naming "zh-cn" and "xx" |
| Gateway.InternalErrorMessage | app.py:128 | the fixed 500 message, which never carries the exception's detail |
| Gateway.AudioServer.GenerateAudio | app.py:98-128 | the status is 400 exactly for an unsupported code, 200 exactly when the provider saved the MP3 and 500 otherwise. An unsupported code gets 400 with no file created and no provider call. If the temp file cannot be created, the answer is 500 and nothing changes. Otherwise one fresh file is created and the provider is called once with the normalised text and lower-cased code. On success the answer streams that file's MP3 inline as `audio/mpeg`. On a provider failure the answer is 500 and the file stays on disk with what was written. |
| Gateway.AudioServer.Close | app.py:120-122 | closing a streamed response removes exactly its file, reporting whether it was there; other responses change nothing |
| Gateway.AudioServer.Serve | app.py:104-128 | a request handled and then closed: the same status, answer, provider calls and name counter as GenerateAudio. Afterwards the disk is as before, except on a provider failure, which leaves exactly one new file holding what was written. |

## Left out

- Text.Lower: lower-cases only the ASCII letters A–Z. Python's `str.lower()` also maps other Unicode capitals, some to more than one character (`İ`), and one onto ASCII: the Kelvin sign U+212A becomes `k`. So the code accepts "\u212Ao" as "ko" and finds the Korean entry for `get_lettre_info("a", "\u212AR")`, while the model rejects both. `Synthesis.AcceptedIff`, `Synthesis.ValidateLanguage` and `Lookup.CaseInsensitive` hold for the ASCII lower case only.
- Flask and flask-smorest setup, CORS, blueprints, the OpenAPI/Swagger configuration and the YAML route (app.py:36-60, app.py:131-145). This is framework wiring. `Lookup.GetLettreInfo` models the handler's return value or its `abort`, not the HTTP body.
- The response schemas stacked on `get_lettre_info` (app.py:66-67). flask-smorest serialises the handler's return value through them; the model does not say what body they produce. Whether the list of all entries survives the single-entry schema is not modelled.
- URL routing: the `string` converter rejects `/` in a segment and `path` accepts it. The model takes arbitrary strings as arguments.
- The gTTS network call and `tts.save` (app.py:115-116). These are a third-party service, modelled as the `Provider` parameter, which may raise after writing some bytes.
- The real file system and `tempfile.NamedTemporaryFile` naming (app.py:112-113). Unique names come from the library and are modelled by the counter `nextName`. Failure to create the file is the `tempFileOk` parameter. Other exceptions that Flask's `send_file` might raise are not modelled.
- Werkzeug's `call_on_close` timing (app.py:120-122). `Gateway.AudioServer.Close` is the hook; when the framework calls it is not modelled.
- The server-side `print` of the exception (app.py:127). This is logging only.
- Gateway.AudioServer.GenerateAudio: the body of a streamed response is the MP3 saved into the file; the lazy reading of the file while the response is sent is not modelled.
- The marshmallow schemas (schemas.py). They are declarative; their field names give `Alphabet.Entry` its fields.
- The chatbot and corpus scripts under llm/. They are separate tools built on remote APIs, a vector store and a corpus toolkit, and share no state with the service.
