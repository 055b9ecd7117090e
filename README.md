# Unitext summarizer: a Dafny model of its request pipeline

Unitext takes free-form text and returns six outputs: the summary with its
detected emotion and an emoji, English audio, audio in a chosen target
language, the English text, the target-language text, and an HTML strip of
American Sign Language images for the summary. The whole application is
`app.py`. This project models its logic and proves properties of it:

- `SignLanguage`: the sign-language markup renderer
  (`get_sign_language_representation`). It lower-cases and splits the
  summary, strips every word to its letters, and shows a whole-word sign
  when the dictionary has the word and fingerspelled letters a to z
  otherwise. The renderer is written as the source runs it: a method that
  grows the HTML string in nested loops over words and letters
  (`RenderSignMarkup`). That method is proved equal to a specification
  function (`SignMarkup`), which goes through the sequence of `Glyph`s
  (image references) the text yields.
- `Pipeline`: `translate_text`, `text_to_speech` and `summarize_text` as
  pure functions. The four external services are the fields of a
  `Backends` value: summarizer, emotion classifier, translator and speech
  synthesis. A call that raises is a `Failure`. `text_to_speech` folds a
  synthesis failure to `None`, as its `try/except` does. Nothing else
  catches: a summarizer, classifier or translator failure ends the request.
- `Tables`: the four static tables: `TRANSLATION_LANGUAGES`,
  `EMOJI_MAPPING`, `ASL_DICTIONARY` and `ASL_ALPHABET_IMAGES`.
- `Text`: the Python string operations the code relies on: `isspace`,
  `isalpha`, `lower`, `strip` and `split()`.
- `Wrappers`: `Option` (Python's `None`-or-value) and `Result` (a call that
  returns or raises).

Behaviour worth noting, all of it proved below:

- Unknown emotion labels are shown as returned: the label is not
  normalised, and only the emoji falls back to the neutral one
  (`SuccessfulOutputs`, `EmojiFallsBackToNeutral`).
- Translation failures are not caught. They end the request
  (`TranslationFailureEndsRequest`); there is no fallback to the
  untranslated summary.
- A whole-word sign needs an exact dictionary key. "loves" and "thanking"
  are fingerspelled, not shown as the signs for "love" and "thank"
  (`LovesIsSpelled`, and `LowercaseWordIsSpelled` for every such word).
- `summarize_text` accepts any language name. A name missing from
  `TRANSLATION_LANGUAGES` is not translated. It is still spoken, in
  English, through the `"en"` default of `text_to_speech`
  (`UnlistedTargetIsSpokenInEnglish`).

## Model

Each part of `app.py` has one definition in the model; the lemmas and the
method in the table below state what it does:

- `SignLanguage.SignMarkup` (app.py:40-51) is the renderer's specification.
  It uses `Glyphs` (app.py:41), `WordsGlyphs` (app.py:43-50),
  `TokenGlyphs` (app.py:44-50), `Spelled` (app.py:48-50), `Markup` and
  `Tag` (app.py:46, 50), and the constants `Open` and `Close` (app.py:42, 51).
- `Pipeline.SummarizeText` (app.py:71-103) uses `Assemble` (app.py:88-103),
  `DisplayLine` (app.py:97), `EmojiFor` (app.py:81) and `WantsTargetAudio`
  (app.py:90). `Pipeline.TranslateText` (app.py:53-57) uses `LanguageCode`
  (app.py:54). `Pipeline.TextToSpeech` (app.py:59-67) uses
  `SpeechLanguageCode` (app.py:60) and `AudioSuffix` (app.py:63).
  `InputRequired` is the sentinel of app.py:73.
- `Text.Lower` (`lower()`), `Text.Words` (`split()`), `Text.FilterAlpha`
  (app.py:44), `Text.Strip` (app.py:72), `Text.IsSpace` and `Text.IsAlpha`
  are the Python string operations.
- `Tables.TranslationLanguages`, `Tables.EmojiMapping`,
  `Tables.AslDictionary` and `Tables.AslAlphabetImages` are the tables of
  app.py:20-32.

| member | source | states |
|---|---|---|
| `SignLanguage.RenderSignMarkup` | app.py:40-51 | The HTML that the nested `+=` loops build equals `SignMarkup(text)`: the opening `<div>`, then the `<img>` of each glyph of the lower-cased, split text in order, then `</div>`. |
| `SignLanguage.MarkupIsWrapped` | app.py:42-51 | The markup always starts with the fixed `<div …>` opening and ends with `</div>`. |
| `SignLanguage.BlankTextRendersEmptyContainer` | app.py:41-51 | Empty or whitespace-only text yields no glyph, and its markup is exactly the opening tag followed by `</div>`. |
| `SignLanguage.WordsGlyphsAppend` | app.py:43-50 | Token order is kept: the glyphs of two token sequences in a row are the first's glyphs followed by the second's. |
| `SignLanguage.MarkupAppend` | app.py:46-50 | The markup of two glyph sequences in a row is the first's markup followed by the second's. |
| `SignLanguage.JoinedTextGlyphs` | app.py:41-51 | For `a + " " + b`, the glyphs are those of `a` followed by those of `b`, and the markup wraps both in the one container. |
| `SignLanguage.WholeWordSignsComeFromKeys` | app.py:43-50 | The whole-word signs of a token sequence are exactly the `ASL_DICTIONARY` images of the tokens whose letters form a key: one per such token, in token order. No other token ever shows a whole-word sign. |
| `SignLanguage.SpelledTokenHasOnlyLetters` | app.py:44-50 | Any other token contributes only fingerspelling images: one per character a to z of the token itself, in order, each with that letter's URL. None of them is a dictionary image. |
| `SignLanguage.AsciiLettersOfFiltered` | app.py:44-49 | Cleaning a token first does not change which characters a to z it has, or their order. |
| `SignLanguage.SpelledLetters` | app.py:48-50 | Spelling a cleaned word gives one letter image per character a to z, in order; other characters are skipped. |
| `SignLanguage.NonAsciiLetterAddsNothing` | app.py:44-50 | A letter outside a to z, such as "é", survives cleaning but adds no image to a spelled token. |
| `SignLanguage.LowercaseWordIsSpelled` | app.py:45-50 | A word of letters a to z that is not a dictionary key shows one letter image per letter, in order. |
| `SignLanguage.LovesIsSpelled` | app.py:26-31 | "love" is a dictionary key but "loves" is not, so "loves" is shown as five letter images. |
| `SignLanguage.HelloWithCommaIsSigned` | app.py:44-46 | Punctuation is stripped before the lookup: "hello," gets the whole-word sign for "hello". |
| `SignLanguage.AsciiLetters` | app.py:49 | Every character it keeps is in a to z. |
| `Text.Words` | app.py:41 | `split()` yields only non-empty words without whitespace. |
| `Text.WordsCoverText` | app.py:41 | Joining the words of `split()` gives the text with only its whitespace removed. |
| `Text.WordsAtSpace` | app.py:41 | A whitespace character always separates words: the words of `a`, a space and `b` are those of `a` followed by those of `b`. |
| `Text.WordsEmptyIffBlank` | app.py:41 | `split()` yields no word exactly when the text is blank. |
| `Text.WordsOfOneWord` | app.py:41 | A non-empty string without whitespace splits into itself alone. |
| `Text.StripEmptyIffBlank` | app.py:72 | `text.strip()` is empty exactly when every character is whitespace. |
| `Text.LowerKeepsBlank` | app.py:41 | Lower-casing neither creates nor removes whitespace. |
| `Text.LowerChar` | app.py:41 | Upper-case Latin-1 letters move 32 code points up; every other character stays. Letters stay letters and whitespace stays whitespace. |
| `Text.FilterAlpha` | app.py:44 | The cleaned word has only alphabetic characters and is no longer than the word. |
| `Text.FilterAlphaOfLetters` | app.py:44 | Cleaning keeps a word made only of letters as it is. |
| `Text.FilterAlphaAppend` | app.py:44 | Cleaning works character by character: the cleaned concatenation of two strings is the concatenation of their cleaned forms. |
| `Text.FilterAlphaOfChar` | app.py:44 | Cleaning a single character keeps it exactly when it is a letter. Together with `FilterAlphaAppend`, every letter of a word is kept, in order, and nothing else. |
| `Tables.AlphabetKeys` | app.py:32 | `ASL_ALPHABET_IMAGES` has an entry for exactly a to z, and each entry is that letter's fingerspelling URL. |
| `Tables.TranslatedLanguages` | app.py:20-22 | Exactly the names French, Spanish, Hindi and English map to a code. |
| `Tables.WordAndLetterImagesDiffer` | app.py:26-32 | No whole-word sign URL equals a fingerspelling URL. |
| `Pipeline.OnlyListedLanguagesAreTranslated` | app.py:53-57 | French, Spanish, Hindi and English reach the translator with fr, es, hi and en. Every other name, including `"None"` and `None`, returns the text unchanged. |
| `Pipeline.SpeechLanguageDefault` | app.py:60 | The `"en"` default applies only to a missing name. `"None"` gives `None`, and a listed name gives its own code. |
| `Pipeline.TextToSpeechOutcome` | app.py:59-67 | `text_to_speech` never fails. Empty text gives `None`. A synthesis failure gives `None`. Success gives a path ending in `_<code>.mp3`. It returns a path exactly when the text is non-empty and synthesis succeeds. |
| `Pipeline.EmojiFallsBackToNeutral` | app.py:81 | A mapped emotion gets its emoji. Any other gets the neutral emoji. |
| `Pipeline.BlankInputIsRejected` | app.py:72-73 | Blank input returns exactly `("Input required.", None, None, "N/A", "N/A", "")` for every backend, so no service is called. |
| `Pipeline.SummarizerFailureEndsRequest` | app.py:71-77 | On non-blank input, a summarizer failure ends the request with that failure. |
| `Pipeline.TranslationFailureEndsRequest` | app.py:53-57 | If translating the summary into English raises, the request fails. |
| `Pipeline.SuccessIsAssembled` | app.py:71-103 | A successful request on non-blank input went through the summarizer, the classifier and both translations, and its outputs are assembled from their results. |
| `Pipeline.OutcomeIsFirstFailingStage` | app.py:71-103 | On non-blank input the stages run in order: the first of the summarizer, the classifier, the English translation and the target translation to fail gives the request its error. When none fails, the request succeeds. |
| `Pipeline.SuccessfulOutputs` | app.py:80-103 | The first output is `summary + " \n\nEmotion: " + label + " " + emoji`, with the label as returned. The English fields come from the English translation. The markup is rendered from the untranslated summary. |
| `Pipeline.TargetAudioOnlyWhenRequested` | app.py:88-91 | Target audio exists only when the target language is truthy, is not `"None"`, and its translation is non-empty. Then it is the speech of that translation. |
| `Pipeline.NoTargetLanguage` | app.py:84-91 | With target `None`, `""` or `"None"`, the target text is the untranslated summary and there is no target audio. |
| `Pipeline.UnlistedTargetIsSpokenInEnglish` | app.py:84-91 | A name missing from the table is not translated, but its audio is still made, in English. |
| `Pipeline.SpeechNeverAffectsText` | app.py:59-67 | Whatever speech synthesis does, the request's success, error and text outputs stay the same. |
| `Pipeline.EnglishSideIgnoresTarget` | app.py:84-103 | Two successful requests that differ only in the target language agree on the display line, the English text and audio, and the markup. |

## Left out

- The Gradio interface and `demo.launch` (app.py:105-128): user interface only.
- Model loading, device selection and the stopwords download (app.py:12-17, 35-36): environment setup in foreign libraries.
- The internals of the summarizer, the emotion classifier, the translator and gTTS: network and machine-learning calls. Each is a function field of `Backends` that returns or fails. As functions, they give the same answer to the same call within one request. The real services may not.
- `tempfile.NamedTemporaryFile` and `gTTS(...).save` together form `synthesize`. It yields the file name's random part, and the model appends the `_<code>.mp3` suffix. Two calls with the same text and code get the same random part, which real temporary files would not.
- The summarizer's `num_beams`, `do_sample` and the `int()` casts (app.py:76): the bounds are passed to the summarizer as integers, and nothing is stated about their effect.
- `IsAlpha` and `LowerChar` are exact only on Latin-1. Characters above U+00FF count as non-alphabetic and are unchanged by `lower()`; `IsSpace` is Python's full whitespace set. This changes the rendered signs for such characters:
  - "hello\u03bb" (a Greek lambda at the end): Python keeps the lambda as a letter, finds no key and spells h, e, l, l, o. The model drops the lambda and shows the whole-word sign for "hello".
  - The Kelvin sign U+212A: Python lower-cases it to 'k' and shows that letter's image. The model leaves it unchanged, drops it as a non-letter and shows nothing.
- The emoji strings are kept exactly as `app.py` holds them, mis-decoded bytes included. They are treated as opaque constants.
- A `text` argument of Python `None` (which would raise at `text.strip()`) is not modelled: the input is a string.
