/** `translate_text`, `text_to_speech` and `summarize_text`: the request
    pipeline, with the four external services (summarizer, emotion
    classifier, translator, speech synthesis) passed in as functions. */
module Pipeline {
  import opened Wrappers
  import opened Text
  import opened Tables
  import opened SignLanguage

  /** The external services. Each call either returns or raises (`Failure`). */
  datatype Backends = Backends(
    /** `summarizer(text, min_length=.., max_length=.., ...)[0]['summary_text']` */
    summarize: (string, int, int) -> Result<string>,
    /** `emotion_detector(summary)[0]['label']` */
    classify: string -> Result<string>,
    /** `GoogleTranslator(source="auto", target=code).translate(text)` */
    translate: (string, string) -> Result<string>,
    /** A fresh temporary file written with `gTTS(text, lang=code)`: the part
        of its name that comes before the requested suffix. */
    synthesize: (string, Option<string>) -> Result<string>
  )

  /** The six outputs, in the order the form displays them. */
  datatype Outputs = Outputs(
    display: string,
    englishAudio: Option<string>,
    targetAudio: Option<string>,
    englishText: string,
    targetText: string,
    signMarkup: string
  )

  /** What a blank request gets back. */
  const InputRequired := Outputs("Input required.", None, None, "N/A", "N/A", "")

  /** Python truthiness of a value that is `None` or a string. */
  predicate Truthy(s: Option<string>)
  {
    s.Some? && s.value != ""
  }

  /** `TRANSLATION_LANGUAGES.get(name)`: `None` for `"None"` and for every
      name the table lacks. */
  function LanguageCode(name: Option<string>): (code: Option<string>)
  {
    if name.Some? && name.value in TranslationLanguages then TranslationLanguages[name.value] else None
  }

  /** `TRANSLATION_LANGUAGES.get(name, "en")`: the default applies only to a
      name the table lacks; `"None"` still gives `None`. */
  function SpeechLanguageCode(name: Option<string>): (code: Option<string>)
  {
    if name.Some? && name.value in TranslationLanguages then TranslationLanguages[name.value] else Some("en")
  }

  /** `translate_text`: the translator is called only when the name gives a
      code; its failure is not caught. */
  function TranslateText(translate: (string, string) -> Result<string>, text: string, name: Option<string>): (r: Result<string>)
  {
    var code := LanguageCode(name);
    if Truthy(code) then translate(text, code.value) else Success(text)
  }

  /** `f"_{lang_code}.mp3"`, where a `None` code prints as `None`. */
  function AudioSuffix(code: Option<string>): (suffix: string)
  {
    "_" + (if code.Some? then code.value else "None") + ".mp3"
  }

  /** `text_to_speech`: `None` for empty text, the audio file's path on
      success, and `None` whenever synthesis raises. */
  function TextToSpeech(synthesize: (string, Option<string>) -> Result<string>, text: string, name: Option<string>): (path: Option<string>)
  {
    var code := SpeechLanguageCode(name);
    if text == "" then None
    else
      match synthesize(text, code)
      case Success(stem) => Some(stem + AudioSuffix(code))
      case Failure(_) => None
  }

  /** `EMOJI_MAPPING.get(emotion, <neutral emoji>)`. */
  function EmojiFor(emotion: string): (emoji: string)
  {
    if emotion in EmojiMapping then EmojiMapping[emotion] else NeutralEmoji
  }

  /** The condition under which the target-language audio is produced. */
  predicate WantsTargetAudio(targetLanguage: Option<string>, translated: string)
  {
    Truthy(targetLanguage) && targetLanguage.value != "None" && translated != ""
  }

  /** The first output: `f"{summary} \n\nEmotion: {emotion} {emoji_display}"`. */
  function DisplayLine(summary: string, emotion: string): (line: string)
  {
    summary + " \n\nEmotion: " + emotion + " " + EmojiFor(emotion)
  }

  /** The outputs of a request whose summary, emotion and both translations
      are in hand: the audio of each side and the sign markup of the
      untranslated summary. */
  function Assemble(synthesize: (string, Option<string>) -> Result<string>, targetLanguage: Option<string>,
                    summary: string, emotion: string, englishSummary: string, translatedSummary: string): (out: Outputs)
  {
    var englishAudio := TextToSpeech(synthesize, englishSummary, Some("English"));
    var targetAudio :=
      if WantsTargetAudio(targetLanguage, translatedSummary)
      then TextToSpeech(synthesize, translatedSummary, targetLanguage)
      else None;
    Outputs(DisplayLine(summary, emotion), englishAudio, targetAudio, englishSummary, translatedSummary,
            SignMarkup(summary))
  }

  /** `summarize_text`: blank input gets the fixed `InputRequired` outputs;
      otherwise summarize, classify the summary, translate it into English
      and into the target language, speak both, and render the summary as
      signs. A failure of the summarizer, the classifier or the translator
      ends the request with that failure. */
  function SummarizeText(b: Backends, text: string, targetLanguage: Option<string>,
                         minWords: int := 30, maxWords: int := 150): (r: Result<Outputs>)
  {
    if Strip(text) == [] then Success(InputRequired)
    else
      var summary :- b.summarize(text, minWords, maxWords);
      var emotion :- b.classify(summary);
      var englishSummary :- TranslateText(b.translate, summary, Some("English"));
      var translatedSummary :- TranslateText(b.translate, summary, targetLanguage);
      Success(Assemble(b.synthesize, targetLanguage, summary, emotion, englishSummary, translatedSummary))
  }

  /** Empty or whitespace-only input gets exactly the `InputRequired`
      outputs, whatever the services would have done: none is called. */
  lemma BlankInputIsRejected(b: Backends, text: string, targetLanguage: Option<string>, minWords: int, maxWords: int)
    requires IsBlank(text)
    ensures SummarizeText(b, text, targetLanguage, minWords, maxWords) == Success(InputRequired)
  {
    StripEmptyIffBlank(text);
  }

  /** Any other input goes to the summarizer, and a summarizer failure ends
      the request with that failure. */
  lemma SummarizerFailureEndsRequest(b: Backends, text: string, targetLanguage: Option<string>, minWords: int, maxWords: int)
    requires !IsBlank(text) && b.summarize(text, minWords, maxWords).Failure?
    ensures SummarizeText(b, text, targetLanguage, minWords, maxWords)
      == Failure(b.summarize(text, minWords, maxWords).error)
  {
    StripEmptyIffBlank(text);
  }

  /** A translator failure is not caught: if translating the summary into
      English raises, the whole request fails. */
  lemma TranslationFailureEndsRequest(b: Backends, text: string, targetLanguage: Option<string>, minWords: int, maxWords: int)
    requires !IsBlank(text)
    requires b.summarize(text, minWords, maxWords).Success?
    requires b.classify(b.summarize(text, minWords, maxWords).value).Success?
    requires b.translate(b.summarize(text, minWords, maxWords).value, "en").Failure?
    ensures SummarizeText(b, text, targetLanguage, minWords, maxWords).Failure?
  {
    StripEmptyIffBlank(text);
  }

  /** Only "French", "Spanish", "Hindi" and "English" reach the translator,
      with codes fr, es, hi and en; every other name, `"None"` and Python's
      `None` included, leaves the text as it is. */
  lemma OnlyListedLanguagesAreTranslated(translate: (string, string) -> Result<string>, text: string, name: Option<string>)
    ensures name == Some("French") ==> TranslateText(translate, text, name) == translate(text, "fr")
    ensures name == Some("Spanish") ==> TranslateText(translate, text, name) == translate(text, "es")
    ensures name == Some("Hindi") ==> TranslateText(translate, text, name) == translate(text, "hi")
    ensures name == Some("English") ==> TranslateText(translate, text, name) == translate(text, "en")
    ensures name !in {Some("French"), Some("Spanish"), Some("Hindi"), Some("English")} ==>
      TranslateText(translate, text, name) == Success(text)
  {
    if name.Some? {
      TranslatedLanguages(name.value);
    }
  }

  /** The speech language defaults to "en" only for a name missing from the
      table; `"None"` is in the table and gives `None`. */
  lemma SpeechLanguageDefault(name: Option<string>)
    ensures name == Some("None") ==> SpeechLanguageCode(name) == None
    ensures (name.None? || name.value !in TranslationLanguages) ==> SpeechLanguageCode(name) == Some("en")
    ensures LanguageCode(name).Some? ==> SpeechLanguageCode(name) == LanguageCode(name)
  {
  }

  /** `text_to_speech` never raises: empty text gives `None` without calling
      synthesis, a synthesis failure gives `None`, and a success gives a path
      ending in `_<code>.mp3`. */
  lemma TextToSpeechOutcome(synthesize: (string, Option<string>) -> Result<string>, text: string, name: Option<string>)
    ensures text == "" ==> TextToSpeech(synthesize, text, name) == None
    ensures text != "" && synthesize(text, SpeechLanguageCode(name)).Failure? ==> TextToSpeech(synthesize, text, name) == None
    ensures TextToSpeech(synthesize, text, name).Some? <==> text != "" && synthesize(text, SpeechLanguageCode(name)).Success?
    ensures TextToSpeech(synthesize, text, name).Some? ==>
      var path := TextToSpeech(synthesize, text, name).value;
      var suffix := AudioSuffix(SpeechLanguageCode(name));
      |path| >= |suffix| && path[|path| - |suffix|..] == suffix
  {
  }

  /** The emoji falls back to the neutral one for an unmapped emotion. */
  lemma EmojiFallsBackToNeutral(emotion: string)
    ensures emotion in EmojiMapping ==> EmojiFor(emotion) == EmojiMapping[emotion]
    ensures emotion !in EmojiMapping ==> EmojiFor(emotion) == EmojiMapping["neutral"]
  {
  }

  /** A successful request on non-blank input went through every mandatory
      stage: the summarizer, the classifier and both translations returned,
      and the outputs are assembled from their results. */
  lemma SuccessIsAssembled(b: Backends, text: string, targetLanguage: Option<string>, minWords: int, maxWords: int)
    requires !IsBlank(text)
    requires SummarizeText(b, text, targetLanguage, minWords, maxWords).Success?
    ensures b.summarize(text, minWords, maxWords).Success?
    ensures var summary := b.summarize(text, minWords, maxWords).value;
      && b.classify(summary).Success?
      && TranslateText(b.translate, summary, Some("English")).Success?
      && TranslateText(b.translate, summary, targetLanguage).Success?
      && SummarizeText(b, text, targetLanguage, minWords, maxWords).value
         == Assemble(b.synthesize, targetLanguage, summary, b.classify(summary).value,
                     TranslateText(b.translate, summary, Some("English")).value,
                     TranslateText(b.translate, summary, targetLanguage).value)
  {
    StripEmptyIffBlank(text);
  }

  /** The outcome of a request on non-blank input is decided by its stages
      in order: the first of the summarizer, the classifier, the English
      translation and the target translation to fail gives the request its
      error, and when none fails the request succeeds. */
  lemma OutcomeIsFirstFailingStage(b: Backends, text: string, targetLanguage: Option<string>, minWords: int, maxWords: int)
    requires !IsBlank(text)
    ensures var r := SummarizeText(b, text, targetLanguage, minWords, maxWords);
      var summarized := b.summarize(text, minWords, maxWords);
      && (summarized.Failure? ==> r == Failure(summarized.error))
      && (summarized.Success? ==>
            var summary := summarized.value;
            var emotion := b.classify(summary);
            var english := TranslateText(b.translate, summary, Some("English"));
            var target := TranslateText(b.translate, summary, targetLanguage);
            && (emotion.Failure? ==> r == Failure(emotion.error))
            && (emotion.Success? && english.Failure? ==> r == Failure(english.error))
            && (emotion.Success? && english.Success? && target.Failure? ==> r == Failure(target.error))
            && (emotion.Success? && english.Success? && target.Success? ==> r.Success?))
  {
    StripEmptyIffBlank(text);
  }

  /** What a successful request returns: the display line holds the summary,
      the classifier's emotion exactly as returned (it is not normalised) and
      its emoji; the English fields come from the English translation; the
      sign markup is rendered from the untranslated summary. */
  lemma SuccessfulOutputs(b: Backends, text: string, targetLanguage: Option<string>, minWords: int, maxWords: int)
    requires !IsBlank(text)
    requires SummarizeText(b, text, targetLanguage, minWords, maxWords).Success?
    ensures b.summarize(text, minWords, maxWords).Success?
    ensures var summary := b.summarize(text, minWords, maxWords).value;
      var out := SummarizeText(b, text, targetLanguage, minWords, maxWords).value;
      && b.classify(summary).Success?
      && out.display == summary + " \n\nEmotion: " + b.classify(summary).value + " " + EmojiFor(b.classify(summary).value)
      && TranslateText(b.translate, summary, Some("English")) == Success(out.englishText)
      && TranslateText(b.translate, summary, targetLanguage) == Success(out.targetText)
      && out.englishAudio == TextToSpeech(b.synthesize, out.englishText, Some("English"))
      && out.signMarkup == SignMarkup(summary)
  {
    SuccessIsAssembled(b, text, targetLanguage, minWords, maxWords);
  }

  /** Target audio is produced only when a target language is given, is not
      `"None"`, and its translation is non-empty; then it is the speech of
      that translation. */
  lemma TargetAudioOnlyWhenRequested(b: Backends, text: string, targetLanguage: Option<string>, minWords: int, maxWords: int)
    requires SummarizeText(b, text, targetLanguage, minWords, maxWords).Success?
    ensures var out := SummarizeText(b, text, targetLanguage, minWords, maxWords).value;
      && (out.targetAudio.Some? ==> WantsTargetAudio(targetLanguage, out.targetText))
      && (!IsBlank(text) && WantsTargetAudio(targetLanguage, out.targetText) ==>
            out.targetAudio == TextToSpeech(b.synthesize, out.targetText, targetLanguage))
  {
    if IsBlank(text) {
      BlankInputIsRejected(b, text, targetLanguage, minWords, maxWords);
    } else {
      SuccessIsAssembled(b, text, targetLanguage, minWords, maxWords);
    }
  }

  /** Without a target language (`None`, `""` or `"None"`) the target text is
      the untranslated summary and there is no target audio. */
  lemma NoTargetLanguage(b: Backends, text: string, targetLanguage: Option<string>, minWords: int, maxWords: int)
    requires !IsBlank(text)
    requires !Truthy(targetLanguage) || targetLanguage == Some("None")
    requires SummarizeText(b, text, targetLanguage, minWords, maxWords).Success?
    ensures var out := SummarizeText(b, text, targetLanguage, minWords, maxWords).value;
      && out.targetText == b.summarize(text, minWords, maxWords).value
      && out.targetAudio == None
  {
    SuccessIsAssembled(b, text, targetLanguage, minWords, maxWords);
    if targetLanguage.Some? {
      TranslatedLanguages(targetLanguage.value);
    }
    assert LanguageCode(targetLanguage) == None;
  }

  /** A name missing from the table is not translated but is still spoken,
      in English by the `"en"` default: the target audio is the untranslated
      summary read in English. */
  lemma UnlistedTargetIsSpokenInEnglish(b: Backends, text: string, name: string, minWords: int, maxWords: int)
    requires !IsBlank(text)
    requires name != "" && name !in TranslationLanguages
    requires SummarizeText(b, text, Some(name), minWords, maxWords).Success?
    ensures var out := SummarizeText(b, text, Some(name), minWords, maxWords).value;
      && out.targetText == b.summarize(text, minWords, maxWords).value
      && (out.targetText != "" ==> out.targetAudio == TextToSpeech(b.synthesize, out.targetText, Some("English")))
  {
    SuccessIsAssembled(b, text, Some(name), minWords, maxWords);
  }

  /** Speech is best effort: whatever the synthesis service does, whether
      the request succeeds and every text output stay the same. */
  lemma SpeechNeverAffectsText(b: Backends, synthesize: (string, Option<string>) -> Result<string>,
                               text: string, targetLanguage: Option<string>, minWords: int, maxWords: int)
    ensures var r := SummarizeText(b, text, targetLanguage, minWords, maxWords);
      var r' := SummarizeText(b.(synthesize := synthesize), text, targetLanguage, minWords, maxWords);
      && r.Success? == r'.Success?
      && (r.Success? ==>
            && r.value.display == r'.value.display
            && r.value.englishText == r'.value.englishText
            && r.value.targetText == r'.value.targetText
            && r.value.signMarkup == r'.value.signMarkup)
      && (r.Failure? ==> r.error == r'.error)
  {
    var b' := b.(synthesize := synthesize);
    if IsBlank(text) {
      BlankInputIsRejected(b, text, targetLanguage, minWords, maxWords);
      BlankInputIsRejected(b', text, targetLanguage, minWords, maxWords);
    } else {
      assert b'.summarize == b.summarize && b'.classify == b.classify && b'.translate == b.translate;
      OutcomeIsFirstFailingStage(b, text, targetLanguage, minWords, maxWords);
      OutcomeIsFirstFailingStage(b', text, targetLanguage, minWords, maxWords);
      if SummarizeText(b, text, targetLanguage, minWords, maxWords).Success? {
        SuccessIsAssembled(b, text, targetLanguage, minWords, maxWords);
        SuccessIsAssembled(b', text, targetLanguage, minWords, maxWords);
      }
    }
  }

  /** The English side does not depend on the target language: two
      successful requests that differ only in it agree on the display line,
      the English text and audio, and the sign markup. */
  lemma EnglishSideIgnoresTarget(b: Backends, text: string, t1: Option<string>, t2: Option<string>, minWords: int, maxWords: int)
    requires SummarizeText(b, text, t1, minWords, maxWords).Success?
    requires SummarizeText(b, text, t2, minWords, maxWords).Success?
    ensures var o1 := SummarizeText(b, text, t1, minWords, maxWords).value;
      var o2 := SummarizeText(b, text, t2, minWords, maxWords).value;
      && o1.display == o2.display
      && o1.englishText == o2.englishText
      && o1.englishAudio == o2.englishAudio
      && o1.signMarkup == o2.signMarkup
  {
    if IsBlank(text) {
      BlankInputIsRejected(b, text, t1, minWords, maxWords);
      BlankInputIsRejected(b, text, t2, minWords, maxWords);
    } else {
      SuccessIsAssembled(b, text, t1, minWords, maxWords);
      SuccessIsAssembled(b, text, t2, minWords, maxWords);
    }
  }
}
