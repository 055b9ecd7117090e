/** The four static lookup tables of app.py. They are built once and never
    changed. */
module Tables {
  import opened Wrappers

  /** `TRANSLATION_LANGUAGES`: dropdown name to translator code; `"None"` maps
      to Python's `None` (no translation requested). */
  const TranslationLanguages: map<string, Option<string>> := map[
    "None" := None,
    "French" := Some("fr"),
    "Spanish" := Some("es"),
    "Hindi" := Some("hi"),
    "English" := Some("en")
  ]

  /** The emoji strings exactly as app.py holds them: each one is four code
      points, the UTF-8 bytes of the intended emoji read back as Mac Roman. */
  const JoyEmoji := "\U{F8FF}\U{FC}\U{F2}\U{C9}"
  const AngerEmoji := "\U{F8FF}\U{FC}\U{F2}\U{B0}"
  const SadnessEmoji := "\U{F8FF}\U{FC}\U{F2}\U{A2}"
  const FearEmoji := "\U{F8FF}\U{FC}\U{F2}\U{AE}"
  const LoveEmoji := "\U{F8FF}\U{FC}\U{F2}\U{E7}"
  const SurpriseEmoji := "\U{F8FF}\U{FC}\U{F2}\U{2264}"
  const DisgustEmoji := "\U{F8FF}\U{FC}\U{A7}\U{A2}"
  const NeutralEmoji := "\U{F8FF}\U{FC}\U{F2}\U{EA}"

  /** `EMOJI_MAPPING`: emotion label to display emoji. */
  const EmojiMapping: map<string, string> := map[
    "joy" := JoyEmoji,
    "anger" := AngerEmoji,
    "sadness" := SadnessEmoji,
    "fear" := FearEmoji,
    "love" := LoveEmoji,
    "surprise" := SurpriseEmoji,
    "disgust" := DisgustEmoji,
    "neutral" := NeutralEmoji
  ]

  /** `ASL_DICTIONARY`: the words that have a whole-word sign image. */
  const AslDictionary: map<string, string> := map[
    "hello" := "https://www.lifeprint.com/asl101/gifs/h/hello.gif",
    "thank" := "https://www.lifeprint.com/asl101/gifs/t/thank-you.gif",
    "love" := "https://www.lifeprint.com/asl101/gifs/l/love.gif",
    "happy" := "https://www.lifeprint.com/asl101/gifs/h/happy.gif"
  ]

  const Alphabet := "abcdefghijklmnopqrstuvwxyz"

  const FingerspellingBase := "https://www.lifeprint.com/asl101/fingerspelling/"

  function FingerspellingUrl(letter: char): (url: string)
  {
    FingerspellingBase + [letter] + ".gif"
  }

  /** `ASL_ALPHABET_IMAGES`: one fingerspelling image per letter of `Alphabet`. */
  const AslAlphabetImages: map<char, string> := map letter | letter in Alphabet :: FingerspellingUrl(letter)

  lemma AlphabetIsLowercaseAscii()
    ensures |Alphabet| == 26
    ensures forall i :: 0 <= i < 26 ==> Alphabet[i] as int == 'a' as int + i
  {
  }

  /** The alphabet table has an entry for exactly the 26 letters a to z, and
      the entry of a letter is its own fingerspelling image. */
  lemma AlphabetKeys(c: char)
    ensures c in AslAlphabetImages <==> 'a' <= c <= 'z'
    ensures c in AslAlphabetImages ==> AslAlphabetImages[c] == FingerspellingUrl(c)
  {
    AlphabetIsLowercaseAscii();
    if 'a' <= c <= 'z' {
      assert Alphabet[c as int - 'a' as int] == c;
    }
  }

  /** Only four names lead to an actual translation, and each to its code. */
  lemma TranslatedLanguages(name: string)
    ensures name in TranslationLanguages && TranslationLanguages[name].Some?
      <==> name in {"French", "Spanish", "Hindi", "English"}
  {
  }

  /** No dictionary image is a fingerspelling image, so a whole-word sign is
      never mistaken for a spelled letter. */
  lemma WordAndLetterImagesDiffer(word: string, letter: char)
    requires word in AslDictionary && letter in AslAlphabetImages
    ensures AslDictionary[word] != AslAlphabetImages[letter]
  {
    var url := AslAlphabetImages[letter];
    assert url[33] == 'f';
    assert AslDictionary[word][33] == 'g';
  }
}
