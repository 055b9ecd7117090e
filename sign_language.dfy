/** `get_sign_language_representation`: turns text into an HTML strip of sign
    images, a whole-word sign where the dictionary has the word and
    fingerspelled letters otherwise. */
module SignLanguage {
  import opened Text
  import opened Tables

  const Open := "<div style='overflow-x: auto; white-space: nowrap; display: flex;'>"
  const Close := "</div>"
  const ImgPrefix := "<img src='"
  const WordImgSuffix := "' style='width: 50px; height: 50px; margin-right: 5px;'>"
  const LetterImgSuffix := "' style='width: 50px; height: 50px; margin-right: 2px;'>"

  /** One image of the strip: a whole-word sign or a fingerspelled letter,
      with the URL of its picture. */
  datatype Glyph = WordSign(url: string) | LetterSign(url: string)

  /** The `<img>` element of one glyph; whole-word signs get a wider margin. */
  function Tag(g: Glyph): (r: string)
  {
    match g
    case WordSign(url) => ImgPrefix + url + WordImgSuffix
    case LetterSign(url) => ImgPrefix + url + LetterImgSuffix
  }

  /** The `<img>` elements of a glyph sequence, in order. */
  function Markup(gs: seq<Glyph>): (r: string)
  {
    if gs == [] then [] else Markup(gs[..|gs| - 1]) + Tag(gs[|gs| - 1])
  }

  /** The letters of a cleaned word that have a fingerspelling image, each
      as a glyph, in order; any other character contributes nothing. */
  function Spelled(clean: string): (gs: seq<Glyph>)
  {
    if clean == [] then []
    else
      var c := clean[|clean| - 1];
      Spelled(clean[..|clean| - 1]) + (if c in AslAlphabetImages then [LetterSign(AslAlphabetImages[c])] else [])
  }

  /** The glyphs one (already lower-cased) token contributes. */
  function TokenGlyphs(token: string): (gs: seq<Glyph>)
  {
    var clean := FilterAlpha(token);
    if clean in AslDictionary then [WordSign(AslDictionary[clean])] else Spelled(clean)
  }

  /** The glyphs of a token sequence: each token's glyphs, in token order. */
  function WordsGlyphs(ws: seq<string>): (gs: seq<Glyph>)
  {
    if ws == [] then [] else WordsGlyphs(ws[..|ws| - 1]) + TokenGlyphs(ws[|ws| - 1])
  }

  /** The glyphs of a text: lower-case it, split it on whitespace, render each word. */
  function Glyphs(text: string): (gs: seq<Glyph>)
  {
    WordsGlyphs(Words(Lower(text)))
  }

  /** What `get_sign_language_representation(text)` returns. */
  function SignMarkup(text: string): (html: string)
  {
    Open + Markup(Glyphs(text)) + Close
  }

  /** The renderer as the source runs it: `images_html` starts as the opening
      `<div>` and grows by `+=` in a loop over the words and, for words not in
      the dictionary, an inner loop over their letters. */
  method RenderSignMarkup(text: string) returns (html: string)
    ensures html == SignMarkup(text)
  {
    var words := Words(Lower(text));
    html := Open;
    for i := 0 to |words|
      invariant html == Open + Markup(WordsGlyphs(words[..i]))
    {
      ghost var before := WordsGlyphs(words[..i]);
      WordsGlyphsStep(words, i);
      var clean := FilterAlpha(words[i]);
      if clean in AslDictionary {
        var glyph := WordSign(AslDictionary[clean]);
        html := html + Tag(glyph);
        AppendOneTag(Open, before, glyph);
      } else {
        ghost var done := html;
        NothingSpelledYet(clean);
        for j := 0 to |clean|
          invariant html == done + Markup(Spelled(clean[..j]))
        {
          SpelledStep(clean, j);
          if clean[j] in AslAlphabetImages {
            var glyph := LetterSign(AslAlphabetImages[clean[j]]);
            AppendOneTag(done, Spelled(clean[..j]), glyph);
            html := html + Tag(glyph);
          }
        }
        assert clean[..|clean|] == clean;
        ExtendMarkup(Open, before, Spelled(clean));
      }
    }
    assert words[..|words|] == words;
    html := html + Close;
  }

  lemma WordsGlyphsStep(words: seq<string>, i: nat)
    requires i < |words|
    ensures WordsGlyphs(words[..i + 1]) == WordsGlyphs(words[..i]) + TokenGlyphs(words[i])
  {
    assert words[..i + 1][..i] == words[..i];
  }

  lemma SpelledStep(clean: string, j: nat)
    requires j < |clean|
    ensures clean[j] in AslAlphabetImages ==>
      Spelled(clean[..j + 1]) == Spelled(clean[..j]) + [LetterSign(AslAlphabetImages[clean[j]])]
    ensures clean[j] !in AslAlphabetImages ==> Spelled(clean[..j + 1]) == Spelled(clean[..j])
  {
    var prefix := clean[..j + 1];
    assert prefix[..j] == clean[..j] && prefix[j] == clean[j];
  }

  lemma NothingSpelledYet(clean: string)
    ensures Markup(Spelled(clean[..0])) == []
  {
    assert clean[..0] == [];
  }

  /** One loop step: appending a glyph's tag to `prefix + Markup(gs)` gives
      `prefix + Markup(gs + [g])`. */
  lemma AppendOneTag(prefix: string, gs: seq<Glyph>, g: Glyph)
    ensures prefix + Markup(gs) + Tag(g) == prefix + Markup(gs + [g])
  {
    assert (gs + [g])[..|gs|] == gs;
    ConcatAssoc(prefix, Markup(gs), Tag(g));
  }

  /** Closing the inner loop: the letters' tags extend the words' tags. */
  lemma ExtendMarkup(prefix: string, a: seq<Glyph>, b: seq<Glyph>)
    ensures prefix + Markup(a) + Markup(b) == prefix + Markup(a + b)
  {
    MarkupAppend(a, b);
    ConcatAssoc(prefix, Markup(a), Markup(b));
  }

  lemma {:induction false} MarkupAppend(a: seq<Glyph>, b: seq<Glyph>)
    ensures Markup(a + b) == Markup(a) + Markup(b)
    decreases |b|
  {
    if b == [] {
      assert a + b == a;
    } else {
      var b', last := b[..|b| - 1], b[|b| - 1];
      assert (a + b)[..|a + b| - 1] == a + b' && (a + b)[|a + b| - 1] == last;
      MarkupAppend(a, b');
      ConcatAssoc(Markup(a), Markup(b'), Tag(last));
    }
  }

  /** The markup is always the fixed `<div>` container around the tags. */
  lemma MarkupIsWrapped(text: string)
    ensures |SignMarkup(text)| >= |Open| + |Close|
    ensures SignMarkup(text)[..|Open|] == Open
    ensures SignMarkup(text)[|SignMarkup(text)| - |Close|..] == Close
  {
  }

  /** Empty or blank text renders as the empty container. */
  lemma BlankTextRendersEmptyContainer(text: string)
    requires IsBlank(text)
    ensures Glyphs(text) == []
    ensures SignMarkup(text) == Open + Close
  {
    LowerKeepsBlank(text);
    WordsEmptyIffBlank(Lower(text));
  }

  /** Token order is kept: the glyphs of two token sequences in a row are
      the glyphs of the first followed by those of the second. */
  lemma {:induction false} WordsGlyphsAppend(a: seq<string>, b: seq<string>)
    ensures WordsGlyphs(a + b) == WordsGlyphs(a) + WordsGlyphs(b)
    decreases |b|
  {
    if b == [] {
      assert a + b == a;
    } else {
      var b', last := b[..|b| - 1], b[|b| - 1];
      assert (a + b)[..|a + b| - 1] == a + b' && (a + b)[|a + b| - 1] == last;
      WordsGlyphsAppend(a, b');
      ConcatAssoc(WordsGlyphs(a), WordsGlyphs(b'), TokenGlyphs(last));
    }
  }

  /** Text joined by a space renders as the first text's images followed by
      the second's: no image moves across a word boundary. */
  lemma JoinedTextGlyphs(a: string, b: string)
    ensures Glyphs(a + " " + b) == Glyphs(a) + Glyphs(b)
    ensures SignMarkup(a + " " + b) == Open + Markup(Glyphs(a)) + Markup(Glyphs(b)) + Close
  {
    LowerConcat(a + " ", b);
    LowerConcat(a, " ");
    assert Lower(" ") == [' '];
    WordsAtSpace(Lower(a), ' ', Lower(b));
    WordsGlyphsAppend(Words(Lower(a)), Words(Lower(b)));
    MarkupAppend(Glyphs(a), Glyphs(b));
    ConcatAssoc(Open, Markup(Glyphs(a)), Markup(Glyphs(b)));
  }

  /** The URLs of the whole-word signs among `gs`, in order. */
  function WordSignUrls(gs: seq<Glyph>): (urls: seq<string>)
    ensures |urls| <= |gs|
  {
    if gs == [] then []
    else
      var g := gs[|gs| - 1];
      WordSignUrls(gs[..|gs| - 1]) + (if g.WordSign? then [g.url] else [])
  }

  /** The dictionary URL of every token whose letters form a dictionary key,
      in token order; an independent statement of which tokens earn a
      whole-word sign. */
  function KeyUrls(ws: seq<string>): (urls: seq<string>)
    ensures |urls| <= |ws|
    ensures forall k :: 0 <= k < |urls| ==> urls[k] in AslDictionary.Values
  {
    if ws == [] then []
    else
      var clean := FilterAlpha(ws[|ws| - 1]);
      KeyUrls(ws[..|ws| - 1]) + (if clean in AslDictionary then [AslDictionary[clean]] else [])
  }

  lemma {:induction false} WordSignUrlsAppend(a: seq<Glyph>, b: seq<Glyph>)
    ensures WordSignUrls(a + b) == WordSignUrls(a) + WordSignUrls(b)
    decreases |b|
  {
    if b == [] {
      assert a + b == a;
    } else {
      var b', last := b[..|b| - 1], b[|b| - 1];
      assert (a + b)[..|a + b| - 1] == a + b' && (a + b)[|a + b| - 1] == last;
      WordSignUrlsAppend(a, b');
      ConcatAssoc(WordSignUrls(a), WordSignUrls(b'), if last.WordSign? then [last.url] else []);
    }
  }

  /** Fingerspelling never produces a whole-word sign. */
  lemma {:induction false} SpelledHasNoWordSign(clean: string)
    ensures WordSignUrls(Spelled(clean)) == []
    decreases |clean|
  {
    if clean != [] {
      var c := clean[|clean| - 1];
      var tail := if c in AslAlphabetImages then [LetterSign(AslAlphabetImages[c])] else [];
      SpelledHasNoWordSign(clean[..|clean| - 1]);
      WordSignUrlsAppend(Spelled(clean[..|clean| - 1]), tail);
      assert WordSignUrls(tail) == [] by {
        if tail != [] {
          assert tail[..0] == [];
        }
      }
    }
  }

  /** The whole-word signs of a token sequence are exactly the dictionary
      images of its tokens whose letters form a key, one each, in token
      order: no other token ever shows a whole-word sign. */
  lemma {:induction false} WholeWordSignsComeFromKeys(ws: seq<string>)
    ensures WordSignUrls(WordsGlyphs(ws)) == KeyUrls(ws)
    decreases |ws|
  {
    if ws != [] {
      var init, last := ws[..|ws| - 1], ws[|ws| - 1];
      WholeWordSignsComeFromKeys(init);
      WordSignUrlsAppend(WordsGlyphs(init), TokenGlyphs(last));
      var clean := FilterAlpha(last);
      if clean in AslDictionary {
        var g := [WordSign(AslDictionary[clean])];
        assert g[..0] == [];
        assert WordSignUrls(g) == [AslDictionary[clean]];
      } else {
        SpelledHasNoWordSign(clean);
      }
    }
  }

  /** The characters a to z of a string, in order. */
  function AsciiLetters(s: string): (r: string)
    ensures forall i :: 0 <= i < |r| ==> 'a' <= r[i] <= 'z'
  {
    if s == [] then [] else (if 'a' <= s[0] <= 'z' then [s[0]] else []) + AsciiLetters(s[1..])
  }

  lemma {:induction false} AsciiLettersSnoc(s: string, c: char)
    ensures AsciiLetters(s + [c]) == AsciiLetters(s) + (if 'a' <= c <= 'z' then [c] else [])
    decreases |s|
  {
    if s != [] {
      assert (s + [c])[0] == s[0] && (s + [c])[1..] == s[1..] + [c];
      AsciiLettersSnoc(s[1..], c);
    } else {
      assert [c][1..] == [];
    }
  }

  /** Spelling a cleaned word gives one fingerspelling image per character
      a to z, in the word's order; every other character is skipped. */
  lemma {:induction false} SpelledLetters(clean: string)
    ensures |Spelled(clean)| == |AsciiLetters(clean)|
    ensures forall k :: 0 <= k < |Spelled(clean)| ==>
      Spelled(clean)[k] == LetterSign(FingerspellingUrl(AsciiLetters(clean)[k]))
    decreases |clean|
  {
    if clean != [] {
      var init, c := clean[..|clean| - 1], clean[|clean| - 1];
      assert clean == init + [c];
      SpelledLetters(init);
      AsciiLettersSnoc(init, c);
      AlphabetKeys(c);
    }
  }

  /** Cleaning a word before picking out its characters a to z changes
      nothing: those characters are letters, so cleaning keeps them all. */
  lemma {:induction false} AsciiLettersOfFiltered(w: string)
    ensures AsciiLetters(FilterAlpha(w)) == AsciiLetters(w)
    decreases |w|
  {
    if w != [] {
      var init, c := w[..|w| - 1], w[|w| - 1];
      assert w == init + [c];
      AsciiLettersOfFiltered(init);
      AsciiLettersSnoc(init, c);
      if IsAlpha(c) {
        AsciiLettersSnoc(FilterAlpha(init), c);
      } else {
        assert FilterAlpha(w) == FilterAlpha(init);
      }
    }
  }

  /** A token that is not a dictionary word never yields a whole-word sign:
      it is spelled letter by letter, one image per character a to z of the
      token itself, in order, and none of these images is a dictionary one. */
  lemma SpelledTokenHasOnlyLetters(token: string)
    requires FilterAlpha(token) !in AslDictionary
    ensures |TokenGlyphs(token)| == |AsciiLetters(token)|
    ensures forall k :: 0 <= k < |TokenGlyphs(token)| ==>
      TokenGlyphs(token)[k] == LetterSign(FingerspellingUrl(AsciiLetters(token)[k]))
    ensures forall k, w :: 0 <= k < |TokenGlyphs(token)| && w in AslDictionary ==>
      TokenGlyphs(token)[k].url != AslDictionary[w]
  {
    var letters := AsciiLetters(token);
    SpelledLetters(FilterAlpha(token));
    AsciiLettersOfFiltered(token);
    forall k, w | 0 <= k < |TokenGlyphs(token)| && w in AslDictionary
      ensures TokenGlyphs(token)[k].url != AslDictionary[w]
    {
      AlphabetKeys(letters[k]);
      WordAndLetterImagesDiffer(w, letters[k]);
    }
  }

  /** Punctuation is stripped before the dictionary lookup, so "hello," gets
      the whole-word sign. */
  lemma HelloWithCommaIsSigned()
    ensures TokenGlyphs("hello,") == [WordSign("https://www.lifeprint.com/asl101/gifs/h/hello.gif")]
  {
    assert FilterAlpha("hello,") == "hello" by {
      FilterAlphaOfLetters("hello");
      assert "hello," == "hello" + [','];
      assert "hello,"[..5] == "hello";
    }
  }

  lemma {:induction false} AsciiLettersOfLowercase(s: string)
    requires forall i :: 0 <= i < |s| ==> 'a' <= s[i] <= 'z'
    ensures AsciiLetters(s) == s
    decreases |s|
  {
    if s != [] {
      AsciiLettersOfLowercase(s[1..]);
    }
  }

  /** A word of letters a to z that is not in the dictionary shows one
      fingerspelling image per letter, in order. */
  lemma LowercaseWordIsSpelled(w: string)
    requires forall i :: 0 <= i < |w| ==> 'a' <= w[i] <= 'z'
    requires w !in AslDictionary
    ensures |TokenGlyphs(w)| == |w|
    ensures forall k :: 0 <= k < |w| ==> TokenGlyphs(w)[k] == LetterSign(FingerspellingUrl(w[k]))
  {
    FilterAlphaOfLetters(w);
    AsciiLettersOfLowercase(w);
    SpelledLetters(w);
  }

  /** The lookup is for the exact word: "love" has a sign but "loves" does
      not, so "loves" is fingerspelled letter by letter. */
  lemma LovesIsSpelled()
    ensures "love" in AslDictionary && "loves" !in AslDictionary
    ensures |TokenGlyphs("loves")| == 5
    ensures forall k :: 0 <= k < 5 ==> TokenGlyphs("loves")[k] == LetterSign(FingerspellingUrl("loves"[k]))
  {
    LowercaseWordIsSpelled("loves");
  }

  /** A letter outside a to z (say "é") survives cleaning but has no image:
      appending one to a spelled token adds nothing to what it shows. */
  lemma NonAsciiLetterAddsNothing(token: string, c: char)
    requires IsAlpha(c) && !('a' <= c <= 'z')
    requires FilterAlpha(token) !in AslDictionary
    ensures FilterAlpha(token + [c]) == FilterAlpha(token) + [c]
    ensures TokenGlyphs(token + [c]) == TokenGlyphs(token)
  {
    var clean := FilterAlpha(token);
    assert (token + [c])[..|token|] == token;
    assert (clean + [c])[..|clean|] == clean;
    assert clean + [c] !in AslDictionary by {
      assert (clean + [c])[|clean|] == c;
    }
    AlphabetKeys(c);
  }
}
