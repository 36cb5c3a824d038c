/**
  Post-processing of a translation (`improve_translation_formatting` in
  libretranslate/language.py): the translation takes over the final
  punctuation and the letter case of the source, and degenerate output that
  repeats a few words over and over (the "salad" bug) is cut down to its first
  word. `Format` states the pipeline step by step; `ImproveTranslationFormatting`
  is the imperative procedure of the source, proved equal to it.
*/
module TranslationFormatting {
  import opened PyStr

  /** `punctuation_chars`. */
  predicate IsPunctuation(c: char) {
    c == '!' || c == '?' || c == '.' || c == ',' || c == ';' || c == '\U{3002}'
  }

  function Last(s: string): char
    requires s != []
  {
    s[|s| - 1]
  }

  /**
    Punctuation step. When the source ends in punctuation the translation ends
    in the same character afterwards, its own final punctuation character (if
    any) replaced by it; otherwise a final punctuation character of the
    translation is dropped and nothing else changes.
  */
  function MirrorPunctuation(source: string, translation: string): (r: string)
    requires source != [] && translation != []
    ensures IsPunctuation(Last(source)) ==>
              r != [] && Last(r) == Last(source) &&
              r[..|r| - 1] == (if IsPunctuation(Last(translation)) then translation[..|translation| - 1] else translation)
    ensures IsPunctuation(Last(source)) && Last(translation) == Last(source) ==> r == translation
    ensures !IsPunctuation(Last(source)) && IsPunctuation(Last(translation)) ==> r + [Last(translation)] == translation
    ensures !IsPunctuation(Last(source)) && !IsPunctuation(Last(translation)) ==> r == translation
  {
    var s := Last(source);
    var t := Last(translation);
    if IsPunctuation(s) then
      if t != s then
        (if IsPunctuation(t) then translation[..|translation| - 1] else translation) + [s]
      else translation
    else if IsPunctuation(t) then translation[..|translation| - 1]
    else translation
  }

  /** The `count` dictionary: how often each word occurs, built from left to right. */
  function WordCounts(words: seq<string>): (count: map<string, nat>)
    ensures forall w :: w in count <==> w in words
    ensures forall w :: w in count ==> count[w] == multiset(words)[w]
  {
    if words == [] then map[]
    else
      var m := WordCounts(words[..|words| - 1]);
      var w := words[|words| - 1];
      assert words == words[..|words| - 1] + [w];
      m[w := (if w in m then m[w] else 0) + 1]
  }

  lemma CountOneMore(words: seq<string>, w: string)
    ensures WordCounts(words + [w]) == WordCounts(words)[w := (if w in WordCounts(words) then WordCounts(words)[w] else 0) + 1]
  {
    assert (words + [w])[..|words|] == words;
  }

  /** Some word's count divided by the number of distinct words is at least 2. */
  predicate IsSalad(count: map<string, nat>) {
    exists w :: w in count && count[w] as real / |count| as real >= 2.0
  }

  /** The workaround is tried only for a short single-token source whose translation has a space. */
  predicate SaladCandidate(source: string, translation: string) {
    |source| < 20 && CountChar(source, ' ') == 0 && CountChar(translation, ' ') > 0
  }

  /** The workaround fires: a candidate whose words are dominated by repeats. */
  predicate SaladFires(source: string, translation: string) {
    SaladCandidate(source, translation) && IsSalad(WordCounts(Split(translation)))
  }

  /**
    Salad step: the translation is kept, unless the workaround fires, in which
    case it becomes its first whitespace-delimited word.
  */
  function RemoveSalad(source: string, translation: string): (r: string)
    ensures !SaladFires(source, translation) ==> r == translation
    ensures SaladFires(source, translation) ==>
              Split(translation) != [] && r == Split(translation)[0] && IsWord(r)
  {
    if SaladCandidate(source, translation) then
      var bow := Split(translation);
      SplitGivesWords(translation);
      if IsSalad(WordCounts(bow)) then bow[0] else translation
    else translation
  }

  /**
    Case step. An all-lower-case source gives a lower-cased translation, an
    all-upper-case source an upper-cased one; otherwise only the first
    character of the translation takes the case of the source's first
    character, a first character without case (a digit, a quote, Devanagari)
    leaves the translation as it is, and an empty translation is replaced by
    the source. No step
    changes anything but letter case.
  */
  function MirrorCase(source: string, translation: string): (r: string)
    requires source != []
    ensures IsLower(source) ==> |r| == |translation| && forall i :: 0 <= i < |r| ==> !IsUpperChar(r[i])
    ensures IsUpper(source) ==> |r| == |translation| && forall i :: 0 <= i < |r| ==> !IsLowerChar(r[i])
    ensures translation != [] ==>
              |r| == |translation| && forall i :: 0 <= i < |r| ==> LowerChar(r[i]) == LowerChar(translation[i])
    ensures !IsLower(source) && !IsUpper(source) && translation != [] ==> r[1..] == translation[1..]
    ensures !IsLower(source) && !IsUpper(source) && translation == [] ==> r == source
    ensures !IsLower(source) && !IsUpper(source) && translation != [] && IsLowerChar(source[0]) ==> !IsUpperChar(r[0])
    ensures !IsLower(source) && !IsUpper(source) && translation != [] && IsUpperChar(source[0]) ==> !IsLowerChar(r[0])
    ensures !IsLower(source) && !IsUpper(source) && translation != [] && !IsCased(source[0]) ==> r == translation
  {
    if IsLower(source) then Lower(translation)
    else if IsUpper(source) then Upper(translation)
    else if translation == [] then source
    else if IsLowerChar(source[0]) then [LowerChar(translation[0])] + translation[1..]
    else if IsUpperChar(source[0]) then [UpperChar(translation[0])] + translation[1..]
    else translation
  }

  /**
    The whole pipeline: trim the source; nothing for a blank source; the trimmed
    source for an empty translation; then the punctuation, salad and case steps,
    each on the output of the one before.
  */
  function Format(source: string, translation: string, improvePunctuation: bool, removeSingleWordDuplicates: bool): (r: string)
    ensures Strip(source) == [] ==> r == []
    ensures Strip(source) != [] && translation == [] ==> r == Strip(source)
  {
    var src := Strip(source);
    if src == [] then []
    else if translation == [] then src
    else
      var t1 := if improvePunctuation then MirrorPunctuation(src, translation) else translation;
      var t2 := if removeSingleWordDuplicates then RemoveSalad(src, t1) else t1;
      MirrorCase(src, t2)
  }

  /** The `count` dictionary of `improve_translation_formatting`, filled word by word. */
  method CountWords(bow: seq<string>) returns (count: map<string, nat>)
    ensures count == WordCounts(bow)
  {
    count := map[];
    var i := 0;
    while i < |bow|
      invariant 0 <= i <= |bow|
      invariant count == WordCounts(bow[..i])
    {
      var word := bow[i];
      assert bow[..i + 1] == bow[..i] + [word];
      CountOneMore(bow[..i], word);
      count := count[word := (if word in count then count[word] else 0) + 1];
      i := i + 1;
    }
    assert bow[..i] == bow;
  }

  /** The salad workaround of `improve_translation_formatting`: the `count` loop and the scan of its entries. */
  method RemoveSingleWordDuplicates(source: string, translation: string) returns (r: string)
    ensures r == RemoveSalad(source, translation)
  {
    r := translation;
    if |source| < 20 && CountChar(source, ' ') == 0 && CountChar(translation, ' ') > 0 {
      var bow := Split(translation);
      var count := CountWords(bow);
      var unseen := count.Keys;
      while unseen != {}
        invariant unseen <= count.Keys
        invariant forall w :: w in count && w !in unseen ==> count[w] as real / |count| as real < 2.0
        decreases unseen
      {
        var word :| word in unseen;
        if count[word] as real / |count| as real >= 2.0 {
          r := bow[0];
          break;
        }
        unseen := unseen - {word};
      }
    }
  }

  /** The punctuation step of `improve_translation_formatting`. */
  method ImprovePunctuation(source: string, translation: string) returns (t: string)
    requires source != [] && translation != []
    ensures t == MirrorPunctuation(source, translation)
  {
    t := translation;
    var sourceLastChar := source[|source| - 1];
    var translationLastChar := t[|t| - 1];
    if IsPunctuation(sourceLastChar) {
      if translationLastChar != sourceLastChar {
        if IsPunctuation(translationLastChar) {
          t := t[..|t| - 1];
        }
        t := t + [sourceLastChar];
      }
    } else if IsPunctuation(translationLastChar) {
      t := t[..|t| - 1];
    }
  }

  /** `improve_translation_formatting(source, translation, improve_punctuation, remove_single_word_duplicates)`. */
  method ImproveTranslationFormatting(source: string, translation: string, improvePunctuation: bool, removeSingleWordDuplicates: bool)
    returns (r: string)
    ensures r == Format(source, translation, improvePunctuation, removeSingleWordDuplicates)
  {
    var src := Strip(source);
    if |src| == 0 {
      return "";
    }
    if |translation| == 0 {
      return src;
    }
    var t := translation;
    if improvePunctuation {
      t := ImprovePunctuation(src, translation);
    }
    ghost var punctuated := t;

    if removeSingleWordDuplicates {
      t := RemoveSingleWordDuplicates(src, t);
    }
    assert t == if removeSingleWordDuplicates then RemoveSalad(src, punctuated) else punctuated;

    if IsLower(src) {
      return Lower(t);
    }
    if IsUpper(src) {
      return Upper(t);
    }
    if |t| == 0 {
      return src;
    }
    if IsLowerChar(src[0]) {
      return [LowerChar(t[0])] + t[1..];
    }
    if IsUpperChar(src[0]) {
      return [UpperChar(t[0])] + t[1..];
    }
    return t;
  }

  /** Mirroring punctuation onto a translation that already carries it changes nothing. */
  lemma MirrorPunctuationIdempotent(source: string, translation: string)
    requires source != [] && translation != [] && IsPunctuation(Last(source))
    ensures MirrorPunctuation(source, MirrorPunctuation(source, translation)) == MirrorPunctuation(source, translation)
  {
  }

  /**
    A source ending in punctuation gives a result ending in the same character,
    unless the salad workaround replaced the punctuated translation by its
    first word.
  */
  lemma FormatEndsWithSourcePunctuation(source: string, translation: string, removeSingleWordDuplicates: bool)
    requires Strip(source) != [] && translation != [] && IsPunctuation(Last(Strip(source)))
    requires !(removeSingleWordDuplicates && SaladFires(Strip(source), MirrorPunctuation(Strip(source), translation)))
    ensures Format(source, translation, true, removeSingleWordDuplicates) != []
    ensures Last(Format(source, translation, true, removeSingleWordDuplicates)) == Last(Strip(source))
  {
    var src := Strip(source);
    var t := MirrorPunctuation(src, translation);
    var r := MirrorCase(src, t);
    assert r == Format(source, translation, true, removeSingleWordDuplicates);
    assert LowerChar(r[|r| - 1]) == LowerChar(t[|t| - 1]);
    UncasedLowerChar(r[|r| - 1], Last(src));
  }

  lemma UncasedLowerChar(c: char, p: char)
    requires !IsCased(p) && LowerChar(c) == LowerChar(p)
    ensures c == p
  {
  }

  /** An all-lower-case source gives a result without upper-case letters. */
  lemma FormatLowerSource(source: string, translation: string, improvePunctuation: bool, removeSingleWordDuplicates: bool)
    requires IsLower(Strip(source))
    ensures forall i :: 0 <= i < |Format(source, translation, improvePunctuation, removeSingleWordDuplicates)| ==>
              !IsUpperChar(Format(source, translation, improvePunctuation, removeSingleWordDuplicates)[i])
  {
  }

  /** An all-upper-case source gives a result without lower-case letters. */
  lemma FormatUpperSource(source: string, translation: string, improvePunctuation: bool, removeSingleWordDuplicates: bool)
    requires IsUpper(Strip(source))
    ensures forall i :: 0 <= i < |Format(source, translation, improvePunctuation, removeSingleWordDuplicates)| ==>
              !IsLowerChar(Format(source, translation, improvePunctuation, removeSingleWordDuplicates)[i])
  {
  }

  /** `k` copies of the word `w`. */
  function Copies(w: string, k: nat): (ws: seq<string>)
    ensures |ws| == k && forall i :: 0 <= i < k ==> ws[i] == w
  {
    if k == 0 then [] else [w] + Copies(w, k - 1)
  }

  lemma {:induction false} CopiesCount(w: string, k: nat)
    ensures multiset(Copies(w, k))[w] == k
  {
    if k > 0 {
      CopiesCount(w, k - 1);
      assert Copies(w, k) == [w] + Copies(w, k - 1);
    }
  }

  /** A word repeated `k` times is counted once, with count `k`. */
  lemma WordCountsOfCopies(w: string, k: nat)
    requires k > 0
    ensures WordCounts(Copies(w, k)) == map[w := k]
  {
    CopiesCount(w, k);
    assert w in Copies(w, k);
    var count := WordCounts(Copies(w, k));
    forall v | v in count ensures v == w {
      assert v in Copies(w, k);
    }
  }

  /** One distinct word occurring at least twice is a salad. */
  lemma RepeatedWordIsSalad(w: string, k: nat)
    requires k >= 2
    ensures IsSalad(map[w := k])
  {
    var count := map[w := k];
    assert count.Keys == {w};
    assert |count| == 1;
    assert count[w] as real / |count| as real == k as real;
  }

  /** Two distinct words, the first occurring at least four times, are a salad. */
  lemma DominantWordIsSalad(w: string, v: string, k: nat)
    requires w != v && k >= 4
    ensures IsSalad(map[w := k, v := 1])
  {
    var count := map[w := k, v := 1];
    assert count.Keys == {w, v};
    assert |count| == 2;
    assert count[w] as real / |count| as real == k as real / 2.0;
  }

  /** The word `w` repeated `k` times, joined by single spaces. */
  function Repeated(w: string, k: nat): string {
    Join(Copies(w, k))
  }

  lemma RepeatedLast(w: string, k: nat)
    requires w != [] && k >= 1
    ensures Repeated(w, k) != [] && Last(Repeated(w, k)) == Last(w)
  {
    JoinLast(Copies(w, k));
  }

  lemma RepeatedHasSpace(w: string, k: nat)
    requires w != [] && k >= 2
    ensures CountChar(Repeated(w, k), ' ') > 0
  {
    JoinCons(Copies(w, k));
    assert Repeated(w, k)[|w|] == ' ';
  }

  /**
    For a short single-token source, a translation that repeats one word at
    least twice is reduced to that word.
  */
  lemma SaladCollapsesRepeats(source: string, w: string, k: nat)
    requires |source| < 20 && ' ' !in source && IsWord(w) && k >= 2
    ensures RemoveSalad(source, Repeated(w, k)) == w
  {
    RepeatedHasSpace(w, k);
    SplitJoin(Copies(w, k));
    WordCountsOfCopies(w, k);
    RepeatedWordIsSalad(w, k);
  }

  /**
    The whole pipeline on such a salad: with a trimmed source that does not end
    in punctuation, the result is the repeated word, in the source's case.
  */
  lemma FormatCollapsesSalad(source: string, w: string, k: nat)
    requires source != [] && !IsSpace(source[0]) && !IsSpace(Last(source)) && !IsPunctuation(Last(source))
    requires |source| < 20 && ' ' !in source
    requires IsWord(w) && !IsPunctuation(Last(w)) && k >= 2
    ensures Format(source, Repeated(w, k), true, true) == MirrorCase(source, w)
  {
    var t := Repeated(w, k);
    assert Strip(source) == source by {
      StripTrimmed(source);
    }
    assert MirrorPunctuation(source, t) == t by {
      RepeatedLast(w, k);
    }
    assert RemoveSalad(source, t) == w by {
      SaladCollapsesRepeats(source, w, k);
    }
  }

  /** The workaround is never tried for a source with a space or of 20 characters or more. */
  lemma SaladNeedsShortSingleTokenSource(source: string, translation: string, improvePunctuation: bool)
    requires ' ' in Strip(source) || |Strip(source)| >= 20
    ensures Format(source, translation, improvePunctuation, true) == Format(source, translation, improvePunctuation, false)
  {
    var src := Strip(source);
    if src != [] && translation != [] {
      var t1 := if improvePunctuation then MirrorPunctuation(src, translation) else translation;
      assert !SaladCandidate(src, t1) by {
        assert ' ' in src ==> CountChar(src, ' ') != 0;
      }
    }
  }

  /**
    A punctuation character appended to a salad makes the last word distinct,
    yet with at least five repeats the salad is still reduced to its first word.
  */
  lemma SaladWithPunctuation(source: string, w: string, p: char, k: nat)
    requires |source| < 20 && ' ' !in source
    requires IsWord(w) && IsPunctuation(p) && k >= 5
    ensures RemoveSalad(source, Repeated(w, k) + [p]) == w
  {
    var t := Repeated(w, k) + [p];
    var ws := Copies(w, k - 1) + [w + [p]];
    assert Split(t) == ws by {
      SplitPunctuatedRepeats(w, p, k);
    }
    assert IsSalad(WordCounts(ws)) by {
      WordCountsOfCopies(w, k - 1);
      CountOneMore(Copies(w, k - 1), w + [p]);
      DominantWordIsSalad(w, w + [p], k - 1);
    }
    assert CountChar(t, ' ') > 0 by {
      RepeatedHasSpace(w, k);
      assert t[|w|] == ' ';
    }
    assert ws[0] == w;
  }

  lemma SplitPunctuatedRepeats(w: string, p: char, k: nat)
    requires IsWord(w) && IsPunctuation(p) && k >= 2
    ensures Split(Repeated(w, k) + [p]) == Copies(w, k - 1) + [w + [p]]
  {
    var ws := Copies(w, k - 1) + [w + [p]];
    assert Join(ws) == Repeated(w, k) + [p] by {
      assert Copies(w, k)[..k - 1] == Copies(w, k - 1);
      JoinExtendLast(Copies(w, k), p);
    }
    assert AllWords(ws) by {
      assert ws[k - 1] == w + [p];
      assert IsWord(w + [p]);
    }
    SplitJoin(ws);
  }

  /**
    The workaround runs after the punctuation step and can take away the
    punctuation that step mirrored: a source ending in punctuation whose
    translation repeats a word at least five times gives a result that does
    not end in that punctuation.
  */
  lemma SaladOverridesPunctuation(source: string, w: string, k: nat)
    requires source != [] && !IsSpace(source[0]) && !IsSpace(Last(source)) && IsPunctuation(Last(source))
    requires |source| < 20 && ' ' !in source
    requires IsWord(w) && !IsPunctuation(Last(w)) && k >= 5
    ensures Format(source, Repeated(w, k), true, true) == MirrorCase(source, w)
    ensures Last(Format(source, Repeated(w, k), true, true)) != Last(source)
  {
    var t := Repeated(w, k);
    var p := Last(source);
    assert Strip(source) == source by {
      StripTrimmed(source);
    }
    assert MirrorPunctuation(source, t) == t + [p] by {
      RepeatedLast(w, k);
      assert Last(t) != p;
    }
    assert RemoveSalad(source, t + [p]) == w by {
      SaladWithPunctuation(source, w, p, k);
    }
    MirrorCaseLast(source, w);
  }

  /** The case step cannot turn a character that is not punctuation into punctuation. */
  lemma MirrorCaseLast(source: string, w: string)
    requires source != [] && IsPunctuation(Last(source)) && w != [] && !IsPunctuation(Last(w))
    ensures MirrorCase(source, w) != [] && Last(MirrorCase(source, w)) != Last(source)
  {
    var r := MirrorCase(source, w);
    assert LowerChar(r[|r| - 1]) == LowerChar(w[|w| - 1]);
    if r[|r| - 1] == Last(source) {
      UncasedLowerChar(w[|w| - 1], Last(source));
    }
  }
}
