/** The gloss translator's pipeline, shared by every copy of
    `convert_to_sign_gloss`: tokens, minus punctuation, minus the filtered
    stopwords, each mapped through the gloss table or upper-cased, minus the
    empty glosses, joined with blanks. The copies differ only in their tables
    and in their stopword filter; each file's module supplies those. */
module Gloss {
  import opened Text
  import opened Wrappers

  /** `string.punctuation` */
  const Punctuation: string := "!\"#$%&'()*+,-./:;<=>?@[\\]^_`{|}~"

  /** The pronouns taken out of the stopword list so that they survive filtering. */
  const PronounExceptions: set<string> :=
    {"i", "you", "we", "he", "she", "they", "me", "my", "your", "our", "his", "her", "their"}

  /** Stands for NLTK's `word_tokenize`. */
  type Tokenizer = string -> seq<string>

  /** `set(stopwords.words('english')) - {pronouns}`, where `corpus` stands for
      NLTK's English stopword list. */
  function StopWords(corpus: set<string>): set<string> {
    corpus - PronounExceptions
  }

  /** `word in string.punctuation`: a substring test against the punctuation
      string, not a test on single characters. */
  predicate IsPunctuation(word: string) {
    IsSubstring(word, Punctuation)
  }

  /** A gloss dictionary: `table(w)` is `Some(g)` when the dictionary maps `w`
      to `g`, and `None` when `w` is not one of its keys. */
  type Table = string -> Option<string>

  /** `[x for x in xs if keep(x)]` */
  function Filter(xs: seq<string>, keep: string -> bool): seq<string> {
    if xs == [] then [] else (if keep(xs[0]) then [xs[0]] else []) + Filter(xs[1..], keep)
  }

  /** `[word for word in words if word not in string.punctuation]` */
  function DropPunctuation(words: seq<string>): seq<string> {
    Filter(words, w => !IsPunctuation(w))
  }

  /** Each word's gloss, in order, leaving out the glosses that are empty. */
  function GlossSequence(words: seq<string>, gloss: string -> string): seq<string> {
    if words == [] then []
    else (if gloss(words[0]) != [] then [gloss(words[0])] else []) + GlossSequence(words[1..], gloss)
  }

  /** What `convert_to_sign_gloss` returns: `gloss_string` and the sequence held
      by `gloss_json["gloss_sequence"]`. */
  datatype GlossOutput = GlossOutput(glossString: string, glossSequence: seq<string>)

  function Output(glossSequence: seq<string>): GlossOutput {
    GlossOutput(Join(" ", glossSequence), glossSequence)
  }

  /** Filtering works word by word: it keeps the input order. */
  lemma {:induction false} FilterAppend(xs: seq<string>, ys: seq<string>, keep: string -> bool)
    ensures Filter(xs + ys, keep) == Filter(xs, keep) + Filter(ys, keep)
    decreases |xs|
  {
    if xs == [] {
      assert xs + ys == ys;
    } else {
      assert (xs + ys)[0] == xs[0] && (xs + ys)[1..] == xs[1..] + ys;
      FilterAppend(xs[1..], ys, keep);
    }
  }

  /** A word survives filtering exactly when it was in the input and passes the test. */
  lemma {:induction false} FilterMembers(xs: seq<string>, keep: string -> bool, x: string)
    ensures x in Filter(xs, keep) <==> x in xs && keep(x)
    decreases |xs|
  {
    if xs != [] {
      FilterMembers(xs[1..], keep, x);
      assert xs == [xs[0]] + xs[1..];
    }
  }

  /** The gloss sequence is built word by word: it keeps the input order. */
  lemma {:induction false} GlossSequenceAppend(xs: seq<string>, ys: seq<string>, gloss: string -> string)
    ensures GlossSequence(xs + ys, gloss) == GlossSequence(xs, gloss) + GlossSequence(ys, gloss)
    decreases |xs|
  {
    if xs == [] {
      assert xs + ys == ys;
    } else {
      assert (xs + ys)[0] == xs[0] && (xs + ys)[1..] == xs[1..] + ys;
      GlossSequenceAppend(xs[1..], ys, gloss);
    }
  }

  /** Every element of the gloss sequence is the non-empty gloss of some input
      word, and every non-empty gloss of an input word appears in it. */
  lemma {:induction false} GlossSequenceMembers(words: seq<string>, gloss: string -> string, g: string)
    ensures g in GlossSequence(words, gloss) <==>
      g != [] && exists j :: 0 <= j < |words| && gloss(words[j]) == g
    decreases |words|
  {
    if words != [] {
      GlossSequenceMembers(words[1..], gloss, g);
      if exists j :: 0 <= j < |words[1..]| && gloss(words[1..][j]) == g {
        var j :| 0 <= j < |words[1..]| && gloss(words[1..][j]) == g;
        assert gloss(words[j + 1]) == g;
      }
      if exists j :: 0 <= j < |words| && gloss(words[j]) == g {
        var j :| 0 <= j < |words| && gloss(words[j]) == g;
        if j > 0 {
          assert gloss(words[1..][j - 1]) == g;
        }
      }
    }
  }

  /** No element of the gloss sequence is the empty string. */
  lemma NoEmptyGloss(words: seq<string>, gloss: string -> string)
    ensures forall k :: 0 <= k < |GlossSequence(words, gloss)| ==> GlossSequence(words, gloss)[k] != []
  {
    forall k | 0 <= k < |GlossSequence(words, gloss)|
      ensures GlossSequence(words, gloss)[k] != []
    {
      GlossSequenceMembers(words, gloss, GlossSequence(words, gloss)[k]);
    }
  }

  /** The empty token is always dropped as punctuation (it occurs in every
      string), and so is a run of punctuation characters that occurs in
      `string.punctuation`, such as `!"#`, although it is not one character. */
  lemma PunctuationIsSubstringTest()
    ensures IsPunctuation("") && IsPunctuation("!") && IsPunctuation("!\"#")
  {
    assert "!\"#" <= Punctuation;
    assert "!" <= Punctuation;
    assert [] <= Punctuation;
  }

  /** Every token that is not punctuation is non-empty, and so is its upper-cased form. */
  lemma NonPunctuationNonEmpty(word: string)
    requires !IsPunctuation(word)
    ensures word != [] && Upper(word) != []
  {
    assert [] <= Punctuation;
  }

  /** A token with a character outside `string.punctuation` (a letter, a digit)
      is never dropped as punctuation. */
  lemma WordIsNotPunctuation(word: string, k: nat)
    requires k < |word| && word[k] !in Punctuation
    ensures !IsPunctuation(word)
  {
    SubstringIff(word, Punctuation);
  }

  /** A non-empty word of lower-case ASCII letters, as the examples below use. */
  predicate IsLowerWord(word: string) {
    word != [] && forall i :: 0 <= i < |word| ==> 'a' <= word[i] <= 'z'
  }

  /** A lower-case word is its own lower-cased form, and it is not punctuation. */
  lemma LowerWordFacts(word: string)
    requires IsLowerWord(word)
    ensures Lower(word) == word && word[0] !in Punctuation
  {
  }

  // The two stopword filters found in the copies of `convert_to_sign_gloss`.

  /** SignSynth/speech_processor.py and panda3dGUI.py keep a stopword when the
      table has an entry for its lower-cased form. */
  predicate KeepMapped(stopWords: set<string>, table: Table, word: string) {
    word !in stopWords || table(Lower(word)).Some?
  }

  /** `gloss_map.get(word.lower(), word.upper())` */
  function LowerKeyGloss(table: Table, word: string): string {
    table(Lower(word)).GetOr(Upper(word))
  }

  /** The gloss sequence of SignSynth/speech_processor.py and panda3dGUI.py. */
  function KeepMappedGloss(stopWords: set<string>, table: Table, tokens: seq<string>): seq<string> {
    GlossSequence(Filter(DropPunctuation(tokens), w => KeepMapped(stopWords, table, w)), w => LowerKeyGloss(table, w))
  }

  /** `gloss_map.get(word, word.upper())` */
  function WordKeyGloss(table: Table, word: string): string {
    table(word).GetOr(Upper(word))
  }

  /** The gloss sequence of glossGUI.py and gloss_converter.py: every stopword is
      dropped, whether or not the table has an entry for it. */
  function DropStopwordsGloss(stopWords: set<string>, table: Table, tokens: seq<string>): seq<string> {
    GlossSequence(Filter(DropPunctuation(tokens), w => w !in stopWords), w => WordKeyGloss(table, w))
  }

  /** The tokens are glossed one by one, in input order (first filter). */
  lemma KeepMappedAppend(stopWords: set<string>, table: Table, xs: seq<string>, ys: seq<string>)
    ensures KeepMappedGloss(stopWords, table, xs + ys) ==
      KeepMappedGloss(stopWords, table, xs) + KeepMappedGloss(stopWords, table, ys)
  {
    FilterAppend(xs, ys, w => !IsPunctuation(w));
    FilterAppend(DropPunctuation(xs), DropPunctuation(ys), w => KeepMapped(stopWords, table, w));
    GlossSequenceAppend(Filter(DropPunctuation(xs), w => KeepMapped(stopWords, table, w)),
                        Filter(DropPunctuation(ys), w => KeepMapped(stopWords, table, w)),
                        w => LowerKeyGloss(table, w));
  }

  /** The tokens are glossed one by one, in input order (second filter). */
  lemma DropStopwordsAppend(stopWords: set<string>, table: Table, xs: seq<string>, ys: seq<string>)
    ensures DropStopwordsGloss(stopWords, table, xs + ys) ==
      DropStopwordsGloss(stopWords, table, xs) + DropStopwordsGloss(stopWords, table, ys)
  {
    FilterAppend(xs, ys, w => !IsPunctuation(w));
    FilterAppend(DropPunctuation(xs), DropPunctuation(ys), w => w !in stopWords);
    GlossSequenceAppend(Filter(DropPunctuation(xs), w => w !in stopWords),
                        Filter(DropPunctuation(ys), w => w !in stopWords),
                        w => WordKeyGloss(table, w));
  }

  lemma FilterOne(x: string, keep: string -> bool)
    ensures Filter([x], keep) == if keep(x) then [x] else []
  {
    assert [x][1..] == [];
  }

  lemma GlossSequenceOne(x: string, gloss: string -> string)
    ensures GlossSequence([x], gloss) == if gloss(x) == [] then [] else [gloss(x)]
  {
    assert [x][1..] == [];
  }

  /** What one token contributes under the first filter: nothing when it is
      punctuation, nothing when it is a stopword without a table entry, nothing
      when its entry is empty, and otherwise its entry or, without one, its
      upper-cased form. A stopword with a non-empty entry survives. */
  lemma KeepMappedOneToken(stopWords: set<string>, table: Table, word: string)
    ensures KeepMappedGloss(stopWords, table, [word]) ==
      if IsPunctuation(word) || (word in stopWords && table(Lower(word)).None?) then []
      else if table(Lower(word)).Some? then (if table(Lower(word)).value == [] then [] else [table(Lower(word)).value])
      else [Upper(word)]
  {
    if IsPunctuation(word) || !KeepMapped(stopWords, table, word) {
      KeepMappedDropsToken(stopWords, table, word);
    } else {
      KeepMappedKeepsToken(stopWords, table, word);
      GlossSequenceOne(word, w => LowerKeyGloss(table, w));
      NonPunctuationNonEmpty(word);
    }
  }

  lemma KeepMappedDropsToken(stopWords: set<string>, table: Table, word: string)
    requires IsPunctuation(word) || !KeepMapped(stopWords, table, word)
    ensures KeepMappedGloss(stopWords, table, [word]) == []
  {
    FilterOne(word, w => !IsPunctuation(w));
    if !IsPunctuation(word) {
      FilterOne(word, w => KeepMapped(stopWords, table, w));
    }
  }

  lemma KeepMappedKeepsToken(stopWords: set<string>, table: Table, word: string)
    requires !IsPunctuation(word) && KeepMapped(stopWords, table, word)
    ensures KeepMappedGloss(stopWords, table, [word]) == GlossSequence([word], w => LowerKeyGloss(table, w))
  {
    FilterOne(word, w => !IsPunctuation(w));
    FilterOne(word, w => KeepMapped(stopWords, table, w));
  }

  /** What one token contributes under the second filter: nothing when it is
      punctuation or a stopword (even one with a table entry), nothing when its
      entry is empty, and otherwise its entry or its upper-cased form. */
  lemma DropStopwordsOneToken(stopWords: set<string>, table: Table, word: string)
    ensures DropStopwordsGloss(stopWords, table, [word]) ==
      if IsPunctuation(word) || word in stopWords then []
      else if table(word).Some? then (if table(word).value == [] then [] else [table(word).value])
      else [Upper(word)]
  {
    FilterOne(word, w => !IsPunctuation(w));
    if IsPunctuation(word) {
      assert DropPunctuation([word]) == [];
    } else {
      FilterOne(word, w => w !in stopWords);
      if word !in stopWords {
        GlossSequenceOne(word, w => WordKeyGloss(table, w));
        NonPunctuationNonEmpty(word);
      }
    }
  }

  /** Everything the first filter's translator emits is the non-empty gloss of
      an input token that is not punctuation and passes the filter. */
  lemma KeepMappedElements(stopWords: set<string>, table: Table, tokens: seq<string>, g: string)
    requires g in KeepMappedGloss(stopWords, table, tokens)
    ensures g != []
    ensures exists j :: (0 <= j < |tokens| && !IsPunctuation(tokens[j]) &&
                         KeepMapped(stopWords, table, tokens[j]) && LowerKeyGloss(table, tokens[j]) == g)
  {
    var words := DropPunctuation(tokens);
    var kept := Filter(words, w => KeepMapped(stopWords, table, w));
    GlossSequenceMembers(kept, w => LowerKeyGloss(table, w), g);
    var j :| 0 <= j < |kept| && LowerKeyGloss(table, kept[j]) == g;
    assert kept[j] in kept;
    FilterMembers(words, w => KeepMapped(stopWords, table, w), kept[j]);
    FilterMembers(tokens, w => !IsPunctuation(w), kept[j]);
    var t :| 0 <= t < |tokens| && tokens[t] == kept[j];
  }

  /** Everything the second filter's translator emits is the non-empty gloss of
      an input token that is neither punctuation nor a stopword. */
  lemma DropStopwordsElements(stopWords: set<string>, table: Table, tokens: seq<string>, g: string)
    requires g in DropStopwordsGloss(stopWords, table, tokens)
    ensures g != []
    ensures exists j :: (0 <= j < |tokens| && !IsPunctuation(tokens[j]) &&
                         tokens[j] !in stopWords && WordKeyGloss(table, tokens[j]) == g)
  {
    var words := DropPunctuation(tokens);
    var kept := Filter(words, w => w !in stopWords);
    GlossSequenceMembers(kept, w => WordKeyGloss(table, w), g);
    var j :| 0 <= j < |kept| && WordKeyGloss(table, kept[j]) == g;
    assert kept[j] in kept;
    FilterMembers(words, w => w !in stopWords, kept[j]);
    FilterMembers(tokens, w => !IsPunctuation(w), kept[j]);
    var t :| 0 <= t < |tokens| && tokens[t] == kept[j];
  }

  /** Every element the second filter's translator emits is non-empty and the
      gloss of an input token that is neither punctuation nor a stopword. */
  lemma DropStopwordsSound(stopWords: set<string>, table: Table, tokens: seq<string>)
    ensures forall g :: g in DropStopwordsGloss(stopWords, table, tokens) ==>
      && g != []
      && exists j :: (0 <= j < |tokens| && !IsPunctuation(tokens[j]) &&
                      tokens[j] !in stopWords && WordKeyGloss(table, tokens[j]) == g)
  {
    forall g | g in DropStopwordsGloss(stopWords, table, tokens)
      ensures g != []
      ensures exists j :: (0 <= j < |tokens| && !IsPunctuation(tokens[j]) &&
                           tokens[j] !in stopWords && WordKeyGloss(table, tokens[j]) == g)
    {
      DropStopwordsElements(stopWords, table, tokens, g);
    }
  }

  /** Under the first filter, a lower-case word with a table entry glosses to
      that entry, or to nothing when the entry is empty, stopword or not. */
  lemma KeepMappedWord(stopWords: set<string>, table: Table, word: string, g: string)
    requires table(word) == Some(g) && Lower(word) == word
    requires word != [] && word[0] !in Punctuation
    ensures KeepMappedGloss(stopWords, table, [word]) == if g == [] then [] else [g]
  {
    WordIsNotPunctuation(word, 0);
    KeepMappedOneToken(stopWords, table, word);
  }

  /** Under the first filter, a sentence of lower-case words that all have
      table entries glosses to its non-empty entries, in order, whatever the
      stopword list. */
  lemma {:induction false} KeepMappedSentence(stopWords: set<string>, table: Table, words: seq<string>, entries: seq<string>)
    requires |words| == |entries|
    requires forall k :: 0 <= k < |words| ==> table(words[k]) == Some(entries[k])
    requires forall k :: 0 <= k < |words| ==> IsLowerWord(words[k])
    ensures KeepMappedGloss(stopWords, table, words) == Filter(entries, g => g != [])
    decreases |words|
  {
    if words != [] {
      var n := |words| - 1;
      KeepMappedSentence(stopWords, table, words[..n], entries[..n]);
      LowerWordFacts(words[n]);
      KeepMappedWord(stopWords, table, words[n], entries[n]);
      SplitLast(words);
      SplitLast(entries);
      KeepMappedSentenceStep(stopWords, table, words[..n], words[n], entries[..n], entries[n]);
    }
  }

  lemma KeepMappedSentenceStep(stopWords: set<string>, table: Table, init: seq<string>, word: string,
                               initEntries: seq<string>, entry: string)
    requires KeepMappedGloss(stopWords, table, init) == Filter(initEntries, g => g != [])
    requires KeepMappedGloss(stopWords, table, [word]) == if entry == [] then [] else [entry]
    ensures KeepMappedGloss(stopWords, table, init + [word]) == Filter(initEntries + [entry], g => g != [])
  {
    KeepMappedAppend(stopWords, table, init, [word]);
    FilterAppend(initEntries, [entry], g => g != []);
    FilterOne(entry, g => g != []);
  }

  /** Under the second filter, a word with a table entry glosses to that entry,
      or to nothing when it is a stopword or the entry is empty. */
  lemma DropStopwordsWord(stopWords: set<string>, table: Table, word: string, g: string)
    requires table(word) == Some(g)
    requires word != [] && word[0] !in Punctuation
    ensures DropStopwordsGloss(stopWords, table, [word]) == if word in stopWords || g == [] then [] else [g]
  {
    WordIsNotPunctuation(word, 0);
    DropStopwordsOneToken(stopWords, table, word);
  }

  /** Under the second filter, a sentence of words that all have table
      entries, none of them a stopword unless its entry is empty anyway,
      glosses to its non-empty entries, in order. */
  lemma {:induction false} DropStopwordsSentence(stopWords: set<string>, table: Table, words: seq<string>, entries: seq<string>)
    requires |words| == |entries|
    requires forall k :: 0 <= k < |words| ==> table(words[k]) == Some(entries[k])
    requires forall k :: 0 <= k < |words| ==> IsLowerWord(words[k])
    requires forall k :: 0 <= k < |words| && words[k] in stopWords ==> entries[k] == []
    ensures DropStopwordsGloss(stopWords, table, words) == Filter(entries, g => g != [])
    decreases |words|
  {
    if words != [] {
      var n := |words| - 1;
      DropStopwordsSentence(stopWords, table, words[..n], entries[..n]);
      LowerWordFacts(words[n]);
      DropStopwordsWord(stopWords, table, words[n], entries[n]);
      SplitLast(words);
      SplitLast(entries);
      DropStopwordsSentenceStep(stopWords, table, words[..n], words[n], entries[..n], entries[n]);
    }
  }

  lemma DropStopwordsSentenceStep(stopWords: set<string>, table: Table, init: seq<string>, word: string,
                                  initEntries: seq<string>, entry: string)
    requires DropStopwordsGloss(stopWords, table, init) == Filter(initEntries, g => g != [])
    requires DropStopwordsGloss(stopWords, table, [word]) == if entry == [] then [] else [entry]
    ensures DropStopwordsGloss(stopWords, table, init + [word]) == Filter(initEntries + [entry], g => g != [])
  {
    DropStopwordsAppend(stopWords, table, init, [word]);
    FilterAppend(initEntries, [entry], g => g != []);
    FilterOne(entry, g => g != []);
  }
}
