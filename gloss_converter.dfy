/** gloss_converter.py: the stand-alone translator, a module-level
    `convert_to_sign_gloss` over module-level tables. It drops every stopword,
    mapped or not, and has the smallest of the gloss tables. */
module GlossConverter {
  import opened Text
  import opened Gloss
  import opened Wrappers

  /** The module-level `gloss_map`: `Some(g)` for a key mapped to `g`, `None` for a word that is not a key. */
  function GlossMap(word: string): Option<string> {
    match word
    case "i" => Some("ME")
    case "you" => Some("YOU")
    case "we" => Some("US")
    case "he" => Some("HE")
    case "she" => Some("SHE")
    case "they" => Some("THEY")
    case "am" => Some("")
    case "is" => Some("")
    case "are" => Some("")
    case "going" => Some("GO")
    case "go" => Some("GO")
    case "want" => Some("WANT")
    case "have" => Some("HAVE")
    case "don't" => Some("NOT")
    case "not" => Some("NOT")
    case "store" => Some("STORE")
    case "because" => Some("")
    case "milk" => Some("MILK")
    case "to" => Some("")
    case _ => None
  }

  /** `convert_to_sign_gloss`; `corpus` stands for NLTK's English stopword
      list, from which the module-level `stop_words` is built. */
  function ConvertToSignGloss(corpus: set<string>, tokenize: Tokenizer, text: string): (out: GlossOutput)
    ensures out.glossString == Join(" ", out.glossSequence)
    ensures var tokens := tokenize(Lower(text));
      forall g :: g in out.glossSequence ==>
        && g != []
        && exists j :: (0 <= j < |tokens| && !IsPunctuation(tokens[j]) &&
                        tokens[j] !in StopWords(corpus) && WordKeyGloss(GlossMap, tokens[j]) == g)
  {
    var tokens := tokenize(Lower(text));
    DropStopwordsSound(StopWords(corpus), GlossMap, tokens);
    Output(DropStopwordsGloss(StopWords(corpus), GlossMap, tokens))
  }


  /** The table entries of the words of "I want milk". */
  lemma MilkSentenceEntries(words: seq<string>, entries: seq<string>)
    requires words == ["i", "want", "milk"]
    requires entries == ["ME", "WANT", "MILK"]
    ensures forall k :: 0 <= k < |words| ==> GlossMap(words[k]) == Some(entries[k])
    ensures forall k :: 0 <= k < |words| ==> IsLowerWord(words[k])
  {
  }

  /** None of those entries is empty. */
  lemma MilkSentenceGlosses()
    ensures Filter(["ME", "WANT", "MILK"], g => g != []) == ["ME", "WANT", "MILK"]
  {
  }

  /** "I want milk" glosses to ME WANT MILK as long as "want" and "milk" are
      not stopwords: "i" is a pronoun kept out of the stopword list. */
  lemma IWantMilk(corpus: set<string>, words: seq<string>)
    requires words == ["i", "want", "milk"]
    requires "want" !in corpus && "milk" !in corpus
    ensures DropStopwordsGloss(StopWords(corpus), GlossMap, words) == ["ME", "WANT", "MILK"]
  {
    var entries := ["ME", "WANT", "MILK"];
    MilkSentenceEntries(words, entries);
    MilkSentenceGlosses();
    assert words[0] in PronounExceptions;
    DropStopwordsSentence(StopWords(corpus), GlossMap, words, entries);
  }

  /** A token the table maps to the empty string is elided, stopword or not:
      "to" yields nothing. */
  lemma EmptyEntryElided(corpus: set<string>, word: string)
    requires word == "to"
    ensures GlossMap(word) == Some("")
    ensures DropStopwordsGloss(StopWords(corpus), GlossMap, [word]) == []
  {
    DropStopwordsWord(StopWords(corpus), GlossMap, word, "");
  }
}
