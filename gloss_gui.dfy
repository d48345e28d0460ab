/** glossGUI.py: the Tk variant of the assembler. Its `GlossConverter` drops
    every stopword, mapped or not, and uses its own gloss table; its
    `SpeechRecognitionApp` keeps no per-segment gloss transcript but, with
    auto-gloss on, re-glosses the whole transcript after each accepted segment
    and shows the result in the gloss box. */
module GlossGui {
  import opened Text
  import opened Dedup
  import opened Gloss
  import opened Wrappers

  /** `GlossConverter.gloss_map`: `Some(g)` for a key mapped to `g`, `None` for a word that is not a key. */
  function GlossMap(word: string): Option<string> {
    match word
    case "i" => Some("ME")
    case "you" => Some("YOU")
    case "we" => Some("US")
    case "he" => Some("HE")
    case "she" => Some("SHE")
    case "they" => Some("THEY")
    case "am" => Some("")
    case "is" => Some("")
    case "are" => Some("")
    case "was" => Some("")
    case "were" => Some("")
    case "going" => Some("GO")
    case "go" => Some("GO")
    case "want" => Some("WANT")
    case "have" => Some("HAVE")
    case "had" => Some("HAVE")
    case "don't" => Some("NOT")
    case "not" => Some("NOT")
    case "doesn't" => Some("NOT")
    case "didn't" => Some("NOT")
    case "store" => Some("STORE")
    case "because" => Some("")
    case "milk" => Some("MILK")
    case "to" => Some("")
    case "the" => Some("")
    case "a" => Some("")
    case "an" => Some("")
    case "and" => Some("")
    case "or" => Some("")
    case "but" => Some("")
    case "this" => Some("THIS")
    case "that" => Some("THAT")
    case "these" => Some("THESE")
    case "those" => Some("THOSE")
    case "for" => Some("FOR")
    case "with" => Some("WITH")
    case "without" => Some("WITHOUT")
    case "can" => Some("CAN")
    case "cannot" => Some("CANNOT")
    case "could" => Some("COULD")
    case "would" => Some("WOULD")
    case "should" => Some("SHOULD")
    case "yes" => Some("YES")
    case "no" => Some("NO")
    case "maybe" => Some("MAYBE")
    case "like" => Some("LIKE")
    case "need" => Some("NEED")
    case "think" => Some("THINK")
    case "today" => Some("TODAY")
    case "tomorrow" => Some("TOMORROW")
    case "yesterday" => Some("YESTERDAY")
    case "now" => Some("NOW")
    case "later" => Some("LATER")
    case "soon" => Some("SOON")
    case "here" => Some("HERE")
    case "there" => Some("THERE")
    case _ => None
  }

  /** `GlossConverter.convert_to_sign_gloss`, with the converter's stopword set
      and NLTK's tokenizer as parameters. */
  function ConvertToSignGloss(stopWords: set<string>, tokenize: Tokenizer, text: string): (out: GlossOutput)
    ensures out.glossString == Join(" ", out.glossSequence)
    ensures var tokens := tokenize(Lower(text));
      forall g :: g in out.glossSequence ==>
        && g != []
        && exists j :: (0 <= j < |tokens| && !IsPunctuation(tokens[j]) &&
                        tokens[j] !in stopWords && WordKeyGloss(GlossMap, tokens[j]) == g)
  {
    var tokens := tokenize(Lower(text));
    DropStopwordsSound(stopWords, GlossMap, tokens);
    Output(DropStopwordsGloss(stopWords, GlossMap, tokens))
  }

  /** A stopword is removed even when the table has an entry for it: with
      "not" among the stopwords, the token "not" yields nothing here, where the
      other filter keeps it as NOT. */
  lemma MappedStopwordRemoved(stopWords: set<string>, word: string)
    requires word == "not" && word in stopWords
    ensures GlossMap(word) == Some("NOT")
    ensures DropStopwordsGloss(stopWords, GlossMap, [word]) == []
    ensures KeepMappedGloss(stopWords, GlossMap, [word]) == ["NOT"]
  {
    assert IsLowerWord(word);
    LowerWordFacts(word);
    DropStopwordsWord(stopWords, GlossMap, word, "NOT");
    KeepMappedWord(stopWords, GlossMap, word, "NOT");
  }

  /** The table entries of the words of "I am going to the store". */
  lemma StoreSentenceEntries(words: seq<string>, entries: seq<string>)
    requires words == ["i", "am", "going", "to", "the", "store"]
    requires entries == ["ME", "", "GO", "", "", "STORE"]
    ensures forall k :: 0 <= k < |words| ==> GlossMap(words[k]) == Some(entries[k])
    ensures forall k :: 0 <= k < |words| ==> IsLowerWord(words[k])
  {
  }

  /** Of those entries, the non-empty ones. */
  lemma StoreSentenceGlosses()
    ensures Filter(["ME", "", "GO", "", "", "STORE"], g => g != []) == ["ME", "GO", "STORE"]
  {
  }

  /** "I am going to the store" glosses to ME GO STORE as long as "going" and
      "store" are not stopwords: "i" is a pronoun kept out of the stopword
      list, and the other words yield nothing whether they are stopwords or not. */
  lemma GoingToTheStore(corpus: set<string>, words: seq<string>)
    requires words == ["i", "am", "going", "to", "the", "store"]
    requires "going" !in corpus && "store" !in corpus
    ensures DropStopwordsGloss(StopWords(corpus), GlossMap, words) == ["ME", "GO", "STORE"]
  {
    var entries := ["ME", "", "GO", "", "", "STORE"];
    StoreSentenceEntries(words, entries);
    StoreSentenceGlosses();
    assert words[0] in PronounExceptions;
    DropStopwordsSentence(StopWords(corpus), GlossMap, words, entries);
  }

  /** What the gloss box shows after `update_gloss_from_transcript`: nothing
      for an empty transcript, otherwise the gloss of the whole transcript. */
  function TranscriptGloss(stopWords: set<string>, tokenize: Tokenizer, transcript: string): string {
    if transcript == [] then "" else ConvertToSignGloss(stopWords, tokenize, transcript).glossString
  }

  /** The text `update_mainbox` shows: the transcript (or the text it is
      given) followed, in real-time mode, by the capitalised current partial. */
  function ComposeDisplay(base: string, partial: string, realTime: bool): string {
    if realTime && partial != [] then
      if base != [] then
        if base[|base| - 1] in ".!?" then base + " " + Capitalize(partial)
        else base + ". " + Capitalize(partial)
      else Capitalize(partial)
    else base
  }

  /** The partial is joined to the transcript by the same rule that appends an
      accepted segment, and without a partial (or outside real-time mode) the
      transcript is shown as it is. */
  lemma ComposeDisplayIsAppend(base: string, partial: string, realTime: bool)
    ensures ComposeDisplay(base, partial, realTime) ==
      if realTime && partial != [] then AppendSegment(base, partial) else base
    ensures base <= ComposeDisplay(base, partial, realTime)
  {
    if realTime && partial != [] {
      AppendSegmentShape(base, partial);
    }
  }

  class SpeechRecognitionApp {
    /** `difflib.SequenceMatcher`, behind `similarity_ratio` */
    const matcher: Matcher
    /** `word_tokenize` */
    const tokenize: Tokenizer
    /** `gloss_converter.stop_words` */
    const stopWords: set<string>

    var fullTranscript: string
    var currentPartial: string
    /** `self.recent_segments`, oldest first */
    var recentSegments: seq<string>
    var recognitionActive: bool
    /** the "auto-convert to gloss" check box */
    var autoGloss: bool
    /** the "real-time" check box */
    var realTime: bool
    /** the text of the gloss box */
    var glossBox: string

    ghost predicate Valid()
      reads this
    {
      |recentSegments| <= WindowCapacity
    }

    /** The text-processing state `__init__` sets up; `corpus` stands for NLTK's
        English stopword list. */
    constructor (matcher: Matcher, tokenize: Tokenizer, corpus: set<string>)
      ensures Valid()
      ensures this.matcher == matcher && this.tokenize == tokenize && stopWords == StopWords(corpus)
      ensures fullTranscript == "" && currentPartial == "" && recentSegments == [] && glossBox == ""
      ensures recognitionActive && autoGloss && realTime
    {
      this.matcher := matcher;
      this.tokenize := tokenize;
      stopWords := StopWords(corpus);
      fullTranscript := "";
      currentPartial := "";
      recentSegments := [];
      recognitionActive := true;
      autoGloss := true;
      realTime := true;
      glossBox := "";
    }

    /** `reset_transcript`, with the gloss box cleared */
    method ResetTranscript()
      modifies this`fullTranscript, this`currentPartial, this`recentSegments, this`glossBox
      ensures Valid()
      ensures fullTranscript == "" && currentPartial == "" && recentSegments == [] && glossBox == ""
    {
      fullTranscript := "";
      currentPartial := "";
      recentSegments := [];
      glossBox := "";
    }

    /** `toggle_recognition`, without the button updates */
    method ToggleRecognition()
      modifies this`recognitionActive
      ensures recognitionActive == !old(recognitionActive)
    {
      recognitionActive := !recognitionActive;
    }

    /** `is_duplicate_segment` */
    method IsDuplicateSegment(text: string) returns (duplicate: bool)
      ensures duplicate == IsDuplicate(matcher, text, recentSegments, fullTranscript)
    {
      if text == [] {
        return true;
      }
      var cleanedText := Normalize(text);
      if cleanedText == [] {
        return true;
      }
      var similar := SimilarToRecent(cleanedText);
      if similar {
        return true;
      }
      var lastPart := LastN(Split(Lower(fullTranscript)), TailWords);
      var lastPartText := if lastPart != [] then Join(" ", lastPart) else "";
      assert lastPartText == TranscriptTail(fullTranscript);
      return IsSubstring(cleanedText, lastPartText);
    }

    /** The `for recent in self.recent_segments` loop of `is_duplicate_segment`:
        is some window entry more than 0.7 similar to the cleaned candidate? */
    method SimilarToRecent(cleaned: string) returns (similar: bool)
      ensures similar == SimilarToWindow(matcher, cleaned, recentSegments)
    {
      for i := 0 to |recentSegments|
        invariant forall k :: 0 <= k < i ==> !TooSimilar(matcher, cleaned, recentSegments[k])
      {
        var similarity := SimilarityRatio(matcher, cleaned, recentSegments[i]);
        TooSimilarIff(matcher, cleaned, recentSegments[i]);
        if similarity > MinSimilarityThreshold {
          return true;
        }
      }
      return false;
    }

    /** `add_text_to_transcript` */
    method AddTextToTranscript(text: string) returns (added: bool)
      requires Valid()
      modifies this`fullTranscript, this`recentSegments, this`glossBox
      ensures Valid()
      ensures added == !IsDuplicate(matcher, text, old(recentSegments), old(fullTranscript))
      ensures !added ==>
        && fullTranscript == old(fullTranscript) && recentSegments == old(recentSegments)
        && glossBox == old(glossBox)
      ensures added ==>
        && recentSegments == PushRecent(old(recentSegments), Normalize(text))
        && fullTranscript == AppendSegment(old(fullTranscript), Clean(text))
        && glossBox == if autoGloss then TranscriptGloss(stopWords, tokenize, fullTranscript) else old(glossBox)
    {
      if text == [] {
        return false;
      }
      var duplicate := IsDuplicateSegment(text);
      if duplicate {
        return false;
      }
      AcceptSegment(Clean(text));
      added := true;
    }

    /** The part of `add_text_to_transcript` that runs once the segment is
        known not to be a duplicate. */
    method AcceptSegment(cleanedText: string)
      requires Valid()
      modifies this`fullTranscript, this`recentSegments, this`glossBox
      ensures Valid()
      ensures recentSegments == PushRecent(old(recentSegments), Lower(cleanedText))
      ensures fullTranscript == AppendSegment(old(fullTranscript), cleanedText)
      ensures glossBox == if autoGloss then TranscriptGloss(stopWords, tokenize, fullTranscript) else old(glossBox)
    {
      recentSegments := PushRecent(recentSegments, Lower(cleanedText));
      if fullTranscript != [] {
        if fullTranscript[|fullTranscript| - 1] in ".!?" {
          fullTranscript := fullTranscript + " " + Capitalize(cleanedText);
        } else {
          fullTranscript := fullTranscript + ". " + Capitalize(cleanedText);
        }
      } else {
        fullTranscript := Capitalize(cleanedText);
      }
      if autoGloss {
        UpdateGlossFromTranscript();
      }
    }

    /** `update_gloss_from_transcript` */
    method UpdateGlossFromTranscript()
      modifies this`glossBox
      ensures glossBox == TranscriptGloss(stopWords, tokenize, fullTranscript)
    {
      if fullTranscript == [] {
        glossBox := "";
        return;
      }
      var gloss := ConvertToSignGloss(stopWords, tokenize, fullTranscript);
      glossBox := gloss.glossString;
    }
  }
}
