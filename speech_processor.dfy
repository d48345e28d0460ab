/** SignSynth/speech_processor.py: the `SpeechProcessor` class, the reference
    copy of the transcript assembler. It keeps the running transcript, the
    parallel gloss transcript and the window of recently accepted segments;
    the recognizer loop that feeds it is not part of this model. The four
    callbacks are modelled as one log of the notifications sent, in order. */
module SpeechProcessor {
  import opened Text
  import opened Dedup
  import opened Gloss
  import opened Wrappers

  /** `self.gloss_map` as `load_nlp_resources` sets it up: `Some(g)` for a key
      mapped to `g`, `None` for a word that is not a key. */
  function GlossMap(word: string): Option<string> {
    match word
    case "i" => Some("ME")
    case "you" => Some("YOU")
    case "we" => Some("US")
    case "he" => Some("HE")
    case "she" => Some("SHE")
    case "they" => Some("THEY")
    case "am" => Some("")
    case "is" => Some("")
    case "are" => Some("")
    case "was" => Some("")
    case "were" => Some("")
    case "going" => Some("GO")
    case "go" => Some("GO")
    case "want" => Some("WANT")
    case "have" => Some("HAVE")
    case "had" => Some("HAVE")
    case "don't" => Some("NOT")
    case "not" => Some("NOT")
    case "no" => Some("NOT")
    case "won't" => Some("NOT WILL")
    case "store" => Some("STORE")
    case "because" => Some("WHY")
    case "milk" => Some("MILK")
    case "to" => Some("")
    case "the" => Some("")
    case "a" => Some("")
    case "an" => Some("")
    case "and" => Some("PLUS")
    case "but" => Some("BUT")
    case "this" => Some("THIS")
    case "that" => Some("THAT")
    case "there" => Some("THERE")
    case "here" => Some("HERE")
    case "what" => Some("WHAT")
    case "who" => Some("WHO")
    case "where" => Some("WHERE")
    case "when" => Some("WHEN")
    case "why" => Some("WHY")
    case "how" => Some("HOW")
    case "need" => Some("NEED")
    case "can" => Some("CAN")
    case "will" => Some("WILL")
    case "should" => Some("SHOULD")
    case "must" => Some("MUST")
    case "good" => Some("GOOD")
    case "bad" => Some("BAD")
    case "happy" => Some("HAPPY")
    case "sad" => Some("SAD")
    case "yes" => Some("YES")
    case "okay" => Some("OK")
    case "like" => Some("LIKE")
    case "help" => Some("HELP")
    case _ => None
  }

  /** The table entries of the words of "I am going to the store", all of
      them lower-case words that are not punctuation. */
  lemma StoreSentenceEntries(words: seq<string>, entries: seq<string>)
    requires words == ["i", "am", "going", "to", "the", "store"]
    requires entries == ["ME", "", "GO", "", "", "STORE"]
    ensures forall k :: 0 <= k < |words| ==> GlossMap(words[k]) == Some(entries[k])
    ensures forall k :: 0 <= k < |words| ==> IsLowerWord(words[k])
  {
  }

  /** Of those entries, the non-empty ones. */
  lemma StoreSentenceGlosses()
    ensures Filter(["ME", "", "GO", "", "", "STORE"], g => g != []) == ["ME", "GO", "STORE"]
  {
  }

  /** "I am going to the store" glosses to ME GO STORE whatever the stopword
      list: every one of its words has a table entry, so none is filtered out,
      and the copula, the preposition and the article are elided. */
  lemma GoingToTheStore(corpus: set<string>, words: seq<string>)
    requires words == ["i", "am", "going", "to", "the", "store"]
    ensures KeepMappedGloss(StopWords(corpus), GlossMap, words) == ["ME", "GO", "STORE"]
  {
    var entries := ["ME", "", "GO", "", "", "STORE"];
    StoreSentenceEntries(words, entries);
    StoreSentenceGlosses();
    KeepMappedSentence(StopWords(corpus), GlossMap, words, entries);
  }

  /** "to the" glosses to nothing whatever the stopword list: both words are
      mapped to the empty string. A segment like this one, spoken first,
      leaves the gloss transcript empty. */
  lemma ToTheGlossesToNothing(corpus: set<string>, words: seq<string>)
    requires words == ["to", "the"]
    ensures KeepMappedGloss(StopWords(corpus), GlossMap, words) == []
    ensures Join(" ", KeepMappedGloss(StopWords(corpus), GlossMap, words)) == ""
  {
    var entries := ["", ""];
    ToTheEntries(words, entries);
    ToTheGlosses();
    KeepMappedSentence(StopWords(corpus), GlossMap, words, entries);
  }

  /** The table entries of "to the". */
  lemma ToTheEntries(words: seq<string>, entries: seq<string>)
    requires words == ["to", "the"] && entries == ["", ""]
    ensures forall k :: 0 <= k < |words| ==> GlossMap(words[k]) == Some(entries[k])
    ensures forall k :: 0 <= k < |words| ==> IsLowerWord(words[k])
  {
  }

  /** Both entries of "to the" are empty. */
  lemma ToTheGlosses()
    ensures Filter(["", ""], g => g != []) == []
  {
  }

  /** A call of one of the callbacks `on_status_update`, `on_transcript_update`
      and `on_gloss_update`. */
  datatype Notification = Status(text: string) | TranscriptUpdate(text: string) | GlossUpdate(text: string)

  class SpeechProcessor {
    /** `difflib.SequenceMatcher`, behind `similarity_ratio` */
    const matcher: Matcher
    /** `word_tokenize` */
    const tokenize: Tokenizer
    /** `self.stop_words` */
    const stopWords: set<string>
    /** `self.gloss_map` */
    const glossMap: Table

    var fullTranscript: string
    var fullGloss: string
    /** `self.recent_segments`, oldest first */
    var recentSegments: seq<string>
    var recognitionActive: bool
    /** The callbacks invoked so far, oldest first. */
    var notifications: seq<Notification>
    /** The gloss of every segment accepted since the last reset, in order. */
    ghost var glosses: seq<string>

    ghost predicate Valid()
      reads this
    {
      |recentSegments| <= WindowCapacity && fullGloss == GlossTranscript(glosses)
    }

    /** The state `__init__` and `load_nlp_resources` set up when the recognizer
        starts, ending with the "Status: Ready" report; `corpus` stands for
        NLTK's English stopword list. */
    constructor (matcher: Matcher, tokenize: Tokenizer, corpus: set<string>)
      ensures Valid()
      ensures this.matcher == matcher && this.tokenize == tokenize && stopWords == StopWords(corpus)
      ensures glossMap == GlossMap
      ensures fullTranscript == "" && fullGloss == "" && recentSegments == [] && glosses == []
      ensures recognitionActive && notifications == [Status("Status: Ready")]
    {
      this.matcher := matcher;
      this.tokenize := tokenize;
      stopWords := StopWords(corpus);
      glossMap := GlossMap;
      fullTranscript := "";
      fullGloss := "";
      recentSegments := [];
      recognitionActive := true;
      notifications := [Status("Status: Ready")];
      glosses := [];
    }

    /** `toggle_recognition` */
    method ToggleRecognition() returns (active: bool)
      modifies this`recognitionActive
      ensures recognitionActive == !old(recognitionActive)
      ensures active == recognitionActive
    {
      recognitionActive := !recognitionActive;
      active := recognitionActive;
    }

    /** `reset_transcript` */
    method ResetTranscript() returns (ok: bool)
      modifies this`fullTranscript, this`fullGloss, this`recentSegments, this`notifications, this`glosses
      ensures Valid()
      ensures fullTranscript == "" && fullGloss == "" && recentSegments == [] && glosses == []
      ensures notifications == old(notifications) +
        [TranscriptUpdate(""), GlossUpdate(""), Status("Status: Transcript & Gloss Reset")]
      ensures ok
    {
      fullTranscript := "";
      fullGloss := "";
      recentSegments := [];
      glosses := [];
      notifications := notifications +
        [TranscriptUpdate(""), GlossUpdate(""), Status("Status: Transcript & Gloss Reset")];
      ok := true;
    }

    /** `is_duplicate_segment` */
    method IsDuplicateSegment(text: string) returns (duplicate: bool)
      ensures duplicate == IsDuplicate(matcher, text, recentSegments, fullTranscript)
    {
      if text == [] {
        return true;
      }
      var cleaned := Normalize(text);
      if cleaned == [] {
        return true;
      }
      var similar := SimilarToRecent(cleaned);
      if similar {
        return true;
      }
      var lastPart := LastN(Split(Lower(fullTranscript)), TailWords);
      var lastPartText := if lastPart != [] then Join(" ", lastPart) else "";
      assert lastPartText == TranscriptTail(fullTranscript);
      duplicate := IsSubstring(cleaned, lastPartText);
    }

    /** The `for recent in self.recent_segments` loop of `is_duplicate_segment`:
        is some window entry more than 0.7 similar to the cleaned candidate? */
    method SimilarToRecent(cleaned: string) returns (similar: bool)
      ensures similar == SimilarToWindow(matcher, cleaned, recentSegments)
    {
      for i := 0 to |recentSegments|
        invariant forall k :: 0 <= k < i ==> !TooSimilar(matcher, cleaned, recentSegments[k])
      {
        var similarity := SimilarityRatio(matcher, cleaned, recentSegments[i]);
        TooSimilarIff(matcher, cleaned, recentSegments[i]);
        if similarity > MinSimilarityThreshold {
          return true;
        }
      }
      return false;
    }

    /** `add_text_to_transcript` */
    method AddTextToTranscript(text: string) returns (added: bool)
      requires Valid()
      modifies this`fullTranscript, this`fullGloss, this`recentSegments, this`notifications, this`glosses
      ensures Valid()
      ensures added == !IsDuplicate(matcher, text, old(recentSegments), old(fullTranscript))
      ensures !added ==>
        && fullTranscript == old(fullTranscript) && fullGloss == old(fullGloss)
        && recentSegments == old(recentSegments) && glosses == old(glosses)
        && notifications == old(notifications)
      ensures added ==>
        && recentSegments == PushRecent(old(recentSegments), Normalize(text))
        && fullTranscript == AppendSegment(old(fullTranscript), Clean(text))
        && glosses == old(glosses) + [Join(" ", KeepMappedGloss(stopWords, glossMap, tokenize(Lower(Clean(text)))))]
        && fullGloss == AppendGloss(old(fullGloss), glosses[|glosses| - 1])
        && notifications == old(notifications) + [TranscriptUpdate(fullTranscript), GlossUpdate(fullGloss)]
    {
      if text == [] {
        return false;
      }
      var duplicate := IsDuplicateSegment(text);
      if duplicate {
        return false;
      }
      AcceptSegment(Clean(text));
      added := true;
    }

    /** The part of `add_text_to_transcript` that runs once the segment is
        known not to be a duplicate. */
    method AcceptSegment(cleanedText: string)
      requires Valid()
      modifies this`fullTranscript, this`fullGloss, this`recentSegments, this`notifications, this`glosses
      ensures Valid()
      ensures recentSegments == PushRecent(old(recentSegments), Lower(cleanedText))
      ensures fullTranscript == AppendSegment(old(fullTranscript), cleanedText)
      ensures glosses == old(glosses) + [Join(" ", KeepMappedGloss(stopWords, glossMap, tokenize(Lower(cleanedText))))]
      ensures fullGloss == AppendGloss(old(fullGloss), glosses[|glosses| - 1])
      ensures notifications == old(notifications) + [TranscriptUpdate(fullTranscript), GlossUpdate(fullGloss)]
    {
      recentSegments := PushRecent(recentSegments, Lower(cleanedText));
      if fullTranscript != [] {
        if fullTranscript[|fullTranscript| - 1] in ".!?" {
          fullTranscript := fullTranscript + " " + Capitalize(cleanedText);
        } else {
          fullTranscript := fullTranscript + ". " + Capitalize(cleanedText);
        }
      } else {
        fullTranscript := Capitalize(cleanedText);
      }
      var gloss := ConvertToSignGloss(cleanedText);
      ghost var before := glosses;
      glosses := glosses + [gloss.glossString];
      SnocPrefix(before, gloss.glossString);
      if fullGloss != [] {
        fullGloss := fullGloss + " | " + gloss.glossString;
      } else {
        fullGloss := gloss.glossString;
      }
      notifications := notifications + [TranscriptUpdate(fullTranscript), GlossUpdate(fullGloss)];
    }

    /** `convert_to_sign_gloss` */
    method ConvertToSignGloss(text: string) returns (out: GlossOutput)
      ensures out == Output(KeepMappedGloss(stopWords, glossMap, tokenize(Lower(text))))
    {
      var words := DropPunctuation(tokenize(Lower(text)));
      var filtered := Filter(words, w => KeepMapped(stopWords, glossMap, w));
      var glossSequence: seq<string> := [];
      var i := 0;
      while i < |filtered|
        invariant 0 <= i <= |filtered|
        invariant glossSequence == GlossSequence(filtered[..i], w => LowerKeyGloss(glossMap, w))
      {
        var glossWord := glossMap(Lower(filtered[i])).GetOr(Upper(filtered[i]));
        if glossWord != [] {
          glossSequence := glossSequence + [glossWord];
        }
        PrefixSnoc(filtered, i);
        GlossSequenceAppend(filtered[..i], [filtered[i]], w => LowerKeyGloss(glossMap, w));
        i := i + 1;
      }
      assert filtered[..i] == filtered;
      out := GlossOutput(Join(" ", glossSequence), glossSequence);
    }

    /** `get_transcript` */
    function GetTranscript(): string
      reads this
    {
      fullTranscript
    }

    /** `get_gloss` */
    function GetGloss(): string
      reads this
    {
      fullGloss
    }

    /** `is_active` */
    function IsActive(): bool
      reads this
    {
      recognitionActive
    }
  }
}
