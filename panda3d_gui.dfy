/** panda3dGUI.py: the text-processing state of `SpeechRecognitionApp`, a
    line-for-line copy of the `SpeechProcessor` assembler inside the Panda3D
    window. The widgets it redraws after each change are not part of this
    model; its gloss table is the one of SignSynth/speech_processor.py, entry
    for entry, and is used from there. */
module Panda3dGui {
  import opened Text
  import opened Dedup
  import opened Gloss
  import SpeechProcessor

  class SpeechRecognitionApp {
    /** `difflib.SequenceMatcher`, behind `similarity_ratio` */
    const matcher: Matcher
    /** `word_tokenize` */
    const tokenize: Tokenizer
    /** `self.stop_words` */
    const stopWords: set<string>
    /** `self.gloss_map` */
    const glossMap: Table

    var fullTranscript: string
    var fullGloss: string
    /** `self.recent_segments`, oldest first */
    var recentSegments: seq<string>
    var recognitionActive: bool
    /** The gloss of every segment accepted since the last reset, in order. */
    ghost var glosses: seq<string>

    ghost predicate Valid()
      reads this
    {
      |recentSegments| <= WindowCapacity && fullGloss == GlossTranscript(glosses)
    }

    /** The text-processing state `__init__` sets up; `corpus` stands for NLTK's
        English stopword list. */
    constructor (matcher: Matcher, tokenize: Tokenizer, corpus: set<string>)
      ensures Valid()
      ensures this.matcher == matcher && this.tokenize == tokenize && stopWords == StopWords(corpus)
      ensures glossMap == SpeechProcessor.GlossMap
      ensures fullTranscript == "" && fullGloss == "" && recentSegments == [] && glosses == []
      ensures recognitionActive
    {
      this.matcher := matcher;
      this.tokenize := tokenize;
      stopWords := StopWords(corpus);
      glossMap := SpeechProcessor.GlossMap;
      fullTranscript := "";
      fullGloss := "";
      recentSegments := [];
      recognitionActive := true;
      glosses := [];
    }

    /** `reset_transcript`, without the display updates */
    method ResetTranscript()
      modifies this`fullTranscript, this`fullGloss, this`recentSegments, this`glosses
      ensures Valid()
      ensures fullTranscript == "" && fullGloss == "" && recentSegments == [] && glosses == []
    {
      fullTranscript := "";
      fullGloss := "";
      recentSegments := [];
      glosses := [];
    }

    /** `toggle_recognition`, without the button updates */
    method ToggleRecognition()
      modifies this`recognitionActive
      ensures recognitionActive == !old(recognitionActive)
    {
      recognitionActive := !recognitionActive;
    }

    /** `is_duplicate_segment` */
    method IsDuplicateSegment(text: string) returns (duplicate: bool)
      ensures duplicate == IsDuplicate(matcher, text, recentSegments, fullTranscript)
    {
      if text == [] {
        return true;
      }
      var cleanedText := Normalize(text);
      if cleanedText == [] {
        return true;
      }
      var similar := SimilarToRecent(cleanedText);
      if similar {
        return true;
      }
      var lastPart := LastN(Split(Lower(fullTranscript)), TailWords);
      var lastPartText := if lastPart != [] then Join(" ", lastPart) else "";
      assert lastPartText == TranscriptTail(fullTranscript);
      return IsSubstring(cleanedText, lastPartText);
    }

    /** The `for recent in self.recent_segments` loop of `is_duplicate_segment`:
        is some window entry more than 0.7 similar to the cleaned candidate? */
    method SimilarToRecent(cleaned: string) returns (similar: bool)
      ensures similar == SimilarToWindow(matcher, cleaned, recentSegments)
    {
      for i := 0 to |recentSegments|
        invariant forall k :: 0 <= k < i ==> !TooSimilar(matcher, cleaned, recentSegments[k])
      {
        var similarity := SimilarityRatio(matcher, cleaned, recentSegments[i]);
        TooSimilarIff(matcher, cleaned, recentSegments[i]);
        if similarity > MinSimilarityThreshold {
          return true;
        }
      }
      return false;
    }

    /** `add_text_to_transcript` */
    method AddTextToTranscript(text: string) returns (added: bool)
      requires Valid()
      modifies this`fullTranscript, this`fullGloss, this`recentSegments, this`glosses
      ensures Valid()
      ensures added == !IsDuplicate(matcher, text, old(recentSegments), old(fullTranscript))
      ensures !added ==>
        && fullTranscript == old(fullTranscript) && fullGloss == old(fullGloss)
        && recentSegments == old(recentSegments) && glosses == old(glosses)
      ensures added ==>
        && recentSegments == PushRecent(old(recentSegments), Normalize(text))
        && fullTranscript == AppendSegment(old(fullTranscript), Clean(text))
        && glosses == old(glosses) +
             [Join(" ", KeepMappedGloss(stopWords, glossMap, tokenize(Lower(Clean(text)))))]
        && fullGloss == AppendGloss(old(fullGloss), glosses[|glosses| - 1])
    {
      if text == [] {
        return false;
      }
      var duplicate := IsDuplicateSegment(text);
      if duplicate {
        return false;
      }
      AcceptSegment(Clean(text));
      added := true;
    }

    /** The part of `add_text_to_transcript` that runs once the segment is
        known not to be a duplicate. */
    method AcceptSegment(cleanedText: string)
      requires Valid()
      modifies this`fullTranscript, this`fullGloss, this`recentSegments, this`glosses
      ensures Valid()
      ensures recentSegments == PushRecent(old(recentSegments), Lower(cleanedText))
      ensures fullTranscript == AppendSegment(old(fullTranscript), cleanedText)
      ensures glosses == old(glosses) + [Join(" ", KeepMappedGloss(stopWords, glossMap, tokenize(Lower(cleanedText))))]
      ensures fullGloss == AppendGloss(old(fullGloss), glosses[|glosses| - 1])
    {
      recentSegments := PushRecent(recentSegments, Lower(cleanedText));
      if fullTranscript != [] {
        if fullTranscript[|fullTranscript| - 1] in ".!?" {
          fullTranscript := fullTranscript + " " + Capitalize(cleanedText);
        } else {
          fullTranscript := fullTranscript + ". " + Capitalize(cleanedText);
        }
      } else {
        fullTranscript := Capitalize(cleanedText);
      }
      var gloss := ConvertToSignGloss(cleanedText);
      ghost var before := glosses;
      glosses := glosses + [gloss.glossString];
      SnocPrefix(before, gloss.glossString);
      if fullGloss != [] {
        fullGloss := fullGloss + " | " + gloss.glossString;
      } else {
        fullGloss := gloss.glossString;
      }
    }

    /** `convert_to_sign_gloss`: stopwords with a table entry are kept. */
    method ConvertToSignGloss(text: string) returns (out: GlossOutput)
      ensures out == Output(KeepMappedGloss(stopWords, glossMap, tokenize(Lower(text))))
    {
      var words := DropPunctuation(tokenize(Lower(text)));
      var filtered := Filter(words, w => KeepMapped(stopWords, glossMap, w));
      var glossSequence: seq<string> := [];
      for i := 0 to |filtered|
        invariant glossSequence == GlossSequence(filtered[..i], w => LowerKeyGloss(glossMap, w))
      {
        var glossWord := glossMap(Lower(filtered[i])).GetOr(Upper(filtered[i]));
        if glossWord != [] {
          glossSequence := glossSequence + [glossWord];
        }
        PrefixSnoc(filtered, i);
        GlossSequenceAppend(filtered[..i], [filtered[i]], w => LowerKeyGloss(glossMap, w));
      }
      assert filtered[..|filtered|] == filtered;
      out := GlossOutput(Join(" ", glossSequence), glossSequence);
    }
  }
}
