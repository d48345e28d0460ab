/** liveVoskGUI.py: the alternate deduplicator, which keeps the transcript as
    a growing list of words and, for each recognized chunk, appends only the
    part that the last 30 words do not already hold. The ten most recent
    chunks it accepted are kept to reject repeats outright. */
module LiveVoskGui {
  import opened Text
  import opened Wrappers
  import Dedup

  /** `word_history[-30:]`: how many history words the overlap test looks at. */
  const HistoryTailWords: nat := 30
  /** `range(min(len(words), 15))`: how many prefixes the scan tries. */
  const PrefixScanWords: nat := 15
  /** A chunk of more than this many words is appended whole when its first
      three words are new. */
  const LongChunkWords: nat := 5
  const LeadWords: nat := 3

  /** `' '.join(word_history[-30:])` */
  function HistoryTail(history: seq<string>): string {
    Join(" ", LastN(history, HistoryTailWords))
  }

  /** `text in recent_chunk or recent_chunk in text` */
  predicate Overlaps(text: string, chunk: string) {
    IsSubstring(text, chunk) || IsSubstring(chunk, text)
  }

  predicate OverlapsRecent(text: string, chunks: seq<string>) {
    exists k :: 0 <= k < |chunks| && Overlaps(text, chunks[k])
  }

  function ScanLimit(words: seq<string>): nat {
    if |words| < PrefixScanWords then |words| else PrefixScanWords
  }

  /** The first `i + 1` words of the chunk, joined: `' '.join(words[:i + 1])`. */
  function Prefix(words: seq<string>, i: nat): string
    requires i < |words|
  {
    Join(" ", words[..i + 1])
  }

  /** The first `i + 1` words of the chunk already occur in the history tail. */
  predicate Seen(words: seq<string>, existing: string, i: nat)
    requires i < |words|
  {
    IsSubstring(Prefix(words, i), existing)
  }

  /** The prefix scan of `process_chunk` from position `from` on: the first
      position below `min(len(words), 15)` whose prefix is not in the history
      tail, or `None` when every prefix tried is. */
  function FirstNewPrefix(words: seq<string>, existing: string, from: nat): (r: Option<nat>)
    requires from <= ScanLimit(words)
    ensures r.Some? ==>
      && from <= r.value < ScanLimit(words)
      && !Seen(words, existing, r.value)
      && forall j :: from <= j < r.value ==> Seen(words, existing, j)
    ensures r.None? ==> forall j :: from <= j < ScanLimit(words) ==> Seen(words, existing, j)
    decreases ScanLimit(words) - from
  {
    if from == ScanLimit(words) then None
    else if !Seen(words, existing, from) then Some(from)
    else FirstNewPrefix(words, existing, from + 1)
  }

  /** What `process_chunk` does with a chunk: reject it, or append some of its words. */
  datatype ChunkOutcome = Rejected | Appended(newWords: seq<string>)

  /** `process_chunk(text)` against the word history and the recent chunks. */
  function Process(history: seq<string>, chunks: seq<string>, text: string): ChunkOutcome {
    if text == [] || Strip(text) == [] then Rejected
    else ProcessNormalized(history, chunks, Normalize(text))
  }

  /** `process_chunk` once the chunk is normalised. */
  function ProcessNormalized(history: seq<string>, chunks: seq<string>, normalized: string): ChunkOutcome {
    if OverlapsRecent(normalized, chunks) then Rejected
    else Extend(history, Split(normalized))
  }

  /** `process_chunk` once the chunk is split into words. */
  function Extend(history: seq<string>, words: seq<string>): ChunkOutcome {
    if history == [] then Appended(words)
    else
      var existing := HistoryTail(history);
      if |words| > LongChunkWords && !IsSubstring(Join(" ", words[..LeadWords]), existing) then Appended(words)
      else
        match FirstNewPrefix(words, existing, 0)
        case Some(i) => Appended(words[i..])
        case None => Rejected
  }

  /** A string with a non-whitespace character splits into at least one word. */
  lemma SplitNonEmpty(s: string)
    requires !AllSpace(s)
    ensures Split(s) != []
  {
  }

  /** Empty and whitespace-only input is rejected. */
  lemma BlankChunkRejected(history: seq<string>, chunks: seq<string>, text: string)
    requires AllSpace(text)
    ensures Process(history, chunks, text) == Rejected
  {
    StripEmptyIff(text);
  }

  /** Right after a chunk is accepted, the same chunk is rejected: it is now
      one of the recent chunks, and it contains itself. */
  lemma RepeatedChunkRejected(history: seq<string>, chunks: seq<string>, text: string)
    requires |chunks| <= Dedup.WindowCapacity
    ensures Process(history, Dedup.PushRecent(chunks, Normalize(text)), text) == Rejected
  {
    var normalized := Normalize(text);
    var recent := Dedup.PushRecent(chunks, normalized);
    Dedup.PushRecentKeepsNewest(chunks, normalized);
    assert Overlaps(normalized, recent[|recent| - 1]);
  }

  /** With an empty history the whole chunk becomes the history, unless it
      repeats a recent chunk. */
  lemma FirstChunkTakesAllWords(chunks: seq<string>, text: string)
    requires !AllSpace(text) && !OverlapsRecent(Normalize(text), chunks)
    ensures Process([], chunks, text) == Appended(Split(Normalize(text)))
    ensures Split(Normalize(text)) != []
  {
    StripEmptyIff(text);
    NormalizeKeepsWord(text);
    SplitNonEmpty(Normalize(text));
  }

  /** Whatever is appended is a non-empty run of the chunk's last words; the
      words the scan skips are, joined, already in the last 30 history words. */
  lemma AppendedWordsAreNewSuffix(history: seq<string>, chunks: seq<string>, text: string)
    requires Process(history, chunks, text).Appended?
    ensures var words := Split(Normalize(text));
      var newWords := Process(history, chunks, text).newWords;
      && newWords != []
      && exists i :: (0 <= i < |words| && newWords == words[i..] &&
                      (i > 0 ==> Seen(words, HistoryTail(history), i - 1)))
  {
    var normalized := Normalize(text);
    StripEmptyIff(text);
    NormalizeKeepsWord(text);
    SplitNonEmpty(normalized);
    ExtendAppendsSuffix(history, Split(normalized));
  }

  /** `Extend` on its own: what it appends to a non-empty history is a
      non-empty suffix of the words whose skipped prefix was already seen. */
  lemma ExtendAppendsSuffix(history: seq<string>, words: seq<string>)
    requires words != [] && Extend(history, words).Appended?
    ensures var newWords := Extend(history, words).newWords;
      && newWords != []
      && exists i :: (0 <= i < |words| && newWords == words[i..] &&
                      (i > 0 ==> Seen(words, HistoryTail(history), i - 1)))
  {
    var newWords := Extend(history, words).newWords;
    var existing := HistoryTail(history);
    if history == [] || (|words| > LongChunkWords && !IsSubstring(Join(" ", words[..LeadWords]), existing)) {
      assert newWords == words[0..];
    } else {
      var i := FirstNewPrefix(words, existing, 0).value;
      assert newWords == words[i..];
      if i > 0 {
        assert Seen(words, existing, i - 1);
      }
    }
  }

  class SpeechRecognitionApp {
    /** `self.word_history`: every word of the transcript, in order */
    var wordHistory: seq<string>
    /** `self.processed_chunks`, oldest first */
    var processedChunks: seq<string>
    var recognitionActive: bool

    ghost predicate Valid()
      reads this
    {
      |processedChunks| <= Dedup.WindowCapacity
    }

    /** The text-processing state `__init__` sets up. */
    constructor ()
      ensures Valid()
      ensures wordHistory == [] && processedChunks == [] && recognitionActive
    {
      wordHistory := [];
      processedChunks := [];
      recognitionActive := true;
    }

    /** `reset_transcript`, without the display updates */
    method ResetTranscript()
      modifies this`wordHistory, this`processedChunks
      ensures Valid()
      ensures wordHistory == [] && processedChunks == []
    {
      wordHistory := [];
      processedChunks := [];
    }

    /** `toggle_recognition`, without the button updates */
    method ToggleRecognition()
      modifies this`recognitionActive
      ensures recognitionActive == !old(recognitionActive)
    {
      recognitionActive := !recognitionActive;
    }

    /** The loop of `process_chunk` over `processed_chunks`: does the
        normalised chunk occur in a recent chunk, or a recent chunk in it? */
    method RepeatsRecentChunk(normalized: string) returns (repeated: bool)
      ensures repeated == OverlapsRecent(normalized, processedChunks)
    {
      for k := 0 to |processedChunks|
        invariant forall j :: 0 <= j < k ==> !Overlaps(normalized, processedChunks[j])
      {
        var recentChunk := processedChunks[k];
        if IsSubstring(normalized, recentChunk) || IsSubstring(recentChunk, normalized) {
          assert Overlaps(normalized, processedChunks[k]);
          return true;
        }
      }
      return false;
    }

    /** The part of `process_chunk` that extends `word_history` with the
        chunk's words: all of them into an empty history or when a long chunk
        starts with three new words, otherwise those from the first prefix
        the last 30 history words do not hold. */
    method ExtendHistory(words: seq<string>) returns (addedWords: bool)
      modifies this`wordHistory
      ensures old(wordHistory) <= wordHistory
      ensures addedWords == Extend(old(wordHistory), words).Appended?
      ensures addedWords ==> wordHistory == old(wordHistory) + Extend(old(wordHistory), words).newWords
      ensures !addedWords ==> wordHistory == old(wordHistory)
    {
      if wordHistory == [] {
        wordHistory := words;
        return true;
      }
      PrefixOfAppend(wordHistory, words);
      addedWords := false;
      var existingText := HistoryTail(wordHistory);
      if |words| > LongChunkWords && !IsSubstring(Join(" ", words[..LeadWords]), existingText) {
        wordHistory := wordHistory + words;
        addedWords := true;
      } else {
        for i := 0 to ScanLimit(words)
          invariant FirstNewPrefix(words, existingText, 0) == FirstNewPrefix(words, existingText, i)
          invariant !addedWords && wordHistory == old(wordHistory)
        {
          var testSequence := Join(" ", words[..i + 1]);
          if IsSubstring(testSequence, existingText) {
            continue;
          } else {
            assert FirstNewPrefix(words, existingText, 0) == Some(i);
            PrefixOfAppend(wordHistory, words[i..]);
            wordHistory := wordHistory + words[i..];
            addedWords := true;
            break;
          }
        }
      }
    }

    /** `process_chunk` */
    method ProcessChunk(text: string) returns (added: bool)
      requires Valid()
      modifies this`wordHistory, this`processedChunks
      ensures Valid()
      ensures old(wordHistory) <= wordHistory
      ensures added == Process(old(wordHistory), old(processedChunks), text).Appended?
      ensures added ==>
        && wordHistory == old(wordHistory) + Process(old(wordHistory), old(processedChunks), text).newWords
        && processedChunks == Dedup.PushRecent(old(processedChunks), Normalize(text))
      ensures !added ==> wordHistory == old(wordHistory) && processedChunks == old(processedChunks)
    {
      if text == [] || Strip(text) == [] {
        return false;
      }
      var normalized := Normalize(text);
      added := ProcessNormalizedChunk(normalized);
    }

    /** `process_chunk` from the normalised chunk on. */
    method ProcessNormalizedChunk(normalized: string) returns (added: bool)
      requires Valid()
      modifies this`wordHistory, this`processedChunks
      ensures Valid()
      ensures old(wordHistory) <= wordHistory
      ensures added == ProcessNormalized(old(wordHistory), old(processedChunks), normalized).Appended?
      ensures added ==>
        && wordHistory == old(wordHistory) + ProcessNormalized(old(wordHistory), old(processedChunks), normalized).newWords
        && processedChunks == Dedup.PushRecent(old(processedChunks), normalized)
      ensures !added ==> wordHistory == old(wordHistory) && processedChunks == old(processedChunks)
    {
      var repeated := RepeatsRecentChunk(normalized);
      if repeated {
        return false;
      }
      ghost var outcome := Extend(wordHistory, Split(normalized));
      assert ProcessNormalized(wordHistory, processedChunks, normalized) == outcome;
      added := ExtendHistory(Split(normalized));
      if added {
        processedChunks := Dedup.PushRecent(processedChunks, normalized);
      }
    }
  }
}
