# Transcript deduplication and sign-gloss assembly

This project models the text-processing core of a speech-to-sign-language
assistant. A speech recognizer delivers "final" text segments. The assistant:

- rejects segments that repeat recent speech;
- appends the rest to a running transcript, capitalised and separated by
  sentence punctuation;
- translates each segment into a sign-language gloss by dropping
  punctuation and stopwords, mapping words through a gloss table and
  upper-casing the rest;
- expands a sequence of words into the poses an avatar plays, either whole
  words or fingerspelled letters.

The repository carries several near-copies of this logic, and each is modelled:

| Dafny module | source | what it holds |
|---|---|---|
| `Text` | (shared) | the Python `str` operations the copies use: whitespace, `lower`, `upper`, `capitalize`, `re.sub(r'\s+', ' ', …)`, `strip`, `split`, `join`, `in`, `xs[-n:]` |
| `Wrappers` | (shared) | `Option`, for dictionary lookups |
| `Dedup` | (shared) | the duplicate test of `is_duplicate_segment`, the `difflib` ratio, the ten-entry window, the transcript and gloss separator rules |
| `Gloss` | (shared) | the `convert_to_sign_gloss` pipeline with its two stopword filters |
| `SpeechProcessor` | SignSynth/speech_processor.py | the reference `SpeechProcessor` class and its gloss table |
| `Panda3dGui` | panda3dGUI.py | the copy inside the Panda3D window |
| `GlossGui` | glossGUI.py | the Tk variant: drop-every-stopword converter, whole-transcript gloss box, transcript + partial display |
| `LiveVoskGui` | liveVoskGUI.py | the "longest new suffix" word-history deduplicator |
| `GlossConverter` | gloss_converter.py | the stand-alone translator and its table |
| `PoseAnimator` | SignSynth2/pose_animator.py | pose-sequence expansion and pose lookup |

How the source's shape carries over:

- State that the source updates in place becomes a `class` with `modifies`
  clauses. This covers the transcript, the gloss transcript, the window of
  recent segments, the word history, the chunk window and the recognition flag.
- Methods that compute something or append to the state are proved
  against a specification function: one in `Dedup`, `Gloss`,
  `LiveVoskGui` or `PoseAnimator`, or, in glossGUI.py, `GlossGui.TranscriptGloss`
  and `GlossGui.ComposeDisplay`. Methods that only reset or flip fields
  (`ResetTranscript`, `ToggleRecognition`) state the new values directly.
- Lemmas about those functions state what the source promises.
- The `deque(maxlen=10)` windows are sequences that are at most ten long,
  oldest first.
- The gloss tables are functions from a word to `Option<string>`, one per
  distinct source table. panda3dGUI.py's table is the one of
  SignSynth/speech_processor.py, entry for entry, and the model uses
  `SpeechProcessor.GlossMap` for it.

External code becomes parameters:

- `difflib.SequenceMatcher` is a `Matcher`: the number `M` of matched
  characters, with `ratio = 2M / (len(a) + len(b))`.
- NLTK's `word_tokenize` is a `Tokenizer` function.
- NLTK's English stopword list is a set `corpus`. The stopword set is
  `corpus` minus the pronouns the source keeps.
- The parsed pose file is a `map<string, Json>`.
- In SignSynth/speech_processor.py, the calls of `send_status_update`,
  `send_transcript_update` and `send_gloss_update` are a log of
  notifications in call order. The log records every call, whether or not
  a callback is registered; the wrappers do nothing without one, but both
  applications that build a `SpeechProcessor` register all of them.
- In SignSynth/speech_processor.py, the getters `get_transcript`,
  `get_gloss` and `is_active` are plain reads of the fields
  (`GetTranscript`, `GetGloss`, `IsActive`).

Two things the code does that are easy to misread:

- The gloss transcript joins per-segment glosses with `" | "`, but an
  empty gloss for the first segment suppresses the next separator. A
  segment such as "to the", whose words are all mapped to the empty
  string, has such a gloss (`SpeechProcessor.ToTheGlossesToNothing`). The gloss transcript therefore does not always have one
  field per transcript segment. `Dedup.GlossTranscriptIsJoin`,
  `Dedup.GlossFieldPerSegment` and `Dedup.EmptyFirstGlossLosesField`
  state exactly when it does. The model follows the code.
- The containment tests are character-level `in` tests, not word-level
  ones. A candidate "he" is rejected when the transcript tail contains
  "the". liveVoskGUI.py's prefix scan likewise treats a prefix as already
  heard when it occurs inside a longer word. The model keeps these tests
  as written.

## Model

| member | source | states |
|---|---|---|
| Text.NormalizeEmptyIff | SignSynth/speech_processor.py:150-156 | the normalised segment is empty exactly when the segment is empty or whitespace only |
| Text.StripEmptyIff | liveVoskGUI.py:135-136 | `text.strip()` is empty exactly when the text is whitespace only |
| Text.StripTrimmed | liveVoskGUI.py:139 | a stripped string neither starts nor ends with whitespace |
| Text.NormalizeKeepsWord | liveVoskGUI.py:139-147 | normalising a segment that is not blank leaves a string that starts with a non-blank character |
| Text.SubstringIff | SignSynth/speech_processor.py:168 | Python's `a in b` between strings holds exactly when `a` occurs at some position of `b` |
| Text.AllSpaceAppend | SignSynth/speech_processor.py:154-155 | a concatenation is whitespace only exactly when both parts are |
| Text.CapitalizeIgnoresCase | SignSynth/speech_processor.py:185-192 | `capitalize` gives the same result whatever case the segment arrived in, and is idempotent |
| Dedup.TooSimilarIff | SignSynth/speech_processor.py:158-162 | ratio > 0.7 exactly when the integer test `20·M > 7·(len a + len b)` holds (or both strings are empty), so a ratio equal to 0.7 does not reject |
| Dedup.ThresholdIsStrict | SignSynth/speech_processor.py:160-161 | a ratio of exactly 0.7 leaves the candidate accepted |
| Dedup.SimilarityRatioBounds | panda3dGUI.py:547-549 | with a matcher that never over-counts, `similarity_ratio` lies in [0, 1] |
| Dedup.IsDuplicateIff | SignSynth/speech_processor.py:148-171 | a segment is a duplicate exactly when it is blank, when its normalised form has ratio > 0.7 with a window entry, or when it occurs in the space-joined last 20 lower-cased transcript words |
| Dedup.EmptyTranscriptContainsNothing | SignSynth/speech_processor.py:165-171 | with an empty transcript, the containment rule rejects no non-empty candidate |
| Dedup.PushRecentKeepsNewest | SignSynth/speech_processor.py:182 | after an append the window is the last ten of old window + entry: at most ten entries, newest last, oldest evicted when full |
| Dedup.EvictedEntryIgnored | SignSynth/speech_processor.py:158-162 | once the window is full, the evicted oldest entry no longer takes part in the similarity test |
| Dedup.RepeatRejected | SignSynth/speech_processor.py:158-182 | right after a segment is accepted, the same segment is rejected, when the matcher matches the segment fully against itself |
| Dedup.AppendSegmentShape | SignSynth/speech_processor.py:185-192 | the old transcript is a prefix of the new one; the capitalised segment follows nothing (empty transcript), `" "` (after `.`, `!`, `?`) or `". "` (otherwise) |
| Dedup.TwoSegments | SignSynth/speech_processor.py:185-192 | "I want milk" then "I need bread" gives "I want milk. I need bread" |
| Dedup.GlossTranscriptIsJoin | SignSynth/speech_processor.py:198-201 | the gloss transcript is the `" \| "`-join of the per-segment glosses from the first non-empty one on |
| Dedup.GlossFieldPerSegment | SignSynth/speech_processor.py:198-201 | when the first gloss is non-empty, the gloss transcript has one `" \| "` field per accepted segment |
| Dedup.EmptyFirstGlossLosesField | SignSynth/speech_processor.py:198-201 | an empty first gloss suppresses the next separator |
| Gloss.FilterAppend | SignSynth/speech_processor.py:212-213 | the comprehension filters keep input order |
| Gloss.FilterMembers | SignSynth/speech_processor.py:212-213 | a token survives a filter exactly when it was in the input and passes the test |
| Gloss.GlossSequenceAppend | SignSynth/speech_processor.py:215-219 | the gloss sequence is built token by token, in order |
| Gloss.GlossSequenceMembers | SignSynth/speech_processor.py:215-219 | the gloss sequence holds exactly the non-empty glosses of the filtered tokens |
| Gloss.NoEmptyGloss | SignSynth/speech_processor.py:218-219 | no element of the gloss sequence is empty |
| Gloss.PunctuationIsSubstringTest | SignSynth/speech_processor.py:212 | the punctuation filter is a substring test: "", "!" and `!"#` are all dropped |
| Gloss.WordIsNotPunctuation | SignSynth/speech_processor.py:212 | a token with a character outside `string.punctuation` is never dropped as punctuation |
| Gloss.NonPunctuationNonEmpty | SignSynth/speech_processor.py:212-219 | a token that survives the punctuation filter is non-empty, and so is its upper-cased form |
| Gloss.LowerWordFacts | SignSynth/speech_processor.py:211-213 | a word of lower-case letters is unchanged by `lower()` and survives the punctuation filter |
| Gloss.KeepMappedAppend | SignSynth/speech_processor.py:209-223 | the keep-mapped translator works token by token, in input order |
| Gloss.KeepMappedOneToken | SignSynth/speech_processor.py:211-219 | per token: nothing for punctuation or an unmapped stopword; the table entry (if non-empty) for a mapped word; otherwise the upper-cased word |
| Gloss.KeepMappedElements | SignSynth/speech_processor.py:211-219 | every emitted gloss is non-empty and is the gloss of a non-punctuation token that is not a stopword or has a table entry |
| Gloss.KeepMappedWord | SignSynth/speech_processor.py:213-219 | a lower-case mapped word yields its entry, or nothing if the entry is empty, stopword or not |
| Gloss.KeepMappedSentence | SignSynth/speech_processor.py:209-223 | a sentence of mapped lower-case words yields its non-empty entries in order, whatever the stopword list |
| Gloss.DropStopwordsAppend | gloss_converter.py:23-30 | the drop-stopwords translator works token by token, in input order |
| Gloss.DropStopwordsOneToken | glossGUI.py:67-75 | per token: nothing for punctuation or any stopword; the table entry (if non-empty) for a mapped word; otherwise the upper-cased word |
| Gloss.DropStopwordsElements | glossGUI.py:67-75 | every emitted gloss is non-empty and is the gloss of a non-punctuation, non-stopword token |
| Gloss.DropStopwordsSound | gloss_converter.py:25-27 | the same, for all emitted glosses at once |
| Gloss.DropStopwordsWord | gloss_converter.py:26-27 | a mapped word yields nothing when it is a stopword or its entry is empty, otherwise its entry |
| Gloss.DropStopwordsSentence | gloss_converter.py:23-30 | a sentence of mapped words, none a stopword unless its entry is empty, yields its non-empty entries in order |
| SpeechProcessor.StoreSentenceEntries | SignSynth/speech_processor.py:95-107 | the table maps i, am, going, to, the, store to ME, "", GO, "", "", STORE |
| SpeechProcessor.GoingToTheStore | SignSynth/speech_processor.py:209-223 | "I am going to the store" glosses to ME GO STORE whatever the stopword list |
| SpeechProcessor.ToTheGlossesToNothing | SignSynth/speech_processor.py:209-223 | "to the" glosses to nothing, and its gloss string is "", whatever the stopword list |
| SpeechProcessor.SpeechProcessor.constructor | SignSynth/speech_processor.py:40-107 | on successful setup: empty transcript, gloss and window; recognition active; stopwords are the corpus minus the pronouns; the gloss table; the one notification "Status: Ready" |
| SpeechProcessor.SpeechProcessor.ToggleRecognition | SignSynth/speech_processor.py:129-132 | negates the flag and returns the new value |
| SpeechProcessor.SpeechProcessor.ResetTranscript | SignSynth/speech_processor.py:134-142 | empties transcript, gloss and window; sends "" to the transcript and gloss callbacks and the reset status; returns true |
| SpeechProcessor.SpeechProcessor.IsDuplicateSegment | SignSynth/speech_processor.py:148-171 | the loop over the window decides `Dedup.IsDuplicate` |
| SpeechProcessor.SpeechProcessor.SimilarToRecent | SignSynth/speech_processor.py:158-162 | the loop finds whether some window entry has a ratio above 0.7 with the cleaned candidate |
| SpeechProcessor.SpeechProcessor.AddTextToTranscript | SignSynth/speech_processor.py:173-207 | returns false and changes nothing for a duplicate; otherwise pushes the lower-cased segment, appends the capitalised segment by the separator rule, appends its gloss with `" \| "`, and notifies transcript and gloss, keeping the window at most ten |
| SpeechProcessor.SpeechProcessor.AcceptSegment | SignSynth/speech_processor.py:181-207 | pushes the lower-cased segment (window at most ten), appends the capitalised segment by the separator rule, appends its gloss after `" \| "` unless the gloss transcript is empty, then notifies transcript and gloss, in that order |
| SpeechProcessor.SpeechProcessor.ConvertToSignGloss | SignSynth/speech_processor.py:209-223 | the accumulator loop computes the keep-mapped gloss sequence and its space-join |
| Panda3dGui.SpeechRecognitionApp.constructor | panda3dGUI.py:80-104 | empty transcript, gloss and window; recognition active |
| Panda3dGui.SpeechRecognitionApp.ResetTranscript | panda3dGUI.py:465-472 | empties transcript, gloss and window |
| Panda3dGui.SpeechRecognitionApp.ToggleRecognition | panda3dGUI.py:474-476 | negates the flag |
| Panda3dGui.SpeechRecognitionApp.IsDuplicateSegment | panda3dGUI.py:551-574 | the loop over the window decides `Dedup.IsDuplicate` |
| Panda3dGui.SpeechRecognitionApp.SimilarToRecent | panda3dGUI.py:561-565 | the loop finds whether some window entry has a ratio above 0.7 with the cleaned candidate |
| Panda3dGui.SpeechRecognitionApp.AddTextToTranscript | panda3dGUI.py:576-610 | as in SignSynth/speech_processor.py, without notifications |
| Panda3dGui.SpeechRecognitionApp.AcceptSegment | panda3dGUI.py:584-604 | pushes the lower-cased segment (window at most ten), appends the capitalised segment by the separator rule and its gloss after `" \| "` unless the gloss transcript is empty |
| Panda3dGui.SpeechRecognitionApp.ConvertToSignGloss | panda3dGUI.py:612-626 | the accumulator loop computes the keep-mapped gloss sequence and its space-join |
| GlossGui.ConvertToSignGloss | glossGUI.py:62-81 | the gloss string is the space-join of the sequence; every element is non-empty and is the gloss of a non-punctuation, non-stopword token |
| GlossGui.MappedStopwordRemoved | glossGUI.py:71 | a stopword with a table entry ("not") is removed here but kept as NOT by the keep-mapped filter |
| GlossGui.StoreSentenceEntries | glossGUI.py:31-46 | the table maps i, am, going, to, the, store to ME, "", GO, "", "", STORE |
| GlossGui.GoingToTheStore | glossGUI.py:62-81 | "I am going to the store" glosses to ME GO STORE when "going" and "store" are not stopwords |
| GlossGui.ComposeDisplayIsAppend | glossGUI.py:383-394 | the display is the transcript followed by the capitalised partial, joined by the segment separator rule; without a partial or outside real-time mode, it is the transcript |
| GlossGui.SpeechRecognitionApp.constructor | glossGUI.py:242-268 | empty transcript, partial and window; recognition, real-time and auto-gloss on |
| GlossGui.SpeechRecognitionApp.ResetTranscript | glossGUI.py:281-288 | empties transcript, partial and window, and clears the gloss box |
| GlossGui.SpeechRecognitionApp.ToggleRecognition | glossGUI.py:290-292 | negates the flag |
| GlossGui.SpeechRecognitionApp.IsDuplicateSegment | glossGUI.py:304-327 | the loop over the window decides `Dedup.IsDuplicate` |
| GlossGui.SpeechRecognitionApp.SimilarToRecent | glossGUI.py:314-318 | the loop finds whether some window entry has a ratio above 0.7 with the cleaned candidate |
| GlossGui.SpeechRecognitionApp.AddTextToTranscript | glossGUI.py:329-354 | returns false and changes nothing for a duplicate; otherwise pushes the lower-cased segment and appends by the separator rule; with auto-gloss on, the gloss box becomes the gloss of the whole transcript |
| GlossGui.SpeechRecognitionApp.AcceptSegment | glossGUI.py:337-352 | pushes the lower-cased segment (window at most ten) and appends the capitalised segment by the separator rule; with auto-gloss on, the gloss box becomes the gloss of the whole new transcript, otherwise it is untouched |
| GlossGui.SpeechRecognitionApp.UpdateGlossFromTranscript | glossGUI.py:356-366 | the gloss box shows "" for an empty transcript, otherwise the gloss of the whole transcript |
| GlossConverter.ConvertToSignGloss | gloss_converter.py:23-30 | the gloss string is the space-join of the sequence; every element is non-empty and is the gloss of a non-punctuation, non-stopword token |
| GlossConverter.MilkSentenceEntries | gloss_converter.py:15-21 | the table maps i, want, milk to ME, WANT, MILK |
| GlossConverter.IWantMilk | gloss_converter.py:23-30 | "I want milk" glosses to ME WANT MILK when "want" and "milk" are not stopwords |
| GlossConverter.EmptyEntryElided | gloss_converter.py:27 | a word mapped to "" ("to") is elided |
| LiveVoskGui.FirstNewPrefix | liveVoskGUI.py:168-176 | the scan finds the first position below min(len, 15) whose prefix is not in the history tail, with every earlier prefix in it, or reports that every prefix tried is in it |
| LiveVoskGui.SplitNonEmpty | liveVoskGUI.py:147 | a chunk that is not blank splits into at least one word |
| LiveVoskGui.BlankChunkRejected | liveVoskGUI.py:135-136 | empty or whitespace-only input is rejected |
| LiveVoskGui.RepeatedChunkRejected | liveVoskGUI.py:142-144 | right after a chunk is accepted, the same chunk is rejected |
| LiveVoskGui.FirstChunkTakesAllWords | liveVoskGUI.py:150-153 | with an empty history, a chunk that is not a repeat becomes the whole history, and it has at least one word |
| LiveVoskGui.AppendedWordsAreNewSuffix | liveVoskGUI.py:156-176 | what is appended is a non-empty run of the chunk's last words, and the skipped first words, joined, occur in the last 30 history words |
| LiveVoskGui.ExtendAppendsSuffix | liveVoskGUI.py:149-176 | the words the history extension appends are a non-empty suffix of the chunk, and the skipped first words, joined, occur in the last 30 history words |
| LiveVoskGui.SpeechRecognitionApp.constructor | liveVoskGUI.py:109-111 | empty history and chunk window; recognition active |
| LiveVoskGui.SpeechRecognitionApp.ResetTranscript | liveVoskGUI.py:118-120 | empties the history and the chunk window |
| LiveVoskGui.SpeechRecognitionApp.ToggleRecognition | liveVoskGUI.py:124-125 | negates the flag |
| LiveVoskGui.SpeechRecognitionApp.RepeatsRecentChunk | liveVoskGUI.py:142-144 | the loop finds whether the chunk occurs in a recent chunk or a recent chunk occurs in it |
| LiveVoskGui.SpeechRecognitionApp.ExtendHistory | liveVoskGUI.py:150-176 | the old history stays a prefix; appends all the words to an empty history or for a long chunk with three new leading words, otherwise the words from the first unseen prefix, otherwise nothing |
| LiveVoskGui.SpeechRecognitionApp.ProcessChunk | liveVoskGUI.py:133-182 | the old history is always a prefix of the new one; returns true exactly when words are appended, and then (only then) records the normalised chunk in the ten-entry window |
| LiveVoskGui.SpeechRecognitionApp.ProcessNormalizedChunk | liveVoskGUI.py:141-182 | for a normalised chunk: rejects a repeat of a recent chunk; otherwise returns true exactly when words are appended, and then records the chunk in the ten-entry window |
| PoseAnimator.LettersAreKeys | SignSynth2/pose_animator.py:25-26 | fingerspelling yields one-letter pose names that are keys and letters of the word, and spells every letter of the word that is a key |
| PoseAnimator.LettersAppend | SignSynth2/pose_animator.py:25-26 | fingerspelling keeps the word's order and multiplicity: the letters of two strings in a row are their letters in a row |
| PoseAnimator.ExpandYieldsKeys | SignSynth2/pose_animator.py:20-27 | every element of the expansion is a key of the pose table |
| PoseAnimator.ExpandAppend | SignSynth2/pose_animator.py:21-27 | the expansion of two sequences in a row is their two expansions in a row |
| PoseAnimator.OneWord | SignSynth2/pose_animator.py:21-27 | a key word yields exactly itself, any other word its fingerspelling, and the empty input nothing |
| PoseAnimator.PoseAnimator.constructor | SignSynth2/pose_animator.py:7-14 | current pose "default", index 0, sequence ["j"], and the expanded sequence is ["j"] when "j" has a pose and empty otherwise |
| PoseAnimator.PoseAnimator.ExpandPoseSequence | SignSynth2/pose_animator.py:20-27 | the loop computes the expansion: key words whole, other words fingerspelled |
| PoseAnimator.PoseAnimator.LoadPoseNow | SignSynth2/pose_animator.py:29-39 | `None` for a missing or falsy entry, in particular for an empty list, which is never indexed; the first element of a non-empty list; otherwise the entry itself |

## Left out

- Audio capture and the recognizer are not modelled. This covers the Vosk model, the microphone stream and the `listen` loops with their threads, sleeps and clocks. The recognizer-setup failure path (`setup_successful` false, with its "Failed to initialize" status) is left out with them.
- Widget drawing is not modelled. This covers the Tk and Panda3D widgets, the `update_*` display methods and `safe_ui_update`'s deferral to the event loop. In glossGUI.py the gloss box is a field written at once. The display text is `GlossGui.ComposeDisplay`.
- In glossGUI.py, the gloss preview that `update_mainbox` computes from the displayed text (glossGUI.py:400-404) is not modelled. It is display code.
- The media auto-pause code (keystroke injection, timers) is not modelled.
- The internals of NLTK are parameters, not models. This covers the tokenizer, the stopword corpus and the downloads.
- The internals of `difflib.SequenceMatcher` are not modelled, including its junk heuristics. The matcher is an abstract count of matched characters.
- Dedup.SimilarityRatio: the ratio is an exact rational, not a binary floating-point value. A float that rounds onto the threshold is not modelled.
- Text.Lower: `lower`, `upper` and `capitalize` map only ASCII letters. Python also maps other Unicode letters.
- Pose loading (`loadAllPoseData`, file I/O and JSON parsing) is not modelled: the parsed table is a parameter. Pose application and interpolation (Panda3D intervals) are not modelled either.
- Several `SpeechProcessor` members are not modelled:
  - `send_live_update` and the live-text callback, which only the recognizer loop uses;
  - `cleanup`;
  - `is_setup_successful`.
- Panda3dGui.SpeechRecognitionApp.ResetTranscript: the transcript, gloss and status display updates are left out, as in the other display code.
- LiveVoskGui.SpeechRecognitionApp.ResetTranscript: the display refresh and the status text are left out.
