/** The segment deduplicator and the append rules that SignSynth/speech_processor.py,
    panda3dGUI.py and glossGUI.py each carry a copy of: the duplicate test of
    `is_duplicate_segment`, the similarity ratio of `difflib`, the ten-entry
    window of recent segments, and the separator rules that extend the
    transcript and the gloss transcript. */
module Dedup {
  import opened Text

  /** `deque(maxlen=10)` */
  const WindowCapacity: nat := 10
  /** `min_similarity_threshold` */
  const MinSimilarityThreshold: real := 0.7
  /** `split()[-20:]`: how many transcript words the containment test looks at. */
  const TailWords: nat := 20

  /** Stands for `difflib.SequenceMatcher(None, a, b)`: the number of characters
      its matching blocks cover, the `M` of `ratio() == 2 * M / (len(a) + len(b))`. */
  type Matcher = (string, string) -> nat

  /** A matcher never matches more characters than either string has. */
  ghost predicate ValidMatcher(m: Matcher) {
    forall a: string, b: string :: m(a, b) <= |a| && m(a, b) <= |b|
  }

  /** `SequenceMatcher(None, a, b).ratio()`: 1.0 for two empty strings. */
  function SimilarityRatio(m: Matcher, a: string, b: string): real {
    var total := |a| + |b|;
    if total == 0 then 1.0 else (2 * m(a, b)) as real / total as real
  }

  /** `similarity_ratio(a, b) > min_similarity_threshold`, stated without
      division: `TooSimilarIff` proves the two forms agree. */
  predicate TooSimilar(m: Matcher, a: string, b: string) {
    var total := |a| + |b|;
    total == 0 || 20 * m(a, b) > 7 * total
  }

  /** Some entry of the window is too similar to the cleaned candidate. */
  predicate SimilarToWindow(m: Matcher, cleaned: string, window: seq<string>) {
    exists k :: 0 <= k < |window| && TooSimilar(m, cleaned, window[k])
  }

  /** `" ".join(transcript.lower().split()[-20:])` */
  function TranscriptTail(transcript: string): string {
    Join(" ", LastN(Split(Lower(transcript)), TailWords))
  }

  /** `is_duplicate_segment(text)` over the window `recent_segments` and the
      current `full_transcript`. */
  predicate IsDuplicate(m: Matcher, text: string, window: seq<string>, transcript: string) {
    text == [] ||
    var cleaned := Normalize(text);
    cleaned == [] || SimilarToWindow(m, cleaned, window) || IsSubstring(cleaned, TranscriptTail(transcript))
  }

  /** `recent_segments.append(entry)` on a deque with `maxlen=10`: when the
      window is full the oldest entry is evicted. */
  function PushRecent(window: seq<string>, entry: string): seq<string>
    requires |window| <= WindowCapacity
  {
    if |window| < WindowCapacity then window + [entry] else window[1..] + [entry]
  }

  /** The separator put between the transcript and the next segment. */
  function Separator(transcript: string): string {
    if transcript == [] then ""
    else if transcript[|transcript| - 1] in ".!?" then " "
    else ". "
  }

  /** The transcript after the cleaned segment is appended. */
  function AppendSegment(transcript: string, cleaned: string): string {
    transcript + Separator(transcript) + Capitalize(cleaned)
  }

  /** The gloss transcript after one segment's gloss is appended. */
  function AppendGloss(fullGloss: string, gloss: string): string {
    if fullGloss == [] then gloss else fullGloss + " | " + gloss
  }

  /** The gloss transcript built from the glosses of the accepted segments, in order. */
  function GlossTranscript(glosses: seq<string>): string {
    if glosses == [] then [] else AppendGloss(GlossTranscript(glosses[..|glosses| - 1]), glosses[|glosses| - 1])
  }

  /** The glosses from the first non-empty one on. */
  function DropLeadingEmpty(glosses: seq<string>): (r: seq<string>)
    ensures r != [] ==> r[0] != []
  {
    if glosses == [] then []
    else if glosses[0] == [] then DropLeadingEmpty(glosses[1..])
    else glosses
  }

  /** The ratio is strictly above 0.7 exactly when `20 * M > 7 * (len(a) + len(b))`
      (or both strings are empty): a ratio equal to the threshold does not count
      as similar. */
  lemma TooSimilarIff(m: Matcher, a: string, b: string)
    ensures SimilarityRatio(m, a, b) > MinSimilarityThreshold <==> TooSimilar(m, a, b)
  {
    var total := |a| + |b|;
    if total != 0 {
      RatioAbove((2 * m(a, b)) as real, total as real, 0.7);
    }
  }

  /** A quotient by a positive number exceeds `c` exactly when the dividend
      exceeds `c` times the divisor. */
  lemma RatioAbove(x: real, t: real, c: real)
    requires t > 0.0
    ensures x / t > c <==> x > c * t
  {
    var r := x / t;
    assert r * t == x;
    if r > c {
      assert r * t > c * t;
    } else {
      assert r * t <= c * t;
    }
  }

  lemma RatioNonNegative(x: real, t: real)
    requires t > 0.0 && x >= 0.0
    ensures x / t >= 0.0
  {
  }

  /** With a matcher that never over-counts, the ratio lies between 0 and 1. */
  lemma SimilarityRatioBounds(m: Matcher, a: string, b: string)
    requires ValidMatcher(m)
    ensures 0.0 <= SimilarityRatio(m, a, b) <= 1.0
  {
    var total := |a| + |b|;
    if total != 0 {
      assert m(a, b) <= |a| && m(a, b) <= |b|;
      RatioAbove((2 * m(a, b)) as real, total as real, 1.0);
      RatioNonNegative((2 * m(a, b)) as real, total as real);
    }
  }

  /** A candidate is a duplicate exactly when it is empty or whitespace only,
      when its normalised form is strictly more than 0.7 similar to a window
      entry, or when that form occurs in the last 20 transcript words. */
  lemma IsDuplicateIff(m: Matcher, text: string, window: seq<string>, transcript: string)
    ensures IsDuplicate(m, text, window, transcript) <==>
      || AllSpace(text)
      || (exists k :: 0 <= k < |window| && SimilarityRatio(m, Normalize(text), window[k]) > 0.7)
      || IsSubstring(Normalize(text), TranscriptTail(transcript))
  {
    NormalizeEmptyIff(text);
    var c := Normalize(text);
    forall k | 0 <= k < |window|
      ensures TooSimilar(m, c, window[k]) <==> SimilarityRatio(m, c, window[k]) > 0.7
    {
      TooSimilarIff(m, c, window[k]);
    }
  }

  /** While the transcript is empty the containment rule rejects nothing but the
      empty candidate. */
  lemma EmptyTranscriptContainsNothing(cleaned: string)
    requires cleaned != []
    ensures !IsSubstring(cleaned, TranscriptTail(""))
  {
    assert Split(Lower("")) == [];
  }

  /** The window after an append is the last ten of the old window followed by
      the new entry, the newest entry last. */
  lemma PushRecentKeepsNewest(window: seq<string>, entry: string)
    requires |window| <= WindowCapacity
    ensures PushRecent(window, entry) == LastN(window + [entry], WindowCapacity)
    ensures |PushRecent(window, entry)| == if |window| < WindowCapacity then |window| + 1 else WindowCapacity
    ensures PushRecent(window, entry)[|PushRecent(window, entry)| - 1] == entry
  {
    if |window| == WindowCapacity {
      assert (window + [entry])[1..] == window[1..] + [entry];
    }
  }

  /** Once the window is full, the oldest entry no longer takes part in the
      similarity test after the next append. */
  lemma EvictedEntryIgnored(m: Matcher, cleaned: string, window: seq<string>, entry: string)
    requires |window| == WindowCapacity
    ensures SimilarToWindow(m, cleaned, PushRecent(window, entry)) <==>
      SimilarToWindow(m, cleaned, window[1..]) || TooSimilar(m, cleaned, entry)
  {
    var w := PushRecent(window, entry);
    if SimilarToWindow(m, cleaned, w) {
      var k :| 0 <= k < |w| && TooSimilar(m, cleaned, w[k]);
      if k < |w| - 1 {
        assert w[k] == window[1..][k];
      }
    }
    if SimilarToWindow(m, cleaned, window[1..]) {
      var k :| 0 <= k < |window[1..]| && TooSimilar(m, cleaned, window[1..][k]);
      assert w[k] == window[1..][k];
    }
    if TooSimilar(m, cleaned, entry) {
      assert w[|w| - 1] == entry;
    }
  }

  /** The old transcript is kept as a prefix and the capitalised segment is added
      at the end; in between there is nothing when the transcript was empty, one
      blank after `.`, `!` or `?`, and `". "` otherwise, so that every segment
      but the first follows terminal punctuation and one blank. */
  lemma AppendSegmentShape(transcript: string, cleaned: string)
    ensures var r := AppendSegment(transcript, cleaned);
      && transcript <= r
      && |r| == |transcript| + |Separator(transcript)| + |cleaned|
      && r[|r| - |cleaned|..] == Capitalize(cleaned)
      && (transcript == [] ==> r == Capitalize(cleaned))
      && (transcript != [] ==>
            r[|transcript| + |Separator(transcript)| - 2] in ".!?" &&
            r[|transcript| + |Separator(transcript)| - 1] == ' ')
  {
    var r := AppendSegment(transcript, cleaned);
    assert |Capitalize(cleaned)| == |cleaned|;
  }

  /** Folding the per-segment glosses into the gloss transcript joins them with
      `" | "`, but only from the first non-empty gloss on: leading empty glosses
      leave no field behind. */
  lemma {:induction false} GlossTranscriptIsJoin(glosses: seq<string>)
    ensures GlossTranscript(glosses) == Join(" | ", DropLeadingEmpty(glosses))
    decreases |glosses|
  {
    if glosses != [] {
      var init, last := glosses[..|glosses| - 1], glosses[|glosses| - 1];
      assert glosses == init + [last];
      GlossTranscriptIsJoin(init);
      DropLeadingEmptySnoc(init, last);
      if DropLeadingEmpty(init) != [] {
        JoinNonEmpty(" | ", DropLeadingEmpty(init));
        JoinSnoc(" | ", DropLeadingEmpty(init), last);
      }
    }
  }

  lemma {:induction false} DropLeadingEmptySnoc(glosses: seq<string>, last: string)
    ensures DropLeadingEmpty(glosses + [last]) ==
      if DropLeadingEmpty(glosses) == [] then (if last == [] then [] else [last])
      else DropLeadingEmpty(glosses) + [last]
    decreases |glosses|
  {
    if glosses == [] {
      assert glosses + [last] == [last];
      assert [last][1..] == [];
    } else {
      assert (glosses + [last])[1..] == glosses[1..] + [last];
      DropLeadingEmptySnoc(glosses[1..], last);
    }
  }

  lemma {:induction false} JoinSnoc(sep: string, xs: seq<string>, x: string)
    requires xs != []
    ensures Join(sep, xs + [x]) == Join(sep, xs) + sep + x
    decreases |xs|
  {
    if |xs| == 1 {
      assert (xs + [x])[1..] == [x];
    } else {
      assert (xs + [x])[1..] == xs[1..] + [x];
      JoinSnoc(sep, xs[1..], x);
    }
  }

  lemma {:induction false} JoinNonEmpty(sep: string, xs: seq<string>)
    requires xs != [] && xs[0] != []
    ensures Join(sep, xs) != []
  {
    if |xs| > 1 {
      assert Join(sep, xs)[0] == xs[0][0];
    }
  }

  /** The gloss transcript has one `" | "`-separated field per accepted segment
      as long as the first segment's gloss is not empty. */
  lemma GlossFieldPerSegment(glosses: seq<string>)
    requires glosses != [] && glosses[0] != []
    ensures GlossTranscript(glosses) == Join(" | ", glosses)
  {
    GlossTranscriptIsJoin(glosses);
  }

  /** An empty gloss for the first segment suppresses the separator of the next:
      two accepted segments then leave a single field. */
  lemma EmptyFirstGlossLosesField(gloss: string)
    ensures GlossTranscript(["", gloss]) == gloss
  {
    assert ["", gloss][..1] == [""];
    assert [""][..0] == [];
  }

  /** A ratio of exactly 0.7 (for instance 7 matched characters out of 20) does
      not make a candidate a duplicate of the window entry. */
  lemma ThresholdIsStrict(m: Matcher, a: string, b: string)
    requires |a| + |b| > 0 && 20 * m(a, b) == 7 * (|a| + |b|)
    ensures SimilarityRatio(m, a, b) == MinSimilarityThreshold
    ensures !TooSimilar(m, a, b)
  {
    var x := (2 * m(a, b)) as real;
    var t := (|a| + |b|) as real;
    assert x * 10.0 == 7.0 * t;
    SevenTenths(x, t);
  }

  lemma SevenTenths(x: real, t: real)
    requires t > 0.0 && x * 10.0 == 7.0 * t
    ensures x / t == 0.7
  {
    assert x == 0.7 * t;
    assert 0.7 * t / t == 0.7;
  }

  /** Right after a segment is accepted, the same segment is rejected: its
      normalised form is the newest window entry, and a string is fully similar
      to itself. */
  lemma RepeatRejected(m: Matcher, text: string, window: seq<string>, transcript: string)
    requires |window| <= WindowCapacity
    requires m(Normalize(text), Normalize(text)) == |Normalize(text)|
    ensures IsDuplicate(m, text, PushRecent(window, Normalize(text)), transcript)
  {
    var c := Normalize(text);
    var w := PushRecent(window, c);
    PushRecentKeepsNewest(window, c);
    if text != [] && c != [] {
      assert TooSimilar(m, c, w[|w| - 1]);
    }
  }

  /** "I want milk" followed by "I need bread" gives "I want milk. I need bread". */
  lemma TwoSegments(first: string, second: string)
    requires first == "I want milk" && second == "I need bread"
    ensures AppendSegment(AppendSegment("", first), second) == "I want milk. I need bread"
  {
    FirstSegmentAsSpoken(first);
    AfterPlainSegment(first, second);
  }

  /** The first segment is the transcript, already capitalised. */
  lemma FirstSegmentAsSpoken(first: string)
    requires first == "I want milk"
    ensures AppendSegment("", first) == first
  {
    CapitalizeFixed(first);
  }

  /** A segment without terminal punctuation gets `". "` before the next one. */
  lemma AfterPlainSegment(first: string, second: string)
    requires first == "I want milk" && second == "I need bread"
    ensures AppendSegment(first, second) == first + ". " + second
  {
    CapitalizeFixed(second);
    assert first[|first| - 1] == 'k';
  }
}
