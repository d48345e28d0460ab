/** The Python `str` operations the transcript code relies on, written out over
    `string` (a `seq<char>`): whitespace as `str.isspace` and the `\s` class of
    `re` see it, `lower`, `upper`, `capitalize`, `re.sub(r'\s+', ' ', s)`,
    `strip`, `split()`, `sep.join(xs)`, the `in` test between strings and the
    slice `xs[-n:]`. */
module Text {

  /** Characters Python treats as whitespace (`str.isspace`, and `\s` in a `str`
      regular expression). */
  predicate IsSpace(c: char) {
    c == ' ' || ('\t' <= c <= '\r') || ('\U{1C}' <= c <= '\U{1F}')
    || c == '\U{85}' || c == '\U{A0}' || c == '\U{1680}'
    || ('\U{2000}' <= c <= '\U{200A}') || c == '\U{2028}' || c == '\U{2029}'
    || c == '\U{202F}' || c == '\U{205F}' || c == '\U{3000}'
  }

  predicate AllSpace(s: string) {
    forall i :: 0 <= i < |s| ==> IsSpace(s[i])
  }

  function LowerChar(c: char): char {
    if 'A' <= c <= 'Z' then (c as int + 32) as char else c
  }

  function UpperChar(c: char): char {
    if 'a' <= c <= 'z' then (c as int - 32) as char else c
  }

  /** `s.lower()` */
  function Lower(s: string): (r: string)
    ensures |r| == |s|
  {
    seq(|s|, i requires 0 <= i < |s| => LowerChar(s[i]))
  }

  /** `s.upper()` */
  function Upper(s: string): (r: string)
    ensures |r| == |s|
  {
    seq(|s|, i requires 0 <= i < |s| => UpperChar(s[i]))
  }

  /** `s.capitalize()`: the first character upper-cased, every other one lower-cased. */
  function Capitalize(s: string): string {
    if s == [] then [] else [UpperChar(s[0])] + Lower(s[1..])
  }

  /** A string that already has no lower-case first letter and no upper-case
      letter after it is its own `capitalize()`. */
  lemma CapitalizeFixed(s: string)
    requires s != [] && !('a' <= s[0] <= 'z')
    requires forall i :: 1 <= i < |s| ==> !('A' <= s[i] <= 'Z')
    ensures Capitalize(s) == s
  {
    assert Lower(s[1..]) == s[1..];
  }

  /** Drops the leading run of whitespace (`s.lstrip()`). */
  function DropSpaces(s: string): (r: string)
    ensures |r| <= |s| && r == s[|s| - |r|..]
    ensures r != [] ==> !IsSpace(r[0])
    ensures forall i :: 0 <= i < |s| - |r| ==> IsSpace(s[i])
  {
    if s != [] && IsSpace(s[0]) then
      var r := DropSpaces(s[1..]);
      LeadingRunGrows(s, |s| - 1 - |r|);
      r
    else s
  }

  /** A whitespace character followed by a whitespace run is a longer run. */
  lemma LeadingRunGrows(s: string, n: nat)
    requires s != [] && IsSpace(s[0]) && n < |s|
    requires forall i :: 0 <= i < n ==> IsSpace(s[1..][i])
    ensures forall i :: 0 <= i < n + 1 ==> IsSpace(s[i])
  {
    forall i | 1 <= i < n + 1
      ensures IsSpace(s[i])
    {
      assert s[i] == s[1..][i - 1];
    }
  }

  /** `re.sub(r'\s+', ' ', s)`: every maximal run of whitespace becomes one blank. */
  function CollapseSpaces(s: string): string
    decreases |s|
  {
    if s == [] then []
    else if IsSpace(s[0]) then [' '] + CollapseSpaces(DropSpaces(s[1..]))
    else [s[0]] + CollapseSpaces(s[1..])
  }

  /** Drops the trailing run of whitespace (`s.rstrip()`). */
  function DropTrailingSpaces(s: string): (r: string)
    ensures r <= s
    ensures r != [] ==> !IsSpace(r[|r| - 1])
    ensures AllSpace(s[|r|..])
  {
    if s != [] && IsSpace(s[|s| - 1]) then DropTrailingSpaces(s[..|s| - 1]) else s
  }

  /** `s.strip()` */
  function Strip(s: string): string {
    DropTrailingSpaces(DropSpaces(s))
  }

  /** `re.sub(r'\s+', ' ', text).strip()`: the `cleaned_text` of the transcript code. */
  function Clean(text: string): string {
    Strip(CollapseSpaces(text))
  }

  /** `re.sub(r'\s+', ' ', text).strip().lower()`: the form in which segments are compared. */
  function Normalize(text: string): string {
    Lower(Clean(text))
  }

  /** The leading run of non-whitespace characters. */
  function TakeWord(s: string): (w: string)
    ensures w <= s
    ensures s != [] && !IsSpace(s[0]) ==> w != []
  {
    if s != [] && !IsSpace(s[0]) then [s[0]] + TakeWord(s[1..]) else []
  }

  /** `s.split()`: the maximal runs of non-whitespace characters, in order. */
  function Split(s: string): seq<string>
    decreases |s|
  {
    var t := DropSpaces(s);
    if t == [] then []
    else
      var w := TakeWord(t);
      [w] + Split(t[|w|..])
  }

  /** `sep.join(xs)` */
  function Join(sep: string, xs: seq<string>): string {
    if xs == [] then []
    else if |xs| == 1 then xs[0]
    else xs[0] + sep + Join(sep, xs[1..])
  }

  /** `xs[-n:]` for a positive `n`: the last `n` elements, or all of them when there are fewer. */
  function LastN<T>(xs: seq<T>, n: nat): (r: seq<T>)
    ensures |r| <= n && |r| <= |xs|
  {
    if |xs| <= n then xs else xs[|xs| - n..]
  }

  /** A non-empty sequence is its prefix followed by its last element. */
  lemma SplitLast<T>(xs: seq<T>)
    requires xs != []
    ensures xs == xs[..|xs| - 1] + [xs[|xs| - 1]]
  {
  }

  /** Appending an element keeps the sequence as the prefix before it. */
  lemma SnocPrefix<T>(xs: seq<T>, x: T)
    ensures (xs + [x])[..|xs|] == xs
  {
  }

  /** A sequence is a prefix of itself followed by anything. */
  lemma PrefixOfAppend<T>(xs: seq<T>, ys: seq<T>)
    ensures xs <= xs + ys
  {
    assert (xs + ys)[..|xs|] == xs;
  }

  /** Dropping the last element of a concatenation with a non-empty second part. */
  lemma AppendDropLast<T>(xs: seq<T>, ys: seq<T>)
    requires ys != []
    ensures (xs + ys)[..|xs + ys| - 1] == xs + ys[..|ys| - 1]
    ensures (xs + ys)[|xs + ys| - 1] == ys[|ys| - 1]
  {
  }

  lemma AppendAssoc<T>(xs: seq<T>, ys: seq<T>, zs: seq<T>)
    ensures (xs + ys) + zs == xs + (ys + zs)
  {
  }

  lemma AppendNothing<T>(xs: seq<T>)
    ensures xs + [] == xs
  {
  }

  /** One more element of a prefix. */
  lemma PrefixSnoc<T>(xs: seq<T>, i: nat)
    requires i < |xs|
    ensures xs[..i + 1] == xs[..i] + [xs[i]]
  {
  }

  /** Python's `a in b` between two strings: `a` occurs in `b` at some position
      (the empty string occurs in every string). */
  predicate IsSubstring(a: string, b: string)
    decreases |b|
  {
    a <= b || (b != [] && IsSubstring(a, b[1..]))
  }

  /** Collapsing whitespace runs neither creates nor removes a non-whitespace character. */
  lemma {:induction false} CollapseAllSpace(s: string)
    ensures AllSpace(CollapseSpaces(s)) <==> AllSpace(s)
    decreases |s|
  {
    if s == [] {
    } else if IsSpace(s[0]) {
      var rest := DropSpaces(s[1..]);
      CollapseAllSpace(rest);
      LeadingSpaceRun(s);
      AllSpaceAppend([' '], CollapseSpaces(rest));
    } else {
      assert !IsSpace(CollapseSpaces(s)[0]);
    }
  }

  /** A string that starts with whitespace is whitespace only exactly when
      what follows its leading run is. */
  lemma LeadingSpaceRun(s: string)
    requires s != [] && IsSpace(s[0])
    ensures AllSpace(s) <==> AllSpace(DropSpaces(s[1..]))
  {
    AllSpaceCons(s);
    DropSpacesKeepsBlankness(s[1..]);
  }

  lemma {:induction false} DropSpacesKeepsBlankness(s: string)
    ensures AllSpace(s) <==> AllSpace(DropSpaces(s))
    decreases |s|
  {
    if s != [] && IsSpace(s[0]) {
      AllSpaceCons(s);
      DropSpacesKeepsBlankness(s[1..]);
    }
  }

  lemma AllSpaceCons(s: string)
    requires s != []
    ensures AllSpace(s) <==> IsSpace(s[0]) && AllSpace(s[1..])
  {
    if IsSpace(s[0]) && AllSpace(s[1..]) {
      forall i | 1 <= i < |s|
        ensures IsSpace(s[i])
      {
        assert s[i] == s[1..][i - 1];
      }
    }
  }

  lemma AllSpaceAppend(a: string, b: string)
    ensures AllSpace(a + b) <==> AllSpace(a) && AllSpace(b)
  {
    if AllSpace(a + b) {
      forall i | 0 <= i < |a|
        ensures IsSpace(a[i])
      {
        assert (a + b)[i] == a[i];
      }
      forall i | 0 <= i < |b|
        ensures IsSpace(b[i])
      {
        assert (a + b)[|a| + i] == b[i];
      }
    }
  }

  /** `s.strip()` is empty exactly when `s` holds nothing but whitespace. */
  lemma StripEmptyIff(s: string)
    ensures Strip(s) == [] <==> AllSpace(s)
  {
    var t := DropSpaces(s);
    assert s == s[..|s| - |t|] + t;
  }

  /** The normalised form of a segment is empty exactly when the segment is
      empty or whitespace only: the first rejection rule of the duplicate check. */
  lemma NormalizeEmptyIff(text: string)
    ensures Normalize(text) == [] <==> AllSpace(text)
  {
    CollapseAllSpace(text);
    StripEmptyIff(CollapseSpaces(text));
  }

  /** `s.strip()` neither starts nor ends with whitespace. */
  lemma StripTrimmed(s: string)
    ensures Strip(s) != [] ==> !IsSpace(Strip(s)[0]) && !IsSpace(Strip(s)[|Strip(s)| - 1])
  {
    var t := DropSpaces(s);
    var r := DropTrailingSpaces(t);
    if r != [] {
      assert r[0] == t[0];
    }
  }

  /** Normalising a segment that is not whitespace only leaves a string that
      is not whitespace only either: its first character is not a blank. */
  lemma NormalizeKeepsWord(text: string)
    requires !AllSpace(text)
    ensures Normalize(text) != [] && !IsSpace(Normalize(text)[0])
  {
    NormalizeEmptyIff(text);
    StripTrimmed(CollapseSpaces(text));
  }

  /** `a` starts at position `i` of `b`. */
  predicate OccursAt(a: string, b: string, i: nat) {
    i + |a| <= |b| && b[i..i + |a|] == a
  }

  /** An occurrence past the first position is an occurrence in the tail. */
  lemma OccursInTail(a: string, b: string, i: nat)
    requires b != [] && 0 < i && OccursAt(a, b, i)
    ensures OccursAt(a, b[1..], i - 1)
  {
    assert b[1..][i - 1..i - 1 + |a|] == b[i..i + |a|];
  }

  /** An occurrence in the tail is an occurrence one position further on. */
  lemma OccursInWhole(a: string, b: string, i: nat)
    requires b != [] && OccursAt(a, b[1..], i)
    ensures OccursAt(a, b, i + 1)
  {
    assert b[1..][i..i + |a|] == b[i + 1..i + 1 + |a|];
  }

  /** Python's `a in b` holds exactly when `a` starts at some position of `b`. */
  lemma {:induction false} SubstringIff(a: string, b: string)
    ensures IsSubstring(a, b) <==> exists i: nat :: OccursAt(a, b, i)
    decreases |b|
  {
    if a <= b {
      assert OccursAt(a, b, 0);
    } else if b != [] {
      SubstringIff(a, b[1..]);
      if exists i: nat :: OccursAt(a, b, i) {
        var i: nat :| OccursAt(a, b, i);
        assert i > 0;
        OccursInTail(a, b, i);
      }
      if IsSubstring(a, b[1..]) {
        var i: nat :| OccursAt(a, b[1..], i);
        OccursInWhole(a, b, i);
      }
    }
  }

  /** Capitalising ignores the case the text arrived in. */
  lemma CapitalizeIgnoresCase(s: string)
    ensures Capitalize(Lower(s)) == Capitalize(s)
    ensures Capitalize(Capitalize(s)) == Capitalize(s)
  {
    if s != [] {
      assert Lower(s)[1..] == Lower(s[1..]);
      assert Lower(Lower(s[1..])) == Lower(s[1..]);
    }
  }
}
