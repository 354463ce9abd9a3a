/** The syllable extractor: the run of pinyin letters that ends at the cursor,
    as the change handler finds it with a right-anchored regular expression
    over the last ten characters before the tone digit. */
module SyllableExtraction {
  import opened Letters

  datatype Option<T> = None | Some(value: T)

  /** How many characters before the cursor the handler looks at. */
  const WindowWidth: nat := 10

  /** `lineText.substring(max(0, position - 10), position)`; `substring` clamps
      both ends to the length of the line. */
  function Window(lineText: string, position: nat): (w: string)
    ensures |w| <= WindowWidth && |w| <= position
    ensures position <= |lineText| ==> |w| == (if position < WindowWidth then position else WindowWidth)
  {
    var from := if position >= WindowWidth then position - WindowWidth else 0;
    var lo := if from <= |lineText| then from else |lineText|;
    var hi := if position <= |lineText| then position else |lineText|;
    lineText[lo..hi]
  }

  /** With the cursor on the line, the window is the text just before it. */
  lemma WindowOnLine(lineText: string, position: nat)
    requires position <= |lineText|
    ensures var w := Window(lineText, position); w == lineText[position - |w|..position]
  {
  }

  // ---------------------------------------------------------------------------
  // The pattern C* V+ (V* C* V+)* C* as a finite automaton, read left to right
  // (C: the consonant class, V: the vowel class, matched in either case)
  // ---------------------------------------------------------------------------

  /** Leading: inside the leading C*; VowelRun: just after a vowel;
      ConsonantRun: inside a consonant run that follows a vowel;
      Rejected: a letter outside both classes was read. */
  datatype PatternState = Leading | VowelRun | ConsonantRun | Rejected

  function Step(st: PatternState, c: char): PatternState {
    if st == Rejected || !IsSyllableLetter(c) then Rejected
    else if IsVowel(c) then VowelRun
    else if st == Leading then Leading
    else ConsonantRun
  }

  function Run(st: PatternState, s: string): PatternState
    decreases |s|
  {
    if s == [] then st else Run(Step(st, s[0]), s[1..])
  }

  /** `s` is in the language of the pattern. */
  predicate MatchesPattern(s: string) {
    var last := Run(Leading, s);
    last == VowelRun || last == ConsonantRun
  }

  /** How a run of the automaton ends, by the letters it reads. */
  lemma {:induction false} RunOutcome(st: PatternState, s: string)
    ensures Run(Rejected, s) == Rejected
    ensures st != Rejected ==> (Run(st, s) != Rejected <==> AllSyllableLetters(s))
    ensures st != Rejected && st != Leading && AllSyllableLetters(s) ==> Run(st, s) != Leading
    ensures st == Leading && AllSyllableLetters(s) ==> (Run(st, s) == Leading <==> !HasVowel(s))
    decreases |s|
  {
    if s != [] {
      RunOutcome(Step(st, s[0]), s[1..]);
      RunOutcome(Rejected, s[1..]);
      assert forall i :: 0 <= i < |s| - 1 ==> s[1..][i] == s[i + 1];
      assert AllSyllableLetters(s) <==> IsSyllableLetter(s[0]) && AllSyllableLetters(s[1..]);
      assert HasVowel(s) <==> IsVowel(s[0]) || HasVowel(s[1..]);
    }
  }

  /** The pattern accepts exactly the strings of syllable letters that hold a vowel. */
  lemma PatternLanguage(s: string)
    ensures MatchesPattern(s) <==> AllSyllableLetters(s) && HasVowel(s)
  {
    RunOutcome(Leading, s);
  }

  // ---------------------------------------------------------------------------
  // The scan: step left from the end of the window over syllable letters
  // ---------------------------------------------------------------------------

  /** Where the run of syllable letters that ends at `end` begins. */
  function RunStart(w: string, end: nat): (start: nat)
    requires end <= |w|
    ensures start <= end
    decreases end
  {
    if end == 0 || !IsSyllableLetter(w[end - 1]) then end else RunStart(w, end - 1)
  }

  /** The run found by `RunStart` is made of syllable letters and cannot be
      extended to the left. */
  lemma {:induction false} RunStartSpec(w: string, end: nat)
    requires end <= |w|
    ensures var start := RunStart(w, end);
      start <= end && AllSyllableLetters(w[start..end]) &&
      (start == 0 || !IsSyllableLetter(w[start - 1]))
    decreases end
  {
    if end > 0 && IsSyllableLetter(w[end - 1]) {
      RunStartSpec(w, end - 1);
      var start := RunStart(w, end - 1);
      assert forall i :: start <= i < end - 1 ==> w[start..end - 1][i - start] == w[i];
      assert forall i :: start <= i < end ==> w[start..end][i - start] == w[i];
    }
  }

  /** The trailing syllable of a window: the longest suffix made only of
      syllable letters, provided it holds a vowel. */
  function FindSyllable(w: string): (r: Option<string>)
    ensures r.Some? ==> |r.value| <= |w|
  {
    var start := RunStart(w, |w|);
    if HasVowel(w[start..]) then Some(w[start..]) else None
  }

  /** A syllable found in a window is the end of the window. */
  lemma FindSyllableEndsWindow(w: string)
    requires FindSyllable(w).Some?
    ensures FindSyllable(w).value == w[|w| - |FindSyllable(w).value|..]
  {
  }

  /** A syllable found in a window is made of syllable letters and holds a vowel. */
  lemma FindSyllableLetters(w: string)
    requires FindSyllable(w).Some?
    ensures AllSyllableLetters(FindSyllable(w).value) && HasVowel(FindSyllable(w).value)
  {
    RunStartSpec(w, |w|);
  }

  /** A syllable found in a window starts at the start of the window or after
      a letter outside both classes. */
  lemma FindSyllableMaximal(w: string)
    requires FindSyllable(w).Some?
    ensures var n := |FindSyllable(w).value|; n == |w| || !IsSyllableLetter(w[|w| - n - 1])
  {
    RunStartSpec(w, |w|);
  }

  /** There is no syllable exactly when no suffix of syllable letters holds a vowel. */
  lemma NoSyllable(w: string)
    ensures FindSyllable(w).None? <==>
      forall k :: 0 <= k <= |w| && AllSyllableLetters(w[k..]) ==> !HasVowel(w[k..])
  {
    var start := RunStart(w, |w|);
    RunStartSpec(w, |w|);
    SuffixesOfRun(w, start);
  }

  /** The suffixes of `w` made only of syllable letters are those of the run
      that ends `w`, and each holds a vowel only if the whole run does. */
  lemma SuffixesOfRun(w: string, start: nat)
    requires start <= |w| && AllSyllableLetters(w[start..])
    requires start == 0 || !IsSyllableLetter(w[start - 1])
    ensures forall k :: 0 <= k < start ==> !AllSyllableLetters(w[k..])
    ensures forall k :: start <= k <= |w| && HasVowel(w[k..]) ==> HasVowel(w[start..])
  {
    forall k | 0 <= k < start
      ensures !AllSyllableLetters(w[k..])
    {
      assert w[k..][start - 1 - k] == w[start - 1];
    }
    forall k | start <= k <= |w| && HasVowel(w[k..])
      ensures HasVowel(w[start..])
    {
      var i :| 0 <= i < |w[k..]| && IsVowel(w[k..][i]);
      assert w[start..][i + k - start] == w[k..][i];
    }
  }

  /** `String.prototype.match` with the right-anchored pattern returns the
      match that starts leftmost, and the scan finds exactly that one. */
  lemma FindSyllableIsLeftmostMatch(w: string)
    ensures FindSyllable(w).Some? <==> exists k :: 0 <= k <= |w| && MatchesPattern(w[k..])
    ensures FindSyllable(w).Some? ==>
      var k := |w| - |FindSyllable(w).value|;
      MatchesPattern(w[k..]) && forall j :: 0 <= j < k ==> !MatchesPattern(w[j..])
  {
    var start := RunStart(w, |w|);
    RunStartSpec(w, |w|);
    SuffixesOfRun(w, start);
    forall k | 0 <= k <= |w|
      ensures MatchesPattern(w[k..]) <==> start <= k && HasVowel(w[k..])
    {
      PatternLanguage(w[k..]);
      if start <= k {
        assert forall i :: 0 <= i < |w| - k ==> w[k..][i] == w[start..][i + k - start];
      }
    }
  }

  /** The syllable the handler finds before the cursor. */
  function SyllableBeforeCursor(lineText: string, position: nat): (r: Option<string>)
    ensures r.Some? ==> |r.value| <= WindowWidth && |r.value| <= position
  {
    FindSyllable(Window(lineText, position))
  }

  /** The syllable starts inside the window: at most ten characters before the
      cursor and not before the start of the line; when the cursor is on the
      line, the syllable is the text just before it. */
  lemma SyllableStartBounds(lineText: string, position: nat)
    requires SyllableBeforeCursor(lineText, position).Some?
    ensures var syllable := SyllableBeforeCursor(lineText, position).value;
      var syllableStart := position - |syllable|;
      0 <= syllableStart <= position && position - syllableStart <= WindowWidth &&
      (position <= |lineText| ==> lineText[syllableStart..position] == syllable)
  {
    var w := Window(lineText, position);
    var syllable := FindSyllable(w).value;
    FindSyllableEndsWindow(w);
    if position <= |lineText| {
      WindowOnLine(lineText, position);
      SuffixOfSlice(lineText, position - |w|, position, |syllable|);
    }
  }

  lemma SuffixOfSlice(s: string, lo: nat, hi: nat, n: nat)
    requires lo <= hi <= |s| && n <= hi - lo
    ensures s[lo..hi][hi - lo - n..] == s[hi - n..hi]
  {
  }

  /** On the line, the syllable is made of syllable letters and is the text
      just before the cursor. */
  lemma SyllableOnLine(lineText: string, position: nat, syllable: string)
    requires position <= |lineText| && SyllableBeforeCursor(lineText, position) == Some(syllable)
    ensures |syllable| <= position && lineText[position - |syllable|..position] == syllable
    ensures AllSyllableLetters(syllable) && HasVowel(syllable)
  {
    SyllableStartBounds(lineText, position);
    FindSyllableLetters(Window(lineText, position));
  }

  /** The syllable is as long as it can be: it is preceded by the start of the
      line, the start of the window or a letter outside both classes. */
  lemma SyllableIsMaximal(lineText: string, position: nat)
    requires SyllableBeforeCursor(lineText, position).Some? && position <= |lineText|
    ensures var syllable := SyllableBeforeCursor(lineText, position).value;
      var syllableStart := position - |syllable|;
      syllableStart == 0 || |syllable| == WindowWidth ||
      (0 < syllableStart <= |lineText| && !IsSyllableLetter(lineText[syllableStart - 1]))
  {
    var w := Window(lineText, position);
    var n := |SyllableBeforeCursor(lineText, position).value|;
    assert n <= |w| && (n == |w| || !IsSyllableLetter(w[|w| - n - 1])) by {
      FindSyllableMaximal(w);
    }
    assert w == lineText[position - |w|..position] by {
      WindowOnLine(lineText, position);
    }
    MaximalInWindow(lineText, position, w, n);
  }

  /** A run of `n` letters that ends the window and is preceded, inside the
      window, by a letter outside both classes. */
  lemma MaximalInWindow(lineText: string, position: nat, w: string, n: nat)
    requires position <= |lineText| && |w| == (if position < WindowWidth then position else WindowWidth)
    requires w == lineText[position - |w|..position]
    requires n <= |w| && (n == |w| || !IsSyllableLetter(w[|w| - n - 1]))
    ensures position - n == 0 || n == WindowWidth ||
      (0 < position - n <= |lineText| && !IsSyllableLetter(lineText[position - n - 1]))
  {
    if n < |w| {
      assert w[|w| - n - 1] == lineText[position - n - 1];
    }
  }

  /** "ni xian" with the cursor after the n: the whole of "xian", up to the space. */
  lemma XianExample()
    ensures SyllableBeforeCursor("ni xian", 7) == Some("xian")
  {
    var w := Window("ni xian", 7);
    assert w == "ni xian";
    assert RunStart(w, 3) == 3;
    assert RunStart(w, 7) == 3;
    assert w[3..] == "xian" && IsVowel(w[3..][1]);
  }

  /** "lv": v is in neither class, so nothing precedes the cursor that a tone
      digit could mark. */
  lemma LvExample()
    ensures SyllableBeforeCursor("lv", 2) == None
  {
    var w := Window("lv", 2);
    assert w == "lv";
    assert RunStart(w, 2) == 2;
  }
}
