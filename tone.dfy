/** The tone applier: given a syllable and a tone from 1 to 4, put the tone
    mark on the one vowel that pinyin's placement rule selects. */
module ToneApplier {
  import opened Letters

  /** The toned forms of each vowel, indexed by tone - 1. There is no entry
      for upper-case I, U or Ü. */
  const VowelMap: map<char, string> := map[
    'a' := "āáǎà",
    'e' := "ēéěè",
    'i' := "īíǐì",
    'o' := "ōóǒò",
    'u' := "ūúǔù",
    'ü' := "ǖǘǚǜ",
    'A' := "ĀÁǍÀ",
    'E' := "ĒÉĚÈ",
    'O' := "ŌÓǑÒ"
  ]

  /** A vowel of the syllable together with its position in the syllable. */
  datatype VowelOccurrence = VowelOccurrence(ch: char, index: nat)

  /** The vowels of `s`, left to right, each with its position. */
  function Occurrences(s: string): seq<VowelOccurrence> {
    if s == [] then []
    else
      var init := Occurrences(s[..|s| - 1]);
      if IsVowel(s[|s| - 1]) then init + [VowelOccurrence(s[|s| - 1], |s| - 1)] else init
  }

  /** Every entry of the vowel list is a vowel of `s` at its position, and the
      positions increase along the list. */
  lemma {:induction false} OccurrencesSound(s: string)
    ensures var r := Occurrences(s);
      |r| <= |s| &&
      (forall j :: 0 <= j < |r| ==> r[j].index < |s| && s[r[j].index] == r[j].ch && IsVowel(r[j].ch)) &&
      (forall j, k :: 0 <= j < k < |r| ==> r[j].index < r[k].index)
    decreases |s|
  {
    if s != [] {
      var last := |s| - 1;
      OccurrencesSound(s[..last]);
      assert forall i :: 0 <= i < last ==> s[..last][i] == s[i];
    }
  }

  /** Some entry of the vowel list is at position `i`. */
  predicate Listed(r: seq<VowelOccurrence>, i: int) {
    exists j :: 0 <= j < |r| && r[j].index == i
  }

  /** Every vowel of `s` has an entry in the vowel list. */
  lemma {:induction false} OccurrencesComplete(s: string)
    ensures forall i :: 0 <= i < |s| && IsVowel(s[i]) ==> Listed(Occurrences(s), i)
    decreases |s|
  {
    if s != [] {
      var last := |s| - 1;
      var init := Occurrences(s[..last]);
      var r := Occurrences(s);
      OccurrencesComplete(s[..last]);
      forall i | 0 <= i < |s| && IsVowel(s[i])
        ensures Listed(r, i)
      {
        if i < last {
          assert s[..last][i] == s[i];
          var j :| 0 <= j < |init| && init[j].index == i;
          assert r[j] == init[j];
        } else {
          assert r[|init|].index == i;
        }
      }
    }
  }

  /** `findVowels`: one pass over the text, collecting every vowel with its index. */
  method FindVowels(text: string) returns (vowels: seq<VowelOccurrence>)
    ensures vowels == Occurrences(text)
  {
    vowels := [];
    for i := 0 to |text|
      invariant vowels == Occurrences(text[..i])
    {
      assert text[..i + 1][..i] == text[..i];
      if IsVowel(text[i]) {
        vowels := vowels + [VowelOccurrence(text[i], i)];
      }
    }
    assert text[..|text|] == text;
  }

  /** The vowel letters joined into one string (`vowels.map(v => v.char).join("")`). */
  function VowelString(vowels: seq<VowelOccurrence>): string {
    seq(|vowels|, j requires 0 <= j < |vowels| => vowels[j].ch)
  }

  /** The vowel letters of a syllable, in order. */
  function VowelLetters(s: string): string {
    VowelString(Occurrences(s))
  }

  /** `hay.includes(needle)`: `needle` occurs in `hay` at some offset. */
  predicate Includes(hay: string, needle: string) {
    exists k :: 0 <= k <= |hay| && OccursAt(hay, needle, k)
  }

  predicate OccursAt(hay: string, needle: string, k: int) {
    0 <= k <= |hay| - |needle| && hay[k..k + |needle|] == needle
  }

  /** `vowels.findIndex(v => v.char === c)`: the first entry holding `c`, or -1. */
  function FindIndex(vowels: seq<VowelOccurrence>, c: char): (r: int)
    ensures -1 <= r < |vowels|
    ensures r == -1 <==> forall j :: 0 <= j < |vowels| ==> vowels[j].ch != c
    ensures r >= 0 ==> vowels[r].ch == c && forall j :: 0 <= j < r ==> vowels[j].ch != c
  {
    if vowels == [] then -1
    else if vowels[0].ch == c then 0
    else
      var r := FindIndex(vowels[1..], c);
      if r == -1 then -1 else r + 1
  }

  /** The placement rule: which entry of the (non-empty) vowel list gets the
      tone mark. It always names an entry, so the source's "index -1" check
      after the rule never fires. */
  function SelectTarget(vowels: seq<VowelOccurrence>): (r: int)
    requires |vowels| > 0
    ensures 0 <= r < |vowels|
  {
    var letters := VowelString(vowels);
    if Includes(letters, "a") then
      IncludesHead(letters, "a"); FindIndex(vowels, 'a')
    else if Includes(letters, "A") then
      IncludesHead(letters, "A"); FindIndex(vowels, 'A')
    else if Includes(letters, "e") then
      IncludesHead(letters, "e"); FindIndex(vowels, 'e')
    else if Includes(letters, "E") then
      IncludesHead(letters, "E"); FindIndex(vowels, 'E')
    else if Includes(letters, "ou") then
      IncludesHead(letters, "ou"); FindIndex(vowels, 'o')
    else if Includes(letters, "Ou") then
      IncludesHead(letters, "Ou"); FindIndex(vowels, 'O')
    else if letters == "iu" then
      assert letters[1] == 'u'; FindIndex(vowels, 'u')
    else if letters == "ui" then
      assert letters[1] == 'i'; FindIndex(vowels, 'i')
    else
      |vowels| - 1
  }

  /** The position in `s` of the vowel that receives the tone mark. */
  function TargetPosition(s: string): (p: nat)
    requires HasVowel(s)
    ensures p < |s| && IsVowel(s[p])
  {
    var vowels := Occurrences(s);
    HasVowelIff(s);
    OccurrencesSound(s);
    vowels[SelectTarget(vowels)].index
  }

  /** The outcome of `convertSyllableWithTone`: the rewritten syllable, or the
      failed table lookup for an upper-case I, U or Ü target (the source then
      throws a TypeError). */
  datatype ToneResult = Converted(text: string) | MissingEntry(vowel: char)

  /** `convertSyllableWithTone(syllable, tone)`. A syllable without vowels
      comes back unchanged; a converted syllable keeps its length. */
  function ConvertSyllableWithTone(syllable: string, tone: int): (r: ToneResult)
    requires 1 <= tone <= 4
    ensures r.Converted? ==> |r.text| == |syllable|
    ensures !HasVowel(syllable) ==> r == Converted(syllable)
  {
    var vowels := Occurrences(syllable);
    HasVowelIff(syllable);
    OccurrencesSound(syllable);
    if |vowels| == 0 then
      Converted(syllable)
    else
      var target := vowels[SelectTarget(vowels)];
      TableKeys(target.ch);
      if target.ch !in VowelMap then
        MissingEntry(target.ch)
      else
        var newVowel := VowelMap[target.ch][tone - 1];
        Splice(syllable, target.index, newVowel);
        Converted(syllable[..target.index] + [newVowel] + syllable[target.index + 1..])
  }

  /** Where the mark goes: the lookup fails exactly when the target vowel is an
      upper-case I, U or Ü; otherwise the target vowel, and no other letter,
      is replaced by its toned form for `tone`. */
  lemma MarkPlacement(syllable: string, tone: int)
    requires 1 <= tone <= 4 && HasVowel(syllable)
    ensures var r := ConvertSyllableWithTone(syllable, tone);
      var p := TargetPosition(syllable);
      (r.MissingEntry? <==> syllable[p] in {'I', 'U', 'Ü'}) &&
      (r.MissingEntry? ==> r.vowel == syllable[p]) &&
      (r.Converted? ==>
        syllable[p] in VowelMap && |VowelMap[syllable[p]]| == 4 &&
        r.text[p] == VowelMap[syllable[p]][tone - 1] &&
        forall i :: 0 <= i < |syllable| && i != p ==> r.text[i] == syllable[i])
  {
    HasVowelIff(syllable);
    OccurrencesSound(syllable);
    var vowels := Occurrences(syllable);
    var target := vowels[SelectTarget(vowels)];
    var p := TargetPosition(syllable);
    assert target.index == p && target.ch == syllable[p];
    TableKeys(target.ch);
    var r := ConvertSyllableWithTone(syllable, tone);
    if target.ch in VowelMap {
      var newVowel := VowelMap[target.ch][tone - 1];
      assert r == Converted(syllable[..p] + [newVowel] + syllable[p + 1..]);
      Splice(syllable, p, newVowel);
    } else {
      assert r == MissingEntry(target.ch);
    }
  }

  /** A syllable marked at its target position, read as a conversion result. */
  lemma MarkedAt(s: string, tone: int, p: nat, t: string)
    requires 1 <= tone <= 4 && HasVowel(s) && TargetPosition(s) == p && s[p] in VowelMap
    requires |t| == |s| && |VowelMap[s[p]]| == 4 && t[p] == VowelMap[s[p]][tone - 1]
    requires forall i :: 0 <= i < |s| && i != p ==> t[i] == s[i]
    ensures ConvertSyllableWithTone(s, tone) == Converted(t)
  {
    MarkPlacement(s, tone);
    var r := ConvertSyllableWithTone(s, tone);
    assert r.Converted?;
    assert r.text == t;
  }

  // ---------------------------------------------------------------------------
  // Helpers about `Includes` and the vowel list
  // ---------------------------------------------------------------------------

  /** A syllable has a vowel exactly when its vowel list is non-empty. */
  lemma HasVowelIff(s: string)
    ensures HasVowel(s) <==> Occurrences(s) != []
  {
    var vowels := Occurrences(s);
    OccurrencesSound(s);
    OccurrencesComplete(s);
    if HasVowel(s) {
      var i :| 0 <= i < |s| && IsVowel(s[i]);
      assert exists j :: 0 <= j < |vowels| && vowels[j].index == i;
    }
    if vowels != [] {
      assert IsVowel(s[vowels[0].index]);
    }
  }

  /** The table covers every vowel but upper-case I, U and Ü, with four forms each. */
  lemma TableKeys(c: char)
    requires IsVowel(c)
    ensures c !in VowelMap <==> c in {'I', 'U', 'Ü'}
    ensures c in VowelMap ==> |VowelMap[c]| == 4
  {
  }

  lemma Splice(s: string, p: nat, x: char)
    requires p < |s|
    ensures var t := s[..p] + [x] + s[p + 1..];
      |t| == |s| && t[p] == x && forall i :: 0 <= i < |s| && i != p ==> t[i] == s[i]
  {
  }

  lemma IncludesHead(hay: string, needle: string)
    requires |needle| > 0 && Includes(hay, needle)
    ensures needle[0] in hay
  {
    var k :| 0 <= k <= |hay| && OccursAt(hay, needle, k);
    assert hay[k..k + |needle|][0] == needle[0];
  }

  /** A vowel is among a syllable's vowel letters exactly when the syllable holds it. */
  lemma VowelLetterIn(s: string, c: char)
    requires IsVowel(c)
    ensures c in s <==> c in VowelLetters(s)
  {
    var vowels := Occurrences(s);
    OccurrencesSound(s);
    OccurrencesComplete(s);
    var letters := VowelLetters(s);
    if c in s {
      var i :| 0 <= i < |s| && s[i] == c;
      var j :| 0 <= j < |vowels| && vowels[j].index == i;
      assert letters[j] == c;
    }
    if c in letters {
      var j :| 0 <= j < |letters| && letters[j] == c;
      assert s[vowels[j].index] == c;
    }
  }

  /** `includes` of a one-letter string is membership. */
  lemma IncludesSingle(hay: string, c: char)
    ensures Includes(hay, [c]) <==> c in hay
  {
    if c in hay {
      var i :| 0 <= i < |hay| && hay[i] == c;
      assert hay[i..i + 1] == [c];
      assert OccursAt(hay, [c], i);
    }
    if Includes(hay, [c]) {
      IncludesHead(hay, [c]);
    }
  }

  /** `s` holds `c` at `p` and nowhere before. */
  predicate FirstAt(s: string, c: char, p: int) {
    0 <= p < |s| && s[p] == c && forall j :: 0 <= j < p ==> s[j] != c
  }

  /** Looking a vowel up in the vowel list finds its first position in the syllable. */
  lemma FindIndexIsFirst(s: string, c: char)
    requires IsVowel(c) && c in s
    ensures var vowels := Occurrences(s); var k := FindIndex(vowels, c);
      0 <= k < |vowels| && FirstAt(s, c, vowels[k].index)
  {
    var vowels := Occurrences(s);
    OccurrencesSound(s);
    assert exists m :: 0 <= m < |vowels| && vowels[m].ch == c by {
      VowelLetterIn(s, c);
      var m :| 0 <= m < |VowelLetters(s)| && VowelLetters(s)[m] == c;
      assert vowels[m].ch == c;
    }
    var k := FindIndex(vowels, c);
    NoEarlierOccurrence(s, c, k);
  }

  /** When no entry before the `k`-th holds `c`, no position before its
      position does either. */
  lemma NoEarlierOccurrence(s: string, c: char, k: nat)
    requires IsVowel(c) && k < |Occurrences(s)|
    requires forall n :: 0 <= n < k ==> Occurrences(s)[n].ch != c
    ensures forall j :: 0 <= j < |s| && j < Occurrences(s)[k].index ==> s[j] != c
  {
    var vowels := Occurrences(s);
    OccurrencesSound(s);
    OccurrencesComplete(s);
    forall j | 0 <= j < |s| && j < vowels[k].index && IsVowel(s[j])
      ensures s[j] != c
    {
      var n :| 0 <= n < |vowels| && vowels[n].index == j;
      IndexOrder(vowels, n, k);
    }
  }

  /** Positions in the vowel list grow with the entries. */
  lemma IndexOrder(vowels: seq<VowelOccurrence>, n: nat, k: nat)
    requires n < |vowels| && k < |vowels|
    requires forall a, b :: 0 <= a < b < |vowels| ==> vowels[a].index < vowels[b].index
    ensures vowels[n].index < vowels[k].index ==> n < k
  {
    if n > k {
      assert vowels[k].index < vowels[n].index;
    }
  }

  /** Lower-case a wins: the mark goes on the first `a`. */
  lemma TargetFirstLowerA(s: string)
    requires 'a' in s
    ensures HasVowel(s) && FirstAt(s, 'a', TargetPosition(s))
  {
    HasVowelIff(s);
    VowelLetterIn(s, 'a');
    IncludesSingle(VowelLetters(s), 'a');
    FindIndexIsFirst(s, 'a');
  }

  /** Without a lower-case a, the first `A`. */
  lemma TargetFirstUpperA(s: string)
    requires 'a' !in s && 'A' in s
    ensures HasVowel(s) && FirstAt(s, 'A', TargetPosition(s))
  {
    HasVowelIff(s);
    VowelLetterIn(s, 'a');
    IncludesSingle(VowelLetters(s), 'a');
    VowelLetterIn(s, 'A');
    IncludesSingle(VowelLetters(s), 'A');
    FindIndexIsFirst(s, 'A');
  }

  /** Without a or A, the first `e`. */
  lemma TargetFirstLowerE(s: string)
    requires 'a' !in s && 'A' !in s && 'e' in s
    ensures HasVowel(s) && FirstAt(s, 'e', TargetPosition(s))
  {
    HasVowelIff(s);
    NoLetterIn(s, 'a');
    NoLetterIn(s, 'A');
    VowelLetterIn(s, 'e');
    IncludesSingle(VowelLetters(s), 'e');
    FindIndexIsFirst(s, 'e');
  }

  /** Without a, A or e, the first `E`. */
  lemma TargetFirstUpperE(s: string)
    requires 'a' !in s && 'A' !in s && 'e' !in s && 'E' in s
    ensures HasVowel(s) && FirstAt(s, 'E', TargetPosition(s))
  {
    HasVowelIff(s);
    NoLetterIn(s, 'a');
    NoLetterIn(s, 'A');
    NoLetterIn(s, 'e');
    VowelLetterIn(s, 'E');
    IncludesSingle(VowelLetters(s), 'E');
    FindIndexIsFirst(s, 'E');
  }

  /** With no a or e in either case and "ou" among the vowel letters, the
      first `o` of the syllable, which need not be the `o` of that pair. */
  lemma TargetOu(s: string)
    requires 'a' !in s && 'A' !in s && 'e' !in s && 'E' !in s
    requires Includes(VowelLetters(s), "ou")
    ensures HasVowel(s) && FirstAt(s, 'o', TargetPosition(s))
  {
    NoAOrE(s);
    IncludesHead(VowelLetters(s), "ou");
    VowelLetterIn(s, 'o');
    HasVowelIff(s);
    FindIndexIsFirst(s, 'o');
  }

  /** Failing that, with "Ou" among the vowel letters, the first `O`. */
  lemma TargetUpperOu(s: string)
    requires 'a' !in s && 'A' !in s && 'e' !in s && 'E' !in s
    requires !Includes(VowelLetters(s), "ou") && Includes(VowelLetters(s), "Ou")
    ensures HasVowel(s) && FirstAt(s, 'O', TargetPosition(s))
  {
    NoAOrE(s);
    IncludesHead(VowelLetters(s), "Ou");
    VowelLetterIn(s, 'O');
    HasVowelIff(s);
    FindIndexIsFirst(s, 'O');
  }

  /** Vowel letters exactly "iu": the `u`. */
  lemma TargetIu(s: string)
    requires VowelLetters(s) == "iu"
    ensures HasVowel(s) && FirstAt(s, 'u', TargetPosition(s))
  {
    var letters := VowelLetters(s);
    ExactVowelsHaveNoAOrE(s);
    NoAOrE(s);
    NotIncludesPair(letters, 'o', 'u');
    NotIncludesPair(letters, 'O', 'u');
    assert letters[1] == 'u';
    VowelLetterIn(s, 'u');
    HasVowelIff(s);
    FindIndexIsFirst(s, 'u');
  }

  /** Vowel letters exactly "ui": the `i`. */
  lemma TargetUi(s: string)
    requires VowelLetters(s) == "ui"
    ensures HasVowel(s) && FirstAt(s, 'i', TargetPosition(s))
  {
    var letters := VowelLetters(s);
    ExactVowelsHaveNoAOrE(s);
    NoAOrE(s);
    NotIncludesPair(letters, 'o', 'u');
    NotIncludesPair(letters, 'O', 'u');
    assert letters[1] == 'i';
    VowelLetterIn(s, 'i');
    HasVowelIff(s);
    FindIndexIsFirst(s, 'i');
  }

  /** In every other case the mark goes on the last vowel of the syllable. */
  lemma TargetLastVowel(s: string)
    requires HasVowel(s)
    requires 'a' !in s && 'A' !in s && 'e' !in s && 'E' !in s
    requires !Includes(VowelLetters(s), "ou") && !Includes(VowelLetters(s), "Ou")
    requires VowelLetters(s) != "iu" && VowelLetters(s) != "ui"
    ensures var p := TargetPosition(s);
      IsVowel(s[p]) && forall j :: p < j < |s| ==> !IsVowel(s[j])
  {
    HasVowelIff(s);
    NoAOrE(s);
    var vowels := Occurrences(s);
    OccurrencesSound(s);
    OccurrencesComplete(s);
    var p := TargetPosition(s);
    assert p == vowels[|vowels| - 1].index;
    forall j | p < j < |s|
      ensures !IsVowel(s[j])
    {
      forall n | 0 <= n < |vowels|
        ensures vowels[n].index != j
      {
        IndexOrder(vowels, |vowels| - 1, n);
      }
    }
  }

  lemma NoLetterIn(s: string, c: char)
    requires IsVowel(c) && c !in s
    ensures !Includes(VowelLetters(s), [c])
  {
    VowelLetterIn(s, c);
    IncludesSingle(VowelLetters(s), c);
  }

  lemma NoAOrE(s: string)
    requires 'a' !in s && 'A' !in s && 'e' !in s && 'E' !in s
    ensures !Includes(VowelLetters(s), "a") && !Includes(VowelLetters(s), "A")
    ensures !Includes(VowelLetters(s), "e") && !Includes(VowelLetters(s), "E")
  {
    NoLetterIn(s, 'a');
    NoLetterIn(s, 'A');
    NoLetterIn(s, 'e');
    NoLetterIn(s, 'E');
  }

  lemma ExactVowelsHaveNoAOrE(s: string)
    requires VowelLetters(s) == "iu" || VowelLetters(s) == "ui"
    ensures 'a' !in s && 'A' !in s && 'e' !in s && 'E' !in s
  {
    VowelLetterIn(s, 'a');
    VowelLetterIn(s, 'A');
    VowelLetterIn(s, 'e');
    VowelLetterIn(s, 'E');
  }

  lemma NotIncludesPair(hay: string, x: char, y: char)
    requires |hay| == 2 && hay[0] != x
    ensures !Includes(hay, [x, y])
  {
    forall k | 0 <= k <= |hay|
      ensures !OccursAt(hay, [x, y], k)
    {
      if k == 0 {
        assert hay[0..2][0] == hay[0];
      }
    }
  }

  // ---------------------------------------------------------------------------
  // The inverse of marking: reading a toned letter back as plain vowel and tone
  // ---------------------------------------------------------------------------

  /** A letter that is one of the table's toned forms. */
  ghost predicate IsTonedForm(c: char) {
    exists v :: v in VowelMap && c in VowelMap[v]
  }

  /** The plain vowel behind a toned form; any other letter stands for itself. */
  ghost function PlainLetter(c: char): char {
    if IsTonedForm(c) then
      var v :| v in VowelMap && c in VowelMap[v]; v
    else c
  }

  /** The tone a letter carries: 1 to 4 for a toned form, 0 for any other letter. */
  ghost function ToneOf(c: char): int {
    if IsTonedForm(c) then
      var v :| v in VowelMap && c in VowelMap[v];
      var k :| 0 <= k < |VowelMap[v]| && VowelMap[v][k] == c; k + 1
    else 0
  }

  /** A string with every tone mark taken off. */
  ghost function StripTones(s: string): string {
    seq(|s|, i requires 0 <= i < |s| => PlainLetter(s[i]))
  }

  /** Each toned form reads back as its vowel and tone, and is itself no
      syllable letter. */
  lemma ToneFormReadsBack(v: char, k: nat)
    requires v in VowelMap && k < 4
    ensures |VowelMap[v]| == 4
    ensures var c := VowelMap[v][k];
      IsTonedForm(c) && PlainLetter(c) == v && ToneOf(c) == k + 1 && !IsSyllableLetter(c)
  {
    var c := VowelMap[v][k];
    assert c in VowelMap[v];
    FormsOfOneVowel(v, k);
    FormsDistinct(v, k);
  }

  /** No toned form belongs to two table entries, and none is a syllable letter. */
  lemma FormsOfOneVowel(v: char, k: nat)
    requires v in VowelMap && k < 4
    ensures |VowelMap[v]| == 4 && !IsSyllableLetter(VowelMap[v][k])
    ensures forall w :: w in VowelMap && VowelMap[v][k] in VowelMap[w] ==> w == v
  {
    var c := VowelMap[v][k];
    FormIsHigh(v, k);
    HighLetterNotSyllableLetter(c);
    forall w | w in VowelMap && c in VowelMap[w]
      ensures w == v
    {
      var j :| 0 <= j < |VowelMap[w]| && VowelMap[w][j] == c;
      FormsOwner(v, k);
      FormsOwner(w, j);
    }
  }

  /** The toned forms lie above the code points of the plain letters. */
  lemma FormIsHigh(v: char, k: nat)
    requires v in VowelMap && k < 4
    ensures |VowelMap[v]| == 4
    ensures VowelMap[v][k] as int >= 0xC0 && VowelMap[v][k] != 'ü' && VowelMap[v][k] != 'Ü'
  {
  }

  /** Reads a toned form back to the table key that holds it. */
  function FormOwner(c: char): char {
    match c
    case 'ā' => 'a' case 'á' => 'a' case 'ǎ' => 'a' case 'à' => 'a'
    case 'ē' => 'e' case 'é' => 'e' case 'ě' => 'e' case 'è' => 'e'
    case 'ī' => 'i' case 'í' => 'i' case 'ǐ' => 'i' case 'ì' => 'i'
    case 'ō' => 'o' case 'ó' => 'o' case 'ǒ' => 'o' case 'ò' => 'o'
    case 'ū' => 'u' case 'ú' => 'u' case 'ǔ' => 'u' case 'ù' => 'u'
    case 'ǖ' => 'ü' case 'ǘ' => 'ü' case 'ǚ' => 'ü' case 'ǜ' => 'ü'
    case 'Ā' => 'A' case 'Á' => 'A' case 'Ǎ' => 'A' case 'À' => 'A'
    case 'Ē' => 'E' case 'É' => 'E' case 'Ě' => 'E' case 'È' => 'E'
    case 'Ō' => 'O' case 'Ó' => 'O' case 'Ǒ' => 'O' case 'Ò' => 'O'
    case _ => c
  }

  lemma FormsOwner(v: char, k: nat)
    requires v in VowelMap && 0 <= k < |VowelMap[v]|
    ensures FormOwner(VowelMap[v][k]) == v
  {
  }

  lemma HighLetterNotSyllableLetter(c: char)
    requires c as int >= 0xC0 && c != 'ü' && c != 'Ü'
    ensures !IsSyllableLetter(c)
  {
  }

  /** The four toned forms of a vowel are distinct. */
  lemma FormsDistinct(v: char, k: nat)
    requires v in VowelMap && k < 4
    ensures forall j :: 0 <= j < |VowelMap[v]| && VowelMap[v][j] == VowelMap[v][k] ==> j == k
  {
  }

  /** Syllable letters carry no tone mark. */
  lemma SyllableLetterUntoned(c: char)
    requires IsSyllableLetter(c)
    ensures !IsTonedForm(c) && PlainLetter(c) == c && ToneOf(c) == 0
  {
    if IsTonedForm(c) {
      var v :| v in VowelMap && c in VowelMap[v];
      var k :| 0 <= k < |VowelMap[v]| && VowelMap[v][k] == c;
      ToneFormReadsBack(v, k);
    }
  }

  /** Marking a syllable of plain letters and then stripping the marks gives
      the syllable back. */
  lemma MarkThenStrip(s: string, tone: int, t: string)
    requires 1 <= tone <= 4 && AllSyllableLetters(s)
    requires ConvertSyllableWithTone(s, tone) == Converted(t)
    ensures StripTones(t) == s
  {
    forall i | 0 <= i < |t|
      ensures PlainLetter(t[i]) == s[i]
    {
      MarkedLetter(s, tone, t, i);
    }
  }

  /** A converted syllable of plain letters carries exactly one tone mark, of
      the given tone, on the target vowel, which therefore changes; a syllable
      without vowels carries none. */
  lemma MarkedOnce(s: string, tone: int, t: string)
    requires 1 <= tone <= 4 && AllSyllableLetters(s)
    requires ConvertSyllableWithTone(s, tone) == Converted(t)
    ensures |t| == |s|
    ensures !HasVowel(s) ==> forall i :: 0 <= i < |t| ==> ToneOf(t[i]) == 0
    ensures HasVowel(s) ==>
      var p := TargetPosition(s);
      t[p] != s[p] && forall i :: 0 <= i < |t| ==> ToneOf(t[i]) == if i == p then tone else 0
  {
    forall i | 0 <= i < |t|
      ensures ToneOf(t[i]) == if HasVowel(s) && i == TargetPosition(s) then tone else 0
    {
      MarkedLetter(s, tone, t, i);
    }
    if HasVowel(s) {
      MarkedLetter(s, tone, t, TargetPosition(s));
    }
  }

  /** One letter of a converted syllable of plain letters. */
  lemma MarkedLetter(s: string, tone: int, t: string, i: nat)
    requires 1 <= tone <= 4 && AllSyllableLetters(s)
    requires ConvertSyllableWithTone(s, tone) == Converted(t)
    requires i < |s|
    ensures |t| == |s| && PlainLetter(t[i]) == s[i]
    ensures ToneOf(t[i]) == if HasVowel(s) && i == TargetPosition(s) then tone else 0
    ensures HasVowel(s) && i == TargetPosition(s) ==> t[i] != s[i]
  {
    SyllableLetterUntoned(s[i]);
    if HasVowel(s) {
      MarkPlacement(s, tone);
      if i == TargetPosition(s) {
        ToneFormReadsBack(s[i], tone - 1);
      }
    }
  }

  /** A syllable that is one table vowel becomes that vowel's toned form. */
  lemma SingleVowel(v: char, tone: int)
    requires v in VowelMap && 1 <= tone <= 4
    ensures ConvertSyllableWithTone([v], tone) == Converted([VowelMap[v][tone - 1]])
  {
    var s := [v];
    assert IsVowel(s[0]);
    TableKeys(v);
    MarkPlacement(s, tone);
    var t := ConvertSyllableWithTone(s, tone).text;
    assert t == [t[0]];
  }

  /** The lookup fails exactly when the target vowel is an upper-case I, U or Ü. */
  lemma MissingEntryIff(s: string, tone: int)
    requires 1 <= tone <= 4
    ensures ConvertSyllableWithTone(s, tone).MissingEntry? <==>
      HasVowel(s) && s[TargetPosition(s)] in {'I', 'U', 'Ü'}
    ensures ConvertSyllableWithTone(s, tone).MissingEntry? ==>
      ConvertSyllableWithTone(s, tone).vowel in {'I', 'U', 'Ü'}
  {
    if HasVowel(s) {
      MarkPlacement(s, tone);
    }
  }
}
