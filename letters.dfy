/** Letter classes shared by the tone applier and the syllable pattern of the
    pinyin input extension. Case is kept: both classes hold each letter in its
    lower- and upper-case form. */
module Letters {

  /** A letter whose lower-case form is one of a, e, i, o, u, ü. */
  predicate IsVowel(c: char) {
    c in {'a', 'e', 'i', 'o', 'u', 'ü', 'A', 'E', 'I', 'O', 'U', 'Ü'}
  }

  /** A letter of the pattern's consonant class `[bcdfghjklmnpqrstwxyz]`, in
      either case; `v` and `V` are not in it. */
  predicate IsConsonant(c: char) {
    ('a' <= c <= 'z' || 'A' <= c <= 'Z') &&
    c !in {'a', 'e', 'i', 'o', 'u', 'v', 'A', 'E', 'I', 'O', 'U', 'V'}
  }

  /** A letter that may appear in a syllable at all. */
  predicate IsSyllableLetter(c: char) {
    IsConsonant(c) || IsVowel(c)
  }

  predicate AllSyllableLetters(s: string) {
    forall i :: 0 <= i < |s| ==> IsSyllableLetter(s[i])
  }

  predicate HasVowel(s: string) {
    exists i :: 0 <= i < |s| && IsVowel(s[i])
  }

  /** `toLowerCase` on the letters that matter here: the ASCII capitals and Ü.
      Every other character is left as it is. */
  function LowerCase(c: char): char {
    if 'A' <= c <= 'Z' then (c as int + 32) as char
    else if c == 'Ü' then 'ü'
    else c
  }

  /** The vowel test of `findVowels`: the lower-case form is one of "aeiouü". */
  lemma VowelByLowerCase(c: char)
    ensures IsVowel(c) <==> LowerCase(c) in "aeiouü"
  {
  }

  /** The consonant class of the pattern, `[bcdfghjklmnpqrstwxyz]` under the
      case-insensitive flag. */
  lemma ConsonantByLowerCase(c: char)
    ensures IsConsonant(c) <==> LowerCase(c) in "bcdfghjklmnpqrstwxyz"
  {
  }
}
