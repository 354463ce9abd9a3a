# Pinyin input: tone placement, syllable extraction and keystroke dispatch

This is a Dafny model of the core of the pinyin-input extension for VS Code.
While the extension is active it acts on each single character typed:

- a `v` becomes `ü`;
- a tone digit `1` to `4` turns the pinyin syllable just before the cursor
  into its tone-marked form and deletes the digit, so `hao3` becomes `hǎo`.

The model has five modules:

- `Letters` (`letters.dfy`): the two character classes of the syllable
  pattern. Vowels are `a e i o u ü` in either case. Consonants are the ASCII
  letters other than vowels and `v`. Under the pattern's non-unicode `i`
  flag, no character other than these letters matches either class.
- `ToneApplier` (`tone.dfy`): `convertSyllableWithTone` modelled as a
  function, with its vowel table. Its inner `findVowels` loop is a method
  proved against the function `Occurrences`. The module also has lemmas for
  each branch of the placement rule. An inverse (`StripTones`, `ToneOf`)
  reads a toned letter back as its plain vowel and tone.
  `tone_examples.dfy` (`ToneExamples`) works the rule through concrete
  syllables.
- `SyllableExtraction` (`extraction.dfy`) covers extraction:
  - the ten-character window before the cursor;
  - the end-anchored syllable pattern, as a three-state automaton;
  - the backward scan that finds the match, proved to return the
    leftmost-starting match of the pattern.
- `KeystrokeDispatch` (`dispatch.dfy`): the text-change handler as a
  function from the handler's inputs to the edit it requests:
  - the active flag;
  - the changed line;
  - the cursor column;
  - the inserted text.

  Lemmas then say what that edit does to the line.

Three behaviours of the code are easy to misread, and the model keeps them:

- With `ou` among the vowel letters, the first `o` of the syllable is
  marked, which need not be the `o` of that pair
  (`src/extension.ts:129-130`; `ToneExamples.FirstOIsMarked`).
- The vowel table has no entries for upper-case `I`, `U` and `Ü`
  (`src/extension.ts:89-99`). When one of them is the target, the lookup on
  line 145 yields `undefined`, indexing it throws a TypeError, and no edit
  is made. The model returns `ToneResult.MissingEntry` and
  `Outcome.LookupError` (`ToneApplier.MissingEntryIff`,
  `ToneExamples.UpperCaseU`).
- The tone is only ever 1 to 4: the handler converts only the digits 1 to 4
  (`src/extension.ts:55-56`). The model therefore requires `1 <= tone <= 4`.

The check that the target index is -1 (line 142) can never fire: the
placement rule always names an entry of a non-empty vowel list, as
`ToneApplier.SelectTarget` ensures.

## Model

| member | source | states |
|---|---|---|
| Letters.IsVowel | src/extension.ts:105 | a vowel of the syllable: as `Letters.VowelByLowerCase` states, exactly a letter whose lower-case form is in "aeiouü" |
| Letters.VowelByLowerCase | src/extension.ts:105 | the vowel class agrees with the test "lower-case form is one of aeiouü" |
| Letters.IsConsonant | src/extension.ts:62 | the consonant class of the pattern: as `Letters.ConsonantByLowerCase` states, exactly a letter whose lower-case form is in `[bcdfghjklmnpqrstwxyz]` |
| Letters.ConsonantByLowerCase | src/extension.ts:62 | the consonant class agrees with `[bcdfghjklmnpqrstwxyz]` read case-insensitively |
| Letters.LowerCase | src/extension.ts:105 | `toLowerCase` restricted to the ASCII capitals and Ü, a plain definition; its meaning here is given by `Letters.VowelByLowerCase` and `Letters.ConsonantByLowerCase`: line 105's test and line 62's class agree with `IsVowel` and `IsConsonant` |
| ToneApplier.VowelMap | src/extension.ts:89-99 | the nine-key table; as `ToneApplier.TableKeys` states, every vowel but upper-case I, U and Ü has four toned forms |
| ToneApplier.Occurrences | src/extension.ts:102-110 | the vowel list that `findVowels` builds; `ToneApplier.OccurrencesSound` and `ToneApplier.OccurrencesComplete` state that it lists every vowel, exactly once, with its index, left to right |
| ToneApplier.FindVowels | src/extension.ts:102-110 | the loop returns exactly the specification list `Occurrences(text)` |
| ToneApplier.OccurrencesSound | src/extension.ts:102-110 | every entry of the vowel list is a vowel of the text at its recorded index; indices strictly increase; the list is no longer than the text |
| ToneApplier.OccurrencesComplete | src/extension.ts:102-110 | every vowel position of the text is listed |
| ToneApplier.HasVowelIff | src/extension.ts:112-113 | the vowel list is empty exactly when the syllable has no vowel |
| ToneApplier.VowelLetterIn | src/extension.ts:119 | a vowel occurs in the joined vowel string exactly when it occurs in the syllable |
| ToneApplier.VowelString | src/extension.ts:119 | the joined vowel letters; `ToneApplier.VowelLetterIn` states a vowel occurs in it exactly when it occurs in the syllable |
| ToneApplier.Includes | src/extension.ts:121-132 | `includes`: the needle occurs at some offset; `ToneApplier.IncludesSingle` states that for one letter this is membership |
| ToneApplier.IncludesSingle | src/extension.ts:121-128 | `includes` of a one-letter string is membership of the letter |
| ToneApplier.FindIndex | src/extension.ts:122 | `findIndex`: -1 exactly when no entry holds the letter, otherwise the first entry that does |
| ToneApplier.FindIndexIsFirst | src/extension.ts:122 | looking up a vowel that the syllable holds gives its first position in the syllable |
| ToneApplier.SelectTarget | src/extension.ts:116-142 | the rule always picks an entry of the non-empty list, so the -1 check never returns early |
| ToneApplier.TargetPosition | src/extension.ts:144 | the target is a position of the syllable that holds a vowel |
| ToneApplier.TargetFirstLowerA | src/extension.ts:121-122 | with an `a` present, the first `a` is marked |
| ToneApplier.TargetFirstUpperA | src/extension.ts:123-124 | with no `a` but an `A`, the first `A` is marked |
| ToneApplier.TargetFirstLowerE | src/extension.ts:125-126 | with no `a`/`A` but an `e`, the first `e` is marked |
| ToneApplier.TargetFirstUpperE | src/extension.ts:127-128 | with no `a`/`A`/`e` but an `E`, the first `E` is marked |
| ToneApplier.TargetOu | src/extension.ts:129-130 | with no `a`/`A`/`e`/`E` and `ou` among the vowel letters, the first `o` of the syllable is marked |
| ToneApplier.TargetUpperOu | src/extension.ts:131-132 | otherwise, with `Ou` among the vowel letters, the first `O` is marked |
| ToneApplier.TargetIu | src/extension.ts:133-134 | vowel letters exactly `iu`: the `u` is marked |
| ToneApplier.TargetUi | src/extension.ts:135-136 | vowel letters exactly `ui`: the `i` is marked |
| ToneApplier.TargetLastVowel | src/extension.ts:137-140 | in every other case the last vowel of the syllable is marked |
| ToneApplier.TableKeys | src/extension.ts:89-99 | the table covers every vowel except upper-case `I`, `U` and `Ü`, with four forms each |
| ToneApplier.ConvertSyllableWithTone | src/extension.ts:88-153 | a syllable without vowels comes back unchanged; a converted syllable keeps its length; where the mark goes and when the lookup fails are stated by `ToneApplier.MarkPlacement` and `ToneApplier.MissingEntryIff` |
| ToneApplier.MarkPlacement | src/extension.ts:144-152 | the lookup fails exactly for a target `I`, `U` or `Ü`; otherwise the target letter becomes its table form for the tone and every other letter is kept |
| ToneApplier.MissingEntryIff | src/extension.ts:144-145 | the conversion fails exactly when the syllable has a vowel and its target is `I`, `U` or `Ü`, and the reported letter is that one |
| ToneApplier.SingleVowel | src/extension.ts:144-152 | a syllable that is a single table vowel becomes that vowel's toned form for the tone |
| ToneApplier.ToneFormReadsBack | src/extension.ts:89-99 | each toned form of the table reads back as its vowel and its tone (1 to 4), and is not a syllable letter |
| ToneApplier.FormsOfOneVowel | src/extension.ts:89-99 | no toned form belongs to two table entries |
| ToneApplier.FormsDistinct | src/extension.ts:89-99 | the four forms of a vowel are distinct |
| ToneApplier.SyllableLetterUntoned | src/extension.ts:89-99 | letters that a syllable can hold carry no tone and read back as themselves |
| ToneApplier.MarkThenStrip | src/extension.ts:144-152 | taking the tone marks off a converted syllable gives the syllable back |
| ToneApplier.MarkedOnce | src/extension.ts:144-152 | a converted syllable carries exactly one mark, of the given tone; the mark is on the target, which changes; a syllable without vowels carries no mark |
| ToneExamples.Hao | src/extension.ts:121-122 | `hao` with tone 3 gives `hǎo` |
| ToneExamples.Xie | src/extension.ts:125-126 | `xie` with tone 4 gives `xiè` |
| ToneExamples.Dou | src/extension.ts:129-130 | `dou` with tone 1 gives `dōu` |
| ToneExamples.FirstOIsMarked | src/extension.ts:129-130 | `oou` with tone 1 gives `ōou`: the first `o`, not the one before the `u` |
| ToneExamples.Liu | src/extension.ts:133-134 | `liu` with tone 2 gives `liú` |
| ToneExamples.Gui | src/extension.ts:135-136 | `gui` with tone 4 gives `guì` |
| ToneExamples.Shi | src/extension.ts:137-139 | `shi` with tone 4 gives `shì` |
| ToneExamples.UpperCaseU | src/extension.ts:145 | `LIU` with tone 2 fails the lookup on `U` |
| SyllableExtraction.Window | src/extension.ts:57-58 | the window holds at most ten characters and no more than the cursor column; on the line it holds exactly min(column, 10) |
| SyllableExtraction.WindowOnLine | src/extension.ts:57-58 | with the cursor on the line, the window is the text just before the cursor |
| SyllableExtraction.Step | src/extension.ts:62 | one letter of the automaton; `SyllableExtraction.RunOutcome` states how runs built from it end |
| SyllableExtraction.Run | src/extension.ts:62 | the automaton over a string; `SyllableExtraction.RunOutcome` states it rejects exactly on a letter outside both classes and leaves the leading state exactly on a vowel |
| SyllableExtraction.MatchesPattern | src/extension.ts:62 | the pattern's language; `SyllableExtraction.PatternLanguage` states it is the non-empty strings of syllable letters holding a vowel |
| SyllableExtraction.RunStart | src/extension.ts:61-63 | the start of the trailing run of syllable letters, never after the end; `SyllableExtraction.RunStartSpec` states the run is all syllable letters and cannot be extended left |
| SyllableExtraction.FindSyllable | src/extension.ts:61-66 | `match(...)?.[1]` on the window: a found syllable is no longer than the window; the `FindSyllable*` lemmas, `NoSyllable` and `FindSyllableIsLeftmostMatch` characterise it |
| SyllableExtraction.SyllableBeforeCursor | src/extension.ts:57-63 | the syllable found before the cursor is at most ten characters long and no longer than the cursor column |
| SyllableExtraction.RunOutcome | src/extension.ts:62 | the automaton rejects exactly the strings with a letter outside both classes, and leaves its leading state exactly when it reads a vowel |
| SyllableExtraction.PatternLanguage | src/extension.ts:62 | the pattern accepts exactly the non-empty strings of syllable letters that hold a vowel |
| SyllableExtraction.RunStartSpec | src/extension.ts:61-63 | the backward scan stops at a start after which every letter is a syllable letter, and that cannot be moved left |
| SyllableExtraction.FindSyllableEndsWindow | src/extension.ts:61-66 | a syllable found is a suffix of the window |
| SyllableExtraction.FindSyllableLetters | src/extension.ts:61-66 | a syllable found is made of syllable letters and holds a vowel |
| SyllableExtraction.FindSyllableMaximal | src/extension.ts:61-66 | a syllable found starts at the window's start or right after a letter outside both classes |
| SyllableExtraction.NoSyllable | src/extension.ts:61-65 | no syllable is found exactly when no suffix of syllable letters holds a vowel |
| SyllableExtraction.FindSyllableIsLeftmostMatch | src/extension.ts:61-66 | a match of the end-anchored pattern exists exactly when the scan finds a syllable, and the scan returns the suffix that starts leftmost among all matches |
| SyllableExtraction.SyllableStartBounds | src/extension.ts:66-67 | the syllable starts at or after column 0 and at most ten characters before the cursor, and on the line it is the text just before the cursor |
| SyllableExtraction.SyllableOnLine | src/extension.ts:57-67 | on the line, the syllable is the text before the cursor, made of syllable letters and holding a vowel |
| SyllableExtraction.SyllableIsMaximal | src/extension.ts:57-66 | the syllable is preceded by the start of the line, the start of the window or a letter outside both classes |
| SyllableExtraction.XianExample | src/extension.ts:57-66 | in `ni xian` with the cursor at the end, the syllable is `xian` |
| SyllableExtraction.LvExample | src/extension.ts:57-66 | in `lv` nothing is found, because `v` is in neither class |
| KeystrokeDispatch.OnTextChange | src/extension.ts:21-81 | an edit or a failure happens only while active, for a one-character change that is `v` or a tone digit; an edit always ends just after the cursor and starts at or before it, never before column 0 |
| KeystrokeDispatch.ApplyToLine | src/extension.ts:70-78 | an edit changes the line's length by the replacement's length less the replaced span |
| KeystrokeDispatch.IgnoredChanges | src/extension.ts:21-31 | while inactive, or for a change that is not one character, no edit is made |
| KeystrokeDispatch.VBecomesUmlaut | src/extension.ts:38-52 | a typed `v` is replaced in place by `ü` and nothing else on the line changes |
| KeystrokeDispatch.OtherKeysIgnored | src/extension.ts:38-81 | any other single character, `V` and the digits 0 and 5 to 9 included, makes no edit |
| KeystrokeDispatch.ToneDigitEdit | src/extension.ts:55-79 | a tone digit with no syllable makes no edit; otherwise the handler fails exactly when the conversion does, and else replaces the syllable and the digit by the converted syllable, with the span's start no more than ten characters back |
| KeystrokeDispatch.ToneEditOnLine | src/extension.ts:65-79 | after a tone edit the line is one character shorter, and with marks taken off both, it equals the old line without the digit |

## Left out

- The editor plumbing is not modelled: `activate`, command registration, the
  information message, the event subscription, `WorkspaceEdit` and
  `deactivate` (lines 5-19, 39-50, 70-79, 85, 155). The handler is modelled
  as the edit it asks the editor to apply.
- `vscode.workspace.applyEdit` is asynchronous, and the edit it applies
  raises a further change event. Both the ordering and that re-entry are
  left out, as is any concurrency between events.
- The global `isActive` flag and its toggle command (lines 3, 10) become the
  parameter `isActive` of `KeystrokeDispatch.OnTextChange`.
- The early returns for an event with no content changes and for a missing
  active editor (lines 22-25) are not modelled. They only lead to no edit.
  The model starts from the first change's inserted text, line text and
  column.
- The regular expression engine is not modelled. The pattern on line 62 is
  given as an automaton, `SyllableExtraction.MatchesPattern`. The scan that
  replaces `match` is proved to return the leftmost-starting match of it.
- There is no Unicode case mapping. `toLowerCase` and the case-insensitive
  flag are replaced by explicit character classes that agree with them on
  the letters that matter.
- Strings are sequences of code points, where the editor counts UTF-16 code
  units. All letters of the classes and the table lie in the Basic
  Multilingual Plane. Only a line with characters outside it before the
  cursor would make the two column counts differ.
- The TypeError for an upper-case `I`, `U` or `Ü` target is an
  `Outcome.LookupError` value, not an exception. What the editor does with
  an exception inside a listener is not modelled.
- ToneApplier.ConvertSyllableWithTone: requires `1 <= tone <= 4`. The
  source would splice the text `undefined` into the syllable for any other tone,
  but its only caller never passes one.
