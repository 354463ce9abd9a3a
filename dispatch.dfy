/** The keystroke dispatch of the text-change handler, with the editor calls
    taken out: from the changed line, the cursor column and the inserted text
    it decides which edit, if any, the handler asks the editor to apply. */
module KeystrokeDispatch {
  import opened Letters
  import opened ToneApplier
  import opened SyllableExtraction

  /** Replace columns [startColumn, endColumn) of the changed line by `replacement`. */
  datatype Edit = Edit(startColumn: int, endColumn: int, replacement: string)

  /** What one change leads to: no edit, one edit, or the TypeError that the
      table lookup throws for an upper-case I, U or Ü target, before any edit
      is made. */
  datatype Outcome = NoEdit | ApplyEdit(edit: Edit) | LookupError(vowel: char)

  predicate IsToneDigit(c: char) {
    '1' <= c <= '4'
  }

  /** The change handler's decision for a change that inserted `inserted` at
      column `position` of a line that now reads `lineText`. */
  function OnTextChange(isActive: bool, lineText: string, position: nat, inserted: string): (r: Outcome)
    ensures r != NoEdit ==> isActive && |inserted| == 1 && (inserted == "v" || IsToneDigit(inserted[0]))
    ensures r.ApplyEdit? ==> 0 <= r.edit.startColumn <= position && r.edit.endColumn == position + 1
  {
    if !isActive then NoEdit
    else if |inserted| != 1 then NoEdit
    else if inserted == "v" then ApplyEdit(Edit(position, position + 1, "ü"))
    else if IsToneDigit(inserted[0]) then
      var tone := inserted[0] as int - '0' as int;
      match SyllableBeforeCursor(lineText, position)
      case None => NoEdit
      case Some(syllable) =>
        var syllableStart := position - |syllable|;
        match ConvertSyllableWithTone(syllable, tone)
        case MissingEntry(c) => LookupError(c)
        case Converted(newSyllable) => ApplyEdit(Edit(syllableStart, position + 1, newSyllable))
    else NoEdit
  }

  /** The line after an edit of its columns [startColumn, endColumn). */
  function ApplyToLine(line: string, e: Edit): (r: string)
    requires 0 <= e.startColumn <= e.endColumn <= |line|
    ensures |r| == |line| - (e.endColumn - e.startColumn) + |e.replacement|
  {
    line[..e.startColumn] + e.replacement + line[e.endColumn..]
  }

  /** While the extension is off, and for any change that is not one
      character, nothing happens. */
  lemma IgnoredChanges(isActive: bool, lineText: string, position: nat, inserted: string)
    requires !isActive || |inserted| != 1
    ensures OnTextChange(isActive, lineText, position, inserted) == NoEdit
  {
  }

  /** A typed lower-case v becomes ü: the one character at the cursor is replaced. */
  lemma VBecomesUmlaut(lineText: string, position: nat)
    ensures OnTextChange(true, lineText, position, "v") == ApplyEdit(Edit(position, position + 1, "ü"))
    ensures position < |lineText| ==>
      ApplyToLine(lineText, Edit(position, position + 1, "ü")) ==
        lineText[..position] + "ü" + lineText[position + 1..]
  {
  }

  /** Any other single character, upper-case V and the digits 0 and 5 to 9
      among them, leads to no edit. */
  lemma OtherKeysIgnored(lineText: string, position: nat, c: char)
    requires c != 'v' && !IsToneDigit(c)
    ensures OnTextChange(true, lineText, position, [c]) == NoEdit
  {
  }

  /** A tone digit rewrites the syllable before the cursor together with the
      digit itself, with the digit's value as the tone; with no syllable there
      is no edit. The replaced span starts at most ten characters before the
      cursor, and the replacement is one character shorter than the span. */
  lemma ToneDigitEdit(lineText: string, position: nat, d: char)
    requires IsToneDigit(d)
    ensures var r := OnTextChange(true, lineText, position, [d]);
      var found := SyllableBeforeCursor(lineText, position);
      (found.None? ==> r == NoEdit) &&
      (found.Some? ==>
         var syllable := found.value;
         var tone := d as int - '0' as int;
         1 <= tone <= 4 &&
         (r.LookupError? <==> ConvertSyllableWithTone(syllable, tone).MissingEntry?) &&
         (r.ApplyEdit? <==> ConvertSyllableWithTone(syllable, tone).Converted?) &&
         (r.ApplyEdit? ==>
            r.edit.startColumn == position - |syllable| &&
            r.edit.endColumn == position + 1 &&
            r.edit.replacement == ConvertSyllableWithTone(syllable, tone).text &&
            0 <= r.edit.startColumn <= position &&
            r.edit.endColumn - r.edit.startColumn <= WindowWidth + 1 &&
            |r.edit.replacement| == r.edit.endColumn - r.edit.startColumn - 1))
  {
    var found := SyllableBeforeCursor(lineText, position);
    assert [d][0] == d && [d] != "v";
    if found.Some? {
      SyllableStartBounds(lineText, position);
      DigitBranch(lineText, position, d);
    }
  }

  lemma DigitBranch(lineText: string, position: nat, d: char)
    requires IsToneDigit(d)
    requires SyllableBeforeCursor(lineText, position).Some?
    ensures var syllable := SyllableBeforeCursor(lineText, position).value;
      var tone := d as int - '0' as int;
      OnTextChange(true, lineText, position, [d]) ==
        match ConvertSyllableWithTone(syllable, tone)
        case MissingEntry(c) => LookupError(c)
        case Converted(newSyllable) => ApplyEdit(Edit(position - |syllable|, position + 1, newSyllable))
  {
    assert [d][0] == d && [d] != "v";
  }

  /** On the line, a tone edit removes the digit and marks the syllable in
      place: with tone marks taken off, the new line is the old line without
      the character at the cursor. */
  lemma ToneEditOnLine(lineText: string, position: nat, d: char, e: Edit)
    requires IsToneDigit(d) && position < |lineText|
    requires OnTextChange(true, lineText, position, [d]) == ApplyEdit(e)
    ensures 0 <= e.startColumn <= e.endColumn <= |lineText|
    ensures |ApplyToLine(lineText, e)| == |lineText| - 1
    ensures StripTones(ApplyToLine(lineText, e)) == StripTones(lineText[..position] + lineText[position + 1..])
  {
    EditShape(lineText, position, d, e);
    ToneEditStrip(lineText, position, d, e);
  }

  lemma EditShape(lineText: string, position: nat, d: char, e: Edit)
    requires IsToneDigit(d)
    requires OnTextChange(true, lineText, position, [d]) == ApplyEdit(e)
    ensures SyllableBeforeCursor(lineText, position).Some?
    ensures ConvertSyllableWithTone(SyllableBeforeCursor(lineText, position).value, d as int - '0' as int) == Converted(e.replacement)
    ensures e.startColumn == position - |SyllableBeforeCursor(lineText, position).value|
    ensures e.endColumn == position + 1
  {
    assert [d][0] == d && [d] != "v";
    var found := SyllableBeforeCursor(lineText, position);
    if found.Some? {
      DigitBranch(lineText, position, d);
    }
  }

  /** The line-level half of `ToneEditOnLine`, for the edit that the
      handler builds from the syllable and its conversion. */
  lemma ToneEditStrip(lineText: string, position: nat, d: char, e: Edit)
    requires IsToneDigit(d) && position < |lineText|
    requires SyllableBeforeCursor(lineText, position).Some?
    requires ConvertSyllableWithTone(SyllableBeforeCursor(lineText, position).value, d as int - '0' as int) == Converted(e.replacement)
    requires e.startColumn == position - |SyllableBeforeCursor(lineText, position).value|
    requires e.endColumn == position + 1
    ensures 0 <= e.startColumn <= e.endColumn <= |lineText|
    ensures |ApplyToLine(lineText, e)| == |lineText| - 1
    ensures StripTones(ApplyToLine(lineText, e)) == StripTones(lineText[..position] + lineText[position + 1..])
  {
    var tone := d as int - '0' as int;
    var syllable := SyllableBeforeCursor(lineText, position).value;
    var newSyllable := e.replacement;
    assert |syllable| <= position && lineText[position - |syllable|..position] == syllable &&
      AllSyllableLetters(syllable) by {
      SyllableOnLine(lineText, position, syllable);
    }
    assert StripTones(newSyllable) == syllable && |newSyllable| == |syllable| by {
      MarkThenStrip(syllable, tone, newSyllable);
    }
    StripAfterToneEdit(lineText, position, syllable, e);
  }

  /** Replacing the syllable before the cursor by a marked copy of it and
      dropping the character at the cursor changes nothing beyond the marks. */
  lemma StripAfterToneEdit(lineText: string, position: nat, syllable: string, e: Edit)
    requires |syllable| <= position < |lineText| && lineText[position - |syllable|..position] == syllable
    requires e.startColumn == position - |syllable| && e.endColumn == position + 1
    requires AllSyllableLetters(syllable) && |e.replacement| == |syllable| && StripTones(e.replacement) == syllable
    ensures 0 <= e.startColumn <= e.endColumn <= |lineText|
    ensures |ApplyToLine(lineText, e)| == |lineText| - 1
    ensures StripTones(ApplyToLine(lineText, e)) == StripTones(lineText[..position] + lineText[position + 1..])
  {
    var start := e.startColumn;
    var t := e.replacement;
    var after := ApplyToLine(lineText, e);
    var before := lineText[..position] + lineText[position + 1..];
    assert after == lineText[..start] + t + lineText[position + 1..];
    assert |after| == |before|;
    forall i | 0 <= i < |after|
      ensures PlainLetter(after[i]) == PlainLetter(before[i])
    {
      if start <= i < position {
        assert after[i] == t[i - start];
        assert StripTones(t)[i - start] == PlainLetter(t[i - start]);
        assert syllable[i - start] == lineText[i] == before[i];
        SyllableLetterUntoned(syllable[i - start]);
      }
    }
  }
}
