/** Worked examples of the placement rule on concrete syllables. */
module ToneExamples {
  import opened Letters
  import opened ToneApplier

  /** "hao" + 3: a outranks o. */
  lemma Hao()
    ensures ConvertSyllableWithTone("hao", 3) == Converted("hǎo")
  {
    TargetFirstLowerA("hao");
    MarkedAt("hao", 3, 1, "hǎo");
  }

  /** "xie" + 4: e when there is no a. */
  lemma Xie()
    ensures ConvertSyllableWithTone("xie", 4) == Converted("xiè")
  {
    TargetFirstLowerE("xie");
    MarkedAt("xie", 4, 2, "xiè");
  }

  /** "dou" + 1: the o of "ou". */
  lemma Dou()
    ensures ConvertSyllableWithTone("dou", 1) == Converted("dōu")
  {
    VowelsOfDou();
    assert VowelLetters("dou") == "ou";
    assert OccursAt("ou", "ou", 0);
    TargetOu("dou");
    MarkedAt("dou", 1, 1, "dōu");
  }

  /** "liu" + 2: exactly "iu" puts the mark on the u. */
  lemma Liu()
    ensures ConvertSyllableWithTone("liu", 2) == Converted("liú")
  {
    VowelsOfLiu();
    assert VowelLetters("liu") == "iu";
    TargetIu("liu");
    MarkedAt("liu", 2, 2, "liú");
  }

  /** "gui" + 4: exactly "ui" puts the mark on the i. */
  lemma Gui()
    ensures ConvertSyllableWithTone("gui", 4) == Converted("guì")
  {
    VowelsOfGui();
    assert VowelLetters("gui") == "ui";
    TargetUi("gui");
    MarkedAt("gui", 4, 2, "guì");
  }

  /** "shi" + 4: a single vowel is the last vowel. */
  lemma Shi()
    ensures ConvertSyllableWithTone("shi", 4) == Converted("shì")
  {
    VowelsOfShi();
    assert VowelLetters("shi") == "i";
    TargetLastVowel("shi");
    MarkedAt("shi", 4, 2, "shì");
  }

  /** "oou" + 1: with "ou" among the vowels the first o is marked, not the o
      that stands before the u. */
  lemma FirstOIsMarked()
    ensures ConvertSyllableWithTone("oou", 1) == Converted("ōou")
  {
    TargetOfOou();
    MarkedAt("oou", 1, 0, "ōou");
  }

  /** "LIU" + 2: the vowels are not exactly "iu", so the last vowel U is the
      target, and the table has no entry for it. */
  lemma UpperCaseU()
    ensures ConvertSyllableWithTone("LIU", 2) == MissingEntry('U')
  {
    VowelsOfUpperLiu();
    assert VowelLetters("LIU") == "IU";
    assert 'a' !in "LIU" && 'A' !in "LIU" && 'e' !in "LIU" && 'E' !in "LIU";
    NotIncludesPair("IU", 'o', 'u');
    NotIncludesPair("IU", 'O', 'u');
    TargetLastVowel("LIU");
    MarkPlacement("LIU", 2);
    assert TargetPosition("LIU") == 2;
  }

  lemma TargetOfOou()
    ensures HasVowel("oou") && TargetPosition("oou") == 0
  {
    VowelsOfOou();
    assert VowelLetters("oou") == "oou";
    assert 'a' !in "oou" && 'A' !in "oou" && 'e' !in "oou" && 'E' !in "oou";
    assert "oou"[1..3] == "ou";
    assert OccursAt("oou", "ou", 1);
    TargetOu("oou");
  }

  // The vowel lists of the syllables above, unfolded one letter at a time.

  lemma VowelsOfDou()
    ensures Occurrences("dou") == [VowelOccurrence('o', 1), VowelOccurrence('u', 2)]
  {
    assert "dou"[..2] == "do" && "do"[..1] == "d" && "d"[..0] == "";
    assert Occurrences("d") == [];
    assert Occurrences("do") == [VowelOccurrence('o', 1)];
  }

  lemma VowelsOfLiu()
    ensures Occurrences("liu") == [VowelOccurrence('i', 1), VowelOccurrence('u', 2)]
  {
    assert "liu"[..2] == "li" && "li"[..1] == "l" && "l"[..0] == "";
    assert Occurrences("l") == [];
    assert Occurrences("li") == [VowelOccurrence('i', 1)];
  }

  lemma VowelsOfGui()
    ensures Occurrences("gui") == [VowelOccurrence('u', 1), VowelOccurrence('i', 2)]
  {
    assert "gui"[..2] == "gu" && "gu"[..1] == "g" && "g"[..0] == "";
    assert Occurrences("g") == [];
    assert Occurrences("gu") == [VowelOccurrence('u', 1)];
  }

  lemma VowelsOfShi()
    ensures Occurrences("shi") == [VowelOccurrence('i', 2)]
  {
    assert "shi"[..2] == "sh" && "sh"[..1] == "s" && "s"[..0] == "";
    assert Occurrences("s") == [];
    assert Occurrences("sh") == [];
  }

  lemma VowelsOfOou()
    ensures Occurrences("oou") == [VowelOccurrence('o', 0), VowelOccurrence('o', 1), VowelOccurrence('u', 2)]
  {
    assert "oou"[..2] == "oo" && "oo"[..1] == "o" && "o"[..0] == "";
    assert Occurrences("o") == [VowelOccurrence('o', 0)];
    assert Occurrences("oo") == [VowelOccurrence('o', 0), VowelOccurrence('o', 1)];
  }

  lemma VowelsOfUpperLiu()
    ensures Occurrences("LIU") == [VowelOccurrence('I', 1), VowelOccurrence('U', 2)]
  {
    assert "LIU"[..2] == "LI" && "LI"[..1] == "L" && "L"[..0] == "";
    assert Occurrences("L") == [];
    assert Occurrences("LI") == [VowelOccurrence('I', 1)];
  }
}
