/** `cleanChangelogForNews` of the ioBroker plugin
    (`packages/plugin-iobroker/src/tools.ts`). It is the clean-up of
    `src/tools.ts` with a wider class of author-name characters: letters
    and combining marks of any script (`\p{L}\p{M}` under the `u` flag),
    digits, and `@-_,;&+/` and the space. */
module IobrokerTools {
  import opened Text
  import opened ChangelogClean

  /** Letters and combining marks: ASCII letters, the letters of Latin-1
      (with the ordinals and the micro sign), Latin Extended-A and -B, the
      combining diacritical marks, and Cyrillic with its supplement. The
      thousands sign U+0482 inside the Cyrillic block is a symbol, not a
      letter, and is left out. */
  predicate LetterOrMark(c: char) {
    ('a' <= c <= 'z') || ('A' <= c <= 'Z') ||
    c == 'ª' || c == 'µ' || c == 'º' ||
    ('À' <= c <= 'ÿ' && c != '×' && c != '÷') ||
    ('Ā' <= c <= 'ɏ') ||
    ('̀' <= c <= 'ͯ') ||
    ('Ѐ' <= c <= 'ԯ' && c != '҂')
  }

  /** `[\p{L}\p{M}0-9@\-_,;&\+\/ ]`. */
  predicate NameChar(c: char) {
    LetterOrMark(c) || IsDigit(c) ||
    c == '@' || c == '-' || c == '_' || c == ',' || c == ';' || c == '&' || c == '+' || c == '/' || c == ' '
  }

  /** `cleanChangelogForNews` of the ioBroker plugin. */
  function CleanForNews(changelog: string): (r: string)
    ensures '\r' !in r
  {
    Clean(changelog, NameChar)
  }

  /** The wider class trims the input but not the output either: a tag
      closing the last line leaves `"* "` with its trailing space. */
  lemma {:induction false} UntrimmedForNews(changelog: string, first: string, name: string)
    requires Taggable(name, [], NameChar)
    requires first != [] && OneLine(first) && !IsSpace(first[0]) && !IsBulletChar(first[0])
    requires changelog == first + "\n* (" + name + ")"
    ensures CleanForNews(changelog) == first + "\n* "
    ensures Trim(CleanForNews(changelog)) != CleanForNews(changelog)
  {
    NameCharIsNameClass();
    UntrimmedAfterAuthor(changelog, first, name, NameChar);
  }

  /** Every name character of `src/tools.ts` is one here too. */
  lemma {:induction false} WiderThanAscii(c: char)
    ensures AsciiNameChar(c) ==> NameChar(c)
    ensures NameChar('ü') && !AsciiNameChar('ü')
  {
  }

  /** Neither the closing parenthesis nor a line break is a name character,
      so the name class behaves like the regular expression's. */
  lemma {:induction false} NameCharIsNameClass()
    ensures NameClass(NameChar)
  {
  }

  /** A changelog of bulleted lines tagged with authors becomes the texts
      alone, one per line, for names in this class. */
  lemma {:induction false} CleanTagged(names: seq<string>, texts: seq<string>)
    requires |names| == |texts| >= 1
    requires forall i :: 0 <= i < |texts| ==> Taggable(names[i], texts[i], NameChar)
    requires texts[|texts| - 1] != [] && !IsSpace(texts[|texts| - 1][|texts[|texts| - 1]| - 1])
    ensures CleanForNews(Join(Tagged(names, texts), "\n")) == Join(texts, "\n")
  {
    NameCharIsNameClass();
    CleanTaggedLines(names, texts, NameChar);
  }

  function TestNames(): seq<string> {
    ["Jürgen", "Jérôme", "René", "Burić", "Çoban", "Jörg", "Keßler"]
  }

  function TestTexts(): seq<string> {
    ["Line 1", "Line 2", "Line 3", "Line 4", "Line 5", "Line 6", "Line 7"]
  }

  /** The case of `tools.test.ts`: seven lines `* (Name) Line k` whose names
      carry umlauts, accents and other Latin letters clean to `Line k`. */
  lemma {:induction false} RemovesUmlautAuthors()
    ensures CleanForNews(Join(Tagged(TestNames(), TestTexts()), "\n")) == Join(TestTexts(), "\n")
  {
    var names, texts := TestNames(), TestTexts();
    forall i | 0 <= i < |texts| ensures Taggable(names[i], texts[i], NameChar) {
      TestLine(i);
    }
    assert texts[6] == "Line 7";
    CleanTagged(names, texts);
  }

  lemma {:induction false} TestLine(i: nat)
    requires i < 7
    ensures Taggable(TestNames()[i], TestTexts()[i], NameChar)
  {
    var name, text := TestNames()[i], TestTexts()[i];
    assert text == "Line " + [TestDigit(i)];
    assert forall k :: 0 <= k < |name| ==> NameChar(name[k]);
  }

  function TestDigit(i: nat): char
    requires i < 7
  {
    ['1', '2', '3', '4', '5', '6', '7'][i]
  }
}
