/** Characters and words of text. */
module Text {
  import opened Wrappers

  predicate IsWhitespace(c: char) {
    || '\t' <= c <= '\r' || c == ' ' || c == '\U{0085}' || c == '\U{00A0}' || c == '\U{1680}'
    || '\U{2000}' <= c <= '\U{200A}' || c == '\U{2028}' || c == '\U{2029}' || c == '\U{202F}'
    || c == '\U{205F}' || c == '\U{3000}'
  }

  /** The first whitespace-separated word of a text, empty when there is none. */
  function FirstWord(text: string): string {
    match FindIndex(text, (c: char) => !IsWhitespace(c))
    case None => ""
    case Some(start) =>
      match FindIndex(text[start..], (c: char) => IsWhitespace(c))
      case None => text[start..]
      case Some(length) => text[start..][..length]
  }

  /** The white space of Unicode, by code point. */
  lemma WhitespaceExact(c: char)
    ensures IsWhitespace(c) <==>
            (c as int) in {
              0x09, 0x0A, 0x0B, 0x0C, 0x0D, 0x20, 0x85, 0xA0, 0x1680,
              0x2000, 0x2001, 0x2002, 0x2003, 0x2004, 0x2005, 0x2006, 0x2007, 0x2008, 0x2009, 0x200A,
              0x2028, 0x2029, 0x202F, 0x205F, 0x3000}
  {
  }

  /** Whatever is around a word, it is the first one when only white space comes before it and it runs to the
      next white space or the end. */
  lemma FirstWordExact(gap: string, word: string, rest: string)
    requires forall c | c in gap :: IsWhitespace(c)
    requires word != "" && forall c | c in word :: !IsWhitespace(c)
    requires rest != "" ==> IsWhitespace(rest[0])
    ensures FirstWord(gap + word + rest) == word
    ensures FirstWord(gap) == ""
  {
    hide IsWhitespace;
    var text, after := gap + word + rest, word + rest;
    assert text[|gap|] == word[0] && word[0] in word;
    assert forall i | 0 <= i < |gap| :: text[i] == gap[i] && gap[i] in gap;
    assert FindIndex(text, (c: char) => !IsWhitespace(c)) == Some(|gap|);
    assert text[|gap|..] == after;
    assert forall i | 0 <= i < |word| :: after[i] == word[i] && word[i] in word;
    if rest == "" {
      assert after == word;
      assert FindIndex(after, (c: char) => IsWhitespace(c)).None?;
    } else {
      assert after[|word|] == rest[0];
      assert FindIndex(after, (c: char) => IsWhitespace(c)) == Some(|word|);
    }
  }

  lemma FirstWordOfLine(word: string)
    requires word != "" && forall i | 0 <= i < |word| :: !IsWhitespace(word[i])
    ensures FirstWord(word + "\n") == word
  {
    FirstWordExact("", word, "\n");
    assert "" + word + "\n" == word + "\n";
  }
}
