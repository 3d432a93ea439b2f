/** The e-mail pattern the login and add-branch screens share,
    `^\w+([\.-]?\w+)*@\w+([\.-]?\w+)*(\.\w{2,})+$`, written out as a
    recogniser: a local part of word runs joined by single '.' or '-', an
    '@', and a domain of the same shape whose last separator is a '.'
    followed by at least two word characters. */
module EmailRule {
  import opened JsText

  predicate IsSep(c: char) {
    c == '.' || c == '-'
  }

  /** `\w+([\.-]?\w+)*`: word characters and single separators, starting
      and ending with a word character. */
  predicate Chunked(s: string) {
    && s != []
    && IsWordChar(s[0]) && IsWordChar(s[|s| - 1])
    && (forall i | 0 <= i < |s| :: IsWordChar(s[i]) || IsSep(s[i]))
    && (forall i | 0 <= i < |s| - 1 :: !(IsSep(s[i]) && IsSep(s[i + 1])))
  }

  /** The top-level part `\.\w{2,}` starts at `j` and runs to the end. */
  predicate TopLevelAt(s: string, j: int) {
    0 < j && j + 3 <= |s| && s[j] == '.' && forall k | j < k < |s| :: IsWordChar(s[k])
  }

  predicate DomainOk(s: string) {
    Chunked(s) && exists j | 0 < j < |s| :: TopLevelAt(s, j)
  }

  /** The '@' at `a` splits the text into a local part and a domain. */
  predicate SplitAt(s: string, a: int) {
    0 < a < |s| && s[a] == '@' && Chunked(s[..a]) && DomainOk(s[a + 1..])
  }

  predicate EmailOk(s: string) {
    exists a | 0 < a < |s| :: SplitAt(s, a)
  }

  // ------------------------------------------------------------- lemmas

  /** An accepted address is not empty and has no whitespace at either
      end, so trimming leaves it alone. */
  lemma EmailIsTrimmed(s: string)
    requires EmailOk(s)
    ensures s != "" && Trim(s) == s
  {
    var a :| 0 < a < |s| && SplitAt(s, a);
    SplitEnds(s, a);
    WordNotSpace(s[0]);
    WordNotSpace(s[|s| - 1]);
    TrimIdentity(s);
  }

  /** Both ends of an address are word characters: the first of the local
      part and the last of the domain. */
  lemma SplitEnds(s: string, a: int)
    requires SplitAt(s, a)
    ensures IsWordChar(s[0]) && IsWordChar(s[|s| - 1])
  {
    var local, domain := s[..a], s[a + 1..];
    assert Chunked(local) && Chunked(domain);
    assert s[0] == local[0];
    assert domain[|domain| - 1] == s[|s| - 1];
  }

  lemma WordNotSpace(c: char)
    requires IsWordChar(c)
    ensures !IsSpace(c)
  {
  }

  /** An address has exactly one '@'. */
  lemma OneAt(s: string, a: int, b: int)
    requires SplitAt(s, a) && 0 < b < |s| && s[b] == '@'
    ensures a == b
  {
  }

  /** A short address of the usual form is accepted. */
  lemma ShortAddress()
    ensures EmailOk("a@b.co")
  {
    var s := "a@b.co";
    assert s[..1] == "a";
    assert s[2..] == "b.co";
    assert TopLevelAt("b.co", 1);
    assert SplitAt(s, 1);
  }

  /** Text with a space inside is refused. */
  lemma NoInnerSpace(s: string, i: int)
    requires 0 <= i < |s| && s[i] == ' '
    ensures !EmailOk(s)
  {
  }
}
