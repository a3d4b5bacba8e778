/** The punctuation cleaner (`punctiationCleaner`, defined identically in
    main.py and bos.py): newlines become spaces, then every character that
    is neither a word character nor whitespace becomes a space. */
module Cleaner {

  /** Python's `\w`, restricted to ASCII: letters, digits and underscore. */
  predicate IsWordChar(c: char) {
    'a' <= c <= 'z' || 'A' <= c <= 'Z' || '0' <= c <= '9' || c == '_'
  }

  /** Python's `\s`, restricted to ASCII: tab, newline, vertical tab, form
      feed, carriage return, the four separators 0x1c-0x1f and space. */
  predicate IsSpaceChar(c: char) {
    9 <= c as int <= 13 || 28 <= c as int <= 32
  }

  /** A character the cleaner leaves where it is. */
  predicate IsKept(c: char) {
    IsWordChar(c) || (IsSpaceChar(c) && c != '\n')
  }

  /** `text.replace('\n', ' ')` */
  function ReplaceNewlines(s: string): (r: string)
    ensures |r| == |s|
    ensures forall i :: 0 <= i < |s| ==> r[i] != '\n'
    ensures forall i :: 0 <= i < |s| && s[i] != '\n' ==> r[i] == s[i]
    ensures forall i :: 0 <= i < |s| && s[i] == '\n' ==> r[i] == ' '
  {
    seq(|s|, i requires 0 <= i < |s| => if s[i] == '\n' then ' ' else s[i])
  }

  /** `re.sub(r'[^\w\s]', ' ', text)` */
  function SubstituteNonWord(s: string): (r: string)
    ensures |r| == |s|
    ensures forall i :: 0 <= i < |s| ==> IsWordChar(r[i]) || IsSpaceChar(r[i])
    ensures forall i :: 0 <= i < |s| && (IsWordChar(s[i]) || IsSpaceChar(s[i])) ==> r[i] == s[i]
    ensures forall i :: 0 <= i < |s| && !(IsWordChar(s[i]) || IsSpaceChar(s[i])) ==> r[i] == ' '
  {
    seq(|s|, i requires 0 <= i < |s| => if IsWordChar(s[i]) || IsSpaceChar(s[i]) then s[i] else ' ')
  }

  /** `punctiationCleaner(text)`: same length, no newline left, only word
      and whitespace characters, kept characters stay in place and every
      other character became exactly one space. */
  function Clean(s: string): (r: string)
    ensures |r| == |s|
    ensures forall i :: 0 <= i < |r| ==> r[i] != '\n'
    ensures forall i :: 0 <= i < |r| ==> IsWordChar(r[i]) || IsSpaceChar(r[i])
    ensures forall i :: 0 <= i < |s| ==> r[i] == if IsKept(s[i]) then s[i] else ' '
  {
    SubstituteNonWord(ReplaceNewlines(s))
  }

  /** Cleaning an already cleaned text changes nothing. */
  lemma CleanIdempotent(s: string)
    ensures Clean(Clean(s)) == Clean(s)
  {
    var c := Clean(s);
    forall i | 0 <= i < |c|
      ensures Clean(c)[i] == c[i]
    {
      assert IsKept(c[i]);
    }
  }

  /** A text made only of kept characters is a fixed point of the cleaner. */
  lemma CleanFixesKeptText(s: string)
    requires forall i :: 0 <= i < |s| ==> IsKept(s[i])
    ensures Clean(s) == s
  {
  }
}
