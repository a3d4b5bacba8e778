/** The Mail record of main.py: its constructor joins the subject lines into
    `content`, cleans it, splits it on single spaces and keeps the non-empty
    tokens other than "subject", lower-cased. */
module Tokenizer {
  import Cleaner

  /** ASCII `str.lower()` on one character. */
  function LowerChar(c: char): (r: char)
    ensures 'A' <= c <= 'Z' ==> 'a' <= r <= 'z' && r as int == c as int + 32
    ensures !('A' <= c <= 'Z') ==> r == c
  {
    if 'A' <= c <= 'Z' then (c as int + 32) as char else c
  }

  /** ASCII `str.lower()`. */
  function Lower(w: string): (r: string)
    ensures |r| == |w|
    ensures forall i :: 0 <= i < |w| ==> r[i] == LowerChar(w[i])
  {
    seq(|w|, i requires 0 <= i < |w| => LowerChar(w[i]))
  }

  predicate IsLowerCase(w: string) {
    forall i :: 0 <= i < |w| ==> !('A' <= w[i] <= 'Z')
  }

  /** A character a token may hold: cleaned text without the separator. */
  predicate IsTokenChar(c: char) {
    (Cleaner.IsWordChar(c) || Cleaner.IsSpaceChar(c)) && c != ' ' && c != '\n'
  }

  /** `Mail.content`: every subject line appended after one space, so the
      content is empty exactly when there are no subject lines. */
  function Content(subjects: seq<string>): (r: string)
    ensures r == "" <==> subjects == []
  {
    if subjects == [] then ""
    else Content(subjects[..|subjects| - 1]) + " " + subjects[|subjects| - 1]
  }

  /** `s.split(sep=" ")`: cut at every single space, empty pieces kept. */
  function SplitOnSpace(s: string): (r: seq<string>)
    ensures |r| >= 1
    ensures forall k :: 0 <= k < |r| ==> ' ' !in r[k]
    ensures forall k, c :: 0 <= k < |r| && c in r[k] ==> c in s
  {
    if s == [] then [""]
    else
      var rest := SplitOnSpace(s[1..]);
      assert forall c :: c in s[1..] ==> c in s;
      if s[0] == ' ' then [""] + rest else [[s[0]] + rest[0]] + rest[1..]
  }

  /** `" ".join(pieces)` for a non-empty list of pieces. */
  function JoinOnSpace(pieces: seq<string>): string
    requires |pieces| >= 1
  {
    if |pieces| == 1 then pieces[0] else pieces[0] + " " + JoinOnSpace(pieces[1..])
  }

  /** Splitting loses nothing: joining the pieces back gives the text. */
  lemma {:induction false} JoinSplit(s: string)
    ensures JoinOnSpace(SplitOnSpace(s)) == s
  {
    if s != [] {
      var rest := SplitOnSpace(s[1..]);
      JoinSplit(s[1..]);
      if s[0] == ' ' {
        assert SplitOnSpace(s) == [""] + rest;
        assert SplitOnSpace(s)[1..] == rest;
      } else {
        var r := SplitOnSpace(s);
        assert r == [[s[0]] + rest[0]] + rest[1..];
        if |rest| == 1 {
          assert s == [s[0]] + s[1..];
        } else {
          assert r[1..] == rest[1..];
          assert JoinOnSpace(rest) == rest[0] + " " + JoinOnSpace(rest[1..]);
          assert s == [s[0]] + s[1..];
        }
      }
    }
  }

  /** Pieces without spaces come back unchanged from splitting their join. */
  lemma {:induction false} SplitJoin(pieces: seq<string>)
    requires |pieces| >= 1
    requires forall k :: 0 <= k < |pieces| ==> ' ' !in pieces[k]
    ensures SplitOnSpace(JoinOnSpace(pieces)) == pieces
  {
    if |pieces| == 1 {
      SplitWithoutSpace(pieces[0]);
    } else {
      SplitJoin(pieces[1..]);
      SplitPrefix(pieces[0], JoinOnSpace(pieces[1..]), pieces[1..]);
    }
  }

  /** A text without spaces is one piece. */
  lemma {:induction false} SplitWithoutSpace(p: string)
    requires ' ' !in p
    ensures SplitOnSpace(p) == [p]
  {
    if p != [] {
      SplitWithoutSpace(p[1..]);
      assert p == [p[0]] + p[1..];
    }
  }

  /** Splitting `p + " " + t` for a space-free `p` puts `p` in front of the pieces of `t`. */
  lemma {:induction false} SplitPrefix(p: string, t: string, tail: seq<string>)
    requires ' ' !in p
    requires SplitOnSpace(t) == tail
    ensures SplitOnSpace(p + " " + t) == [p] + tail
  {
    if p == [] {
      assert p + " " + t == [' '] + t;
      assert (p + " " + t)[1..] == t;
    } else {
      SplitPrefix(p[1..], t, tail);
      var s := p + " " + t;
      assert s[1..] == p[1..] + " " + t;
      assert s[0] == p[0];
      assert [p[0]] + p[1..] == p;
    }
  }

  /** The token filter of `Mail.__init__`: drop empty tokens and "subject"
      in any letter case, lower-case the rest. */
  function KeepTokens(pieces: seq<string>): (r: seq<string>)
    ensures |r| <= |pieces|
    ensures forall w :: w in r ==> w != "" && w != "subject"
  {
    if pieces == [] then []
    else
      var word := pieces[|pieces| - 1];
      KeepTokens(pieces[..|pieces| - 1])
        + (if word != "" && Lower(word) != "subject" then [Lower(word)] else [])
  }

  /** `Mail.words` for the given subject lines. */
  function Words(subjects: seq<string>): (r: seq<string>)
    ensures subjects == [] ==> r == []
    ensures forall w :: w in r ==> w != "" && w != "subject"
  {
    var content := Content(subjects);
    if content == "" then [] else KeepTokens(SplitOnSpace(Cleaner.Clean(content)))
  }

  /** The filter keeps exactly the lower-cased non-empty pieces whose
      lower-case is not "subject": nothing else, and none of them dropped. */
  lemma {:induction false} KeepTokensMembers(pieces: seq<string>)
    ensures forall w :: w in KeepTokens(pieces) <==>
              exists k :: 0 <= k < |pieces| && pieces[k] != "" && Lower(pieces[k]) != "subject"
                          && w == Lower(pieces[k])
  {
    if pieces != [] {
      var n := |pieces| - 1;
      var front := pieces[..n];
      KeepTokensMembers(front);
      forall w
        ensures w in KeepTokens(pieces) <==>
                exists k :: 0 <= k < |pieces| && pieces[k] != "" && Lower(pieces[k]) != "subject"
                            && w == Lower(pieces[k])
      {
        if w in KeepTokens(front) {
          var k :| 0 <= k < |front| && front[k] != "" && Lower(front[k]) != "subject" && w == Lower(front[k]);
          assert pieces[k] == front[k];
        }
        if exists k :: 0 <= k < |pieces| && pieces[k] != "" && Lower(pieces[k]) != "subject"
                       && w == Lower(pieces[k]) {
          var k :| 0 <= k < |pieces| && pieces[k] != "" && Lower(pieces[k]) != "subject" && w == Lower(pieces[k]);
          if k < n {
            assert front[k] == pieces[k];
          }
        }
      }
    }
  }

  /** The words of a mail are exactly the lower-cased pieces of its cleaned
      content, split at single spaces, that are non-empty and not "subject". */
  lemma WordsMembers(subjects: seq<string>)
    ensures var pieces := SplitOnSpace(Cleaner.Clean(Content(subjects)));
            forall w :: w in Words(subjects) <==>
              exists k :: 0 <= k < |pieces| && pieces[k] != "" && Lower(pieces[k]) != "subject"
                          && w == Lower(pieces[k])
  {
    var content := Content(subjects);
    var pieces := SplitOnSpace(Cleaner.Clean(content));
    if content == "" {
      assert Cleaner.Clean(content) == "";
      assert pieces == [""];
    } else {
      KeepTokensMembers(pieces);
    }
  }

  /** Every character of `p` is a token character. */
  predicate TokenCharsOnly(p: string) {
    forall c :: c in p ==> IsTokenChar(c)
  }

  /** A token as the filter keeps it: non-empty, lower-case, other than
      "subject", and made of token characters. */
  predicate WellFormedToken(w: string) {
    w != "" && w != "subject" && IsLowerCase(w) && TokenCharsOnly(w)
  }

  /** Lower-casing a kept piece of token characters gives a well-formed token. */
  lemma LowerWellFormed(word: string)
    requires word != "" && Lower(word) != "subject" && TokenCharsOnly(word)
    ensures WellFormedToken(Lower(word))
  {
    var low := Lower(word);
    forall c | c in low
      ensures IsTokenChar(c)
    {
      var i :| 0 <= i < |low| && low[i] == c;
      assert word[i] in word;
    }
  }

  /** What the filter keeps from pieces of token characters is well formed. */
  lemma {:induction false} KeepTokensWellFormed(pieces: seq<string>)
    requires forall k :: 0 <= k < |pieces| ==> TokenCharsOnly(pieces[k])
    ensures forall w :: w in KeepTokens(pieces) ==> WellFormedToken(w)
  {
    if pieces != [] {
      var n := |pieces| - 1;
      assert forall k :: 0 <= k < n ==> pieces[..n][k] == pieces[k];
      KeepTokensWellFormed(pieces[..n]);
      var word := pieces[n];
      if word != "" && Lower(word) != "subject" {
        LowerWellFormed(word);
      }
    }
  }

  /** Every token of a mail is well formed: non-empty, lower-case, not
      "subject", and holding only word characters and whitespace other
      than space and newline; a mail without subject lines has no tokens. */
  lemma WordsWellFormed(subjects: seq<string>)
    ensures subjects == [] ==> Words(subjects) == []
    ensures forall w :: w in Words(subjects) ==> WellFormedToken(w)
  {
    var content := Content(subjects);
    if content != "" {
      var cleaned := Cleaner.Clean(content);
      var pieces := SplitOnSpace(cleaned);
      forall k | 0 <= k < |pieces|
        ensures TokenCharsOnly(pieces[k])
      {
        forall c | c in pieces[k]
          ensures IsTokenChar(c)
        {
          assert c in cleaned;
        }
      }
      KeepTokensWellFormed(pieces);
    }
  }

  /** A parsed mail (`Mail` in main.py). Its fields are fixed once built. */
  class Mail {
    const id: string
    const subjects: seq<string>
    const content: string
    const words: seq<string>

    /** `Mail.__init__` */
    constructor (id: string, subjects: seq<string>)
      ensures this.id == id && this.subjects == subjects
      ensures content == Content(subjects)
      ensures words == Words(subjects)
    {
      this.id := id;
      this.subjects := subjects;
      var text := "";
      for i := 0 to |subjects|
        invariant text == Content(subjects[..i])
      {
        assert subjects[..i + 1][..i] == subjects[..i];
        text := text + " " + subjects[i];
      }
      assert subjects[..|subjects|] == subjects;
      content := text;
      var kept := [];
      if text != "" {
        var tokens := SplitOnSpace(Cleaner.Clean(text));
        for i := 0 to |tokens|
          invariant kept == KeepTokens(tokens[..i])
        {
          assert tokens[..i + 1][..i] == tokens[..i];
          var word := tokens[i];
          if word != "" && Lower(word) != "subject" {
            kept := kept + [Lower(word)];
          }
        }
        assert tokens[..|tokens|] == tokens;
      }
      words := kept;
    }
  }
}
