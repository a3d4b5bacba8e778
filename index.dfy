/** `createInvertedIndex`: one pass over the mails' tokens that grows a map
    from word to posting list (one mail id per occurrence), the vocabulary
    set and the token counter. */
module InvertedIndex {
  import opened Tokenizer

  /** The ids one mail contributes to the posting list of `w`: its id once
      per occurrence of `w` among `words`. */
  function MailPostings(id: string, words: seq<string>, w: string): seq<string>
  {
    if words == [] then []
    else
      MailPostings(id, words[..|words| - 1], w)
        + (if words[|words| - 1] == w then [id] else [])
  }

  /** The posting list of `w` over the mails, in reading order. */
  function Postings(mails: seq<Mail>, w: string): seq<string>
  {
    if mails == [] then []
    else
      var last := mails[|mails| - 1];
      Postings(mails[..|mails| - 1], w) + MailPostings(last.id, last.words, w)
  }

  /** The number of tokens of all mails, duplicates included. */
  function TotalTokens(mails: seq<Mail>): nat
  {
    if mails == [] then 0 else TotalTokens(mails[..|mails| - 1]) + |mails[|mails| - 1].words|
  }

  /** The distinct words of one token list. */
  function WordSet(words: seq<string>): (r: set<string>)
    ensures forall w :: w in r <==> w in words
  {
    if words == [] then {} else WordSet(words[..|words| - 1]) + {words[|words| - 1]}
  }

  /** The distinct tokens of all mails. */
  function Vocabulary(mails: seq<Mail>): set<string>
  {
    if mails == [] then {}
    else Vocabulary(mails[..|mails| - 1]) + WordSet(mails[|mails| - 1].words)
  }

  /** How often `w` occurs in the mails, counted with multisets. */
  function Occurrences(mails: seq<Mail>, w: string): nat
  {
    if mails == [] then 0
    else Occurrences(mails[..|mails| - 1], w) + multiset(mails[|mails| - 1].words)[w]
  }

  /** `createInvertedIndex(dataList)`. The empty word is counted and put in
      the vocabulary but gets no posting list, as in the source. */
  method CreateInvertedIndex(mails: seq<Mail>)
    returns (index: map<string, seq<string>>, vocabulary: set<string>, totalToken: nat)
    ensures vocabulary == Vocabulary(mails)
    ensures totalToken == TotalTokens(mails)
    ensures index.Keys == vocabulary - {""}
    ensures forall w :: w in index ==> index[w] == Postings(mails, w)
  {
    index := map[];
    vocabulary := {};
    totalToken := 0;
    for i := 0 to |mails|
      invariant vocabulary == Vocabulary(mails[..i])
      invariant totalToken == TotalTokens(mails[..i])
      invariant index.Keys == vocabulary - {""}
      invariant forall w :: w in index ==> index[w] == Postings(mails[..i], w)
    {
      assert mails[..i + 1] == mails[..i] + [mails[i]];
      index, vocabulary, totalToken := AddMailTokens(index, vocabulary, totalToken, mails[i], mails[..i]);
    }
    assert mails[..|mails|] == mails;
  }

  /** The inner loop of `createInvertedIndex`: reads the tokens of one mail,
      after the mails `read` have been indexed. */
  method AddMailTokens(index0: map<string, seq<string>>, vocabulary0: set<string>, totalToken0: nat,
                       mail: Mail, ghost read: seq<Mail>)
    returns (index: map<string, seq<string>>, vocabulary: set<string>, totalToken: nat)
    requires vocabulary0 == Vocabulary(read)
    requires totalToken0 == TotalTokens(read)
    requires index0.Keys == vocabulary0 - {""}
    requires forall w :: w in index0 ==> index0[w] == Postings(read, w)
    ensures vocabulary == Vocabulary(read + [mail])
    ensures totalToken == TotalTokens(read + [mail])
    ensures index.Keys == vocabulary - {""}
    ensures forall w :: w in index ==> index[w] == Postings(read + [mail], w)
  {
    index, vocabulary, totalToken := index0, vocabulary0, totalToken0;
    for j := 0 to |mail.words|
      invariant vocabulary == Vocabulary(read) + WordSet(mail.words[..j])
      invariant totalToken == TotalTokens(read) + j
      invariant index.Keys == vocabulary - {""}
      invariant forall w :: w in index ==>
                  index[w] == Postings(read, w) + MailPostings(mail.id, mail.words[..j], w)
    {
      var word := mail.words[j];
      ghost var before, vocabularyBefore := index, vocabulary;
      totalToken := totalToken + 1;
      vocabulary := vocabulary + {word};
      if word != "" && word !in index {
        index := index[word := [mail.id]];
      } else if word != "" {
        index := index[word := index[word] + [mail.id]];
      }
      IndexStep(read, mail.id, mail.words, j, vocabularyBefore, before, index);
    }
    assert mail.words[..|mail.words|] == mail.words;
    assert (read + [mail])[..|read|] == read;
  }

  /** One token of the inner loop: the new key or the extended posting
      list keeps the index equal to the specification over one more token. */
  lemma IndexStep(read: seq<Mail>, id: string, words: seq<string>, j: nat, vocabulary: set<string>,
                  before: map<string, seq<string>>, index: map<string, seq<string>>)
    requires j < |words|
    requires vocabulary == Vocabulary(read) + WordSet(words[..j])
    requires before.Keys == vocabulary - {""}
    requires forall w :: w in before ==> before[w] == Postings(read, w) + MailPostings(id, words[..j], w)
    requires index == if words[j] != "" && words[j] !in before then before[words[j] := [id]]
                      else if words[j] != "" then before[words[j] := before[words[j]] + [id]]
                      else before
    ensures vocabulary + {words[j]} == Vocabulary(read) + WordSet(words[..j + 1])
    ensures index.Keys == vocabulary + {words[j]} - {""}
    ensures forall w :: w in index ==> index[w] == Postings(read, w) + MailPostings(id, words[..j + 1], w)
  {
    var word := words[j];
    assert words[..j + 1][..j] == words[..j];
    if word != "" && word !in before {
      PostingsOutsideVocabulary(read, word);
      MailPostingsOutsideWords(id, words[..j], word);
    }
    IndexStepValues(read, id, words, j, before, index);
  }

  /** The posting lists after one token, given that a word without a list
      so far has no postings yet. */
  lemma IndexStepValues(read: seq<Mail>, id: string, words: seq<string>, j: nat,
                        before: map<string, seq<string>>, index: map<string, seq<string>>)
    requires j < |words| && "" !in before
    requires forall w :: w in before ==> before[w] == Postings(read, w) + MailPostings(id, words[..j], w)
    requires words[j] != "" && words[j] !in before
             ==> Postings(read, words[j]) == [] && MailPostings(id, words[..j], words[j]) == []
    requires index == if words[j] != "" && words[j] !in before then before[words[j] := [id]]
                      else if words[j] != "" then before[words[j] := before[words[j]] + [id]]
                      else before
    ensures forall w :: w in index ==> index[w] == Postings(read, w) + MailPostings(id, words[..j + 1], w)
  {
    forall w | w in index
      ensures index[w] == Postings(read, w) + MailPostings(id, words[..j + 1], w)
    {
      MailPostingsAppend(id, words, j, w);
      if w != words[j] {
        assert index[w] == before[w];
      } else if w in before {
        assert index[w] == before[w] + [id];
      } else {
        assert index[w] == [id];
      }
    }
  }

  lemma MailPostingsAppend(id: string, words: seq<string>, j: nat, w: string)
    requires j < |words|
    ensures MailPostings(id, words[..j + 1], w)
            == MailPostings(id, words[..j], w) + (if words[j] == w then [id] else [])
  {
    assert words[..j + 1][..j] == words[..j];
  }

  lemma {:induction false} MailPostingsOutsideWords(id: string, words: seq<string>, w: string)
    requires w !in words
    ensures MailPostings(id, words, w) == []
  {
    if words != [] {
      MailPostingsOutsideWords(id, words[..|words| - 1], w);
    }
  }

  lemma {:induction false} PostingsOutsideVocabulary(mails: seq<Mail>, w: string)
    requires w !in Vocabulary(mails)
    ensures Postings(mails, w) == []
  {
    if mails != [] {
      var last := mails[|mails| - 1];
      PostingsOutsideVocabulary(mails[..|mails| - 1], w);
      MailPostingsOutsideWords(last.id, last.words, w);
    }
  }

  /** One mail's posting list for `w` has one entry per occurrence of `w`. */
  lemma {:induction false} MailPostingsCount(id: string, words: seq<string>, w: string)
    ensures |MailPostings(id, words, w)| == multiset(words)[w]
    ensures forall x :: x in MailPostings(id, words, w) ==> x == id
  {
    if words != [] {
      var n := |words| - 1;
      MailPostingsCount(id, words[..n], w);
      assert words == words[..n] + [words[n]];
    }
  }

  /** A posting list is as long as the number of occurrences of its word
      (raw term frequency), and every entry is the id of a mail holding the
      word. */
  lemma {:induction false} PostingsCount(mails: seq<Mail>, w: string)
    ensures |Postings(mails, w)| == Occurrences(mails, w)
    ensures forall x :: x in Postings(mails, w) ==>
              exists k :: 0 <= k < |mails| && mails[k].id == x && w in mails[k].words
  {
    if mails != [] {
      var n := |mails| - 1;
      PostingsCount(mails[..n], w);
      MailPostingsCount(mails[n].id, mails[n].words, w);
      forall x | x in Postings(mails, w)
        ensures exists k :: 0 <= k < |mails| && mails[k].id == x && w in mails[k].words
      {
        if x in Postings(mails[..n], w) {
          var k :| 0 <= k < n && mails[..n][k].id == x && w in mails[..n][k].words;
          assert mails[k] == mails[..n][k];
        } else {
          assert x in MailPostings(mails[n].id, mails[n].words, w);
          assert multiset(mails[n].words)[w] > 0;
        }
      }
    }
  }

  /** Every mail holding `w` has its id in the posting list of `w`. */
  lemma {:induction false} PostingsComplete(mails: seq<Mail>, w: string, k: nat)
    requires k < |mails| && w in mails[k].words
    ensures mails[k].id in Postings(mails, w)
  {
    var n := |mails| - 1;
    if k < n {
      PostingsComplete(mails[..n], w, k);
    } else {
      MailPostingsCount(mails[n].id, mails[n].words, w);
      assert multiset(mails[n].words)[w] > 0;
      var p := MailPostings(mails[n].id, mails[n].words, w);
      assert p[0] in p;
    }
  }

  /** The vocabulary is exactly the set of words of the mails. */
  lemma {:induction false} VocabularyMembers(mails: seq<Mail>, w: string)
    ensures w in Vocabulary(mails) <==> exists k :: 0 <= k < |mails| && w in mails[k].words
  {
    if mails != [] {
      var n := |mails| - 1;
      VocabularyMembers(mails[..n], w);
      if w in Vocabulary(mails[..n]) {
        var k :| 0 <= k < n && w in mails[..n][k].words;
        assert mails[k] == mails[..n][k];
      }
      if exists k :: 0 <= k < |mails| && w in mails[k].words {
        var k :| 0 <= k < |mails| && w in mails[k].words;
        if k < n {
          assert mails[..n][k] == mails[k];
        }
      }
    }
  }

  /** No posting list is longer than the class's token count. */
  lemma {:induction false} PostingsBound(mails: seq<Mail>, w: string)
    ensures |Postings(mails, w)| <= TotalTokens(mails)
  {
    if mails != [] {
      var n := |mails| - 1;
      PostingsBound(mails[..n], w);
      MailPostingsCount(mails[n].id, mails[n].words, w);
      MultisetCountBound(mails[n].words, w);
    }
  }

  lemma {:induction false} MultisetCountBound(words: seq<string>, w: string)
    ensures multiset(words)[w] <= |words|
  {
    if words != [] {
      var n := |words| - 1;
      MultisetCountBound(words[..n], w);
      assert words == words[..n] + [words[n]];
    }
  }

  /** A word of the vocabulary has a non-empty posting list. */
  lemma VocabularyHasPostings(mails: seq<Mail>, w: string)
    requires w in Vocabulary(mails)
    ensures |Postings(mails, w)| >= 1
  {
    VocabularyMembers(mails, w);
    var k :| 0 <= k < |mails| && w in mails[k].words;
    PostingsComplete(mails, w, k);
  }

  /** Tokens of parsed mails are never empty, so the index has a posting
      list for every vocabulary word. */
  lemma IndexKeysAreVocabulary(mails: seq<Mail>)
    requires forall k :: 0 <= k < |mails| ==> mails[k].words == Words(mails[k].subjects)
    ensures "" !in Vocabulary(mails)
  {
    forall k | 0 <= k < |mails|
      ensures "" !in mails[k].words
    {
      WordsWellFormed(mails[k].subjects);
    }
    VocabularyMembers(mails, "");
  }
}
