/** Feature selection around `mutualInfo`: the document counts of its
    contingency table, and the top-K slice of the scored words
    (`sorted(..., reverse=True)` then `list(...)[:100]`). The scores
    themselves are an input. */
module Features {
  import opened Tokenizer
  import opened InvertedIndex

  /** The document total hard-coded in `mutualInfo`. */
  const Documents: int := 240

  /** `firstKWords` keeps this many words. */
  const K: nat := 100

  /** n11: spam documents with the word, n10: legitimate documents with it,
      n01 and n00: the complements against the hard-coded total. */
  datatype Contingency = Contingency(n11: nat, n10: nat, n01: int, n00: int)

  /** The counts of `mutualInfo` for a key of the legitimate index; the
      guard keeps n01 and n00 from both being zero. */
  function ContingencyCounts(legitimateIndex: map<string, seq<string>>,
                             spamIndex: map<string, seq<string>>, w: string): (r: Contingency)
    requires w in legitimateIndex
    ensures r.n01 != 0 || r.n00 != 0
    ensures r.n00 == Documents - r.n10
    ensures r.n01 == Documents - r.n11 || (r.n01 == 1 && r.n11 == Documents && r.n10 == Documents)
  {
    var countLegitimateDoc := |WordSet(legitimateIndex[w])|;
    var countSpamDoc := if w in spamIndex then |WordSet(spamIndex[w])| else 0;
    var nonSpamDocCount := Documents - countSpamDoc;
    var nonLegitimateCount := Documents - countLegitimateDoc;
    if nonSpamDocCount == 0 && nonLegitimateCount == 0
    then Contingency(countSpamDoc, countLegitimateDoc, 1, nonLegitimateCount)
    else Contingency(countSpamDoc, countLegitimateDoc, nonSpamDocCount, nonLegitimateCount)
  }

  /** The ids of the mails that contain `w`. */
  function DocumentsWith(mails: seq<Mail>, w: string): set<string>
  {
    set k | 0 <= k < |mails| && w in mails[k].words :: mails[k].id
  }

  /** The distinct ids of a posting list are the ids of the mails that
      contain the word. */
  lemma PostingIdsAreDocuments(mails: seq<Mail>, w: string)
    ensures WordSet(Postings(mails, w)) == DocumentsWith(mails, w)
  {
    PostingsCount(mails, w);
    forall x | x in DocumentsWith(mails, w)
      ensures x in Postings(mails, w)
    {
      var k :| 0 <= k < |mails| && w in mails[k].words && mails[k].id == x;
      PostingsComplete(mails, w, k);
    }
  }

  /** With indexes as `createInvertedIndex` builds them, n10 and n11 count
      the legitimate and spam mails containing the word (mails with the
      same id counted once), and n10 is at least one. */
  lemma ContingencyCountsDocuments(legitimateMails: seq<Mail>, spamMails: seq<Mail>,
                                   legitimateIndex: map<string, seq<string>>,
                                   spamIndex: map<string, seq<string>>, w: string)
    requires w in legitimateIndex
    requires legitimateIndex.Keys == Vocabulary(legitimateMails) - {""}
    requires forall x :: x in legitimateIndex ==> legitimateIndex[x] == Postings(legitimateMails, x)
    requires spamIndex.Keys == Vocabulary(spamMails) - {""}
    requires forall x :: x in spamIndex ==> spamIndex[x] == Postings(spamMails, x)
    ensures ContingencyCounts(legitimateIndex, spamIndex, w).n10 == |DocumentsWith(legitimateMails, w)|
    ensures ContingencyCounts(legitimateIndex, spamIndex, w).n11 == |DocumentsWith(spamMails, w)|
    ensures ContingencyCounts(legitimateIndex, spamIndex, w).n10 >= 1
  {
    PostingIdsAreDocuments(legitimateMails, w);
    VocabularyMembers(legitimateMails, w);
    var k :| 0 <= k < |legitimateMails| && w in legitimateMails[k].words;
    assert legitimateMails[k].id in DocumentsWith(legitimateMails, w);
    if w in spamIndex {
      PostingIdsAreDocuments(spamMails, w);
    } else {
      VocabularyMembers(spamMails, w);
      assert DocumentsWith(spamMails, w) == {};
    }
  }

  /** A word and its mutual-information score. */
  type Scored = (string, real)

  predicate NonIncreasing(s: seq<Scored>) {
    forall i, j :: 0 <= i < j < |s| ==> s[i].1 >= s[j].1
  }

  /** Places `x`, which came before every item of `s`, ahead of the first
      item that does not outscore it. */
  function InsertByScore(x: Scored, s: seq<Scored>): (r: seq<Scored>)
    ensures |r| == |s| + 1
    ensures r[0] == x || (s != [] && r[0] == s[0])
  {
    if s == [] || s[0].1 <= x.1 then [x] + s else [s[0]] + InsertByScore(x, s[1..])
  }

  /** `sorted(items, key=score, reverse=True)`: a stable sort by
      non-increasing score. */
  function SortByScore(items: seq<Scored>): (r: seq<Scored>)
    ensures |r| == |items|
  {
    if items == [] then [] else InsertByScore(items[0], SortByScore(items[1..]))
  }

  lemma {:induction false} InsertByScoreOrdered(x: Scored, s: seq<Scored>)
    requires NonIncreasing(s)
    ensures NonIncreasing(InsertByScore(x, s))
  {
    if s != [] && s[0].1 > x.1 {
      var rest := InsertByScore(x, s[1..]);
      InsertByScoreOrdered(x, s[1..]);
      forall k | 0 <= k < |rest|
        ensures rest[k].1 <= s[0].1
      {
        assert rest[k].1 <= rest[0].1;
      }
      var r := [s[0]] + rest;
      forall i, j | 0 <= i < j < |r|
        ensures r[i].1 >= r[j].1
      {
        assert r[j] == rest[j - 1];
        if i > 0 {
          assert r[i] == rest[i - 1];
        }
      }
    }
  }

  lemma {:induction false} InsertByScoreAdds(x: Scored, s: seq<Scored>)
    ensures multiset(InsertByScore(x, s)) == multiset(s) + multiset{x}
  {
    if s != [] && s[0].1 > x.1 {
      InsertByScoreAdds(x, s[1..]);
      assert s == [s[0]] + s[1..];
    }
  }

  /** The sort orders by non-increasing score and only rearranges. */
  lemma {:induction false} SortByScoreSorted(items: seq<Scored>)
    ensures NonIncreasing(SortByScore(items))
    ensures multiset(SortByScore(items)) == multiset(items)
  {
    if items != [] {
      SortByScoreSorted(items[1..]);
      InsertByScoreOrdered(items[0], SortByScore(items[1..]));
      InsertByScoreAdds(items[0], SortByScore(items[1..]));
      assert items == [items[0]] + items[1..];
    }
  }

  /** `list(mutualInfoDict)[:100]` after the sort. The dict rebuilt from
      the sorted items would merge a repeated word; the scored items come
      from a dict, so their words never repeat and the two agree. */
  function FirstKWords(items: seq<Scored>): (r: seq<string>)
    ensures |r| == if |items| < K then |items| else K
  {
    SortByScoreSorted(items);
    var sorted := SortByScore(items);
    var n := if |items| < K then |items| else K;
    seq(n, i requires 0 <= i < n => sorted[i].0)
  }

  /** The selected words are the keys of the first items of the sorted
      list; those items are scored items, by non-increasing score. */
  lemma TopKFromItems(items: seq<Scored>)
    ensures var n := if |items| < K then |items| else K;
            var top := SortByScore(items)[..n];
            && (forall i :: 0 <= i < n ==> top[i].0 == FirstKWords(items)[i] && top[i] in items)
            && NonIncreasing(top)
  {
    SortByScoreSorted(items);
    var sorted := SortByScore(items);
    var n := if |items| < K then |items| else K;
    var top := sorted[..n];
    forall i | 0 <= i < n
      ensures top[i].0 == FirstKWords(items)[i] && top[i] in items
    {
      assert top[i] == sorted[i];
      assert sorted[i] in multiset(sorted);
    }
    PrefixNonIncreasing(sorted, n);
  }

  /** A prefix of a list in non-increasing score order is in that order. */
  lemma PrefixNonIncreasing(s: seq<Scored>, n: nat)
    requires NonIncreasing(s) && n <= |s|
    ensures NonIncreasing(s[..n])
  {
    forall i, j | 0 <= i < j < n
      ensures s[..n][i].1 >= s[..n][j].1
    {
      assert s[..n][i] == s[i] && s[..n][j] == s[j];
    }
  }

  /** In a list by non-increasing score, no item after the first n
      outscores one of them. */
  lemma PrefixDominates(s: seq<Scored>, n: nat)
    requires NonIncreasing(s) && n <= |s|
    ensures forall x :: x in multiset(s) - multiset(s[..n]) ==>
              forall i :: 0 <= i < n ==> s[i].1 >= x.1
  {
    assert s == s[..n] + s[n..];
    forall x | x in multiset(s) - multiset(s[..n])
      ensures forall i :: 0 <= i < n ==> s[i].1 >= x.1
    {
      assert x in multiset(s[n..]);
      var j :| 0 <= j < |s| - n && s[n..][j] == x;
      assert s[n + j] == x;
    }
  }

  /** No item left out of the selection outscores a selected one. */
  lemma TopKDominates(items: seq<Scored>)
    ensures var n := if |items| < K then |items| else K;
            var top := SortByScore(items)[..n];
            forall x :: x in multiset(items) - multiset(top) ==>
              forall i :: 0 <= i < n ==> top[i].1 >= x.1
  {
    SortByScoreSorted(items);
    PrefixDominates(SortByScore(items), if |items| < K then |items| else K);
  }
}
