/** `calculateLegitimateAndSpamProbabilityDicts`: add-one smoothed word
    probabilities per class, in exact rational arithmetic. The numerator is
    the length of the posting list (raw term frequency), as in the code. */
module Probability {
  import opened Wrappers
  import opened Tokenizer
  import opened InvertedIndex

  /** `(len(posting) + 1) / (classTotalToken + len(vocabularySet))` */
  function Smoothed(postingLength: nat, classTotal: nat, vocabularySize: nat): real
    requires classTotal + vocabularySize > 0
  {
    (postingLength + 1) as real / (classTotal + vocabularySize) as real
  }

  /** The two probability dictionaries of main.py. */
  datatype Tables = Tables(legitimate: map<string, real>, spam: map<string, real>)

  /** One loop of `calculateLegitimateAndSpamProbabilityDicts`: an entry for
      every word of the class vocabulary that has a posting list. None when
      such a word exists and the denominator is zero (Python raises
      ZeroDivisionError). */
  method ClassProbabilities(classVocabulary: set<string>, index: map<string, seq<string>>,
                            classTotal: nat, vocabularySize: nat)
    returns (table: Option<map<string, real>>)
    ensures table.None? <==> classTotal + vocabularySize == 0 && classVocabulary * index.Keys != {}
    ensures table.Some? ==> table.value.Keys == classVocabulary * index.Keys
    ensures table.Some? ==> forall w :: w in table.value ==>
              classTotal + vocabularySize > 0
              && table.value[w] == Smoothed(|index[w]|, classTotal, vocabularySize)
  {
    var probabilities := map[];
    var remaining := classVocabulary;
    while remaining != {}
      invariant remaining <= classVocabulary
      invariant probabilities.Keys == (classVocabulary - remaining) * index.Keys
      invariant probabilities != map[] ==> classTotal + vocabularySize > 0
      invariant forall w :: w in probabilities ==>
                  classTotal + vocabularySize > 0
                  && probabilities[w] == Smoothed(|index[w]|, classTotal, vocabularySize)
      decreases remaining
    {
      var word :| word in remaining;
      if word !in probabilities && word in index {
        if classTotal + vocabularySize == 0 {
          assert word in classVocabulary * index.Keys;
          return None;
        }
        probabilities := probabilities[word := Smoothed(|index[word]|, classTotal, vocabularySize)];
      }
      remaining := remaining - {word};
    }
    table := Some(probabilities);
  }

  /** `calculateLegitimateAndSpamProbabilityDicts()`, with the module-level
      tables of main.py passed in. */
  method ProbabilityDicts(legitimateVocabulary: set<string>, legitimateIndex: map<string, seq<string>>,
                          legitimateTotal: nat, spamVocabulary: set<string>,
                          spamIndex: map<string, seq<string>>, spamTotal: nat,
                          vocabulary: set<string>)
    returns (tables: Option<Tables>)
    ensures tables.None? <==>
              (legitimateTotal + |vocabulary| == 0 && legitimateVocabulary * legitimateIndex.Keys != {})
              || (spamTotal + |vocabulary| == 0 && spamVocabulary * spamIndex.Keys != {})
    ensures tables.Some? ==>
              tables.value.legitimate.Keys == legitimateVocabulary * legitimateIndex.Keys
              && tables.value.spam.Keys == spamVocabulary * spamIndex.Keys
    ensures tables.Some? ==> forall w :: w in tables.value.legitimate ==>
              legitimateTotal + |vocabulary| > 0
              && tables.value.legitimate[w] == Smoothed(|legitimateIndex[w]|, legitimateTotal, |vocabulary|)
    ensures tables.Some? ==> forall w :: w in tables.value.spam ==>
              spamTotal + |vocabulary| > 0
              && tables.value.spam[w] == Smoothed(|spamIndex[w]|, spamTotal, |vocabulary|)
  {
    var legitimate := ClassProbabilities(legitimateVocabulary, legitimateIndex, legitimateTotal, |vocabulary|);
    if legitimate.None? {
      return None;
    }
    var spam := ClassProbabilities(spamVocabulary, spamIndex, spamTotal, |vocabulary|);
    if spam.None? {
      return None;
    }
    tables := Some(Tables(legitimate.value, spam.value));
  }

  /** For a class index built from `mails` and a vocabulary containing the
      class vocabulary, every smoothed probability lies in (0, 1]. */
  lemma SmoothedInUnitInterval(mails: seq<Mail>, vocabulary: set<string>, w: string)
    requires Vocabulary(mails) <= vocabulary
    requires w in Vocabulary(mails)
    ensures TotalTokens(mails) + |vocabulary| > 0
    ensures 0.0 < Smoothed(|Postings(mails, w)|, TotalTokens(mails), |vocabulary|) <= 1.0
  {
    PostingsBound(mails, w);
    assert |vocabulary| >= 1 by {
      assert w in vocabulary;
    }
    var a, b := |Postings(mails, w)| + 1, TotalTokens(mails) + |vocabulary|;
    assert Smoothed(|Postings(mails, w)|, TotalTokens(mails), |vocabulary|) == a as real / b as real;
    RatioInUnitInterval(a, b);
  }

  /** A ratio of counts with 0 <= a <= b and b > 0 lies in [0, 1], and is
      positive when a is. */
  lemma RatioInUnitInterval(a: int, b: int)
    requires 0 <= a <= b && b > 0
    ensures 0.0 <= a as real / b as real <= 1.0
    ensures a > 0 ==> a as real / b as real > 0.0
  {
    assert a as real / b as real * b as real == a as real;
  }

  /** The tables computed for the two training classes of main.py (combined
      vocabulary = union of the class vocabularies) hold only values in (0, 1]. */
  lemma TablesInUnitInterval(legitimateMails: seq<Mail>, spamMails: seq<Mail>, w: string)
    ensures var vocabulary := Vocabulary(legitimateMails) + Vocabulary(spamMails);
            (w in Vocabulary(legitimateMails) ==>
               TotalTokens(legitimateMails) + |vocabulary| > 0
               && 0.0 < Smoothed(|Postings(legitimateMails, w)|, TotalTokens(legitimateMails), |vocabulary|) <= 1.0)
            && (w in Vocabulary(spamMails) ==>
               TotalTokens(spamMails) + |vocabulary| > 0
               && 0.0 < Smoothed(|Postings(spamMails, w)|, TotalTokens(spamMails), |vocabulary|) <= 1.0)
  {
    var vocabulary := Vocabulary(legitimateMails) + Vocabulary(spamMails);
    if w in Vocabulary(legitimateMails) {
      SmoothedInUnitInterval(legitimateMails, vocabulary, w);
    }
    if w in Vocabulary(spamMails) {
      SmoothedInUnitInterval(spamMails, vocabulary, w);
    }
  }
}
