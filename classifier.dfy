/** `checkIfMailSpam` and `checkIfMailSpamAccordingMutualInfo`: sum the
    log-probabilities of the mail's tokens per class and compare the
    averages. `math.log2` is the parameter `log2`. */
module Classifier {
  import opened Tokenizer

  /** The trained tables the classifiers read (module-level in main.py). */
  datatype Model = Model(legitimateIndex: map<string, seq<string>>,
                         spamIndex: map<string, seq<string>>,
                         legitimateProbabilities: map<string, real>,
                         spamProbabilities: map<string, real>)

  /** A class's running log-probability sum and matched-token count. */
  datatype Tally = Tally(score: real, count: nat)

  /** `probabilities.get(word, 1)` */
  function ProbabilityOrOne(probabilities: map<string, real>, w: string): real
  {
    if w in probabilities then probabilities[w] else 1.0
  }

  /** The tally of the tokens of `words` that have a posting list in the
      class index, in order. */
  function ClassTally(words: seq<string>, index: map<string, seq<string>>,
                      probabilities: map<string, real>, log2: real -> real): Tally
  {
    if words == [] then Tally(0.0, 0)
    else
      var t := ClassTally(words[..|words| - 1], index, probabilities, log2);
      var w := words[|words| - 1];
      if w in index then Tally(t.score + log2(ProbabilityOrOne(probabilities, w)), t.count + 1) else t
  }

  /** The tokens of `words` that are among the selected features, in order. */
  function Features(words: seq<string>, firstKWords: seq<string>): seq<string>
  {
    if words == [] then []
    else
      Features(words[..|words| - 1], firstKWords)
        + (if words[|words| - 1] in firstKWords then [words[|words| - 1]] else [])
  }

  /** `spamProb/spamWordCount > legitimateProb/legitimateWordCount` */
  predicate SpamWins(spam: Tally, legitimate: Tally)
    requires spam.count > 0 && legitimate.count > 0
  {
    spam.score / spam.count as real > legitimate.score / legitimate.count as real
  }

  /** The guarded decision of the feature-restricted classifier. */
  predicate RestrictedDecision(spam: Tally, legitimate: Tally)
  {
    if spam.count == 0 then false
    else if legitimate.count == 0 then true
    else SpamWins(spam, legitimate)
  }

  /** `checkIfMailSpam(mail)`. The source divides by both counts without a
      guard, so a mail must share a token with each class index. */
  method CheckIfMailSpam(mail: Mail, model: Model, log2: real -> real) returns (isSpam: bool)
    requires ClassTally(mail.words, model.legitimateIndex, model.legitimateProbabilities, log2).count > 0
    requires ClassTally(mail.words, model.spamIndex, model.spamProbabilities, log2).count > 0
    ensures isSpam == SpamWins(ClassTally(mail.words, model.spamIndex, model.spamProbabilities, log2),
                               ClassTally(mail.words, model.legitimateIndex, model.legitimateProbabilities, log2))
  {
    var legitimateProb, spamProb := 0.0, 0.0;
    var legitimateWordCount, spamWordCount := 0, 0;
    for i := 0 to |mail.words|
      invariant Tally(legitimateProb, legitimateWordCount)
                == ClassTally(mail.words[..i], model.legitimateIndex, model.legitimateProbabilities, log2)
      invariant Tally(spamProb, spamWordCount)
                == ClassTally(mail.words[..i], model.spamIndex, model.spamProbabilities, log2)
    {
      var word := mail.words[i];
      assert mail.words[..i + 1][..i] == mail.words[..i];
      if word in model.legitimateIndex {
        legitimateProb := legitimateProb + log2(ProbabilityOrOne(model.legitimateProbabilities, word));
        legitimateWordCount := legitimateWordCount + 1;
      }
      if word in model.spamIndex {
        spamProb := spamProb + log2(ProbabilityOrOne(model.spamProbabilities, word));
        spamWordCount := spamWordCount + 1;
      }
    }
    assert mail.words[..|mail.words|] == mail.words;
    isSpam := SpamWins(Tally(spamProb, spamWordCount), Tally(legitimateProb, legitimateWordCount));
  }

  /** `checkIfMailSpamAccordingMutualInfo(mail)`: only tokens among
      `firstKWords` count; no spam match means not spam, spam matches
      without legitimate matches mean spam. */
  method CheckIfMailSpamAccordingMutualInfo(mail: Mail, model: Model, firstKWords: seq<string>,
                                            log2: real -> real)
    returns (isSpam: bool)
    ensures isSpam == RestrictedDecision(
              ClassTally(Features(mail.words, firstKWords), model.spamIndex, model.spamProbabilities, log2),
              ClassTally(Features(mail.words, firstKWords), model.legitimateIndex,
                         model.legitimateProbabilities, log2))
  {
    var legitimateProb, spamProb := 0.0, 0.0;
    var legitimateWordCount, spamWordCount := 0, 0;
    for i := 0 to |mail.words|
      invariant Tally(legitimateProb, legitimateWordCount)
                == ClassTally(Features(mail.words[..i], firstKWords), model.legitimateIndex,
                              model.legitimateProbabilities, log2)
      invariant Tally(spamProb, spamWordCount)
                == ClassTally(Features(mail.words[..i], firstKWords), model.spamIndex,
                              model.spamProbabilities, log2)
    {
      var word := mail.words[i];
      RestrictedTallyStep(mail.words, i, firstKWords, model.legitimateIndex, model.legitimateProbabilities, log2);
      RestrictedTallyStep(mail.words, i, firstKWords, model.spamIndex, model.spamProbabilities, log2);
      if word in firstKWords {
        if word in model.legitimateIndex {
          legitimateProb := legitimateProb + log2(ProbabilityOrOne(model.legitimateProbabilities, word));
          legitimateWordCount := legitimateWordCount + 1;
        }
        if word in model.spamIndex {
          spamProb := spamProb + log2(ProbabilityOrOne(model.spamProbabilities, word));
          spamWordCount := spamWordCount + 1;
        }
      }
    }
    assert mail.words[..|mail.words|] == mail.words;
    if spamWordCount == 0 {
      isSpam := false;
    } else if legitimateWordCount == 0 {
      isSpam := true;
    } else {
      isSpam := SpamWins(Tally(spamProb, spamWordCount), Tally(legitimateProb, legitimateWordCount));
    }
  }

  /** The guards of the feature-restricted classifier in terms of the
      mail's tokens: no selected token with a spam posting list means not
      spam; some selected token with a spam posting list and none with a
      legitimate one means spam. */
  lemma RestrictedGuards(words: seq<string>, model: Model, firstKWords: seq<string>, log2: real -> real)
    ensures var features := Features(words, firstKWords);
            var decision := RestrictedDecision(
              ClassTally(features, model.spamIndex, model.spamProbabilities, log2),
              ClassTally(features, model.legitimateIndex, model.legitimateProbabilities, log2));
            && ((forall w :: w in words && w in firstKWords ==> w !in model.spamIndex) ==> !decision)
            && ((exists w :: w in words && w in firstKWords && w in model.spamIndex)
                && (forall w :: w in words && w in firstKWords ==> w !in model.legitimateIndex)
                ==> decision)
  {
    var features := Features(words, firstKWords);
    FeaturesMembers(words, firstKWords);
    CountZeroIffNoMatch(features, model.spamIndex, model.spamProbabilities, log2);
    CountZeroIffNoMatch(features, model.legitimateIndex, model.legitimateProbabilities, log2);
  }

  /** One more token of the mail changes a class's restricted tally only
      when the token is selected and indexed by the class. */
  lemma RestrictedTallyStep(words: seq<string>, i: nat, firstKWords: seq<string>,
                            index: map<string, seq<string>>, probabilities: map<string, real>,
                            log2: real -> real)
    requires i < |words|
    ensures var t := ClassTally(Features(words[..i], firstKWords), index, probabilities, log2);
            ClassTally(Features(words[..i + 1], firstKWords), index, probabilities, log2)
            == if words[i] in firstKWords && words[i] in index
               then Tally(t.score + log2(ProbabilityOrOne(probabilities, words[i])), t.count + 1)
               else t
  {
    assert words[..i + 1][..i] == words[..i];
    var before := Features(words[..i], firstKWords);
    if words[i] in firstKWords {
      assert Features(words[..i + 1], firstKWords) == before + [words[i]];
      TallyAppend(before, words[i], index, probabilities, log2);
    } else {
      assert Features(words[..i + 1], firstKWords) == before;
    }
  }

  lemma TallyAppend(words: seq<string>, w: string, index: map<string, seq<string>>,
                    probabilities: map<string, real>, log2: real -> real)
    ensures var t := ClassTally(words, index, probabilities, log2);
            ClassTally(words + [w], index, probabilities, log2)
            == if w in index then Tally(t.score + log2(ProbabilityOrOne(probabilities, w)), t.count + 1) else t
  {
    assert (words + [w])[..|words|] == words;
  }

  /** A class matched no token exactly when no token has a posting list in
      its index; the count never exceeds the number of tokens. */
  lemma {:induction false} CountZeroIffNoMatch(words: seq<string>, index: map<string, seq<string>>,
                                               probabilities: map<string, real>, log2: real -> real)
    ensures ClassTally(words, index, probabilities, log2).count == 0
            <==> forall w :: w in words ==> w !in index
    ensures ClassTally(words, index, probabilities, log2).count <= |words|
  {
    if words != [] {
      var n := |words| - 1;
      CountZeroIffNoMatch(words[..n], index, probabilities, log2);
      assert words == words[..n] + [words[n]];
      if forall w :: w in words[..n] ==> w !in index {
        if words[n] !in index {
          forall w | w in words
            ensures w !in index
          {
            if w != words[n] {
              assert w in words[..n];
            }
          }
        }
      }
    }
  }

  /** The features of a mail are exactly its tokens that are selected. */
  lemma {:induction false} FeaturesMembers(words: seq<string>, firstKWords: seq<string>)
    ensures forall w :: w in Features(words, firstKWords) <==> w in words && w in firstKWords
  {
    if words != [] {
      var n := |words| - 1;
      FeaturesMembers(words[..n], firstKWords);
      assert words == words[..n] + [words[n]];
    }
  }

  /** When every token of the mail is a selected feature, the features are
      the whole token list, so the restricted classifier decides as the
      full-vocabulary one whenever both classes matched a token. */
  lemma {:induction false} AllFeaturesKeepsWords(words: seq<string>, firstKWords: seq<string>)
    requires forall w :: w in words ==> w in firstKWords
    ensures Features(words, firstKWords) == words
  {
    if words != [] {
      var n := |words| - 1;
      AllFeaturesKeepsWords(words[..n], firstKWords);
      assert words == words[..n] + [words[n]];
    }
  }

  lemma RestrictedAgreesWithFull(words: seq<string>, model: Model, firstKWords: seq<string>,
                                 log2: real -> real)
    requires forall w :: w in words ==> w in firstKWords
    requires ClassTally(words, model.legitimateIndex, model.legitimateProbabilities, log2).count > 0
    requires ClassTally(words, model.spamIndex, model.spamProbabilities, log2).count > 0
    ensures RestrictedDecision(
              ClassTally(Features(words, firstKWords), model.spamIndex, model.spamProbabilities, log2),
              ClassTally(Features(words, firstKWords), model.legitimateIndex,
                         model.legitimateProbabilities, log2))
            == SpamWins(ClassTally(words, model.spamIndex, model.spamProbabilities, log2),
                        ClassTally(words, model.legitimateIndex, model.legitimateProbabilities, log2))
  {
    AllFeaturesKeepsWords(words, firstKWords);
  }
}
