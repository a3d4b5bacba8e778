/** `calculateResultsOfMails`, `calculateResultMutual` and
    `calculateMacroValuesAndFScore`: per-mail outcome tables, counters and
    the macro-averaged precision, recall and F-score. */
module Evaluation {
  import opened Wrappers
  import opened Tokenizer
  import opened Dicts
  import opened Classifier
  import Probability

  /** Setting a key twice is setting it to the second value. */
  lemma PutTwice(d: Dict, k: string, a: int, b: int)
    ensures Put(Put(d, k, a), k, b) == Put(d, k, b)
  {
  }

  /** The ids of the mails, in order. */
  function Ids(mails: seq<Mail>): (r: seq<string>)
    ensures |r| == |mails|
  {
    if mails == [] then [] else Ids(mails[..|mails| - 1]) + [mails[|mails| - 1].id]
  }

  /** The full-vocabulary classifier can decide the mail without dividing
      by zero. */
  predicate Decidable(mail: Mail, model: Model, log2: real -> real) {
    ClassTally(mail.words, model.legitimateIndex, model.legitimateProbabilities, log2).count > 0
    && ClassTally(mail.words, model.spamIndex, model.spamProbabilities, log2).count > 0
  }

  /** What `checkIfMailSpam` answers for one mail; a mail that is not
      decidable makes the source divide by zero and never gets here, as
      the methods below require. */
  predicate FullVerdict(mail: Mail, model: Model, log2: real -> real)
  {
    && Decidable(mail, model, log2)
    && SpamWins(ClassTally(mail.words, model.spamIndex, model.spamProbabilities, log2),
                ClassTally(mail.words, model.legitimateIndex, model.legitimateProbabilities, log2))
  }

  /** What `checkIfMailSpam` answers for each mail. */
  function FullVerdicts(mails: seq<Mail>, model: Model, log2: real -> real): (r: seq<bool>)
    ensures |r| == |mails|
  {
    if mails == [] then []
    else
      var n := |mails| - 1;
      FullVerdicts(mails[..n], model, log2) + [FullVerdict(mails[n], model, log2)]
  }

  /** What `checkIfMailSpamAccordingMutualInfo` answers for one mail. */
  predicate RestrictedVerdict(mail: Mail, model: Model, firstKWords: seq<string>, log2: real -> real)
  {
    var features := Features(mail.words, firstKWords);
    RestrictedDecision(ClassTally(features, model.spamIndex, model.spamProbabilities, log2),
                       ClassTally(features, model.legitimateIndex, model.legitimateProbabilities, log2))
  }

  /** What `checkIfMailSpamAccordingMutualInfo` answers for each mail. */
  function RestrictedVerdicts(mails: seq<Mail>, model: Model, firstKWords: seq<string>,
                              log2: real -> real): (r: seq<bool>)
    ensures |r| == |mails|
  {
    if mails == [] then []
    else
      var n := |mails| - 1;
      RestrictedVerdicts(mails[..n], model, firstKWords, log2) + [RestrictedVerdict(mails[n], model, firstKWords, log2)]
  }

  /** One more mail extends the ids and the verdicts by that mail's id
      and the answer the classifier gave for it. */
  lemma FullStep(mails: seq<Mail>, i: nat, model: Model, log2: real -> real, isSpam: bool)
    requires i < |mails| && Decidable(mails[i], model, log2)
    requires isSpam == SpamWins(ClassTally(mails[i].words, model.spamIndex, model.spamProbabilities, log2),
                                ClassTally(mails[i].words, model.legitimateIndex,
                                           model.legitimateProbabilities, log2))
    ensures Ids(mails[..i + 1]) == Ids(mails[..i]) + [mails[i].id]
    ensures FullVerdicts(mails[..i + 1], model, log2) == FullVerdicts(mails[..i], model, log2) + [isSpam]
  {
    assert mails[..i + 1][..i] == mails[..i];
  }

  lemma RestrictedStep(mails: seq<Mail>, i: nat, model: Model, firstKWords: seq<string>, log2: real -> real,
                        isSpam: bool)
    requires i < |mails|
    requires isSpam == RestrictedDecision(
               ClassTally(Features(mails[i].words, firstKWords), model.spamIndex, model.spamProbabilities, log2),
               ClassTally(Features(mails[i].words, firstKWords), model.legitimateIndex,
                          model.legitimateProbabilities, log2))
    ensures Ids(mails[..i + 1]) == Ids(mails[..i]) + [mails[i].id]
    ensures RestrictedVerdicts(mails[..i + 1], model, firstKWords, log2)
            == RestrictedVerdicts(mails[..i], model, firstKWords, log2) + [isSpam]
  {
    assert mails[..i + 1][..i] == mails[..i];
  }

  /** One mail of either loop: the dict after setting the default and
      maybe the other value, and the counters, extend the specification
      by that mail's verdict. */
  lemma RecordStep(ids: seq<string>, verdicts: seq<bool>, id: string, isSpam: bool, d: Dict)
    requires |ids| == |verdicts|
    requires d == Outcomes(ids, verdicts)
    ensures (if isSpam then Put(d, id, 0) else Put(Put(d, id, 0), id, 1))
            == Outcomes(ids + [id], verdicts + [isSpam])
    ensures (if isSpam then Put(Put(d, id, 1), id, 0) else Put(d, id, 1))
            == Outcomes(ids + [id], verdicts + [isSpam])
    ensures CountTrue(verdicts + [isSpam]) == CountTrue(verdicts) + (if isSpam then 1 else 0)
    ensures CountFalse(verdicts + [isSpam]) == CountFalse(verdicts) + (if isSpam then 0 else 1)
  {
    assert (ids + [id])[..|ids|] == ids;
    assert (verdicts + [isSpam])[..|verdicts|] == verdicts;
    PutTwice(d, id, 0, 1);
    PutTwice(d, id, 1, 0);
  }

  function CountTrue(bs: seq<bool>): (r: nat)
    ensures r <= |bs|
  {
    if bs == [] then 0 else CountTrue(bs[..|bs| - 1]) + (if bs[|bs| - 1] then 1 else 0)
  }

  function CountFalse(bs: seq<bool>): (r: nat)
    ensures r <= |bs|
  {
    if bs == [] then 0 else CountFalse(bs[..|bs| - 1]) + (if bs[|bs| - 1] then 0 else 1)
  }

  /** The outcome dictionary for mails with the given ids and spam
      verdicts: 1 where the verdict was "not spam", 0 where it was "spam".
      For legitimate mails 1 means correct; for spam mails it means missed. */
  function Outcomes(ids: seq<string>, verdicts: seq<bool>): (r: Dict)
    requires |ids| == |verdicts|
  {
    if ids == [] then Empty
    else
      var n := |ids| - 1;
      Put(Outcomes(ids[..n], verdicts[..n]), ids[n], if verdicts[n] then 0 else 1)
  }

  /** `calculateResultsOfMails(testLegitimateMails, testSpamMails)`:
      `legcounter` counts legitimate mails judged legitimate,
      `spamcounter` spam mails judged spam. */
  method CalculateResultsOfMails(legitimateMails: seq<Mail>, spamMails: seq<Mail>, model: Model,
                                 log2: real -> real)
    returns (legCounter: nat, legitimateDict: Dict, spamCounter: nat, spamDict: Dict)
    requires forall i :: 0 <= i < |legitimateMails| ==> Decidable(legitimateMails[i], model, log2)
    requires forall i :: 0 <= i < |spamMails| ==> Decidable(spamMails[i], model, log2)
    ensures legCounter == CountFalse(FullVerdicts(legitimateMails, model, log2))
    ensures legitimateDict == Outcomes(Ids(legitimateMails), FullVerdicts(legitimateMails, model, log2))
    ensures spamCounter == CountTrue(FullVerdicts(spamMails, model, log2))
    ensures spamDict == Outcomes(Ids(spamMails), FullVerdicts(spamMails, model, log2))
  {
    legCounter, legitimateDict := JudgeLegitimateMails(legitimateMails, model, log2);
    spamCounter, spamDict := JudgeSpamMails(spamMails, model, log2);
  }

  /** The legitimate-mail loop of `calculateResultsOfMails`. */
  method JudgeLegitimateMails(mails: seq<Mail>, model: Model, log2: real -> real)
    returns (legCounter: nat, legitimateDict: Dict)
    requires forall i :: 0 <= i < |mails| ==> Decidable(mails[i], model, log2)
    ensures legCounter == CountFalse(FullVerdicts(mails, model, log2))
    ensures legitimateDict == Outcomes(Ids(mails), FullVerdicts(mails, model, log2))
  {
    legCounter := 0;
    legitimateDict := Empty;
    ghost var ids: seq<string> := [];
    ghost var verdicts: seq<bool> := [];
    for i := 0 to |mails|
      invariant ids == Ids(mails[..i]) && verdicts == FullVerdicts(mails[..i], model, log2)
      invariant |ids| == |verdicts|
      invariant legCounter == CountFalse(verdicts)
      invariant legitimateDict == Outcomes(ids, verdicts)
    {
      var mail := mails[i];
      ghost var before := legitimateDict;
      legitimateDict := Put(legitimateDict, mail.id, 0);
      var isSpam := CheckIfMailSpam(mail, model, log2);
      FullStep(mails, i, model, log2, isSpam);
      RecordStep(ids, verdicts, mail.id, isSpam, before);
      ids, verdicts := ids + [mail.id], verdicts + [isSpam];
      if !isSpam {
        legitimateDict := Put(legitimateDict, mail.id, 1);
        legCounter := legCounter + 1;
      }
    }
    assert mails[..|mails|] == mails;
  }

  /** The spam-mail loop of `calculateResultsOfMails`. */
  method JudgeSpamMails(mails: seq<Mail>, model: Model, log2: real -> real)
    returns (spamCounter: nat, spamDict: Dict)
    requires forall i :: 0 <= i < |mails| ==> Decidable(mails[i], model, log2)
    ensures spamCounter == CountTrue(FullVerdicts(mails, model, log2))
    ensures spamDict == Outcomes(Ids(mails), FullVerdicts(mails, model, log2))
  {
    spamCounter := 0;
    spamDict := Empty;
    ghost var ids: seq<string> := [];
    ghost var verdicts: seq<bool> := [];
    for i := 0 to |mails|
      invariant ids == Ids(mails[..i]) && verdicts == FullVerdicts(mails[..i], model, log2)
      invariant |ids| == |verdicts|
      invariant spamCounter == CountTrue(verdicts)
      invariant spamDict == Outcomes(ids, verdicts)
    {
      var mail := mails[i];
      ghost var before := spamDict;
      spamDict := Put(spamDict, mail.id, 1);
      var isSpam := CheckIfMailSpam(mail, model, log2);
      FullStep(mails, i, model, log2, isSpam);
      RecordStep(ids, verdicts, mail.id, isSpam, before);
      ids, verdicts := ids + [mail.id], verdicts + [isSpam];
      if isSpam {
        spamDict := Put(spamDict, mail.id, 0);
        spamCounter := spamCounter + 1;
      }
    }
    assert mails[..|mails|] == mails;
  }

  /** `calculateResultMutual(testLegitimateMails, testSpamMails)`: the same
      tables for the feature-restricted classifier. */
  method CalculateResultMutual(legitimateMails: seq<Mail>, spamMails: seq<Mail>, model: Model,
                               firstKWords: seq<string>, log2: real -> real)
    returns (legCounter: nat, legitimateDict: Dict, spamCounter: nat, spamDict: Dict)
    ensures legCounter == CountFalse(RestrictedVerdicts(legitimateMails, model, firstKWords, log2))
    ensures legitimateDict
            == Outcomes(Ids(legitimateMails), RestrictedVerdicts(legitimateMails, model, firstKWords, log2))
    ensures spamCounter == CountTrue(RestrictedVerdicts(spamMails, model, firstKWords, log2))
    ensures spamDict == Outcomes(Ids(spamMails), RestrictedVerdicts(spamMails, model, firstKWords, log2))
  {
    legCounter, legitimateDict := JudgeLegitimateMailsMutual(legitimateMails, model, firstKWords, log2);
    spamCounter, spamDict := JudgeSpamMailsMutual(spamMails, model, firstKWords, log2);
  }

  /** The legitimate-mail loop of `calculateResultMutual`. */
  method JudgeLegitimateMailsMutual(mails: seq<Mail>, model: Model, firstKWords: seq<string>,
                                    log2: real -> real)
    returns (legCounter: nat, legitimateDict: Dict)
    ensures legCounter == CountFalse(RestrictedVerdicts(mails, model, firstKWords, log2))
    ensures legitimateDict == Outcomes(Ids(mails), RestrictedVerdicts(mails, model, firstKWords, log2))
  {
    legCounter := 0;
    legitimateDict := Empty;
    ghost var ids: seq<string> := [];
    ghost var verdicts: seq<bool> := [];
    for i := 0 to |mails|
      invariant ids == Ids(mails[..i]) && verdicts == RestrictedVerdicts(mails[..i], model, firstKWords, log2)
      invariant |ids| == |verdicts|
      invariant legCounter == CountFalse(verdicts)
      invariant legitimateDict == Outcomes(ids, verdicts)
    {
      var mail := mails[i];
      ghost var before := legitimateDict;
      legitimateDict := Put(legitimateDict, mail.id, 0);
      var isSpam := CheckIfMailSpamAccordingMutualInfo(mail, model, firstKWords, log2);
      RestrictedStep(mails, i, model, firstKWords, log2, isSpam);
      RecordStep(ids, verdicts, mail.id, isSpam, before);
      ids, verdicts := ids + [mail.id], verdicts + [isSpam];
      if !isSpam {
        legitimateDict := Put(legitimateDict, mail.id, 1);
        legCounter := legCounter + 1;
      }
    }
    assert mails[..|mails|] == mails;
  }

  /** The spam-mail loop of `calculateResultMutual`. */
  method JudgeSpamMailsMutual(mails: seq<Mail>, model: Model, firstKWords: seq<string>,
                              log2: real -> real)
    returns (spamCounter: nat, spamDict: Dict)
    ensures spamCounter == CountTrue(RestrictedVerdicts(mails, model, firstKWords, log2))
    ensures spamDict == Outcomes(Ids(mails), RestrictedVerdicts(mails, model, firstKWords, log2))
  {
    spamCounter := 0;
    spamDict := Empty;
    ghost var ids: seq<string> := [];
    ghost var verdicts: seq<bool> := [];
    for i := 0 to |mails|
      invariant ids == Ids(mails[..i]) && verdicts == RestrictedVerdicts(mails[..i], model, firstKWords, log2)
      invariant |ids| == |verdicts|
      invariant spamCounter == CountTrue(verdicts)
      invariant spamDict == Outcomes(ids, verdicts)
    {
      var mail := mails[i];
      ghost var before := spamDict;
      spamDict := Put(spamDict, mail.id, 1);
      var isSpam := CheckIfMailSpamAccordingMutualInfo(mail, model, firstKWords, log2);
      RestrictedStep(mails, i, model, firstKWords, log2, isSpam);
      RecordStep(ids, verdicts, mail.id, isSpam, before);
      ids, verdicts := ids + [mail.id], verdicts + [isSpam];
      if isSpam {
        spamDict := Put(spamDict, mail.id, 0);
        spamCounter := spamCounter + 1;
      }
    }
    assert mails[..|mails|] == mails;
  }

  /** Every outcome is 0 or 1 and the keys are exactly the mail ids, each
      listed once in the insertion order. */
  lemma {:induction false} OutcomesShape(ids: seq<string>, verdicts: seq<bool>)
    requires |ids| == |verdicts|
    ensures Valid(Outcomes(ids, verdicts))
    ensures forall k :: k in Outcomes(ids, verdicts).entries ==>
              Outcomes(ids, verdicts).entries[k] == 0 || Outcomes(ids, verdicts).entries[k] == 1
    ensures forall k :: k in Outcomes(ids, verdicts).entries <==> k in ids
  {
    if ids != [] {
      var n := |ids| - 1;
      OutcomesShape(ids[..n], verdicts[..n]);
      PutValid(Outcomes(ids[..n], verdicts[..n]), ids[n], if verdicts[n] then 0 else 1);
      assert ids == ids[..n] + [ids[n]];
    }
  }

  /** With distinct ids the keys keep the mails' order and the values add
      up to the number of "not spam" verdicts. */
  lemma {:induction false} OutcomesSum(ids: seq<string>, verdicts: seq<bool>)
    requires |ids| == |verdicts|
    requires Distinct(ids)
    ensures Valid(Outcomes(ids, verdicts))
    ensures Outcomes(ids, verdicts).order == ids
    ensures Sum(Outcomes(ids, verdicts)) == CountFalse(verdicts)
  {
    if ids != [] {
      var n := |ids| - 1;
      var prev := Outcomes(ids[..n], verdicts[..n]);
      OutcomesShape(ids, verdicts);
      assert Distinct(ids[..n]);
      OutcomesSum(ids[..n], verdicts[..n]);
      assert ids[n] !in ids[..n];
      SumOverUpdateElsewhere(prev.order, prev.entries, ids[n], if verdicts[n] then 0 else 1);
      assert prev.order + [ids[n]] == ids;
      assert (prev.order + [ids[n]])[..n] == prev.order;
    }
  }

  lemma {:induction false} CountsAddUp(bs: seq<bool>)
    ensures CountTrue(bs) + CountFalse(bs) == |bs|
  {
    if bs != [] {
      CountsAddUp(bs[..|bs| - 1]);
    }
  }

  /** With distinct mail ids, `legcounter` is the sum of the legitimate
      outcome values and `spamcounter` plus the sum of the spam outcome
      values is the number of spam mails; each table lists its ids in order. */
  lemma CountersMatchTables(legitimateIds: seq<string>, legitimateVerdicts: seq<bool>,
                            spamIds: seq<string>, spamVerdicts: seq<bool>)
    requires |legitimateIds| == |legitimateVerdicts| && |spamIds| == |spamVerdicts|
    requires Distinct(legitimateIds) && Distinct(spamIds)
    ensures Valid(Outcomes(legitimateIds, legitimateVerdicts)) && Valid(Outcomes(spamIds, spamVerdicts))
    ensures CountFalse(legitimateVerdicts) == Sum(Outcomes(legitimateIds, legitimateVerdicts))
    ensures CountTrue(spamVerdicts) + Sum(Outcomes(spamIds, spamVerdicts)) == |spamIds|
    ensures Outcomes(legitimateIds, legitimateVerdicts).order == legitimateIds
    ensures Outcomes(spamIds, spamVerdicts).order == spamIds
  {
    OutcomesSum(legitimateIds, legitimateVerdicts);
    OutcomesSum(spamIds, spamVerdicts);
    CountsAddUp(spamVerdicts);
  }

  /** The three macro-averaged values. */
  datatype Metrics = Metrics(precision: real, recall: real, fScore: real)

  /** Macro-averaged recall: the mean of the two classes' recalls. */
  function MacroRecall(legitimateCounter: int, spamCounter: int, legitimateFileCount: int,
                       spamFileCount: int): real
    requires legitimateFileCount != 0 && spamFileCount != 0
  {
    (legitimateCounter as real / legitimateFileCount as real
      + spamCounter as real / spamFileCount as real) / 2.0
  }

  /** `calculateMacroValuesAndFScore(...)`; None where Python raises
      ZeroDivisionError. */
  function MacroValues(legitimateCounter: int, spamCounter: int, legitimateFileCount: int,
                       spamFileCount: int): (r: Option<Metrics>)
    ensures r.Some? ==> legitimateFileCount != 0 && spamFileCount != 0
                        && r.value.recall == MacroRecall(legitimateCounter, spamCounter,
                                                         legitimateFileCount, spamFileCount)
  {
    if legitimateCounter + spamFileCount - spamCounter == 0
       || spamCounter + legitimateFileCount - legitimateCounter == 0 then None
    else
      var precision := MacroPrecision(legitimateCounter, spamCounter, legitimateFileCount, spamFileCount);
      if legitimateFileCount == 0 || spamFileCount == 0 then None
      else
        var recall := MacroRecall(legitimateCounter, spamCounter, legitimateFileCount, spamFileCount);
        if precision + recall == 0.0 then None
        else Some(Metrics(precision, recall, FScore(precision, recall)))
  }

  /** Macro-averaged precision: the mean of the precision with legitimate
      as the positive class and the precision with spam as the positive class. */
  function MacroPrecision(legitimateCounter: int, spamCounter: int, legitimateFileCount: int,
                          spamFileCount: int): real
    requires legitimateCounter + spamFileCount - spamCounter != 0
    requires spamCounter + legitimateFileCount - legitimateCounter != 0
  {
    (legitimateCounter as real / (legitimateCounter + spamFileCount - spamCounter) as real
      + spamCounter as real / (spamCounter + legitimateFileCount - legitimateCounter) as real) / 2.0
  }

  /** Recall with counts within their file counts lies in [0, 1], and is
      zero only when both counts are; for 8, 9, 10, 10 it is 0.85. */
  lemma RecallInUnitInterval(lc: int, sc: int, lf: int, sf: int)
    requires 0 <= lc <= lf && 0 <= sc <= sf && lf > 0 && sf > 0
    ensures 0.0 <= MacroRecall(lc, sc, lf, sf) <= 1.0
    ensures MacroRecall(lc, sc, lf, sf) == 0.0 <==> lc == 0 && sc == 0
    ensures MacroRecall(8, 9, 10, 10) == 0.85
  {
    Probability.RatioInUnitInterval(lc, lf);
    Probability.RatioInUnitInterval(sc, sf);
  }

  /** Precision with counts within their file counts lies in [0, 1], and is
      zero only when both counts are. */
  lemma PrecisionInUnitInterval(lc: int, sc: int, lf: int, sf: int)
    requires 0 <= lc <= lf && 0 <= sc <= sf
    requires lc + sf - sc != 0 && sc + lf - lc != 0
    ensures 0.0 <= MacroPrecision(lc, sc, lf, sf) <= 1.0
    ensures MacroPrecision(lc, sc, lf, sf) == 0.0 <==> lc == 0 && sc == 0
  {
    Probability.RatioInUnitInterval(lc, lc + sf - sc);
    Probability.RatioInUnitInterval(sc, sc + lf - lc);
  }

  /** For counts within their file counts, the values are undefined
      exactly when every mail was judged spam, every mail was judged
      legitimate, or every mail was misjudged. */
  lemma MacroValuesDefined(lc: int, sc: int, lf: int, sf: int)
    requires 0 <= lc <= lf && 0 <= sc <= sf && lf > 0 && sf > 0
    ensures MacroValues(lc, sc, lf, sf).None?
            <==> (lc == 0 && sc == sf) || (sc == 0 && lc == lf) || (lc == 0 && sc == 0)
  {
    RecallInUnitInterval(lc, sc, lf, sf);
    if lc + sf - sc != 0 && sc + lf - lc != 0 {
      PrecisionInUnitInterval(lc, sc, lf, sf);
    }
  }

  /** Whenever the three values exist, each lies in (0, 1] and the
      F-score is the harmonic mean of precision and recall. */
  lemma MacroValuesInUnitInterval(lc: int, sc: int, lf: int, sf: int)
    requires 0 <= lc <= lf && 0 <= sc <= sf && lf > 0 && sf > 0
    ensures MacroValues(lc, sc, lf, sf).Some? ==>
              var m := MacroValues(lc, sc, lf, sf).value;
              0.0 < m.precision <= 1.0 && 0.0 < m.recall <= 1.0 && 0.0 < m.fScore <= 1.0
              && 1.0 / m.fScore == (1.0 / m.precision + 1.0 / m.recall) / 2.0
  {
    if MacroValues(lc, sc, lf, sf).Some? {
      var p := MacroPrecision(lc, sc, lf, sf);
      var r := MacroRecall(lc, sc, lf, sf);
      assert MacroValues(lc, sc, lf, sf).value == Metrics(p, r, FScore(p, r));
      RecallInUnitInterval(lc, sc, lf, sf);
      PrecisionInUnitInterval(lc, sc, lf, sf);
      HarmonicMean(p, r);
    }
  }

  /** `2 * precision * recall / (precision + recall)` */
  function FScore(p: real, r: real): real
    requires p + r != 0.0
  {
    2.0 * p * r / (p + r)
  }

  /** `2pr / (p + r)` is the harmonic mean of p and r, and stays in (0, 1]. */
  lemma HarmonicMean(p: real, r: real)
    requires 0.0 < p <= 1.0 && 0.0 < r <= 1.0
    ensures 0.0 < FScore(p, r) <= 1.0
    ensures 1.0 / FScore(p, r) == (1.0 / p + 1.0 / r) / 2.0
  {
    var f := FScore(p, r);
    assert f * (p + r) == 2.0 * p * r;
    assert 2.0 * p * r <= p + r by {
      assert p * r <= p && p * r <= r;
    }
  }
}
