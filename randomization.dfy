/** `randomization_test`: a paired permutation test on the per-mail
    outcomes of the full-vocabulary classifier (A) and the feature-restricted
    classifier (B). The coin flips of `random.randint(1, 2)` are an input:
    true stands for 1 (keep the pairing), false for 2 (swap). */
module Randomization {
  import opened Wrappers
  import opened Dicts
  import opened Evaluation

  /** `r` */
  const Trials: nat := 1000

  /** The four outcome dictionaries of main.py: legitimate and spam mails,
      for classifier A (`testLegitimateMailDict`, `testSpamMailDict`) and
      classifier B (`mutualtestLegitimateMailDict`, `mutualtestSpamMailDict`).
      Legitimate values are 1 for correct; spam values are 1 for missed. */
  datatype PairedOutcomes = PairedOutcomes(legitimateA: Dict, spamA: Dict,
                                           legitimateB: Dict, spamB: Dict)

  /** What the source needs of the dictionaries: A's keys listed once, B has
      every key of A (else KeyError), and both of A's dictionaries non-empty
      (else the recall divides by zero). */
  predicate WellFormed(o: PairedOutcomes) {
    && Valid(o.legitimateA) && Valid(o.spamA)
    && (forall k :: k in o.legitimateA.entries ==> k in o.legitimateB.entries)
    && (forall k :: k in o.spamA.entries ==> k in o.spamB.entries)
    && |o.legitimateA.order| > 0 && |o.spamA.order| > 0
  }

  /** The flips of one trial: one per spam key, then one per legitimate key. */
  datatype TrialFlips = TrialFlips(spam: seq<bool>, legitimate: seq<bool>)

  predicate FlipsFit(o: PairedOutcomes, t: TrialFlips) {
    |t.spam| == |o.spamA.order| && |t.legitimate| == |o.legitimateA.order|
  }

  function Abs(x: real): real {
    if x < 0.0 then -x else x
  }

  /** The two dictionaries one per-key loop builds over `keys`: each key
      keeps A's and B's values where its flip is true and swaps them where
      it is false. */
  function Shuffled(keys: seq<string>, a: map<string, int>, b: map<string, int>,
                    flips: seq<bool>): (r: (Dict, Dict))
    requires |flips| == |keys|
    requires forall k :: k in keys ==> k in a && k in b
    ensures forall k :: k in r.0.order ==> k in r.0.entries
    ensures forall k :: k in r.1.order ==> k in r.1.entries
  {
    if keys == [] then (Empty, Empty)
    else
      var n := |keys| - 1;
      var (x, y) := Shuffled(keys[..n], a, b, flips[..n]);
      var k := keys[n];
      if flips[n] then (Put(x, k, a[k]), Put(y, k, b[k])) else (Put(x, k, b[k]), Put(y, k, a[k]))
  }

  /** One per-key loop of `randomization_test` (over `testSpamMailDict` or
      `testLegitimateMailDict`). */
  method SwapOutcomes(a: Dict, b: Dict, flips: seq<bool>) returns (newA: Dict, newB: Dict)
    requires Valid(a)
    requires forall k :: k in a.entries ==> k in b.entries
    requires |flips| == |a.order|
    ensures (newA, newB) == Shuffled(a.order, a.entries, b.entries, flips)
  {
    newA, newB := Empty, Empty;
    for i := 0 to |a.order|
      invariant (newA, newB) == Shuffled(a.order[..i], a.entries, b.entries, flips[..i])
    {
      var key := a.order[i];
      ShuffledStep(a.order, a.entries, b.entries, flips, i);
      if flips[i] {
        newA := Put(newA, key, a.entries[key]);
        newB := Put(newB, key, b.entries[key]);
      } else {
        newA := Put(newA, key, b.entries[key]);
        newB := Put(newB, key, a.entries[key]);
      }
    }
    assert a.order[..|a.order|] == a.order;
    assert flips[..|flips|] == flips;
  }

  /** One more key of the loop puts that key into both dictionaries. */
  lemma ShuffledStep(keys: seq<string>, a: map<string, int>, b: map<string, int>, flips: seq<bool>, i: nat)
    requires i < |keys| == |flips|
    requires forall k :: k in keys ==> k in a && k in b
    ensures var r := Shuffled(keys[..i], a, b, flips[..i]);
            var k := keys[i];
            Shuffled(keys[..i + 1], a, b, flips[..i + 1])
            == if flips[i] then (Put(r.0, k, a[k]), Put(r.1, k, b[k])) else (Put(r.0, k, b[k]), Put(r.1, k, a[k]))
  {
    assert keys[..i + 1][..i] == keys[..i];
    assert flips[..i + 1][..i] == flips[..i];
  }

  /** Over distinct keys both shuffled dictionaries list every key once,
      in order. */
  lemma {:induction false} ShuffledOrder(keys: seq<string>, a: map<string, int>,
                                         b: map<string, int>, flips: seq<bool>)
    requires |flips| == |keys| && Distinct(keys)
    requires forall k :: k in keys ==> k in a && k in b
    ensures var r := Shuffled(keys, a, b, flips);
            Valid(r.0) && Valid(r.1) && r.0.order == keys && r.1.order == keys
  {
    if keys != [] {
      var n := |keys| - 1;
      var k := keys[n];
      assert Distinct(keys[..n]);
      ShuffledOrder(keys[..n], a, b, flips[..n]);
      var r := Shuffled(keys[..n], a, b, flips[..n]);
      assert k !in keys[..n] by {
        forall i | 0 <= i < n
          ensures keys[..n][i] != k
        {
        }
      }
      PutNew(r.0, k, if flips[n] then a[k] else b[k]);
      PutNew(r.1, k, if flips[n] then b[k] else a[k]);
      assert keys[..n] + [k] == keys;
    }
  }

  /** Over distinct keys each key's pair of shuffled values is A's and B's
      values, kept where its flip is true and swapped where it is false. */
  lemma ShuffledPairs(keys: seq<string>, a: map<string, int>, b: map<string, int>, flips: seq<bool>)
    requires |flips| == |keys| && Distinct(keys)
    requires forall k :: k in keys ==> k in a && k in b
    ensures var r := Shuffled(keys, a, b, flips);
            forall i :: 0 <= i < |keys| ==>
              keys[i] in r.0.entries && keys[i] in r.1.entries
              && if flips[i] then r.0.entries[keys[i]] == a[keys[i]] && r.1.entries[keys[i]] == b[keys[i]]
                 else r.0.entries[keys[i]] == b[keys[i]] && r.1.entries[keys[i]] == a[keys[i]]
  {
    forall i | 0 <= i < |keys|
      ensures var r := Shuffled(keys, a, b, flips);
              keys[i] in r.0.entries && keys[i] in r.1.entries
              && if flips[i] then r.0.entries[keys[i]] == a[keys[i]] && r.1.entries[keys[i]] == b[keys[i]]
                 else r.0.entries[keys[i]] == b[keys[i]] && r.1.entries[keys[i]] == a[keys[i]]
    {
      ShuffledPair(keys, a, b, flips, i);
    }
  }

  /** The pair of values one key ends up with. */
  lemma {:induction false} ShuffledPair(keys: seq<string>, a: map<string, int>, b: map<string, int>,
                                        flips: seq<bool>, i: nat)
    requires |flips| == |keys| && Distinct(keys) && i < |keys|
    requires forall k :: k in keys ==> k in a && k in b
    ensures var r := Shuffled(keys, a, b, flips);
            keys[i] in r.0.entries && keys[i] in r.1.entries
            && if flips[i] then r.0.entries[keys[i]] == a[keys[i]] && r.1.entries[keys[i]] == b[keys[i]]
               else r.0.entries[keys[i]] == b[keys[i]] && r.1.entries[keys[i]] == a[keys[i]]
  {
    var n := |keys| - 1;
    var k := keys[n];
    var r := Shuffled(keys[..n], a, b, flips[..n]);
    var x := if flips[n] then a[k] else b[k];
    var y := if flips[n] then b[k] else a[k];
    var r' := Shuffled(keys, a, b, flips);
    assert r'.0.entries == r.0.entries[k := x] && r'.1.entries == r.1.entries[k := y];
    if i < n {
      assert Distinct(keys[..n]);
      ShuffledPair(keys[..n], a, b, flips[..n], i);
      assert keys[..n][i] == keys[i] && flips[..n][i] == flips[i] && keys[i] != k;
    }
  }

  /** The two shuffled sums together equal A's and B's sums together. */
  lemma {:induction false} ShuffledKeepsTotal(keys: seq<string>, a: map<string, int>,
                                              b: map<string, int>, flips: seq<bool>)
    requires |flips| == |keys| && Distinct(keys)
    requires forall k :: k in keys ==> k in a && k in b
    ensures var r := Shuffled(keys, a, b, flips);
            SumOver(r.0.order, r.0.entries) + SumOver(r.1.order, r.1.entries)
            == SumOver(keys, a) + SumOver(keys, b)
  {
    if keys != [] {
      var n := |keys| - 1;
      var k := keys[n];
      assert Distinct(keys[..n]);
      ShuffledKeepsTotal(keys[..n], a, b, flips[..n]);
      ShuffledOrder(keys[..n], a, b, flips[..n]);
      var r := Shuffled(keys[..n], a, b, flips[..n]);
      assert k !in keys[..n];
      SumOverUpdateElsewhere(r.0.order, r.0.entries, k, if flips[n] then a[k] else b[k]);
      SumOverUpdateElsewhere(r.1.order, r.1.entries, k, if flips[n] then b[k] else a[k]);
      assert (r.0.order + [k])[..n] == r.0.order;
      assert (r.1.order + [k])[..n] == r.1.order;
    }
  }

  /** A trial whose flips all keep the pairing reproduces A's and B's sums. */
  lemma {:induction false} ShuffledIdentity(keys: seq<string>, a: map<string, int>,
                                            b: map<string, int>, flips: seq<bool>)
    requires |flips| == |keys| && Distinct(keys)
    requires forall k :: k in keys ==> k in a && k in b
    requires forall i :: 0 <= i < |flips| ==> flips[i]
    ensures var r := Shuffled(keys, a, b, flips);
            SumOver(r.0.order, r.0.entries) == SumOver(keys, a) && SumOver(r.1.order, r.1.entries) == SumOver(keys, b)
  {
    ShuffledOrder(keys, a, b, flips);
    ShuffledPairs(keys, a, b, flips);
    var r := Shuffled(keys, a, b, flips);
    SumOverAgree(keys, r.0.entries, a);
    SumOverAgree(keys, r.1.entries, b);
  }

  lemma {:induction false} SumOverAgree(keys: seq<string>, m: map<string, int>, m': map<string, int>)
    requires forall i :: 0 <= i < |keys| ==> keys[i] in m && keys[i] in m' && m[keys[i]] == m'[keys[i]]
    ensures forall k :: k in keys ==> k in m && k in m'
    ensures SumOver(keys, m) == SumOver(keys, m')
  {
    if keys != [] {
      SumOverAgree(keys[..|keys| - 1], m, m');
    }
  }

  /** The statistic of one trial, as intended: the difference of the macro
      recalls of the shuffled outcomes, where a spam dictionary's correct
      count is its size minus its sum. */
  function PseudoStat(legitimateSumA: int, spamSumA: int, legitimateSumB: int, spamSumB: int,
                      legitimateCount: nat, spamCount: nat): real
    requires legitimateCount > 0 && spamCount > 0
  {
    Abs(MacroRecall(legitimateSumA, spamCount - spamSumA, legitimateCount, spamCount)
        - MacroRecall(legitimateSumB, spamCount - spamSumB, legitimateCount, spamCount))
  }

  /** The statistic of one trial as main.py:199 writes it: element [2] of
      `calculateMacroValuesAndFScore` (the F-score, not the recall), fed
      the spam dictionaries' sums (missed spam, not caught spam). None where
      it divides by zero. */
  function PseudoStatAsWritten(legitimateSumA: int, spamSumA: int, legitimateSumB: int, spamSumB: int,
                               legitimateCount: nat, spamCount: nat): Option<real>
  {
    var a := MacroValues(legitimateSumA, spamSumA, legitimateCount, spamCount);
    var b := MacroValues(legitimateSumB, spamSumB, legitimateCount, spamCount);
    if a.Some? && b.Some? then Some(Abs(a.value.fScore - b.value.fScore)) else None
  }

  /** The statistic of one trial of the test. */
  function TrialStat(o: PairedOutcomes, t: TrialFlips): real
    requires WellFormed(o) && FlipsFit(o, t)
  {
    var spams := Shuffled(o.spamA.order, o.spamA.entries, o.spamB.entries, t.spam);
    var legitimates := Shuffled(o.legitimateA.order, o.legitimateA.entries, o.legitimateB.entries, t.legitimate);
    PseudoStat(SumOver(legitimates.0.order, legitimates.0.entries), SumOver(spams.0.order, spams.0.entries),
               SumOver(legitimates.1.order, legitimates.1.entries), SumOver(spams.1.order, spams.1.entries),
               |o.legitimateA.order|, |o.spamA.order|)
  }

  /** How many of the trials reach the real statistic. */
  function Reaching(o: PairedOutcomes, trials: seq<TrialFlips>, realStat: real): nat
    requires WellFormed(o)
    requires forall t :: 0 <= t < |trials| ==> FlipsFit(o, trials[t])
  {
    if trials == [] then 0
    else
      var n := |trials| - 1;
      Reaching(o, trials[..n], realStat) + (if TrialStat(o, trials[n]) >= realStat then 1 else 0)
  }

  lemma ReachingStep(o: PairedOutcomes, trials: seq<TrialFlips>, n: nat, realStat: real, pseudoStat: real)
    requires WellFormed(o) && n < |trials|
    requires forall t :: 0 <= t < |trials| ==> FlipsFit(o, trials[t])
    requires pseudoStat == TrialStat(o, trials[n])
    ensures Reaching(o, trials[..n + 1], realStat)
            == Reaching(o, trials[..n], realStat) + (if pseudoStat >= realStat then 1 else 0)
  {
    assert trials[..n + 1][..n] == trials[..n];
  }

  /** One iteration of the trial loop keeps the count of reaching trials
      and its bounds. */
  lemma TrialCounted(o: PairedOutcomes, trials: seq<TrialFlips>, n: nat, realStat: real, pseudoStat: real,
                     count: nat)
    requires WellFormed(o) && n < |trials|
    requires forall t :: 0 <= t < |trials| ==> FlipsFit(o, trials[t])
    requires pseudoStat == TrialStat(o, trials[n]) && pseudoStat >= 0.0
    requires count == Reaching(o, trials[..n], realStat) && count <= n
    requires realStat == 0.0 ==> count == n
    ensures var count' := count + (if pseudoStat >= realStat then 1 else 0);
            && count' == Reaching(o, trials[..n + 1], realStat) && count' <= n + 1
            && (realStat == 0.0 ==> count' == n + 1)
  {
    ReachingStep(o, trials, n, realStat, pseudoStat);
  }

  /** `(statsCounter + 1) / (r + 1)` */
  function PValue(count: nat, trials: nat): real {
    (count + 1) as real / (trials + 1) as real
  }

  /** The p-value lies in (0, 1], and is 1 exactly when every trial counted. */
  lemma ShareInUnitInterval(count: nat, trials: nat)
    requires count <= trials
    ensures 0.0 < PValue(count, trials) <= 1.0
    ensures PValue(count, trials) == 1.0 <==> count == trials
  {
  }

  /** At most every trial reaches the real statistic, and every trial does
      when the real statistic is zero. */
  lemma {:induction false} ReachingBounds(o: PairedOutcomes, trials: seq<TrialFlips>, realStat: real)
    requires WellFormed(o)
    requires forall t :: 0 <= t < |trials| ==> FlipsFit(o, trials[t])
    ensures Reaching(o, trials, realStat) <= |trials|
    ensures realStat <= 0.0 ==> Reaching(o, trials, realStat) == |trials|
  {
    if trials != [] {
      ReachingBounds(o, trials[..|trials| - 1], realStat);
    }
  }

  /** The body of one trial: shuffle the spam outcomes, then the
      legitimate outcomes, and compute the statistic of the shuffled sums. */
  method ShuffledStat(o: PairedOutcomes, t: TrialFlips) returns (pseudoStat: real)
    requires WellFormed(o) && FlipsFit(o, t)
    ensures pseudoStat == TrialStat(o, t)
    ensures pseudoStat >= 0.0
  {
    var newSpams, newTopKSpams := SwapOutcomes(o.spamA, o.spamB, t.spam);
    var newLegitimates, newTopKLegitimate := SwapOutcomes(o.legitimateA, o.legitimateB, t.legitimate);
    pseudoStat := PseudoStat(SumOver(newLegitimates.order, newLegitimates.entries),
                             SumOver(newSpams.order, newSpams.entries),
                             SumOver(newTopKLegitimate.order, newTopKLegitimate.entries),
                             SumOver(newTopKSpams.order, newTopKSpams.entries),
                             |o.legitimateA.order|, |o.spamA.order|);
  }

  /** `randomization_test()`: the share of trials, bias-corrected, whose
      statistic reaches `|macroAveragedRecall - mutualMacroAveragedRecall|`.
      It lies in (0, 1] and is 1 when the two recalls are equal. */
  method RandomizationTest(o: PairedOutcomes, macroAveragedRecall: real, mutualMacroAveragedRecall: real,
                           flips: seq<TrialFlips>)
    returns (resultRandomization: real)
    requires WellFormed(o)
    requires |flips| == Trials && forall t :: 0 <= t < |flips| ==> FlipsFit(o, flips[t])
    ensures resultRandomization
            == PValue(Reaching(o, flips, Abs(macroAveragedRecall - mutualMacroAveragedRecall)), Trials)
    ensures 0.0 < resultRandomization <= 1.0
    ensures macroAveragedRecall == mutualMacroAveragedRecall ==> resultRandomization == 1.0
  {
    var statsCounter := 0;
    var realStat := Abs(macroAveragedRecall - mutualMacroAveragedRecall);
    for trial := 0 to Trials
      invariant statsCounter == Reaching(o, flips[..trial], realStat)
      invariant statsCounter <= trial
      invariant realStat == 0.0 ==> statsCounter == trial
    {
      var pseudoStat := ShuffledStat(o, flips[trial]);
      TrialCounted(o, flips, trial, realStat, pseudoStat, statsCounter);
      if pseudoStat >= realStat {
        statsCounter := statsCounter + 1;
      }
    }
    assert flips[..Trials] == flips;
    resultRandomization := PValue(statsCounter, Trials);
    ShareInUnitInterval(statsCounter, Trials);
  }

  /** A trial that keeps every pairing reproduces the real statistic: with
      `legcounter` the legitimate sum and `spamcounter` the spam size minus
      the spam sum (as `calculateResultsOfMails` leaves them), the trial's
      statistic is the difference of the two classifiers' macro recalls. */
  lemma IdentityTrialReproducesRealStat(o: PairedOutcomes, t: TrialFlips,
                                        legitimateCounterA: int, spamCounterA: int,
                                        legitimateCounterB: int, spamCounterB: int,
                                        legitimateCount: nat, spamCount: nat)
    requires WellFormed(o) && FlipsFit(o, t) && Valid(o.legitimateB) && Valid(o.spamB)
    requires forall i :: 0 <= i < |t.spam| ==> t.spam[i]
    requires forall i :: 0 <= i < |t.legitimate| ==> t.legitimate[i]
    requires o.legitimateB.order == o.legitimateA.order && o.spamB.order == o.spamA.order
    requires legitimateCount == |o.legitimateA.order| && spamCount == |o.spamA.order|
    requires legitimateCounterA == Sum(o.legitimateA) && spamCounterA + Sum(o.spamA) == spamCount
    requires legitimateCounterB == Sum(o.legitimateB) && spamCounterB + Sum(o.spamB) == spamCount
    ensures TrialStat(o, t)
            == Abs(MacroRecall(legitimateCounterA, spamCounterA, legitimateCount, spamCount)
                   - MacroRecall(legitimateCounterB, spamCounterB, legitimateCount, spamCount))
  {
    IdentityTrialSums(o, t);
  }

  /** A trial that keeps every pairing sums A's and B's own outcomes. */
  lemma IdentityTrialSums(o: PairedOutcomes, t: TrialFlips)
    requires WellFormed(o) && FlipsFit(o, t)
    requires forall i :: 0 <= i < |t.spam| ==> t.spam[i]
    requires forall i :: 0 <= i < |t.legitimate| ==> t.legitimate[i]
    ensures TrialStat(o, t)
            == PseudoStat(SumOver(o.legitimateA.order, o.legitimateA.entries),
                          SumOver(o.spamA.order, o.spamA.entries),
                          SumOver(o.legitimateA.order, o.legitimateB.entries),
                          SumOver(o.spamA.order, o.spamB.entries),
                          |o.legitimateA.order|, |o.spamA.order|)
  {
    ShuffledIdentity(o.spamA.order, o.spamA.entries, o.spamB.entries, t.spam);
    ShuffledIdentity(o.legitimateA.order, o.legitimateA.entries, o.legitimateB.entries, t.legitimate);
  }

  /** The tables `calculateResultsOfMails` and `calculateResultMutual`
      build for one class over the same distinct mail ids list the ids in
      the same order, and their sums give both classifiers' counters: these
      are what `IdentityTrialReproducesRealStat` asks for. */
  lemma PairFacts(ids: seq<string>, verdictsA: seq<bool>, verdictsB: seq<bool>, a: Dict, b: Dict)
    requires |verdictsA| == |ids| && |verdictsB| == |ids| && Distinct(ids)
    requires a == Outcomes(ids, verdictsA) && b == Outcomes(ids, verdictsB)
    ensures Valid(a) && Valid(b) && a.order == ids && b.order == ids
    ensures Sum(a) == CountFalse(verdictsA) && CountTrue(verdictsA) + Sum(a) == |ids|
    ensures Sum(b) == CountFalse(verdictsB) && CountTrue(verdictsB) + Sum(b) == |ids|
  {
    CountersMatchTables(ids, verdictsA, ids, verdictsB);
    CountersMatchTables(ids, verdictsB, ids, verdictsA);
  }

  /** As written, the statistic misses the real one even on a trial that
      swaps nothing: with 2 legitimate and 2 spam mails, both classifiers
      right on 1 legitimate mail, A missing 1 spam mail and B none, the
      real statistic is |0.5 - 0.75| = 0.25 and the intended trial
      statistic agrees, while main.py:199 gives |0.5 - 0.2| = 0.3. */
  lemma AsWrittenIdentityTrialMissesRealStat()
    ensures Abs(MacroRecall(1, 1, 2, 2) - MacroRecall(1, 2, 2, 2)) == 0.25
    ensures PseudoStat(1, 1, 1, 0, 2, 2) == 0.25
    ensures PseudoStatAsWritten(1, 1, 1, 0, 2, 2) == Some(0.3)
  {
    assert MacroValues(1, 1, 2, 2).value.fScore == 0.5;
    assert MacroPrecision(1, 0, 2, 2) == 1.0 / 6.0;
    assert MacroValues(1, 0, 2, 2).value.fScore == 0.2;
  }

  /** As written, a trial can divide by zero on a run that reaches the
      test: with 1 legitimate and 1 spam mail, both classifiers right on
      both, main.py:278-279 compute their metrics from the counters 1 and 1,
      but every trial feeds main.py:199 the sums 1 and 0, and the spam
      precision term divides 0 by 0 + 1 - 1. The intended statistic of that
      trial is 0. */
  lemma AsWrittenTrialDividesByZero()
    ensures MacroValues(1, 1, 1, 1).Some?
    ensures MacroValues(1, 0, 1, 1) == None
    ensures PseudoStatAsWritten(1, 0, 1, 0, 1, 1) == None
    ensures PseudoStat(1, 0, 1, 0, 1, 1) == 0.0
  {
    MacroValuesDefined(1, 1, 1, 1);
    assert MacroRecall(1, 1, 1, 1) == 1.0;
  }

  /** When A and B agree on every key, no flip changes either sum. */
  lemma ShuffledAgreeing(keys: seq<string>, a: map<string, int>, b: map<string, int>, flips: seq<bool>)
    requires |flips| == |keys| && Distinct(keys)
    requires forall i :: 0 <= i < |keys| ==> keys[i] in a && keys[i] in b && a[keys[i]] == b[keys[i]]
    ensures forall k :: k in keys ==> k in a && k in b
    ensures var r := Shuffled(keys, a, b, flips);
            SumOver(r.0.order, r.0.entries) == SumOver(keys, a) && SumOver(r.1.order, r.1.entries) == SumOver(keys, a)
  {
    SumOverAgree(keys, a, b);
    ShuffledOrder(keys, a, b, flips);
    ShuffledPairs(keys, a, b, flips);
    var r := Shuffled(keys, a, b, flips);
    SumOverAgree(keys, r.0.entries, a);
    SumOverAgree(keys, r.1.entries, a);
  }

  /** A sum over keys whose values are all c is c times their number. */
  lemma {:induction false} SumOverConstant(keys: seq<string>, m: map<string, int>, c: int)
    requires forall i :: 0 <= i < |keys| ==> keys[i] in m && m[keys[i]] == c
    ensures forall k :: k in keys ==> k in m
    ensures SumOver(keys, m) == c * |keys|
  {
    if keys != [] {
      SumOverConstant(keys[..|keys| - 1], m, c);
    }
  }

  /** The statistic of one trial as main.py:199 writes it; None where it
      divides by zero. */
  function TrialStatAsWritten(o: PairedOutcomes, t: TrialFlips): Option<real>
    requires WellFormed(o) && FlipsFit(o, t)
  {
    var spams := Shuffled(o.spamA.order, o.spamA.entries, o.spamB.entries, t.spam);
    var legitimates := Shuffled(o.legitimateA.order, o.legitimateA.entries, o.legitimateB.entries, t.legitimate);
    PseudoStatAsWritten(SumOver(legitimates.0.order, legitimates.0.entries), SumOver(spams.0.order, spams.0.entries),
                        SumOver(legitimates.1.order, legitimates.1.entries), SumOver(spams.1.order, spams.1.entries),
                        |o.legitimateA.order|, |o.spamA.order|)
  }

  /** When both classifiers are right on every test mail (every legitimate
      value 1, every spam value 0), main.py:278-279 compute their metrics,
      yet every trial as written divides by zero at main.py:199, since its
      sums are all legitimate mails and no spam; the intended statistic of
      every such trial is 0. */
  lemma AllRightTrialsDivideByZero(o: PairedOutcomes, t: TrialFlips)
    requires WellFormed(o) && FlipsFit(o, t)
    requires forall i :: 0 <= i < |o.legitimateA.order| ==>
               o.legitimateA.entries[o.legitimateA.order[i]] == 1
               && o.legitimateB.entries[o.legitimateA.order[i]] == 1
    requires forall i :: 0 <= i < |o.spamA.order| ==>
               o.spamA.entries[o.spamA.order[i]] == 0
               && o.spamB.entries[o.spamA.order[i]] == 0
    ensures MacroValues(|o.legitimateA.order|, |o.spamA.order|,
                        |o.legitimateA.order|, |o.spamA.order|).Some?
    ensures TrialStatAsWritten(o, t) == None
    ensures TrialStat(o, t) == 0.0
  {
    var legitimates, spams := o.legitimateA.order, o.spamA.order;
    MacroValuesDefined(|legitimates|, |spams|, |legitimates|, |spams|);
    ShuffledAgreeing(legitimates, o.legitimateA.entries, o.legitimateB.entries, t.legitimate);
    ShuffledAgreeing(spams, o.spamA.entries, o.spamB.entries, t.spam);
    SumOverConstant(legitimates, o.legitimateA.entries, 1);
    SumOverConstant(spams, o.spamA.entries, 0);
    assert MacroValues(|legitimates|, 0, |legitimates|, |spams|) == None;
  }
}
