# Naive Bayes spam filter, modelled in Dafny

This project models the core of a small multinomial Naive Bayes spam
classifier. It covers:

- mail parsing: the `Mail` class, `punctiationCleaner` and the tokenizer;
- the per-class inverted index (`createInvertedIndex`);
- the Laplace-smoothed word probabilities
  (`calculateLegitimateAndSpamProbabilityDicts`);
- the two decision rules: the full-vocabulary classifier `checkIfMailSpam`
  and the feature-restricted classifier `checkIfMailSpamAccordingMutualInfo`;
- the per-mail outcome tables and counters (`calculateResultsOfMails`,
  `calculateResultMutual`);
- macro-averaged precision, recall and F-score
  (`calculateMacroValuesAndFScore`);
- the paired randomization test (`randomization_test`);
- the contingency counts of `mutualInfo` and the top-100 feature selection.

Modules, one per part of the program:

| module | file | models |
|---|---|---|
| `Wrappers` | wrappers.dfy | `Option`, for the paths where Python raises `ZeroDivisionError` |
| `Cleaner` | cleaner.dfy | `punctiationCleaner` (main.py and bos.py) |
| `Tokenizer` | tokenizer.dfy | content joining, `split(sep=" ")`, lower-casing and the token filter; `class Mail` |
| `InvertedIndex` | index.dfy | `createInvertedIndex`, with posting lists, vocabulary and token total as specification functions |
| `Probability` | probability.dfy | `calculateLegitimateAndSpamProbabilityDicts` |
| `Classifier` | classifier.dfy | both decision rules, with `math.log2` as a parameter |
| `Dicts` | dicts.dfy | an insertion-ordered dictionary from mail id to outcome |
| `Evaluation` | evaluation.dfy | outcome tables, counters, macro metrics |
| `Randomization` | randomization.dfy | `randomization_test`, with the coin flips as an input |
| `Features` | features.dfy | `mutualInfo` document counts, the sort by score and the top-K slice |

The loops of the `Mail` constructor, `createInvertedIndex`,
`calculateLegitimateAndSpamProbabilityDicts`, both classifiers,
`calculateResultsOfMails`, `calculateResultMutual` and
`randomization_test` are Dafny `method`s with their loops. Each method is
proved against a specification function over the inputs (for example,
`CreateInvertedIndex` builds `Postings(mails, w)` for every word it indexes). The
properties the program relies on are lemmas about those functions. The
body of the `mutualInfo` loop is the per-word function
`Features.ContingencyCounts`, and the sort and slice of the feature
selection are recursive functions.
Python's floating-point values are Dafny `real`s. Module-level globals of
main.py become parameters: the trained tables become a `Classifier.Model`,
and the four outcome tables become a `Randomization.PairedOutcomes`.

Two facts about the code:

- The numerator of a word probability is the length of the word's posting
  list plus one. The list holds one entry per occurrence, so this is a
  term frequency, not a document frequency
  (main.py:164, main.py:167; `InvertedIndex.PostingsCount`).
- The statistic of a trial differs from the real statistic (see
  "## Findings").

## Model

| member | source | states |
|---|---|---|
| `Cleaner.ReplaceNewlines` | bos.py:4 | same length; every newline becomes a space and no newline is left; every other character is unchanged |
| `Cleaner.SubstituteNonWord` | bos.py:5 | same length; word and whitespace characters of the input are kept; every other character becomes a space |
| `Cleaner.Clean` | bos.py:3-6 | same length, no newline left, only word and whitespace characters; each position is the input character if it is kept, a space otherwise |
| `Cleaner.CleanIdempotent` | main.py:57-65 | cleaning cleaned text changes nothing |
| `Cleaner.CleanFixesKeptText` | main.py:63-64 | text made only of kept characters is returned unchanged |
| `Tokenizer.LowerChar` | main.py:21-22 | an upper-case ASCII letter maps to the lower-case letter 32 code points above it; every other character is unchanged |
| `Tokenizer.Lower` | main.py:21-22 | `lower()` keeps the length and lowers each character |
| `Tokenizer.Content` | main.py:13-15 | the joined content is empty exactly when there are no subject lines |
| `Tokenizer.SplitOnSpace` | main.py:19 | `split(sep=" ")` gives at least one piece; no piece holds a space; every character of a piece comes from the input |
| `Tokenizer.JoinSplit` | main.py:19 | joining the pieces with single spaces gives back the input (nothing but the separators is dropped) |
| `Tokenizer.SplitWithoutSpace` | main.py:19 | a string without a space splits into itself alone |
| `Tokenizer.SplitPrefix` | main.py:19 | a space-free piece, a space and a rest split into that piece followed by the pieces of the rest |
| `Tokenizer.SplitJoin` | main.py:19 | splitting a space-joined list of space-free pieces gives back the list |
| `Tokenizer.KeepTokens` | main.py:20-22 | the token filter keeps at most one token per piece, never empty and never `subject`; `KeepTokensMembers` proves that it keeps exactly the lower-cased valid pieces, and `KeepTokensWellFormed` the shape of each token |
| `Tokenizer.KeepTokensMembers` | main.py:20-22 | a word is kept if and only if it is the lower-case of some non-empty piece whose lower-case is not `subject`: nothing else is kept and no such piece is dropped |
| `Tokenizer.Words` | main.py:16-22 | the word list of a mail: none without subject lines, never empty and never `subject`; `WordsMembers` proves which words it holds, and `WordsWellFormed` the shape of each |
| `Tokenizer.WordsMembers` | main.py:16-22 | a word is in the mail's list if and only if it is the lower-case of a non-empty piece, other than `subject` in any letter case, of the cleaned content split at single spaces |
| `Tokenizer.LowerWellFormed` | main.py:21-22 | lower-casing a kept piece of token characters gives a non-empty, lower-case token of token characters other than `subject` |
| `Tokenizer.KeepTokensWellFormed` | main.py:20-22 | the kept tokens of pieces made of token characters are non-empty, not `subject`, lower-case and made of token characters |
| `Tokenizer.WordsWellFormed` | main.py:16-22 | a mail with no subject lines has no words; every word is non-empty, not `subject`, lower-case, and free of spaces, newlines and punctuation |
| `Tokenizer.Mail.constructor` | main.py:10-22 | the mail keeps its id and subject lines; its content and its word list are those of the specification functions |
| `InvertedIndex.WordSet` | main.py:73-78 | a word is in the set exactly when it is in the list |
| `InvertedIndex.MailPostings` | main.py:79-83 | what one mail adds to a word's posting list: its id once per occurrence of the word among its tokens; `MailPostingsCount`, `MailPostingsOutsideWords` and `MailPostingsAppend` are proved about it |
| `InvertedIndex.Postings` | main.py:79-83 | the posting list of a word: each mail's id once per occurrence, in reading order; its properties are `PostingsCount` and `PostingsComplete` |
| `InvertedIndex.Vocabulary` | main.py:78 | the union of the mails' word sets; `VocabularyMembers` states membership both ways |
| `InvertedIndex.TotalTokens` | main.py:77 | the number of tokens of all mails, duplicates included; `PostingsBound` relates it to the posting lists |
| `InvertedIndex.CreateInvertedIndex` | main.py:67-85 | the vocabulary is every token of every mail; the total counts all tokens; the index has a key for every non-empty vocabulary word; each key's list is the mail ids in reading order, one per occurrence |
| `InvertedIndex.AddMailTokens` | main.py:76-83 | reading one more mail extends the index, vocabulary and total to those of the longer mail list |
| `InvertedIndex.IndexStep` | main.py:76-83 | one more token adds that token to the vocabulary, gives a non-empty token a key, and keeps every posting list equal to the specification over one more token |
| `InvertedIndex.IndexStepValues` | main.py:79-83 | the new one-id list for a first occurrence, or the list extended by the mail id, is the posting list over one more token; other lists are unchanged |
| `InvertedIndex.MailPostingsAppend` | main.py:79-83 | one more token adds the mail id to the posting list of that token only |
| `InvertedIndex.MailPostingsOutsideWords` | main.py:79-83 | a mail that lacks a word adds nothing to its posting list |
| `InvertedIndex.PostingsOutsideVocabulary` | main.py:78-83 | a word outside the vocabulary has an empty posting list |
| `InvertedIndex.MailPostingsCount` | main.py:79-83 | one mail adds as many postings of a word as it has occurrences of it, all with its id |
| `InvertedIndex.PostingsCount` | main.py:79-83 | a posting list is as long as the word's occurrence count, and every entry is the id of a mail containing the word |
| `InvertedIndex.PostingsComplete` | main.py:79-83 | every mail containing the word has its id in the posting list |
| `InvertedIndex.VocabularyMembers` | main.py:78 | a word is in the vocabulary exactly when some mail contains it |
| `InvertedIndex.PostingsBound` | main.py:77-83 | no posting list is longer than the token total |
| `InvertedIndex.MultisetCountBound` | main.py:77 | a word occurs in a list at most as often as the list is long |
| `InvertedIndex.VocabularyHasPostings` | main.py:78-83 | every vocabulary word has a non-empty posting list |
| `InvertedIndex.IndexKeysAreVocabulary` | main.py:79 | parsed mails have no empty token, so the index keys are the whole vocabulary |
| `Probability.ClassProbabilities` | main.py:162-167 | the table has an entry exactly for the class-vocabulary words that have a posting list; each value is (posting length + 1) / (class total + vocabulary size); there is no table exactly when such a word exists and the denominator is zero |
| `Probability.ProbabilityDicts` | main.py:155-168 | both class tables as above, and no result exactly when either class's computation divides by zero |
| `Probability.Smoothed` | main.py:164 | the add-one smoothed probability (posting length + 1)/(class total + vocabulary size); `SmoothedInUnitInterval` puts it in (0, 1] |
| `Probability.SmoothedInUnitInterval` | main.py:164 | for an index built from the mails and a vocabulary that covers them, every probability lies in (0, 1] |
| `Probability.RatioInUnitInterval` | main.py:164 | a ratio of counts 0 <= a <= b, b > 0 lies in [0, 1], and is positive when a is; used for the probabilities and the metrics of main.py:256-257 |
| `Probability.TablesInUnitInterval` | main.py:164-167 | with the combined vocabulary of main.py, both tables hold only values in (0, 1] |
| `Classifier.CheckIfMailSpam` | main.py:111-128 | the answer is "spam" exactly when the spam class's mean log-probability over the tokens it indexes beats the legitimate class's |
| `Classifier.ProbabilityOrOne` | main.py:123 | `probabilities.get(word, 1)`: the table's value, or 1 for a word without one |
| `Classifier.ClassTally` | main.py:121-127 | a class's log-probability sum and matched-token count over the tokens it indexes, in order; `CountZeroIffNoMatch` and `TallyAppend` state its properties |
| `Classifier.SpamWins` | main.py:128 | the spam class's mean log-probability beats the legitimate class's |
| `Classifier.RestrictedDecision` | main.py:148-153 | no spam match gives "not spam", spam matches without legitimate matches give "spam", otherwise the mean comparison |
| `Classifier.CheckIfMailSpamAccordingMutualInfo` | main.py:130-153 | the guarded decision over the tallies of the selected tokens only: "not spam" when the spam class matched none, "spam" when only the spam class matched, otherwise the mean comparison |
| `Classifier.RestrictedGuards` | main.py:148-151 | in terms of the mail's tokens: no selected token with a spam posting list gives "not spam"; some selected token with a spam posting list and none with a legitimate one gives "spam" |
| `Classifier.RestrictedTallyStep` | main.py:140-147 | one more token changes a class's restricted tally only when the token is selected and the class indexes it |
| `Classifier.TallyAppend` | main.py:121-127 | one more token adds its log-probability and one to the count exactly when the class indexes it |
| `Classifier.CountZeroIffNoMatch` | main.py:148-151 | a class's count is zero exactly when none of the tokens has a posting list there; the count never exceeds the number of tokens |
| `Classifier.Features` | main.py:140-141 | the mail's tokens that pass `if word in firstKWords`, in reading order, repeats kept; `FeaturesMembers` proves which tokens they are |
| `Classifier.FeaturesMembers` | main.py:140-141 | the tokens the restricted classifier reads are exactly the mail's tokens that are selected |
| `Classifier.AllFeaturesKeepsWords` | main.py:140-141 | when every token is selected, the restricted classifier reads every token |
| `Classifier.RestrictedAgreesWithFull` | main.py:140-153 | when every token is selected and both classes match a token, both classifiers decide alike |
| `Dicts.PutValid` | main.py:214-217 | setting a key keeps every key listed once, sets that key and no other |
| `Dicts.Put` | main.py:214 | `d[k] = v`: a new key goes to the end of the insertion order, an existing key keeps its place; `PutValid` and `PutNew` state its properties |
| `Dicts.Sum` | main.py:199 | `sum(d.values())`, the values added up in insertion order |
| `Dicts.PutNew` | main.py:183-184 | setting a key not yet present appends it to the order and keeps the dictionary valid |
| `Dicts.SumOverUpdateElsewhere` | main.py:199 | changing a key outside the summed keys leaves the sum alone |
| `Evaluation.FullVerdict` | main.py:215 | what `checkIfMailSpam(mail)` answers for a decidable mail, here and at main.py:222: `SpamWins` of the mail's two class tallies |
| `Evaluation.FullVerdicts` | main.py:213-224 | the answers of `checkIfMailSpam` for the mails in reading order, one per mail |
| `Evaluation.RestrictedVerdict` | main.py:237 | what `checkIfMailSpamAccordingMutualInfo(mail)` answers, here and at main.py:244: `RestrictedDecision` of the tallies over the mail's selected tokens |
| `Evaluation.RestrictedVerdicts` | main.py:235-246 | the answers of `checkIfMailSpamAccordingMutualInfo` for the mails in reading order, one per mail |
| `Evaluation.CountTrue` | main.py:222-224 | the number of "spam" verdicts, never more than the verdicts: the closed form of `spamcounter` that `JudgeSpamMails` is proved to compute |
| `Evaluation.CountFalse` | main.py:215-217 | the number of "not spam" verdicts, never more than the verdicts: the closed form of `legcounter` that `JudgeLegitimateMails` is proved to compute; `CountsAddUp` states that the two counts make up every verdict |
| `Evaluation.PutTwice` | main.py:214-217 | writing a key twice leaves the second value |
| `Evaluation.FullStep` | main.py:211-224 | one more mail extends the ids by its id and the verdicts by the full classifier's answer |
| `Evaluation.RestrictedStep` | main.py:233-246 | one more mail extends the ids by its id and the verdicts by the restricted classifier's answer |
| `Evaluation.RecordStep` | main.py:213-224 | the default write and the optional overwrite for one mail give the table of the longer mail list, and the counter grows by that mail's verdict |
| `Evaluation.Outcomes` | main.py:211-224 | the table the loops build from the ids and verdicts: each id maps to 0 for a "spam" verdict and 1 otherwise; `OutcomesShape` and `OutcomesSum` state its properties |
| `Evaluation.CalculateResultsOfMails` | main.py:206-226 | `legcounter` counts legitimate mails judged legitimate; `spamcounter` counts spam mails judged spam; each table maps every mail id to 1 if judged legitimate, 0 if judged spam |
| `Evaluation.JudgeLegitimateMails` | main.py:210-217 | the counter is the number of legitimate mails judged legitimate; the table maps each id to 1 if judged legitimate, 0 otherwise |
| `Evaluation.JudgeSpamMails` | main.py:218-224 | the counter is the number of spam mails judged spam; the table maps each id to 0 if judged spam, 1 otherwise |
| `Evaluation.JudgeLegitimateMailsMutual` | main.py:233-239 | as `JudgeLegitimateMails`, with the feature-restricted classifier |
| `Evaluation.JudgeSpamMailsMutual` | main.py:240-246 | as `JudgeSpamMails`, with the feature-restricted classifier |
| `Evaluation.CalculateResultMutual` | main.py:228-248 | the same counters and tables for the feature-restricted classifier |
| `Evaluation.OutcomesShape` | main.py:211-226 | every table value is 0 or 1; the keys are exactly the mail ids, each listed once |
| `Evaluation.OutcomesSum` | main.py:213-217 | with distinct ids the keys keep the mails' order and the values add up to the "legitimate" verdicts |
| `Evaluation.CountsAddUp` | main.py:211-224 | every mail is judged either spam or legitimate |
| `Evaluation.CountersMatchTables` | main.py:211-226 | `legcounter` is the legitimate table's sum; `spamcounter` plus the spam table's sum is the number of spam mails; each table lists its mail ids in reading order |
| `Evaluation.MacroValues` | main.py:250-260 | a result is defined only with non-zero file counts, and its recall is the mean of the two class recalls |
| `Evaluation.MacroPrecision` | main.py:256 | the mean of the two class precisions; `PrecisionInUnitInterval` bounds it |
| `Evaluation.MacroRecall` | main.py:257 | the mean of the two class recalls; `RecallInUnitInterval` bounds it |
| `Evaluation.FScore` | main.py:258 | 2pr/(p + r); `HarmonicMean` states that it is the harmonic mean |
| `Evaluation.RecallInUnitInterval` | main.py:257 | macro recall lies in [0, 1], is 0 exactly when both counters are 0, and is 0.85 for counters 8 and 9 out of 10 and 10 |
| `Evaluation.PrecisionInUnitInterval` | main.py:256 | macro precision lies in [0, 1] and is 0 exactly when both counters are 0 |
| `Evaluation.MacroValuesDefined` | main.py:256-258 | the metrics divide by zero exactly when every mail was judged spam, every mail was judged legitimate, or every mail was misjudged |
| `Evaluation.MacroValuesInUnitInterval` | main.py:256-258 | when the metrics exist, precision, recall and F-score lie in (0, 1] and the F-score is the harmonic mean of precision and recall |
| `Evaluation.HarmonicMean` | main.py:258 | 2pr/(p + r) lies in (0, 1] for p, r in (0, 1], and its reciprocal is the mean of the reciprocals |
| `Randomization.Shuffled` | main.py:181-197 | every key in a shuffled table's order has an entry in that table |
| `Randomization.SwapOutcomes` | main.py:179-187 | the per-key loop builds the two tables of the specification, key by key in the first table's order |
| `Randomization.ShuffledStep` | main.py:181-187 | one more key puts that key into both new tables, with A's and B's values kept or swapped by its flip |
| `Randomization.ShuffledOrder` | main.py:181-197 | over distinct keys, both new tables are valid and list the keys in their original order |
| `Randomization.ShuffledPair` | main.py:181-187 | over distinct keys, one key's pair of new values is A's and B's values, kept where its flip is true and swapped where it is false |
| `Randomization.ShuffledPairs` | main.py:181-187 | the same for every key at once |
| `Randomization.ShuffledKeepsTotal` | main.py:181-197 | the two shuffled sums together equal A's and B's sums together |
| `Randomization.ShuffledIdentity` | main.py:182-184 | a trial that keeps every pairing reproduces A's sum and B's sum |
| `Randomization.SumOverAgree` | main.py:199 | two maps that agree on the keys have the same sum over them |
| `Randomization.PseudoStat` | main.py:199 | the corrected trial statistic: the absolute difference of the macro recalls of the shuffled outcomes, with table size minus sum as the spam counter |
| `Randomization.PseudoStatAsWritten` | main.py:199 | the trial statistic as written: the absolute difference of the F-scores over the raw sums, None where it divides by zero |
| `Randomization.TrialStat` | main.py:179-199 | the statistic of one trial: both pairs of tables shuffled by the trial's flips, then `PseudoStat` of their sums |
| `Randomization.TrialStatAsWritten` | main.py:179-199 | the statistic of one trial as main.py:199 writes it, over the same shuffled sums, None where it divides by zero; `AllRightTrialsDivideByZero` is proved about it |
| `Randomization.PValue` | main.py:203 | (count + 1)/(r + 1); `ShareInUnitInterval` puts it in (0, 1] |
| `Randomization.ShuffledStat` | main.py:179-199 | one trial computes the corrected trial statistic (see "## Findings") over the shuffled tables, and it is never negative |
| `Randomization.Reaching` | main.py:200-202 | `statsCounter` after the given trials: how many of their statistics reach the real one; `ReachingStep` and `ReachingBounds` are proved about it |
| `Randomization.ReachingStep` | main.py:200-202 | one more trial adds one to the count exactly when its statistic reaches the real one |
| `Randomization.TrialCounted` | main.py:178-202 | one iteration of the trial loop keeps the count equal to the number of trials so far that reach the real statistic, at most their number, and all of them when the real statistic is 0 |
| `Randomization.ReachingBounds` | main.py:200-203 | at most every trial reaches the real statistic, and every trial does when it is zero |
| `Randomization.ShareInUnitInterval` | main.py:203 | (count + 1)/(r + 1) lies in (0, 1] and is 1 exactly when every trial counted |
| `Randomization.RandomizationTest` | main.py:170-204 | the result is (number of trials reaching the real statistic + 1)/(r + 1); it lies in (0, 1]; it is 1 when the two recalls are equal |
| `Randomization.IdentityTrialSums` | main.py:182-199 | a trial that keeps every pairing computes the statistic of A's and B's own sums |
| `Randomization.IdentityTrialReproducesRealStat` | main.py:177-199 | given counters read off the tables as the evaluation leaves them, a trial that swaps nothing gives exactly the real statistic, the recall difference |
| `Randomization.PairFacts` | main.py:211-248 | the tables of both classifiers for one class list the same ids in the same order, and their sums give both classifiers' counters |
| `Randomization.AsWrittenIdentityTrialMissesRealStat` | main.py:199 | on 2 + 2 mails with no swap, the real statistic and the corrected trial statistic are 0.25, while the statistic as written is 0.3 |
| `Randomization.AsWrittenTrialDividesByZero` | main.py:199 | with 1 legitimate and 1 spam mail and both classifiers right on both, the metrics of main.py:278-279 (counters 1 and 1) are defined, but a trial's sums 1 and 0 make the statistic as written divide by zero, while the corrected one is 0 |
| `Randomization.ShuffledAgreeing` | main.py:181-197 | when A's and B's values agree on every key, both shuffled sums equal A's sum whatever the flips |
| `Randomization.SumOverConstant` | main.py:199 | a sum over keys whose values are all c is c times their number |
| `Randomization.AllRightTrialsDivideByZero` | main.py:199 | when both classifiers are right on every test mail, the metrics of main.py:278-279 are defined, yet every trial as written divides by zero, and every corrected trial statistic is 0 |
| `Features.ContingencyCounts` | main.py:93-102 | n00 is 240 minus n10; n01 is 240 minus n11, except that the guard sets it to 1 when n01 and n00 would both be 0, so they are never both 0 |
| `Features.PostingIdsAreDocuments` | main.py:93-96 | the distinct ids of a posting list are the ids of the mails containing the word |
| `Features.ContingencyCountsDocuments` | main.py:92-102 | with indexes as `createInvertedIndex` builds them, n10 and n11 count the legitimate and spam mails containing the word (by distinct id), and n10 is at least 1 |
| `Features.InsertByScore` | main.py:270 | inserting adds one item; the new first item is the inserted one or the old head |
| `Features.SortByScore` | main.py:270 | the sort keeps the number of items |
| `Features.InsertByScoreOrdered` | main.py:270 | inserting into a list sorted by non-increasing score keeps it sorted |
| `Features.InsertByScoreAdds` | main.py:270 | inserting adds exactly that item |
| `Features.SortByScoreSorted` | main.py:270 | the sort orders by non-increasing score and is a permutation of the items |
| `Features.FirstKWords` | main.py:271 | `firstKWords` has min(100, number of scored words) words |
| `Features.TopKFromItems` | main.py:270-271 | the selected words are the keys of the first sorted items, which come from the scored items in non-increasing score order |
| `Features.PrefixNonIncreasing` | main.py:270-271 | the first n items of a list sorted by non-increasing score are in that order |
| `Features.PrefixDominates` | main.py:270-271 | in a list sorted by non-increasing score, no item after the first n outscores one of the first n |
| `Features.TopKDominates` | main.py:270-271 | no scored item left out of the selection outscores a selected one |

## Left out

- `readMails` (main.py:25-55): file-system input and the `.DS_Store` skip. Mails are built from an id and their lines.
- All `print` calls and the module-level driver (main.py:262, main.py:267, main.py:272, main.py:281-294, bos.py:9-10): console output and wiring.
- `math.log2` values: the classifiers take `log2` as a function parameter and nothing is assumed about it.
- `mutualInfo` scores (main.py:103-108): floating-point logarithms. Only the contingency counts are modelled, and the scored items are an input to the top-K selection.
- `random.randint` (main.py:182, main.py:192): replaced by explicit flips: per trial, one list for the spam keys and one for the legitimate keys, in the order the source draws them. Statistical properties of the p-value are not modelled.
- Floating-point rounding: all probabilities, scores and metrics are exact reals.
- Cleaner.Clean: `\w` and `\s` are their ASCII subsets (letters, digits, `_`; space, `\t`, `\n`, `\v`, `\f`, `\r` and the four separators 28-31), and `lower()` is ASCII lower-casing, not Python's Unicode rules.
- InvertedIndex.CreateInvertedIndex: the index is a map, so the insertion order of its keys is not kept. The order of the scored items fed to `Features.FirstKWords` is therefore an input.
- Classifier.CheckIfMailSpam: requires that both classes match at least one token of the mail. The source divides by both counts without a guard and raises `ZeroDivisionError` otherwise.
- Evaluation.CalculateResultsOfMails: requires every mail to be decidable by the full classifier, for the same reason.
- Randomization.ShuffledStat: computes the corrected trial statistic, the difference of the macro recalls with caught spam as the spam counter, not main.py:199's F-score difference over the missed-spam sums (see "## Findings").
- Randomization.RandomizationTest: uses the corrected trial statistic (see "## Findings"). As written, a trial can raise `ZeroDivisionError` on a run that gets through main.py:278-279, where the corrected test never does: whenever both classifiers are right on every test mail, every trial passes main.py:199 all legitimate mails and no spam as its counters, and the spam precision term divides 0 by 0 (`Randomization.AllRightTrialsDivideByZero`; the smallest case, 1 legitimate and 1 spam mail, is `Randomization.AsWrittenTrialDividesByZero`). The corrected statistic of those trials is 0. It requires both of A's tables to be non-empty, because the recall divides by their sizes. It also requires B's tables to have every key of A's, because the source raises `KeyError` otherwise.
- Features.FirstKWords: keeps the sorted items' words as they are, while main.py:270 rebuilds a dict that would merge a repeated word; the two agree because the items of `mutualInfoDict` never repeat a word, and the model does not require that of its input.
- Features.SortByScore: the insertion sort keeps equal-score items in input order, as Python's stable `sorted(..., reverse=True)` does, but that stability is not proved. Only the order by score and the permutation are proved.
- Mail: the word list, which the source appends to in place during construction, is built in the constructor and then fixed (`const` fields).

## Findings

| source | as written | input that shows it | evidently intended | confidence | as-written member | corrected member |
|---|---|---|---|---|---|---|
| main.py:199 | each trial's statistic is element `[2]` of `calculateMacroValuesAndFScore` (the F-score). It is fed the sums of the spam tables, whose 1s mark missed spam, as the spam counter, and it divides by zero on every trial whenever both classifiers are right on every test mail, although main.py:278-279 succeed on that input (`Randomization.AllRightTrialsDivideByZero`, `Randomization.AsWrittenTrialDividesByZero`) | 2 legitimate and 2 spam mails, both classifiers right on 1 legitimate mail, A missing 1 spam mail and B none, all flips keeping: the real statistic \|0.5 − 0.75\| = 0.25, the trial statistic \|0.5 − 0.2\| = 0.3 | the difference of the macro recalls (element `[1]`), with caught spam (table size minus sum) as the spam counter, so a trial that swaps nothing reproduces the real statistic of main.py:177 | not executed | `Randomization.AsWrittenIdentityTrialMissesRealStat` | `Randomization.IdentityTrialReproducesRealStat` |
