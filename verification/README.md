# Verified model of the evaluation code

A Dafny model of the self-contained algorithms of the review-extraction repository, with proofs of the properties
its numbers rest on: the inter-rater statistics, the SQL lexer of the migration guard, the token budget and the
resumable recorder of the injection twin control, the crash-safe score cache with its pacing and pass driver, the
exact McNemar test and its power, the Wilson and Newcombe intervals, the Mahalanobis scorer, the Manski bounds, the
greedy item matcher and the round-robin sampler.

`dafny verify dfyconfig.toml` checks the whole project.

Code that updates state is a class or a method with loops here too, proved against a specification function; code
made of expressions is a function. Arithmetic is exact (`real`, unbounded `int`). Library calls the code relies on
are parameters with the law they are relied on for: `math.sqrt` (a nonnegative root), `np.linalg.inv` (the product
with the covariance is the identity), `json.dumps`/`json.loads` (encodings without newlines, of which no proper
prefix decodes), sha256, shuffles and sorted key lists, the clock, the model calls and crashes.

| file | what it models |
|---|---|
| Common, Sums, Reals, LinearAlgebra | shared datatypes, finite sums, products of reals by name, vectors and quadratic forms |
| Agreement, AlphaLaws, AlphaLevels, Fleiss, AlphaKappa | Krippendorff's alpha, its ordinal and interval distances, Fleiss' kappa, and the identity between alpha and kappa |
| SqlLexer, SqlLexerLaws, ExecuteScan | the comment and literal stripper, its laws, the EXECUTE scan on top of it |
| RollingWindow, Migration, Budget, TwinControl, TwinLaws, Ceilings, Recorder | the rolling window and the migrated log, the budget object, all runs with crashes and resumes, what they report, exactly when the ceilings hold, and the program as objects whose executions are such runs |
| GuardCache, Throttle, RunPass, GuardRequests | the append-only cache, pacing and retries, the resumable pass, requests and rows |
| Binomial, McNemar, McNemarPower | the binomial distribution, the exact test with its memo, its size and power |
| Wilson, Newcombe | score interval and paired difference |
| Mahalanobis | the fitted scorer and its served copy |
| F1, Scoring, PartialScores, Manski, JudgeSensitivity, Truths | field scores, the bounds for unscored pairs, the envelope over the judges, and which true scores they allow |
| SoftMatch | greedy one-to-one matching |
| Subsample | the stratified sampler |

Where the code and its own words differ, the model follows the code:

- The ordinal level raises `KeyError` when a category between two observed ones was never observed
  (`AlphaLaws.OrdinalDefinedIff`, with a concrete matrix in `AlphaLaws.UnobservedMiddleCategoryRaises`).
- The "hard" ceilings hold over all runs if and only if, under every estimate a check can pass with, no reply charges
  a configured model more than the estimate (`Ceilings.CeilingsHoldIff`; for one reply, `BudgetGuard.SpentWithinIff`).
  Bounding a call's tokens by the estimate is not enough when the small model is guarded
  (`Ceilings.TokensAloneAreEnoughIff`): the router's degraded reply (app/core/router.py:243-257) reports the small
  model and counts as escalated, is charged twice, and ends over the cap (`Ceilings.DoubleChargeBreaksCap`).
- `verify_texts` does not look at a stratum's `new` field. For a verified manifest, scoring every request leaves no row
  missing if and only if every `new` field is the hash of a text that is scored (`GuardRequests.ScoringIsEnoughIff`);
  a stale field and a cache that shows it are in `GuardRequests.StaleRedactionIsMissing`.
- `adjudicated_block` raises on a review whose every field both panels left unresolved (`Manski.AdjudicatedBlock`), and
  `judge_sensitivity` on a review that cannot be scored against every judge (`JudgeSensitivity.JudgeSensitivity`).
- The chunk pause takes the place of the interval, it does not add to it (`Pacing.StartsAreSpaced`).
- The two `None` results for zero expected disagreement are unreachable (`AlphaLaws.AlphaBounded`,
  `Fleiss.KappaOutcome`).

## Model

| member | source | states |
|---|---|---|
| Agreement.UnitsFromRatersMatrix | eval/agreement.py:50-70 | the units are the columns' counters with missing ratings dropped, those with two or more ratings, in order |
| Agreement.KrippendorffAlpha | eval/agreement.py:93-186 | the loops over the coincidence dict compute alpha of the units at the level, or the same error, on every matrix the code accepts |
| Agreement.CoincidenceSymmetric | eval/agreement.py:121-136 | the coincidence matrix is symmetric |
| Agreement.RowTotalIsOccurrences | eval/agreement.py:138-141 | the marginal of a value is the number of times it occurs in units with two or more ratings |
| Agreement.TotalIsRatingCount | eval/agreement.py:138-146 | n is the number of those ratings, so it is at least 2 as soon as a unit is kept and the `n < 2` return is never taken |
| AlphaLaws.AlphaBounded | eval/agreement.py:168-186 | with a distance that is positive between different observed values alpha is a number, at most 1, and 1 exactly when every unit is unanimous |
| AlphaLaws.AlphaOutcome | eval/agreement.py:93-186 | `None` exactly when no unit is pairable; otherwise an error of the level or a number at most 1 that is 1 exactly on unanimous units |
| AlphaLaws.OrdinalDefinedIff | eval/agreement.py:83-90 | with two or more observed values the ordinal level raises KeyError if and only if the observed ranks have a gap |
| AlphaLaws.UnobservedMiddleCategoryRaises | eval/agreement.py:83-90 | a concrete matrix on which the call raises: two raters who never use the middle category |
| AlphaLaws.AlphaOfPermutedUnits | eval/agreement.py:121-186 | alpha does not depend on the order of the units |
| AlphaLaws.AlphaOfPermutedRaters | eval/agreement.py:50-70 | exchanging raters does not change alpha, on every two accepted matrices with the same rows, longer later rows included |
| AlphaLaws.AlphaOfPermutedColumns | eval/agreement.py:50-70 | exchanging units in the same way for every rater does not change alpha; what a row holds beyond the first rater's is ignored |
| Fleiss.ExpectedAgreement | eval/agreement.py:221-226 | expected agreement is at most 1 and reaches it only when one category holds every rating |
| Fleiss.OneCategoryIff | eval/agreement.py:222 | an item's squared counts reach the squared number of ratings exactly when one category holds them all |
| Fleiss.KappaOutcome | eval/agreement.py:189-227 | on every accepted table kappa is a number, at most 1, and 1 exactly when every item has all its ratings in one category; `None` is never returned |
| AlphaKappa.NominalObserved | eval/agreement.py:168-180 | at the nominal level the observed sum is the total less the diagonal |
| AlphaKappa.NominalExpected | eval/agreement.py:168-180 | and the expected sum is the squared total less the squared marginals |
| AlphaKappa.AlphaKappaIdentity | eval/agreement.py:93-227 | on every fully covered matrix of N units and m >= 2 raters alpha = kappa + (1 - kappa) / (N m), so alpha is never below kappa |
| AlphaLevels.RankIs | eval/agreement.py:158 | the rank of a category is its last position in the list |
| AlphaLevels.OrdinalDistance | eval/agreement.py:83-90 | between gap-free ranks the ordinal distance of two observed values is the square of half the occurrences of both plus all occurrences strictly between, in either order |
| AlphaLevels.OrdinalRootsAdd | eval/agreement.py:83-90 | so the roots of ordinal distances add up over every observed value in between |
| AlphaLevels.IntervalExpected | eval/agreement.py:78-80 | at the interval level the expected sum is 2 (n sum(x^2) - (sum x)^2) over the n ratings x |
| AlphaLevels.IntervalObserved | eval/agreement.py:168-180 | and the observed sum is twice the same expression of each unit over one less than its number of ratings |
| AlphaLevels.IntervalAlpha | eval/agreement.py:168-186 | so with two different numbers interval alpha is 1 - (n - 1) W / S, with W the scatters within the units and S that of all ratings |
| SqlLexer.LineEnd | scripts/check_migrations_no_bypassrls_grant.py:110-115 | the line comment loop ends where the automaton leaves the comment; everything it passed is comment |
| SqlLexer.BlockEnd | scripts/check_migrations_no_bypassrls_grant.py:116-129 | the nested comment loop tracks the automaton's depth; it ends inside a comment exactly when the input does |
| SqlLexer.StringEnd | scripts/check_migrations_no_bypassrls_grant.py:130-147 | the literal loop finds the automaton's closing quote, with escapes exactly after a lone E |
| SqlLexer.IdentifierEnd | scripts/check_migrations_no_bypassrls_grant.py:148-161 | the quoted identifier loop finds its closing quote or the input is unterminated |
| SqlLexer.WordIsLookBehind | scripts/check_migrations_no_bypassrls_grant.py:130-131 | the E-string test, which looks back at the raw input, agrees with the automaton's memory |
| SqlLexer.Strip | scripts/check_migrations_no_bypassrls_grant.py:89-165 | the index-jumping scanner returns exactly what the one-character automaton emits, or raises for the same unterminated construct |
| SqlLexer.OutputAt | scripts/check_migrations_no_bypassrls_grant.py:89-165 | what stands at each position of the two outputs |
| SqlLexerLaws.OffsetsKeepTheirLine | scripts/check_migrations_no_bypassrls_grant.py:168-169 | both outputs have the input's length, and an offset in them is on the same line as in the input |
| SqlLexerLaws.LineIs | scripts/check_migrations_no_bypassrls_grant.py:168-169 | an offset's line is one more than the number of newlines before it |
| SqlLexerLaws.RelexText | scripts/check_migrations_no_bypassrls_grant.py:89-165 | stripping the text output gives the same pair again |
| SqlLexerLaws.RelexCode | scripts/check_migrations_no_bypassrls_grant.py:89-165 | stripping the code output gives it twice |
| SqlLexerLaws.WordInOneLiteral | scripts/check_migrations_no_bypassrls_grant.py:181-189 | a word of the text output is inside one literal with all its characters, or outside with all |
| SqlLexerLaws.WordDiffersIffLiteral | scripts/check_migrations_no_bypassrls_grant.py:181-189 | a word differs between the two outputs exactly when it lies inside a literal |
| ExecuteScan.MatchDiffersIffLiteral | scripts/check_migrations_no_bypassrls_grant.py:181-189 | so the scan's test on a matched word is the test for a quoted word of the input |
| ExecuteScan.WordsAreApart | scripts/check_migrations_no_bypassrls_grant.py:181-184 | two matched words never overlap or touch, so trying every position finds what `finditer` finds |
| ExecuteScan.LinesOfHits | scripts/check_migrations_no_bypassrls_grant.py:181-190 | the reported lines are, in order, those of the positions of an EXECUTE word of the code output that some BYPASSRLS word of the text output follows, starting inside a literal, with no semicolon of the code output between the two words or in the second |
| ExecuteScan.ScanExecutes | scripts/check_migrations_no_bypassrls_grant.py:181-190 | the scan reports these lines or raises what the lexer raises: a line is reported if and only if such a pair of words starts on it; letters match as under `re.IGNORECASE`, beyond ASCII too |
| RollingWindow.UsedFalls | eval/rolling_window.py:37-43 | with no new spend the usage in the window never rises |
| RollingWindow.LaterIsConservative | eval/rolling_window.py:30-43 | dating spends later than they were can only raise the usage at any time |
| RollingWindow.NextAllowedAt | eval/rolling_window.py:57-80 | `None` exactly when need exceeds the cap; otherwise the first time from now on at which the need fits: it fits then, and at no earlier time |
| Migration.Migrate | eval/run_injection_twin_control.py:277-291 | the nested loops append one entry per day and model, dated at the day's last second |
| Migration.EndOfDayIsLatest | eval/rolling_window.py:30-34 | the day's last second is not before any whole second of the day, and different days end differently |
| Migration.TotalsCover | eval/run_injection_twin_control.py:277-291 | entries at the ends of the days whose totals are the per-day sums of the spends count, after any cutoff, at least the spends |
| Migration.MigrationIsConservative | eval/run_injection_twin_control.py:277-291 | so at every time the usage after migration is at least the true usage: migration can only over-refuse |
| BudgetGuard.Budget.CanAfford | eval/run_injection_twin_control.py:329-338 | true exactly when n more calls at the estimate keep every model under both ceilings |
| BudgetGuard.Budget.NextAllowedAt | eval/run_injection_twin_control.py:340-346 | the first time all models fit at once; now exactly when the rolling half of the check holds; `None` exactly when one model can never fit |
| BudgetGuard.Budget.Charge | eval/run_injection_twin_control.py:348-353 | usage, shared log and estimate after a charge |
| BudgetGuard.EarliestForAll | eval/run_injection_twin_control.py:340-346 | the maximum of the models' times is the first time at which all fit |
| BudgetGuard.SpentByModel | eval/run_injection_twin_control.py:356-363 | what a call is charged to each model, twice its tokens for an escalated call that reports the small model |
| BudgetGuard.SpentWithinIff | eval/run_injection_twin_control.py:356-363 | a call charges no configured model more than an estimate if and only if the estimate covers its tokens on the configured models it is charged to, twice if it escalated and reports the small model |
| TwinControl.RunKept | eval/run_injection_twin_control.py:397-450 | over every run no pair is both half-finished and completed, and memory and file agree on the completed pairs and the stored arms |
| TwinControl.FinishFindsBothArms | eval/run_injection_twin_control.py:381-394 | when a pair is finalized both its arms are stored |
| TwinControl.CeilingsHoldAfterEveryCall | eval/run_injection_twin_control.py:302-353 | over every run with crashes and resumes, if no call charges a configured model more than the estimate of its check, then after each call and until the next charge every configured model is under both ceilings, also when one check approved two calls |
| TwinControl.CeilingsHoldThroughout | eval/run_injection_twin_control.py:413-450 | the same after every call of a run at once |
| Ceilings.OvershootBreaksCap | eval/run_injection_twin_control.py:329-353 | for every configured model, every estimate a check can pass with and every reply that charges the model more, a start, a check and that call end over the cap |
| Ceilings.CeilingsHoldIff | eval/run_injection_twin_control.py:302-353 | the ceilings hold over all runs whose replies keep a promise if and only if the promise bounds what a reply charges each configured model by the estimate |
| Ceilings.TokensAloneAreEnoughIff | eval/run_injection_twin_control.py:348-363 | bounding a call's tokens by the estimate keeps the ceilings exactly when the small model is not guarded, or no check can pass |
| Ceilings.DoubleChargeBreaksCap | app/core/router.py:243-257 | with the program's two models and constants, every degraded reply of at most the estimate and more than half of it has a run that ends over the cap |
| TwinControl.AccountingConserved | eval/run_injection_twin_control.py:397-450 | per model, logged tokens less the tokens of stored arms never change, in memory and at every save |
| TwinControl.LogMatchesStoredArms | eval/run_injection_twin_control.py:260-299 | from a new state file the log's total is the cost of the stored arms |
| TwinControl.EveryArmCalledOnce | eval/run_injection_twin_control.py:413-450 | a called arm was not stored before, is stored from then on whatever crashes follow, and is never called again |
| TwinControl.AtMostTwoCallsPerPair | eval/run_injection_twin_control.py:413-450 | so a pair costs at most two stored calls over all invocations |
| TwinLaws.EstimateIsLargestCall | eval/run_injection_twin_control.py:348-353 | over every run the largest call ever made is remembered, on file too, and is the estimate of the next call unless the minimum is larger; crashes and resumes do not lower it |
| TwinLaws.AffordsIff | eval/run_injection_twin_control.py:329-338 | the check passes exactly when every configured model would be under both ceilings after the calls were charged to it at the estimate, one by one |
| TwinLaws.FirstArmFirst | eval/run_injection_twin_control.py:420-424 | the second arm of a pair is only called when its first one is stored, over every run with crashes and resumes; the attack comes first exactly when the pair says so |
| TwinLaws.AnswersAreKept | eval/run_injection_twin_control.py:370-394 | what a call came back with is stored under its own pair and arm, half-finished or completed, in memory and on file, after every continuation of the run |
| TwinLaws.LandedIff | eval/run_injection_twin_control.py:231-244 | over every run a completed pair is reported under its id, and as landed exactly when the answer to its attack hits the attack's target and the answer to its twin does not |
| Recorder.CallArm | eval/run_injection_twin_control.py:426-442 | one call of the program is one call step of the transition system; a failed one changes nothing |
| Recorder.RunPair | eval/run_injection_twin_control.py:413-450 | check, calls and finalization of one pair are a run of the system; it completes that pair and nothing else, a refusal means its calls did not fit, and a failed call is the only other reason to stop besides a crash |
| Recorder.Record | eval/run_injection_twin_control.py:397-455 | the loop over the pairs is a run of the system; without a crash `finished` is the number of pairs newly completed, never more than `max_pairs` are, crash or not, the limit is the reason exactly when it was reached with a pair left, a refusal means the first pair left did not fit, and a call failed or the program crashed exactly once when that is the reason and never otherwise |
| Recorder.Invoke | eval/run_injection_twin_control.py:597-615 | so is a whole invocation, from loading the file to the last save; it leaves what the next one needs, and the file holds the pairs that `Record` counted |
| Recorder.InvokeAll | eval/run_injection_twin_control.py:597-615 | any number of invocations on one file, each ended or crashed, are one run: no arm is called twice, exactly the called arms are added to the file, and the ceilings hold after every call |
| GuardCache.TornAppendIsHarmless | eval/injection_guard_order.py:748-762 | after any byte prefix of an append, the repair newline included, a fresh cache loads the map from before it or after it, and skips at most one more line |
| GuardCache.AppendLoads | eval/injection_guard_order.py:748-762 | a whole append loads as one more record and closes the file |
| GuardCache.HistoryLoads | eval/injection_guard_order.py:724-762 | after every history of appends, crashes and restarts a fresh cache loads exactly the records that arrived, and no ok record is lost or replaced |
| GuardCache.Cache.constructor | eval/injection_guard_order.py:724-738 | the loading loop gives the file's map and its count of skipped lines |
| GuardCache.Cache.Append | eval/injection_guard_order.py:740-762 | the map in memory stays what a fresh cache would load; a record with other fields changes nothing |
| Pacing.StartsAreSpaced | eval/injection_guard_order.py:785-793 | between starts i and j lie j - i intervals plus, for every chunk boundary passed, what the pause exceeds the interval by |
| Pacing.Throttle.Wait | eval/injection_guard_order.py:785-793 | one more start, not before the call, that keeps all starts spaced |
| Pacing.MakeThrottle | eval/injection_guard_order.py:776-783 | an interval below the floor is refused, and only that |
| Pacing.LastAttempt | eval/injection_guard_order.py:846-872 | the attempt loop ends at the first finite score, the first fatal reply, or the last attempt |
| Pacing.RetriedIff | eval/injection_guard_order.py:846-872 | an attempt is followed by another exactly when every reply so far was malformed, or failed with no status, 429, or one outside 400-499 |
| Pacing.DelayIsLeast | eval/injection_guard_order.py:819-827 | the delay is the least one that keeps both the capped exponential back-off and the capped retry-after |
| Pacing.ScoreText | eval/injection_guard_order.py:829-872 | at most `max_attempts` starts, all paced, with the back-off of each failed attempt before the next start; ok only with a finite score, otherwise the status of the last attempt |
| GuardRun.RunPass | eval/injection_guard_order.py:875-913 | the loop over the requests does what the pass specification says, with the cache object it updates, and returns its counts |
| GuardRun.CountsAreOfAnswers | eval/injection_guard_order.py:905-913 | `scored` is the number of ok answers the pass used and `errors` that of the others |
| GuardRun.RecordsAreAnswers | eval/injection_guard_order.py:890-904 | over distinct keys the i-th call's record holds its key, the i-th answer's status and the answer's score, and every key without a call keeps what it had |
| GuardRun.CallsAreUncached | eval/injection_guard_order.py:884-890 | over distinct keys the calls are for the keys without an ok record, in order, all of them unless the pass aborted or the limit was reached with one left |
| GuardRun.PassKeepsOk | eval/injection_guard_order.py:886-890 | no ok record is rescored or changed, the ok keys only grow, and a limit bounds the calls |
| GuardRun.AbortsAfterFiveErrors | eval/injection_guard_order.py:907-912 | the pass aborts exactly when the replies used end in five errors in a row |
| GuardRun.EveryRequestCounted | eval/injection_guard_order.py:884-913 | a pass over distinct keys that ends without limit or abort has scored + errors + cached = requests |
| GuardRun.CallsAreDistinct | eval/injection_guard_order.py:886-891 | every call is for a request's key and no key is called twice |
| GuardRun.FullPassLeavesAllOk | eval/injection_guard_order.py:884-913 | an error-free full pass leaves an ok record for every request |
| GuardRun.SecondPassIsFree | eval/injection_guard_order.py:884-913 | running it again makes no call |
| GuardRequests.IndexTexts | eval/injection_guard_order.py:697-708 | the dict holds exactly the wanted texts, each under its hash; a missing text is a KeyError |
| GuardRequests.BuildRequests | eval/injection_guard_order.py:697-714 | one request per distinct hash in the given order, then the retests, each with a text of its hash |
| GuardRequests.RequestKeysDistinct | eval/injection_guard_order.py:693-714 | the requests' keys are pairwise different |
| GuardRequests.ScoringIsEnoughIff | eval/injection_guard_order.py:926-946 | for a verified manifest, every cache with all requests scored has no missing row if and only if every `new` field is the hash of a scored text |
| GuardRequests.UnwantedNewIsMissing | eval/injection_guard_order.py:926-946 | otherwise the cache of exactly the requests' scores misses a row |
| GuardRequests.NoRowMissingWhenDerived | eval/injection_guard_order.py:518-540 | a manifest derived from the same texts meets the condition, so no row is missing |
| GuardRequests.Rows | eval/injection_guard_order.py:926-946 | the loops give a row or count a missing one for each of the two strata of every item |
| GuardRequests.RowsHoldScores | eval/injection_guard_order.py:926-946 | for a derived manifest with every request scored, two rows per item in order, with the text's score as the current one, its redaction's as the new one, and `changed` exactly when the redaction changed the text |
| GuardRequests.StaleRedactionIsMissing | eval/injection_guard_order.py:500-510 | a verified manifest with a stale `new` field, and a cache in which every request is scored and a row is missing |
| Binomial.PmfSumAll | scripts/injection_landing_sample_size.py:42-43 | the probabilities of 0..n sum to 1 for every p |
| Binomial.MeanStep | scripts/injection_landing_sample_size.py:42-43 | one more trial moves the count up by one with probability p, in every expectation |
| McNemar.PValueIsExtremeProbability | scripts/injection_landing_sample_size.py:46-52 | the p-value is the probability, at 1/2, of an outcome at least as far from d/2 as the observed one |
| McNemar.ImplementationsAgree | eval/run_injection_twin_control.py:247-254 | the three implementations give the same p-value for every (b, c), and for (c, b) |
| McNemar.CriticalSplits | scripts/injection_landing_sample_size.py:70-83 | with the loop's critical value the two tails are disjoint and hold exactly the outcomes whose p-value is at most ALPHA |
| McNemar.TrueSize | scripts/injection_landing_sample_size.py:70-83 | the rejection probability at 1/2 is at most ALPHA for every d |
| McNemar.Test.RejProb | scripts/injection_landing_sample_size.py:67-83 | with any memo the runs have built the result is the probability of a p-value of at most ALPHA, and the memo still holds only critical values |
| McNemar.Test.McnemarPower | scripts/injection_landing_sample_size.py:55-64 | the sum over d computes the filtered power |
| McNemarPower.DrawnOneAtATime | scripts/injection_landing_sample_size.py:55-64 | conditioning on the number of discordant pairs gives the same probability as drawing the pairs one by one |
| McNemarPower.PowerIsRejectionProbability | scripts/injection_landing_sample_size.py:55-64 | the power is the probability that the test rejects after n independent pairs, short of it by at most n times 1e-15 |
| McNemarPower.NullIsControlled | scripts/injection_landing_sample_size.py:55-64 | power(n, p, p) and the true rejection probability are at most ALPHA for every n and 0 <= p <= 1/2 |
| McNemarPower.JointIsFeasible | scripts/injection_landing_sample_size.py:86-90 | the clamp always gives probabilities the power is defined for; uncorrelated marginals are never clamped |
| McNemarPower.JointHasCorrelation | scripts/injection_landing_sample_size.py:86-90 | the two probabilities leave the same probability of both at once; its excess over independence is phi times the root of pa (1 - pa) pt (1 - pt) where the marginals allow that, otherwise it is the bound on that side |
| Wilson.WilsonHoldsProportion | eval/wilson.py:49-60 | 0 <= lower <= p <= upper <= 1 for the clamped p, and neither clamp of the result fires |
| Wilson.WilsonIsScoreInterval | eval/wilson.py:49-60 | for every p, a value is in the interval if and only if the score test of the clamped p does not reject it: n (p - t)^2 <= z^2 t (1 - t) |
| Wilson.WilsonNarrows | eval/wilson.py:49-60 | more trials or a smaller z never widen the interval |
| Wilson.WilsonMirrored | eval/wilson.py:49-60 | the interval of 1 - p is the mirrored interval of p |
| Newcombe.PhiIsCorrelation | eval/injection_guard_order.py:181-193 | the corrected estimate lies in [-1, 1] |
| Newcombe.PhiEquation | eval/injection_guard_order.py:181-193 | phi times the root of (a+b)(c+d)(a+c)(b+d) is ad - bc - n/2, 0 or ad - bc in the three cases, and phi is 0 when a marginal is empty |
| Newcombe.PairedDiffHolds | eval/injection_guard_order.py:196-224 | the interval holds p2 - p1, lies in [l2 - u1, u2 - l1] and in [-1, 1], and neither `max(0, ...)` guard fires |
| Newcombe.HalfWidthsOfTable | eval/injection_guard_order.py:196-224 | the squared half-widths are (u1-p1)^2 + (p2-l2)^2 - 2 phi (u1-p1)(p2-l2) below and (p1-l1)^2 + (u2-p2)^2 - 2 phi (p1-l1)(u2-p2) above p2 - p1; an empty table gives (0, -1, 1) |
| Newcombe.PairedDiffSwapped | eval/injection_guard_order.py:196-224 | swapping b and c negates the difference and flips the interval |
| Newcombe.PairedDiffComplemented | eval/injection_guard_order.py:196-224 | swapping a and d changes nothing |
| Newcombe.PhiSign | eval/injection_guard_order.py:181-193 | positive exactly when ad - bc exceeds half the table, negative exactly when it is negative, if no marginal is empty |
| Newcombe.AssociationNarrows | eval/injection_guard_order.py:196-224 | against independent measures a concordant table never widens either side of the interval, a discordant one never narrows it |
| Newcombe.StatsExchanged | eval/injection_guard_order.py:227-250 | exchanging the two guards exchanges their columns, keeps the p-value and mirrors the interval |
| Newcombe.StatsOfReordered | eval/injection_guard_order.py:227-250 | the order of the rows does not matter, and the leftover count is of the pairs neither guard flagged |
| Newcombe.StatsOfPairs | eval/injection_guard_order.py:227-250 | the four counts are those of the four outcomes, the p-value is that of the two discordant ones, and the difference is the second guard's rate less the first one's |
| Mahalanobis.ResidualsSumToZero | engine/scoring.py:34-36 | the centred embeddings of every class sum to zero |
| Mahalanobis.CovarianceIs | engine/scoring.py:36-37 | n times the covariance, less the regularisation on the diagonal, is the sum of the products of the centred coordinates |
| Mahalanobis.PrecisionSymmetric | engine/scoring.py:37-38 | the inverse of the regularised covariance has a symmetric form |
| Mahalanobis.PrecisionPositive | engine/scoring.py:37-38 | and a positive definite one |
| Mahalanobis.ExpandedIsDirectIff | engine/scoring.py:40-45 | the expanded form equals (x - mu) P (x - mu) if and only if the cross terms agree |
| Mahalanobis.AsymmetryShows | engine/scoring.py:40-45 | for an asymmetric P it differs at two unit vectors |
| Mahalanobis.ScoreIsNearestDistance | engine/scoring.py:34-45 | after a fit the score is the negated squared distance to the nearest class, at most 0, and 0 exactly at a class mean |
| Mahalanobis.UnknownIffFarFromAll | engine/serve.py:58-79 | a served item is unknown exactly when it is further than -threshold from every class |
| F1.HarmonicIs | eval/runner.py:145-149 | the harmonic mean of precision and recall is 2 tp / (predicted + expected) |
| F1.HarmonicBounds | eval/runner.py:145-149 | it lies in [0, 1], is 1 exactly when everything is matched and 0 exactly without a match |
| Scoring.SetScoreMeaning | eval/runner.py:136-149 | a set score is symmetric, in [0, 1], 1 exactly for equal sets, 0 exactly for disjoint ones not both empty |
| Scoring.SetScoreIs | eval/runner.py:136-149 | unless both sets are empty it is twice the common elements over the elements of both |
| Scoring.ScalarScoreIff | eval/runner.py:126-181 | under the exact and the tolerance rule a field scores 0 or 1, and 1 exactly when the values agree up to case, or differ by at most the tolerance; a product is compared in its normal form unless strict |
| Scoring.FuzzyScoreIs | eval/runner.py:156-173 | under the fuzzy rule a field scores the F1 of the tokens of all items |
| Scoring.OverlapScoreIs | eval/runner.py:136-149 | under the set rule it scores the F1 of the folded items, canonicalised first unless strict |
| Scoring.FuzzyListScore | eval/runner.py:156-173 | the union loops give the set score of all tokens of both lists |
| Scoring.FieldScoreIsScore | eval/runner.py:126-181 | every field score is in [0, 1], and a field that equals its truth scores 1 |
| Scoring.ScoreFixture | eval/runner.py:231-270 | the fields of the notes in order with their scores, all in [0, 1]; it raises exactly when some field cannot be scored |
| Manski.UnscoredBlock | eval/heldout_unscored.py:64-150 | every count, fraction, score and bound is the one the tables of scored and unscored pairs determine; it raises exactly with reviews but no fields |
| Manski.PublishedIs | eval/heldout_unscored.py:58-61 | a record is published as often as it is listed, and not at all when it is exposed and those are excluded |
| Manski.BoundsAreValid | eval/heldout_unscored.py:77-100 | for every assignment of true scores in [0, 1] the overall mean lies within the bounds; so do scored-only, with entirely unscored reviews too, and the defaults |
| Manski.BoundsAreSharp | eval/heldout_unscored.py:71-100 | the width is the unscored fraction, and every value between the bounds is reached |
| Manski.BoundsAverageFields | eval/heldout_unscored.py:102-112 | the overall bounds are the averages of the per-field bounds |
| Manski.FieldScoredOnlyInside | eval/heldout_unscored.py:102-112 | a field's scored-only figure lies within its bounds if any of its pairs is scored |
| Manski.AdjudicatedBlock | eval/heldout_unscored.py:255-360 | every count, fraction, score and bound, per field and overall, is the one the narrowed tables determine; it raises exactly when some kept review has every field unresolved by both panels |
| Manski.SecondPanelNarrows | eval/heldout_unscored.py:255-360 | the second interval is nested in the first, holds the point estimate, and is as wide as the fraction still unresolved |
| Truths.IntervalsArePossibleScores | eval/heldout_unscored.py:64-360 | a value lies in the published interval if and only if it is the overall score of some true scores in [0, 1] that keep the stored score of every resolved pair, and in the narrowed one if and only if they keep the silver scores too |
| Truths.FieldBoundsArePossible | eval/heldout_unscored.py:102-112 | the bounds of a field hold its mean for all such true scores, and each end is reached |
| Truths.KnownOnlyImputes | eval/heldout_unscored.py:87-92 | when every review has a known pair, the scored-only figure and the silver estimate are the mean of the reviews' means with each unknown pair counted as its review's own mean |
| Manski.EnvelopeInside | eval/heldout_unscored.py:170-228 | for any tables of judges' scores the envelope lies within the bounds and holds the score against any choice of one judge per pair |
| JudgeSensitivity.JudgeSensitivity | eval/heldout_unscored.py:170-228 | the loops give the score against every judge and the two envelopes; they raise exactly when some kept review is not in the votes, has no field, or has an unscored pair without a vote of every judge |
| JudgeSensitivity.SensitivityInside | eval/heldout_unscored.py:170-228 | the envelope lies within the published bounds and holds the score against every single judge |
| Truths.EnvelopeIsRange | eval/heldout_unscored.py:170-228 | the ends of the envelope are the least and the greatest overall score when every unscored pair is scored against some judge's vote, and both are reached |
| Truths.AgainstOneJudge | eval/heldout_unscored.py:170-228 | the score against a judge is the overall score with that judge's votes on the unscored pairs |
| PartialScores.KnownOnlyInside | eval/heldout_unscored.py:87-92 | averaging only rows with a known cell stays between the worst and the best case of all rows |
| SoftMatch.CandidatesAre | scripts/analyze_pros_gold.py:65-73 | the sorted list holds exactly the pairs with a nonempty union, by descending score, then by descending positions |
| SoftMatch.JaccardIs | scripts/analyze_pros_gold.py:65-73 | the overlap times the items of both, the common ones counted once, is the common ones |
| SoftMatch.SoftF1 | scripts/analyze_pros_gold.py:56-85 | the loop computes the harmonic mean of the greedy choices |
| SoftMatch.MatchedIsMaximalMatching | scripts/analyze_pros_gold.py:74-81 | what it takes is one-to-one, eligible, and cannot be extended |
| SoftMatch.AtMostTwice | scripts/analyze_pros_gold.py:74-81 | no matching of eligible pairs is more than twice as large |
| SoftMatch.SoftScoreIs | scripts/analyze_pros_gold.py:82-85 | the score is 2 tp / (items), in [0, 1] |
| SoftMatch.ScoreFallsWithThreshold | scripts/analyze_pros_gold.py:76-85 | a higher threshold takes a prefix of the choices, so the score never rises with it |
| SoftMatch.PermutedGoldScoresOne | scripts/analyze_pros_gold.py:56-85 | a permuted gold with nonempty token sets scores 1 at every threshold up to 1 |
| Subsample.Group | engine/data.py:101-103 | the dict maps each label that occurs to its rows in order |
| Subsample.StratifiedSubsample | engine/data.py:98-113 | exactly min(n, rows) items, none for n <= 0, taken in whole turns of the labels but for a last partial round |
| Subsample.SampleHoldsPrefixes | engine/data.py:106-112 | each label's items are a prefix of its shuffled list |
| Subsample.SampleIsFair | engine/data.py:106-112 | no label is ahead of one that still has items by more than one |
| Subsample.SampleFromRows | engine/data.py:98-113 | nothing is sampled more often than it occurs |
| Subsample.EveryLabelCovered | engine/data.py:98-113 | a sample at least as large as the number of labels covers every label |

## Left out

- Floating point: rounding, NaN and infinities; a class without training rows (`mean` of nothing is NaN there) is
  outside `Mahalanobis.Fitted`.
- ExecuteScan.ScanExecutes: only the EXECUTE half of `scan_sql`; the regular expression for role statements is not
  modelled.
- TwinControl.EveryArmCalledOnce: a crash after a model call has returned and before its save loses that call; the
  model's runs crash between calls, so the theorem is about stored calls.
- GuardCache.HistoryLoads: the file is split at newline bytes; the other line separators of `str.splitlines` do not
  occur in what `json.dumps` writes, and a file with invalid UTF-8 is not modelled.
- Manski.UnscoredBlock: the bootstrap interval of each score is left out; fields are distinct and every pair has a
  stored score.
- Manski.AdjudicatedBlock: the bootstrap intervals are left out; `silver` gives the score against the silver value
  directly, as `score_fixture` would.
- JudgeSensitivity.JudgeSensitivity: the bootstrap intervals are left out; the votes give the score against each vote
  directly, every kept review has its fixture, and the sorted list of judges is given.
- Scoring.ScoreFixture: lower-casing, stripping, tokenising and the free-text normalisers are parameters, and the four
  loops over the notes are one loop over their concatenation.
- SoftMatch.SoftF1: works on token sets; the tokeniser and the optional canonicaliser are not part of this model.
- Subsample.StratifiedSubsample: the shuffled lists are given; any order of the labels and of each list is allowed.
- Newcombe.StatsExchanged: the totals, rates and Wilson intervals of `paired_stats` are functions of its four counts
  and are not repeated in the result.
- Prompts, attack texts, prices, reports, the decision rule, Fisher's test and the sample-size search, bootstrap
  intervals, network and model calls, training and export, temperature scaling, softmax and energy scores.
- `canonical_topic` and `canonical_product`: pattern substitutions; only equality of their results is used.
