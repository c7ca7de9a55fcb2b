# Verified models of the Telegram request monitor

These Dafny modules model the parts of the monitor that hold state or transform text, and
prove what they promise for every input, every run or every interleaving.

| modules | what they model |
|---|---|
| `WorkQueue`, `ProcessingQueue` | the durable event queue: a transition system of workers, acks, recoverers with stale reads, dead letters and purges, and the object whose methods take those steps |
| `AlertDedup`, `AlertDeduplicator` | the memory cache in front of the claims table, with takeover, steal, release and cleanup |
| `RateLimiter`, `Windows` | the token bucket with minute, hour and per-account windows |
| `ReplyQuota`, `ReplyOverrun` | the hourly and daily reply limits, with bounded deques, bounded users and a snapshot over a restart, and when a forgotten user exceeds the hourly one |
| `ActivityLog` | the anti-spam log of one user and the window tests on it |
| `SimilarityGate`, `SimilarityRetries` | the gate against rewordings by the same sender, and what its blocked tries leave behind: nothing |
| `AlertBuffer` | the in-memory alert batch and its flushes |
| `LatencyMetrics` | running sums, the anomaly test and percentiles |
| `TrieSearch` | the multi-pattern search at word boundaries |
| `DecisionTail`, `DecisionScores` | scoring, caps and clause rescoring, and what each finding does to the confidence |
| `Clauses`, `ClauseMarks`, `TokenCuts`, `ClauseCuts`, `ClauseSplit`, `ClauseLists` | hiding and restoring phrases, the three passes that mark separators, where exactly they cut, and which clauses are kept |
| `Fingerprint` | the text that identifies a message |
| `ChatLinks`, `LinkNames` | usernames, t.me URLs, links built and upgraded, what they name and which are best |
| `Text`, `Options`, `Sequences`, `Sets` | Python's `strip`, missing values, what a bounded deque keeps, and counting in sets |

Objects that the program updates in place are classes. Each method's new state is tied to a
function of the old one; the theorems are about those functions and about `Reachable`, the
states that lie in every set closed under the steps. A class's `Valid()` says that its state
is one of these, so every theorem about reachable states holds of every object. Ghost fields
hold the full history that the bounded fields stand for.

Times and weights are exact numbers, times never run backwards, and one operation of the
program is one step.

## What came out differently from what the program says

* A row is handed out at most floor(M/2) + 1 times, because a claim and a recovery each count
  one attempt: for the default M = 3 twice, not three times. The bound is reached for every M.
* A worker that puts an event back while no monitor is connected stores the old `_queue_id`
  with it. Whoever gets the new row, in whatever later state, acks the old one, so the new row
  is never acked (`WorkQueue.ReenqueuedClaimIsNeverAcked`, `WorkQueue.NeverAcksItself`).
* The alert buffer stays within its configured size exactly when this is positive. The queue
  stays within its configured or its initial size, whichever is larger, exactly when the
  configured size is positive or the queue did not start empty (`WorkQueue.CapacityIff`).
* A refusal by the claims table refreshes its row, a refusal by memory does not, so a restart
  can change a later verdict (`AlertDedup.RestartsChangeTheOutcome`). It changes none exactly
  when the process had no unexpired entry in memory (`AlertDedup.RestartInvisibleIff`).
* Restoring the hidden phrases gives back a text without NUL exactly when no digit of it stands
  between two placeholders, the first with a higher number than the digit and the second with
  at least the digit (`Clauses.RoundTrip`); `Clauses.DigitsAreMisread` is a text that is not
  given back.
* The header of clauses.py (line 19) says that the longest clauses are kept; the code keeps the
  first ones. Whatever the limit there is a text whose longest clause is dropped
  (`ClauseLists.LongestIsDropped`); none is dropped exactly when the distinct qualifying ones
  are no more than the limit (`ClauseSplit.NothingDroppedIff`).
* The header of dedup.py (line 64) says that two spellings are the same after normalization;
  they are not (`Fingerprint.HeaderExampleIsNotMerged`). Two texts are the same exactly when
  `Fingerprint.MergedIff` says.
* A user forgotten for lack of room starts the hour again (`ReplyQuota.ForgottenStartsAgain`),
  and that is the only way within the hour (`ReplyQuota.HourReopensIff`): a reply to an
  untracked user when the tables are full forgets the user tracked longest. So the hourly limit
  is exceeded by a run in which one user replies `hourly` times, the tables fill up, a newcomer
  is answered and the first user comes back (`ReplyOverrun.Overrun`). No shorter run exceeds it
  (`ReplyOverrun.ExceedsTakesMany`), and within one day some run does exactly when the program
  is switched on and the daily cap is above `hourly` plus the number of users tracked
  (`ReplyOverrun.OverrunIff`).
* Final confidence exceeds 1 for short messages when the review threshold is above 0.95, which
  the configuration allows (`DecisionTail.ConfidenceInUnitIff`, `DecisionTail.ConfidenceAboveOne`).
* Alerts put back after a failed flush stand behind newer ones, so what makes room for a new
  alert is not always the oldest (`AlertBuffer.FailureReorders`). It is as long as every failed
  flush finds the buffer empty, or no room, or only alerts that arrived before its own
  (`AlertBuffer.OldestFirstIff`, `AlertBuffer.EvictsTheOldest`). A failed flush itself drops the
  newest of its alerts when only some fit. The buffer stays in order and every drop, by an
  addition or by a failed flush, takes the oldest exactly when each failed flush either puts all
  its alerts back in order or has no room and only alerts older than those waiting
  (`AlertBuffer.OldestGoIff`); where flushes do not overlap, exactly when each finds the buffer
  empty or no room (`AlertBuffer.OneFlushIff`). With overlapping flushes that is not enough
  (`AlertBuffer.OverlapDropsTheNewest`).
* Supergroups and channels whose number is 10^10 or more get no private link
  (`ChatLinks.SupergroupInner`).
* Basic groups' ids are taken for supergroups' exactly when they write 100 and one to nine more
  digits, -1000 excepted (`ChatLinks.BasicGroupMistakenIff`).
* White space around a valid username reaches a built link and passes the check
  (`ChatLinks.SpacesReachTheLink`). `_resolve_chat_links` strips once before it drops the at
  signs, so there only space right behind them gets through (`ChatLinks.SpacesReachTheRecord`,
  `ChatLinks.SpacedName`). For message ids that are not positive a known username can make a
  chat's links worse, exactly as `ChatLinks.RankRisesIff` says.
* A window test for more messages than the activity log holds never succeeds, and one for more
  than half an hour looks at half an hour only (`ActivityLog.LogAnswers`).

## Model

| member | source | states |
|---|---|---|
| `WorkQueue.AckReachesOwnRow` | database.py:1185-1200 | the number a worker acks is that of the row it popped exactly when the stored object carries no `_queue_id` or one that `int()` makes that number |
| `WorkQueue.StepKeepsInv` | database.py:1202-1357 | every step of add, pop, ack, read, recover, dead-letter and purge keeps: in flight iff odd attempts; ids live or departed, not both; no read ahead of its row |
| `WorkQueue.EveryRunIsConsistent` | database.py:1202-1242 | in every interleaving a live row is in flight exactly when its attempts are odd, and every id inserted is either live or has departed |
| `WorkQueue.DepartureIsFinal` | database.py:1244-1276 | a row that left never comes back, and how it left and what it held never change |
| `WorkQueue.DeadLetterHoldsCurrentRow` | database.py:578-614 | a dead letter written from an old read holds the row's present payload and attempts, and the row is gone with it |
| `WorkQueue.OneLetterEach` | database.py:578-614 | along every run the dead letters and the rows that left as dead letters stand one for one, each letter with its row's last payload and attempts |
| `WorkQueue.VersionNeverFalls` | database.py:1306-1344 | along a run a live row's attempts never fall, and while they stay the row stays the same in every field |
| `WorkQueue.NoAba` | database.py:1306-1344 | a recoverer that wins on an old read finds the row untouched at every point since the read |
| `WorkQueue.OneWinnerPerVersion` | database.py:1306-1344 | after one recoverer won on a version of a row, no read of that version matches again |
| `WorkQueue.HandOutsAreHalfTheAttempts` | database.py:1202-1242 | the number of hand-outs of a row is half its attempts, rounded up, also after it left |
| `WorkQueue.HandOutBound` | database.py:1288-1357 | with limit M no run hands one row out more than floor(M/2) + 1 times |
| `WorkQueue.LastHandOut` | database.py:1288-1357 | after that many hand-outs no pop takes the row and recovery can only dead-letter it |
| `WorkQueue.HandOutBoundIsTight` | database.py:1288-1357 | for every limit there is a run with exactly that many hand-outs |
| `WorkQueue.CapacityIff` | database.py:1070-1107 | no run takes the table above its configured or initial size, exactly when the size is positive or the table did not start empty |
| `WorkQueue.ReenqueuedClaimIsNeverAcked` | main.py:364-384 | an event put back with its old `_queue_id`, then acked, leaves a new row that carries the departed old id |
| `WorkQueue.NeverAcksItself` | database.py:1185-1200 | in every later state such a row, however often claimed and recovered, makes its worker ack the old id, which removes nothing |
| `ProcessingQueue.PassSweeps` | database.py:1306-1344 | a recovery pass moves exactly the listed rows that still match and skips none |
| `ProcessingQueue.RecoveryMovesExactlyTheStale` | database.py:1288-1357 | an undisturbed pass requeues the stale rows below the limit, dead-letters those at it, and leaves all others alone |
| `ProcessingQueue.EventQueue.Connect` | database.py:415-427 | a new process over an existing table goes on from its state, its mirror counted or marked unreliable |
| `ProcessingQueue.EventQueue.AddToQueue` | database.py:1065-1139 | at capacity a least row by priority and age goes first, then the event is inserted; then the mirror is the row count |
| `ProcessingQueue.EventQueue.Reconcile` | database.py:1072-1080 | counting afresh makes the mirror the row count |
| `ProcessingQueue.EventQueue.MakeRoom` | database.py:1082-1094 | one least row leaves, and the mirror with it, if there is any; the eviction counter rises either way |
| `ProcessingQueue.EventQueue.PopFromQueue` | database.py:1186-1242 | the first pending row by priority, then age, is claimed with one more attempt, or nothing happens; of an object every stored field is handed out as it is, and the row's id where it holds none; of an unparsable text the id alone, of other JSON nothing |
| `ProcessingQueue.EventQueue.AckQueueEvent` | database.py:1244-1276 | the row with the number `int()` gives is deleted whatever its status; true exactly when there was one, and nothing happens without a number |
| `ProcessingQueue.EventQueue.SweepRow` | database.py:1306-1344 | a row is recovered or dead-lettered only while status and attempts are as read |
| `ProcessingQueue.EventQueue.RecoverStaleInflight` | database.py:1288-1357 | the pass and its counts, over the rows read |
| `ProcessingQueue.EventQueue.PurgeQueue` | database.py:1380-1395 | every row leaves |
| `ProcessingQueue.EventQueue.PurgeStaleQueueRows` | database.py:1397-1430 | exactly the rows older than the age, at least a minute, leave |
| `ProcessingQueue.EventQueue.QueueSize` | database.py:1278-1286 | the size reported is the row count |
| `AlertDedup.ShrinkKeepsNewest` | dedup.py:213-218 | eviction keeps exactly the most recently claimed entries |
| `AlertDedup.CheckIsTheTablesVerdict` | dedup.py:224-260 | the verdict is the one the table alone would give: memory refuses only what the table refuses |
| `AlertDedup.CheckKeepsAgreement` | dedup.py:224-260 | after a check every unexpired memory entry has a table row at least as recent |
| `AlertDedup.ReleaseKeepsAgreement` | dedup.py:262-270 | the same after a release |
| `AlertDedup.StealKeepsAgreement` | dedup.py:272-318 | the same after a steal, won or denied |
| `AlertDedup.CleanupKeepsAgreement` | dedup.py:320-331 | the same after rows were cleaned up under the cache |
| `AlertDedup.WinsAreSpaced` | dedup.py:224-318 | two wins on one fingerprint, by any processes, are more than the window apart, or more than the smaller of window and steal age when steals are allowed |
| `AlertDedup.SpacedIffGuarding` | dedup.py:191-199 | wins are so spaced in every run exactly when the guard is on |
| `AlertDedup.RestartInvisibleIff` | dedup.py:224-331 | all continuations in clock order have the same verdicts with and without a restart exactly when the process holds no unexpired entry |
| `AlertDedup.RunIsSane` | dedup.py:202-260 | what that asks of a state holds along every run |
| `AlertDedup.RestartsChangeTheOutcome` | dedup.py:224-260 | the same three calls end differently with and without a restart between |
| `AlertDeduplicator.AlertTable.ClaimFingerprint` | database.py:2631-2704 | a claim wins on a free or expired row; either way the row is refreshed as the table prescribes |
| `AlertDeduplicator.AlertTable.StealStale` | database.py:2715-2739 | a steal wins exactly on a row old enough, which it renews |
| `AlertDeduplicator.AlertTable.ReleaseFingerprint` | database.py:2706-2713 | the row is gone, no other is touched |
| `AlertDeduplicator.AlertTable.CleanupFingerprints` | database.py:2741-2754 | exactly the rows past the age go, and are counted |
| `AlertDeduplicator.Deduplicator.MemHas` | dedup.py:202-211 | a hit exactly within the window; an expired entry is dropped |
| `AlertDeduplicator.Deduplicator.MemClaim` | dedup.py:213-218 | the entry is newest, and the oldest go beyond the bound |
| `AlertDeduplicator.Deduplicator.CheckAndClaim` | dedup.py:224-260 | first exactly when the guard is off, or the table takes the claim, or, without a table or on its error, memory does not know it; layers, table and counters after it |
| `AlertDeduplicator.Deduplicator.Release` | dedup.py:262-270 | both layers forget the fingerprint, the table unless it fails |
| `AlertDeduplicator.Deduplicator.StealIfStale` | dedup.py:272-318 | memory is released exactly when the steal is granted: by the table, or because there is none; an error of the table denies it |
| `AlertDeduplicator.Deduplicator.CleanupExpired` | dedup.py:320-331 | the table rows past the window go and are counted, unless the window is zero, there is no table or it fails |
| `RateLimiter.EveryRunIsLawful` | main.py:108-156 | every sequence of calls keeps all four limits on the full history of grants |
| `RateLimiter.WindowLimits` | main.py:108-144 | no closed minute or hour holds more grants than its limit |
| `RateLimiter.BurstLimit` | main.py:114-117 | an interval holds at most the burst plus its length times the refill rate |
| `RateLimiter.AccountWithinItsLimit` | main.py:130-144 | an account's grants in a closed minute are at most the limit in force at the last of them |
| `RateLimiter.DecisionIsTheHistorys` | main.py:119-144 | a call is granted exactly when the full history of grants admits it |
| `RateLimiter.EveryRunIsLeveled` | main.py:114-144 | after every sequence of calls the bucket holds what the grants alone make of it: full at first, one token less for each, and refilled by the per-minute limit up to the burst |
| `RateLimiter.ShareOfAccounts` | main.py:130-134 | an account's limit is the largest number that the per-minute limit covers for all accounts, but at least one |
| `RateLimiter.MoreAccountsLessShare` | main.py:130-134 | with more accounts no account's limit grows |
| `RateLimiter.StatusCounts` | main.py:146-156 | the counts reported are the grants of the last minute and hour |
| `RateLimiter.AdaptiveRateLimiter.CanProceed` | main.py:119-144 | the decision and the whole state after it |
| `RateLimiter.AdaptiveRateLimiter.PruneWindows` | main.py:108-112 | only times before the windows are dropped |
| `RateLimiter.AdaptiveRateLimiter.RefillTokens` | main.py:114-117 | the bucket's level after a refill, never above the burst |
| `RateLimiter.AdaptiveRateLimiter.PruneAccount` | main.py:130-136 | the account's window, created on first use |
| `RateLimiter.AdaptiveRateLimiter.Status` | main.py:146-156 | the counts, and the pruned windows |
| `ReplyQuota.HourlyLimit` | reply_fix.py:151-191 | over any run with restarts a user never forgotten has at most `hourly` attempts in any half-open hour |
| `ReplyQuota.NobodyForgotten` | reply_fix.py:174-182 | no user is forgotten while there are no more users than can be tracked |
| `ReplyQuota.DailyCapIff` | reply_fix.py:145-167 | over any run with restarts, for day keys that do not repeat, the counter under the day's key is the day's attempts, and a program that is on answers "daily cap" exactly when the day has had `cap` of them |
| `ReplyQuota.AllowedIff` | reply_fix.py:145-167 | the whole answer on the history: allowed exactly when the day has fewer than `cap` attempts and the user's last hour fewer than `hourly` |
| `ReplyQuota.DailyLimit` | reply_fix.py:145-191 | over any run with restarts no day has more than `cap` attempts, and the counter stays within it |
| `ReplyQuota.VerdictIsTheHistorys` | reply_fix.py:151-167 | the bounded deque gives the hourly verdict of the whole history |
| `ReplyQuota.RestoreOnlyAdds` | reply_fix.py:215-255 | whatever is read back, nobody is forgotten, no time older than an hour comes in, and the day's count takes the higher value of the same day |
| `ReplyQuota.RestartKeeps` | reply_fix.py:196-255 | a snapshot taken after the last attempt and read back by a later process keeps the invariant behind all limits |
| `ReplyQuota.ForgetsIff` | reply_fix.py:169-191 | a reply forgets a tracked user exactly when it is an allowed one to an untracked user with the tables full, and this user was tracked longest |
| `ReplyQuota.HourReopensIff` | reply_fix.py:151-191 | within the hour a user who used it up is judged anew exactly then |
| `ReplyQuota.ForgottenStartsAgain` | reply_fix.py:174-182 | and is then allowed at once if the day has room, with the hour used up in the whole history |
| `ReplyOverrun.Overrun` | reply_fix.py:151-191 | a reachable state with the tables full and one user's hour used up, from which a newcomer's reply lets that user exceed the hour |
| `ReplyOverrun.ExceedsTakesMany` | reply_fix.py:151-191 | nobody exceeds the hour before `hourly` plus the users tracked plus one attempts were made in all |
| `ReplyOverrun.OverrunIff` | reply_fix.py:145-191 | within one day some run exceeds the hour exactly when the program is on and the cap is above `hourly` plus the users tracked |
| `ReplyQuota.ReplyFixer.Allowed` | reply_fix.py:151-167 | the verdict and the only effect, the day's rollover |
| `ReplyQuota.ReplyFixer.RecordAttempt` | reply_fix.py:169-191 | the reservation, for any caller; after a positive verdict the object stays within its limits |
| `ReplyQuota.ReplyFixer.Reserve` | reply_fix.py:169-191 | deque, users, day and counter after it |
| `ReplyQuota.ReplyFixer.Reply` | reply_fix.py:314-328 | asking and reserving as one decision |
| `ReplyQuota.ReplyFixer.RolloverDay` | reply_fix.py:145-149 | under another day's key the counter starts at 0, under the day's own it stays |
| `ReplyQuota.ReplyFixer.SnapshotState` | reply_fix.py:196-213 | the fresh times by wall clock, for each user, and the day's count |
| `ReplyQuota.ReplyFixer.RestoreState` | reply_fix.py:215-261 | whatever is read back, within the bounds on users and times |
| `ReplyQuota.Restart` | reply_fix.py:196-261 | a snapshot read into a new object makes an object to which all limits apply, the old attempts included |
| `ReplyQuota.ReplyFixer.DisableForBroadcast` | reply_fix.py:263-272 | nothing is allowed from then on, and nothing else changes |
| `LatencyMetrics.VarianceIsMeanDeviation` | metrics.py:105-109 | E[x^2] - E[x]^2 is the mean squared deviation from the mean |
| `LatencyMetrics.VarianceNotNegative` | metrics.py:107-110 | so it is never negative and the clamp has nothing to do |
| `LatencyMetrics.JudgedRight` | metrics.py:105-113 | the one-pass verdict, mean, deviation and z-score are those of the two-pass method |
| `LatencyMetrics.BoundedMetrics.Record` | metrics.py:88-142 | the report is the two-pass one on the newest samples, through eviction and resync |
| `LatencyMetrics.BoundedMetrics.Push` | metrics.py:119-133 | window and sums stay those of the newest samples |
| `LatencyMetrics.NearestRank` | metrics.py:154-156 | a percentile is a sample with at least p per cent of the samples at or below it, and none smaller has that |
| `LatencyMetrics.PercentilesInOrder` | metrics.py:154-164 | a higher percentile is never smaller |
| `LatencyMetrics.BoundedMetrics.TakeSnapshot` | metrics.py:144-164 | the percentiles, in order, mean and count of the newest samples |
| `TrieSearch.BoundaryIsShallow` | filter_engine.py:140-159 | a word boundary never has more than three Arabic letters before it, so the skipped starts are none |
| `TrieSearch.PrunedIsNaive` | filter_engine.py:438-454 | the pruned scan filtered by word boundary is the naive list |
| `TrieSearch.NaiveIsComplete` | filter_engine.py:996-1002 | that list holds exactly the occurrences of listed words up to 60 letters at word boundaries before 1000, by start, then length |
| `TrieSearch.ValidWordBoundary` | filter_engine.py:140-147 | true exactly when nothing or a clitic stands before the start |
| `TrieSearch.RunOfArabicBefore` | filter_engine.py:150-159 | the number of Arabic letters before the start, exact up to three |
| `TrieSearch.WeightedTrie.constructor` | filter_engine.py:402-421 | the trie holds exactly the nonempty words, each with its weight |
| `TrieSearch.WeightedTrie.Enter` | filter_engine.py:409-421 | one more word, all others kept |
| `TrieSearch.WeightedTrie.SearchAt` | filter_engine.py:446-453 | walking down from one start finds exactly the listed words there up to the depth, shortest first |
| `TrieSearch.WeightedTrie.SearchAll` | filter_engine.py:438-454 | the hits of all starts that are not skipped |
| `TrieSearch.SearchAllValid` | filter_engine.py:996-1002 | the naive list |
| `TrieSearch.SearchFirstValid` | filter_engine.py:1004-1009 | its first entry, if any |
| `TrieSearch.SearchBest` | filter_engine.py:1012-1028 | nothing exactly when the naive list is empty; else one of its hits with its word's weight: none is heavier, none as heavy starts earlier, and no listed one before it is as good, though repeated words are skipped |
| `DecisionTail.MeanNeedsNoClamp` | filter_engine.py:1778-1794 | with scores in [0, 1] and weights not negative the weighted mean lies in [0, 1] |
| `DecisionTail.AcceptedIff` | filter_engine.py:1874-1927 | exactly when a message is accepted, through all caps and the rescoring |
| `DecisionTail.AcceptedIsSafe` | filter_engine.py:1874-1927 | an accepted message reaches the accept threshold and has no blocking reason |
| `DecisionTail.ConfidenceInUnitIff` | filter_engine.py:1881-1891 | final confidence lies in [0, 1] except in one case, named exactly |
| `DecisionTail.ConfidenceAboveOne` | filter_engine.py:1881-1891 | a valid configuration and a message with confidence 1.02 |
| `DecisionTail.ReasonsBlockIffFlagged` | filter_engine.py:1809-1832 | a blocking reason is listed exactly when a detector that counts gave one |
| `DecisionTail.ClauseRescore` | filter_engine.py:1948-2072 | of the clauses that stand on their own the first with the highest confidence, or none |
| `DecisionScores.DecisionByThreshold` | filter_engine.py:1874-1891 | before the caps the thresholds decide; a short request without an object is looked at in any case |
| `DecisionScores.AdNeverHelps` | filter_engine.py:1838-1855 | of two messages that differ in the advertisement score alone the higher one is never decided better, and loses confidence wherever there is any beyond a template's share |
| `DecisionScores.AdvertIsRefused` | filter_engine.py:1838-1927 | with an advertisement score of 10/11 or more a message is never accepted on its own score |
| `DecisionScores.NegationNeverHelps` | filter_engine.py:1838-1855 | the same of the negation score of a negated message |
| `DecisionScores.StrongerIntent` | filter_engine.py:1727-1855 | a stronger intent never lowers confidence or decision |
| `DecisionScores.StrongerObject` | filter_engine.py:1727-1855 | nor does a stronger object, which also relieves a short message |
| `DecisionScores.EachMeetsItsWeight` | filter_engine.py:1778-1794 | each score moves the mean by its own weight's share and by nothing else |
| `DecisionScores.CleanConfidence` | filter_engine.py:1727-1802 | the confidence of a clean message in figures: points, weighted mean, or the middle of both |
| `DecisionScores.ConfidenceScales` | filter_engine.py:1833-1858 | what length, negation and advertisement leave of it: each its own share |
| `DecisionScores.BoostAdds` | filter_engine.py:1845-1858 | a template adds 0.25 or 0.1, and nothing to what looks like an advertisement |
| `DecisionScores.ClauseInFigures` | filter_engine.py:1948-2072 | a clause's confidence in figures |
| `DecisionScores.RescueIsBest` | filter_engine.py:1948-2072 | the rescue has the highest confidence of the clauses that stand, and names the first with it |
| `DecisionScores.ReasonsAreFindings` | filter_engine.py:1809-1832 | every finding is listed as a reason, and nothing else |
| `DecisionScores.ReasonsAreCounted` | filter_engine.py:1809-1832 | and once |
| `DecisionScores.ReasonsStay` | filter_engine.py:1809-1927 | every reason found at first is still given at the end |
| `DecisionScores.StandsIff` | filter_engine.py:1948-2072 | a clause rescues unless something speaks against it: too short, ignored, no intent, a negation or an advertisement above one half, an expert's word alone, two words without an object, too little confidence |
| `DecisionTail.FilterResult.Score` | filter_engine.py:1766-1891 | confidence and decision before the caps |
| `DecisionTail.FilterResult.Cap` | filter_engine.py:1892-1904 | the two caps |
| `DecisionTail.FilterResult.Raise` | filter_engine.py:1906-1925 | the upgrade by a clause and its ceiling |
| `DecisionTail.FilterResult.Decide` | filter_engine.py:1727-1927 | the whole tail; valid exactly when accepted |
| `Clauses.RoundTrip` | clauses.py:71-89 | for every text without NUL, restoring gives back the text exactly when no digit is misread |
| `Clauses.PlainRoundTrip` | clauses.py:71-89 | so always for texts without digits, however the phrases overlap |
| `Clauses.DigitsAreMisread` | clauses.py:71-89 | a text with a digit that is not given back |
| `Clauses.RestoreGivesMeaning` | clauses.py:86-89 | for any protected text and set of keys: the meaning, or a NUL is left |
| `ClauseCuts.MarkedTiles` | clauses.py:36-118 | the parts and the separators between them are the whole protected text; a listed word is cut out only where it has white space or an end of the text on both sides, and wherever it has, it is cut out or overlaps one that is |
| `ClauseSplit.PiecesTile` | clauses.py:110-121 | so are the restored pieces and the separators for the text itself, a listed word among them stands apart in it, and the pieces hold no punctuation |
| `ClauseSplit.ClausesAreStretches` | clauses.py:92-126 | the clauses are stretches of the text in its order that do not overlap |
| `ClauseSplit.Protect` | clauses.py:71-83 | the protected text and the phrases found |
| `ClauseSplit.Restore` | clauses.py:86-89 | the phrases put back in the order they were hidden |
| `ClauseSplit.SplitClauses` | clauses.py:92-126 | the clauses are distinct, long enough and not too many; a qualifying piece is missing only after the last one allowed |
| `ClauseSplit.NothingDroppedIff` | clauses.py:119-126 | no qualifying clause is dropped exactly when the distinct ones are no more than the limit |
| `ClauseLists.CommasAreCandidates` | clauses.py:110-121 | a text of plain words between commas is cut into these words |
| `ClauseLists.LongestIsDropped` | clauses.py:119-126 | whatever the limit and least length, there is a text whose longest qualifying clause is dropped for shorter ones |
| `Fingerprint.Idempotent` | dedup.py:107-117 | normalizing twice is normalizing once |
| `Fingerprint.CollapseShrinksRuns` | dedup.py:97-100 | a run of one, two, three or more of an Arabic letter becomes one, two, one; other runs stay |
| `Fingerprint.NormalizeIsWordwise` | dedup.py:107-117 | the result is the words of the mapped text, each collapsed, joined by single spaces |
| `Fingerprint.MergedIff` | dedup.py:107-117 | two texts normalize alike exactly when the words of their mapped forms have the same letters with the same repeats, three or more counting as one |
| `Fingerprint.MappedIff` | dedup.py:92-114 | the letter maps make two letters equal exactly when they are forms of one alef, heh, yeh or waw, or one digit in two scripts |
| `Fingerprint.VariantsMerge` | dedup.py:107-117 | a text normalizes alike in either spelling of a letter |
| `Fingerprint.MarksVanish` | dedup.py:107-117 | and with or without a vowel mark or a stretched letter |
| `Fingerprint.OneRunDiffers` | dedup.py:97-100 | words that differ in one run are the same exactly for equal lengths, or for an Arabic letter once and three times or more: never once and twice |
| `Fingerprint.HeaderExampleIsNotMerged` | dedup.py:59-65 | the two spellings the header calls the same normalize differently |
| `ChatLinks.BuiltLinksAreValid` | nav_resolver.py:233-250 | every link built is accepted by the check, a message link exactly for positive ids; and when there is none |
| `LinkNames.MessageIsNamed` | nav_resolver.py:233-250 | a message link is the chat's link and the message's number, which can be read back from it |
| `LinkNames.ChatIsNamed` | nav_resolver.py:153-250 | the link of a chat without a username holds the digits of its id behind "-100", so the id can be read back too |
| `LinkNames.OneMessageEach` | nav_resolver.py:153-250 | no two messages of chats without a username share a link |
| `LinkNames.ValidIff` | nav_resolver.py:134-150 | a name is valid exactly when white space, at signs, five to 32 word characters with a letter first, and white space make it up; these characters are what is left of it |
| `LinkNames.AcceptedIff` | nav_resolver.py:166-188 | exactly which public and private links of one chat or one message the check accepts |
| `LinkNames.UpgradeIff` | nav_resolver.py:797-834 | the export reports an upgrade exactly when the record changes |
| `LinkNames.LinksAreOffered` | nav_resolver.py:561-642 | without a username every link is the one that was there, the private one or the exported one |
| `LinkNames.ResolvedIsBest` | nav_resolver.py:561-642 | a public link where a username is known, the entity's before the event's; else exactly the best on offer, and no link changes that cannot be bettered |
| `ChatLinks.RankRisesIff` | nav_resolver.py:561-642 | resolving never lowers a link's rank for positive message ids, and exactly when it does otherwise |
| `ChatLinks.GateKeepsRanks` | nav_resolver.py:839-877 | the last gate leaves only accepted links and costs no good one |
| `ChatLinks.SpacesReachTheLink` | nav_resolver.py:144-188 | the link is the bare name's exactly when no white space surrounds the username |
| `ChatLinks.SpacesReachTheRecord` | nav_resolver.py:561-642 | for a name taken from the chat, exactly when no white space stands right behind the at signs |
| `ChatLinks.SpacedName` | nav_resolver.py:561-642 | such a name: its link has a space, the check accepts it, and a good message link is lost |
| `ChatLinks.DroppedIsValid` | nav_resolver.py:134-150 | a valid username without its at signs is valid and holds no slash |
| `ChatLinks.SupergroupInner` | nav_resolver.py:153-163 | of the supergroup ids exactly those with a number below 10^10 give a link, a ten-digit number as it is |
| `ChatLinks.InnerOf` | nav_resolver.py:153-163 | the digits behind "-100" of any id, or none for a single zero |
| `ChatLinks.InnerIff` | nav_resolver.py:153-163 | an id gives any exactly when it is negative and writes 100 and at least one more digit, -1000 excepted |
| `ChatLinks.BasicGroupMistakenIff` | nav_resolver.py:153-163 | of the ids above -10^12 exactly those of nine ranges are taken for supergroups' |
| `ChatLinks.BasicGroupMistaken` | nav_resolver.py:153-163 | one of them: group 100500 gets the link of supergroup 500 |
| `ChatLinks.ChatRecord.ApplyExported` | nav_resolver.py:797-834 | an exported link is taken where it is better, and whether any was |
| `ChatLinks.ChatRecord.ResolveChatLinks` | nav_resolver.py:561-642 | the record after the four strategies |
| `ChatLinks.ChatRecord.VerifyNavigation` | nav_resolver.py:839-877 | links the check refuses become "#" |
| `ActivityLog.TrimIsWanted` | antispam.py:142-147 | trimming what is left after earlier trims is trimming the whole history |
| `ActivityLog.WantedIsLongest` | antispam.py:142-147 | the log is the longest suffix of the history allowed by length and age |
| `ActivityLog.SameAnswer` | antispam.py:463-464 | "at least k in w seconds" is answered as on the full history, and the records in the window are the same exactly when they fit |
| `ActivityLog.LogAnswers` | antispam.py:463-464 | any window test is answered as on the last half hour of the full history, and fails when it asks for more than the log holds |
| `ActivityLog.Activity.Trim` | antispam.py:142-147 | the two loops |
| `ActivityLog.Activity.Observe` | antispam.py:410-417 | one more message; the log is again the longest allowed suffix |
| `ActivityLog.Activity.AtLeast` | antispam.py:463-464 | any window test, with that answer |
| `SimilarityGate.BlockIsWitnessed` | similarity.py:243-288 | every block has an earlier text of the sender that got through within the window, is similar enough and differs in more than digits |
| `SimilarityGate.BlocksIffWitnessed` | similarity.py:243-288 | and exactly so, for a sender not forgotten with no more different texts through in the window than are kept |
| `SimilarityGate.MaskedIff` | similarity.py:241-257 | two texts are alike once digits are masked exactly when they differ in digits alone |
| `SimilarityGate.BlocksIff` | similarity.py:222-270 | a text is blocked exactly when the gate looks at it and a remembered one within the window is similar enough and differs in more than digits |
| `SimilarityGate.ReportIsClosest` | similarity.py:247-272 | the report of a block names the most similar of the texts that hold it back, with its score, age and start |
| `SimilarityGate.RememberedInFull` | similarity.py:282-289 | after a text got through it is remembered last, with the newest others as they were |
| `SimilarityGate.ForgetsTheFirst` | similarity.py:187-190 | a sender is forgotten only for a new one with the table full, and then it is the one remembered longest |
| `SimilarityGate.BlockingEnds` | similarity.py:274-288 | a window after the sender's last text that got through, anything gets through |
| `SimilarityRetries.RetriesDoNotProlong` | similarity.py:204-291 | a blocked try changes no later verdict of any sender, however the run goes on |
| `SimilarityRetries.OnlyPassesMatter` | similarity.py:204-291 | a run without its blocked tries gives the same verdict on any next text and lets the same texts through |
| `SimilarityGate.CollectingIsHarmless` | similarity.py:192-201 | collecting old entries first changes no verdict |
| `SimilarityGate.MemoryIsBounded` | similarity.py:187-190 | senders and entries stay within their bounds |
| `SimilarityGate.Gate.CollectSender` | similarity.py:192-201 | exactly the old entries go, and a sender with none left |
| `SimilarityGate.Gate.FindHit` | similarity.py:247-272 | a hit exactly when an entry resembles the text, and it is the first of the closest |
| `SimilarityGate.Gate.Record` | similarity.py:282-289 | the text is the newest of at most `keep` entries |
| `SimilarityGate.Gate.CheckAndRecord` | similarity.py:204-291 | the verdict on the state before, and the whole state after |
| `AlertBuffer.EveryRunConserves` | database.py:4008-4123 | in every interleaving of adding and flushing, accepted = waiting + in flushes + written + dropped, as multisets |
| `AlertBuffer.CapHoldsIff` | database.py:2875-2883 | the buffer stays within its cap in every run exactly when the cap is positive |
| `AlertBuffer.DropsOnlyOverCap` | database.py:4110-4121 | alerts are dropped only when waiting, in flushes and new together exceed the cap |
| `AlertBuffer.PutBackOrderedIff` | database.py:4110-4121 | a failed flush keeps the buffer oldest first exactly when the buffer is empty, nothing fits, or the last one waiting came before the first one put back |
| `AlertBuffer.OldestFirstIff` | database.py:4008-4123 | a run is oldest first throughout exactly when every failed flush is of that kind |
| `AlertBuffer.EvictsTheOldest` | database.py:2871-2901 | until a failure not of that kind, what an addition drops is older than all that then waits |
| `AlertBuffer.OldestGoIff` | database.py:4008-4123 | a run is oldest first throughout and every drop, by an addition or a failed flush, takes the oldest, exactly when each failed flush puts everything back in order, or nothing and has only older alerts |
| `AlertBuffer.OneFlushIff` | database.py:4008-4123 | the same for runs whose flushes never overlap: exactly when each failed flush finds the buffer empty or no room |
| `AlertBuffer.OverlapDropsTheNewest` | database.py:4110-4121 | two overlapping flushes that fail in order drop the newest of three alerts |
| `AlertBuffer.FailureReorders` | database.py:4110-4115 | after another failed flush a newer alert stands before an older one, and is dropped first |
| `AlertBuffer.AlertStore.AddAlert` | database.py:2871-2901 | at the cap a tenth, at least one, of the front goes; the alert is last |
| `AlertBuffer.AlertStore.TakeBatch` | database.py:4009-4012 | the flush takes everything |
| `AlertBuffer.AlertStore.FlushWritten` | database.py:4096-4099 | a write that succeeded accounts for its batch |
| `AlertBuffer.AlertStore.FlushFailed` | database.py:4110-4121 | what fits goes back behind the rest, what does not is dropped |

## Left out

- Telegram, HTTP, SQL text, migrations, backups, logging, statistics displays, configuration and environment loading: input and output.
- The queue's mirror count on Postgres, where an eviction does not decrement it (database.py:1112-1130), so it drifts until the next count; the model's equality is for SQLite.
- The SQLite forms of the dead-letter write and of the fingerprint claim, which are not atomic; the transactional forms are modelled.
- Database errors in the queue's operations other than the unhealthy flag.
- Which texts Python's `int()` reads as numbers: a parameter of the queue's acks.
- Rounding of floating-point numbers, also to milliseconds in the reply snapshot and to three places in reports.
- Clocks that run backwards, and wall clocks that are set between a snapshot and its reading.
- Trie nodes as linked objects: they are entries of one sequence and name each other by index. `search_first`, which nothing calls, is left out.
- Scoring before the decision tail: tries loaded from keyword files, negation and advertisement detectors, distance tables and fuzzy matching are inputs; early exits that return before the tail are not modelled.
- Negative weights and points, which the configuration does not refuse: `DecisionTail.MeanNeedsNoClamp` and `DecisionScores` are about those that are not negative, and about detectors that score within [0, 1], as theirs do.
- The hash of the fingerprint, shingles and similarity ratios, and Python's lower casing, of which only `Fingerprint.Casing.Lawful` is assumed; digits masked by the similarity gate are a parameter.
- Digits other than ASCII in t.me URLs, and chat ids that are not integers.
- Texts with a NUL character in the clause splitter, which nothing in the program removes; for them placeholders can be forged.
- Snapshot data of the wrong shape in `restore_state`, which is skipped item by item.
- Sender discovery, account hashes and the export call itself in nav_resolver.py; its result is an input.
- The watch list and the category, similarity and spread tests of antispam.py, which read the same log.
- Keyword loading, the Bloom filter, classifier tables, card and button layout, admin commands, the consumer loop's shutdown, negative_memory.py and the thread pool of security.py: easy members or outside timing.
