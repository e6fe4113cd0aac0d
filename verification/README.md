# Verification model of the SSO backend's stateful kernels

This Dafny project models seven parts of the backend and proves what they promise.

* **Sessions** (`Sessions`, `SessionProtocol`, `SessionGuarantees`, `SessionContinuity`, `SessionBurst`,
  `SessionCodes`). Session rows, login codes, token rotation,
  logout and revocation. Tokens, hashes and macs are symbolic constructors, so they are injective. A run is any
  interleaving of logins, un-locked reads, locked rotations, delayed deletions, logouts, revocations that may commit
  behind their start, and user deletions over a clock that never goes back; each locked transaction is one step and each un-locked read its own.
  A rotation family is everything derived from one random token.
* **Streaks** (`Calendar`, `Streak`, `StreakLaws`, `StreakChain`, with `Text` for string order). The snapshot merge, the
  activity automaton and the calendar arithmetic under them, on texts and on day numbers.
* **AI quota** (`Quota`, `QuotaRuns`, `QuotaLimits`, `QuotaStatus`). The usage ledger of one user and application: consume, refund, bonus,
  status, and how far its limits hold.
* **SSE inspector and charging** (`SseInspector`, `SseVerdict`, `SseAnswers`, `SseBlankLines`, `SseStandard`,
  `SseDifferences`, `AiProxy`). The incremental parser whose verdict decides the refund, its relation to the event stream format of the
  WHATWG HTML Standard, and the two endpoints that charge.
* **Envelopes and migration** (`Envelope`, `Migration`, `MigrationPass`, `MigrationSafety`, `MigrationMeaning`). The envelope text, the bound
  bytes, and the paged re-encryption of the readings table with its preflight. A sealed value is symbolic; its base64
  pieces are single symbols of a text whose separators are ordinary characters.
* **Payments** (`Payments`, `PaymentRuns`, `PaymentStacking`, `PaymentRevocation`). Orders, receipts and subscription
  intervals, together with admin grants, coupons, and revocations that may commit behind their start.
* **Journal listing** (`Journal`). The batched scan for a tag, on top of the envelopes.

`Wrappers` and `Numbers` are shared. Stateful services are classes whose methods update their fields. Each method is proved against a specification function,
and the properties of that function are lemmas, mostly over every run. `dafny verify dfyconfig.toml` checks the project.

Where code and intent differ, the model follows the code, and lemmas say exactly when:

* the `remaining` shown to a user counts every bonus question fully, although each also uses up the daily count, and
  ignores the month (`QuotaRuns.RemainingExactly`);
* a question is reserved under the date of entry but charged to the date on which its row is opened
  (`Quota.RefundUndoesConsume`, `QuotaRuns.MidnightLeak`), so that a daily or monthly limit can be exceeded, by
  at most the questions that crossed midnight or a month boundary (`QuotaLimits.DayBound`, `QuotaLimits.MonthBound`);
* resending a streak request on a later day can bring a snapshot date into force that the first request dropped
  (`StreakLaws.ReplaySafeExactly`);
* a revocation of plans moves the end of intervals that are over or have not begun, so that bought intervals can overlap
  (`PaymentRevocation.OverlapExactly`), and misses a payment that commits behind its start, which can leave a gap
  (`PaymentStacking.LateRevocationGap`);
* a revocation of sessions misses the child of a rotation that commits behind its start (`SessionGuarantees.RevokeRace`),
  and a login code shown as a session cookie leaves a session behind (`SessionGuarantees.CodeLeavesChild`) and stays
  usable for two more minutes (`SessionCodes.CodeAcceptedExactly`);
* the inspector reads error names, bare payloads and an unfinished last event beyond what section 9.2.6 of the WHATWG HTML
  Standard dispatches (`SseStandard.StandardPlusBeyond`), and does not end a line at a lone carriage return
  (`SseDifferences.LoneCrHides`).

## Model

| member | source | states |
|---|---|---|
| `Sessions.RotatedParentInverts` | src/users/users.service.ts:101-122 | The parent lookup of a token answers a hash exactly if the token is the one derived from that hash under the secret: it inverts the derivation, and no forged mac names a parent. |
| `Sessions.UsersService.CreateSession` | src/users/users.service.ts:342-368 | For a user who exists, one new row under the hash of the answered token, with that user, the given origin and the moment now plus lifetime, and every other row as it was; for a missing user nothing is inserted. |
| `Sessions.UsersService.ReadSession` | src/users/users.service.ts:436-457 | The un-locked read: absent; expired, with the row to delete; fresh, with the row's user, exactly if the row is good for more than seven days or no secret is set; in need of the lock otherwise. |
| `Sessions.UsersService.RotateUnderLock` | src/users/users.service.ts:459-526 | The locked transaction in all its branches: deletion of an expired row, reissue in the grace period, unique violation, and a rotation, whose child row has the parent's user and origin and thirty days while the parent keeps two minutes and every other row is as before. |
| `Sessions.UsersService.ResolveSessionForRequest` | src/users/users.service.ts:433-527 | Without interference the read followed by the transaction gives the specified answer and tables in each of the four cases of the read. |
| `Sessions.UsersService.DeleteSessionByToken` | src/users/users.service.ts:529-561 | Removes exactly parent (if a valid mac names one), self and child, and nothing for an empty token. |
| `Sessions.UsersService.DeleteAllSessionsForUser` | src/users/users.service.ts:563-569 | Afterwards a row is there exactly if it was there before and belongs to another user, unchanged. |
| `Sessions.UsersService.ConsumeOAuthLoginCode` | src/users/users.service.ts:370-401 | Accepted means the code had an unexpired row for that origin, whose user is answered, and exactly that row is gone; refused means nothing changed. |
| `SessionGuarantees.CodeWorksOnce` | src/users/users.service.ts:370-401 | From any reachable state: once a login code was accepted, every later attempt with it is refused, for any origin and after any continuation. |
| `SessionGuarantees.CodeLeavesChild` | src/users/users.service.ts:385-396 | Consuming a code ends its family if and only if it was not, within its minute, shown as a session cookie and rotated into a thirty-day child. |
| `SessionCodes.CodeAcceptedExactly` | src/users/users.service.ts:342-401 | A code issued in any reachable state to a user who exists is accepted, with that user, exactly before its time is up, for exactly the origin it was issued for and if no step used it, logged it out or revoked it, whatever else happens; only a rotation of the code as a cookie changes its time, to two minutes from then. |
| `SessionCodes.CodeLastsItsMinute` | src/sso/sso.service.ts:217-227 | So a code that no step takes or rotates signs its user in during its whole lifetime and no longer. |
| `SessionCodes.RowsKeepTheirLogin` | src/users/users.service.ts:500-510 | In every reachable state each row of a family, however often it was rotated, has the user and application origin of the login that started the family. |
| `SessionCodes.TokenSignsInItsLogin` | src/users/users.service.ts:433-527 | Whoever a token signs in, at the un-locked read or under the lock, is the user of the login that started its family. |
| `SessionProtocol.FamilyIsChain` | src/users/users.service.ts:87-122 | Rotation is deterministic, so of two issued tokens with the same random root one descends from the other. |
| `SessionProtocol.WindowFacts` | src/users/users.service.ts:484-524 | In a reachable state a live token inside the rotation window either has no descendants at all or is in its grace period with exactly one live child. |
| `SessionProtocol.StepInv` | src/users/users.service.ts:342-569 | Every step of every operation keeps the invariant: only a direct parent can stay live beside its descendant, only within two minutes, and its child was issued for thirty days at that moment. |
| `SessionProtocol.RunInv` | src/users/users.service.ts:342-569 | The invariant over runs of any length and interleaving. |
| `SessionGuarantees.AtMostTwoLive` | src/users/users.service.ts:23-25 | In every reachable state a rotation family has at most two live tokens, and two of them are a parent and its direct child. |
| `SessionGuarantees.FamilyDeadForever` | src/users/users.service.ts:433-561 | A family without live token stays so under every later event. |
| `SessionGuarantees.DeadFamilyRefused` | src/users/users.service.ts:440-476 | A token of a dead family is refused by the read, and a request already past the read resolves to null under the lock. |
| `SessionGuarantees.LogoutEndsFamily` | src/users/users.service.ts:529-561 | Logging out with any live token leaves no live token of its whole family, then and at the end of every continuation, although only three hashes are deleted; rows of other families are untouched. |
| `SessionGuarantees.LogoutScope` | src/users/users.service.ts:529-547 | All deleted hashes belong to the presented token's family. |
| `SessionGuarantees.RevokeEndsFamilies` | src/users/users.service.ts:563-569 | A user-wide revocation that no insertion overlaps, or deletion of the user, ends every family of that user for good, whatever follows, also against rotations already waiting for the lock. |
| `SessionGuarantees.RevokeCommitExactly` | src/users/users.service.ts:563-569 | A revocation whose statement started earlier ends a family if and only if it saw every live row of it, in every state the invariant allows. |
| `SessionGuarantees.RevokeRace` | src/users/users.service.ts:484-526 | With one request getting the lock between start and commit of the revocation, the family survives if and only if that request's token is live, near its end and not yet rotated. |
| `SessionGuarantees.RevokeRaceHappens` | src/users/users.service.ts:563-569 | A concrete run in which a revoked user keeps a live session. |
| `SessionGuarantees.OneReplacement` | src/users/users.service.ts:489-525 | Whatever the interleaving, every rotating answer for a token carries the same child, afterwards the only row derived from it and live for more than the rotation window; the unique index is never hit. |
| `SessionGuarantees.ReplacementAlwaysActive` | src/users/users.service.ts:494-516 | If a live token's child row exists it is live and belongs to the same user, so the case of an expired replacement cannot occur and rotating again writes nothing. |
| `SessionGuarantees.LateDeletionIsHarmless` | src/users/users.service.ts:447-450 | The un-locked deletion after an expired read never removes a live session, however late it executes. |
| `SessionContinuity.RoundServes` | src/users/users.service.ts:433-527 | One request of a well-behaved client amid arbitrary events of others is answered with its user and leaves a token with more than seven days to live. |
| `SessionContinuity.SignedInForever` | src/users/users.service.ts:447-457 | From a login in any reachable state on, a client that adopts each rotated token and asks at most seven days apart is recognised at every request of an unbounded run; with a rotation secret set, and absent logout or revocation. |
| `SessionBurst.BurstServed` | src/users/users.service.ts:484-525 | Any number of overlapping requests with one old token, amid arbitrary events of others and finished while that token is live, which a rotation leaves it for two minutes, are all answered with the user, and all rotated answers carry the same token. |
| `SessionBurst.BurstThenSignedIn` | src/users/users.service.ts:500-525 | A client that adopts a rotated answer of such a burst stays signed in from there on. |
| `Calendar.ClosedForm` | src/streak/streak.service.ts:329-339 | The day numbers counted year by year equal the closed form of section 21.4.1 of ECMA-262 for every year. |
| `Calendar.AccessorsInvert` | src/streak/streak.service.ts:341-351 | On every civil date the accessors of a `Date` give back the fields it was built from. |
| `Calendar.ValidDateExactly` | src/streak/streak.service.ts:341-351 | A well-shaped text is accepted exactly if it is a Gregorian calendar date of a year from 100 on. |
| `Calendar.RemappedYear` | src/streak/streak.service.ts:341-351 | Years 0 to 99, which section 21.4.3.4 of ECMA-262 maps to 19xx, never read back, so no such date is valid. |
| `Calendar.CivilMonotone` | src/streak/streak.service.ts:329-339 | An earlier calendar date has a smaller day number. |
| `Calendar.OrderAgrees` | src/streak/streak.service.ts:283-298 | For valid dates, string order, equality and the sign of `daysBetween` say the same, and `daysBetween` is the difference of day numbers. |
| `Calendar.DaysBetweenAdditive` | src/streak/streak.service.ts:329-339 | `daysBetween` is additive and antisymmetric on valid dates, rounding included. |
| `Calendar.DayRoundTrip` | src/streak/streak.service.ts:264-277 | A stored day printed as text is a valid date of that same day. |
| `Calendar.TextRoundTrip` | src/streak/streak.service.ts:264-277 | A valid date stored as a day prints as itself. |
| `Streak.CounterRange` | src/streak/streak.service.ts:371-375 | Any number, NaN and infinities included, becomes a counter between 0 and its cap. |
| `Streak.CounterClamps` | src/streak/streak.service.ts:371-375 | The counter is 0 for negative numbers and non-numbers, the cap from the cap on, and the whole part between. |
| `Streak.NormalizeOk` | src/streak/streak.service.ts:206-232 | A normalised snapshot meets the table's CHECK constraints and the caps, whatever the client sent. |
| `Streak.NormalizeKeeps` | src/streak/streak.service.ts:206-232 | Field by field: a date is kept from ten years before to one day after today; the current streak and freeze flag count only with a kept activity date; the record is the larger of the sent record and the current streak; the total is clamped; a card id is kept with its date, if it is a number or at most 128 characters long. |
| `Streak.NormalizeKeepsOwn` | src/streak/streak.service.ts:206-232 | A well-formed snapshot with plausible dates, sent back as it is, is normalised to itself. |
| `Streak.MergeOk` | src/streak/streak.service.ts:42-77 | Merging well-formed rows gives a well-formed row: 0 <= current <= longest, caps, no streak without a date, no card id without a card date. |
| `Streak.MapRowOk` | src/streak/streak.service.ts:252-277 | Reading a row out as texts and storing it again is the identity. |
| `Streak.ApplyAgrees` | src/streak/streak.service.ts:279-327 | The automaton on date texts is the automaton on day numbers, so its `gap <= 0` branch cannot be reached after the two early returns. |
| `Streak.ApplyOk` | src/streak/streak.service.ts:279-327 | An activity keeps the row well-formed. |
| `Streak.RecordKeepsOk` | src/streak/streak.service.ts:139-188 | A recorded activity keeps both tables well-formed. |
| `Streak.StreakService.Get` | src/streak/streak.service.ts:90-108 | Answers nothing exactly if there is no row; otherwise texts that, stored again, are the stored row. |
| `Streak.StreakService.Upsert` | src/streak/streak.service.ts:110-125 | Inserts or merges the normalised snapshot in place, keeps the tables well-formed and answers the stored row. |
| `Streak.StreakService.RecordActivity` | src/streak/streak.service.ts:127-189 | Refuses an implausible date without writing; otherwise merges, records the event at most once, applies it only when newly recorded, leaves the card columns alone and reports duplicates. The record it leaves is the larger of the stored and the sent record and, for a newly recorded event, of the new current streak. |
| `StreakLaws.MergeIdempotent` | src/streak/streak.service.ts:42-77 | Merging a row with itself changes nothing. |
| `StreakLaws.MergeAssociative` | src/streak/streak.service.ts:42-77 | The merge is associative on rows that meet the CHECK constraints. |
| `StreakLaws.MergeLeftRegular` | src/streak/streak.service.ts:42-77 | What was merged first needs no merging again. |
| `StreakLaws.MergeCommutes` | src/streak/streak.service.ts:71-77 | The order of arrival matters exactly for two different card ids on one card date, and then only for the card id. |
| `StreakLaws.AbsorbsIffDominates` | src/streak/streak.service.ts:42-77 | A merge changes nothing exactly if the stored row is above the snapshot in a field-by-field order that does not mention the merge. |
| `StreakLaws.MergeIsJoin` | src/streak/streak.service.ts:42-77 | The merge is an upper bound of both rows and below every other upper bound. |
| `StreakLaws.ApplyInflates` | src/streak/streak.service.ts:279-327 | An activity only moves a row up in that order, although it may reset the current streak. |
| `StreakLaws.NoCheckFires` | src/database/migrations/1792886400000-UserStreaks.ts:22-31 | Over every run from the empty tables, and between the two writes of one transaction, no CHECK constraint is violated. |
| `StreakLaws.RunGrows` | src/streak/streak.service.ts:110-189 | Over every run the row only moves up and recorded events stay. |
| `StreakLaws.ReplayChangesNothing` | src/streak/streak.service.ts:139-188 | Exactly once: after a committed request and any later writes, replaying it with the same normalised snapshot changes nothing and reports a duplicate. |
| `StreakLaws.ReplaySafeExactly` | src/streak/streak.service.ts:206-232 | Since normalising reads today's date, resending the same body later is harmless for all tables, later writes and days if and only if neither snapshot date can come into force later; otherwise a concrete day is constructed on which it shows. |
| `StreakLaws.MaturityDay` | src/streak/streak.service.ts:357-362 | The day on which a snapshot date dropped by the first request is accepted by the second while the activity date still is. |
| `StreakLaws.AheadIsUnsafe` | src/streak/streak.service.ts:206-212 | A concrete body, with a snapshot date five days ahead, that is accepted and must not be sent again later. |
| `StreakChain.TrailingChainUnique` | src/streak/streak.service.ts:296-326 | A sequence of days has only one trailing chain. |
| `StreakChain.StreakIsTrailingChain` | src/streak/streak.service.ts:279-327 | The current streak is the length, up to its cap, of the trailing chain of record days, and the freeze flag says whether its last gap was bridged. |
| `StreakChain.LongestIsGreatest` | src/streak/streak.service.ts:321-321 | The record is the greatest length, up to its cap, that a trailing chain had after any of the activities. |
| `StreakChain.ChainSpan` | src/streak/streak.service.ts:307-326 | A chain of k days spans at least k-1 and at most k-1 plus half of the gaps, rounded up, days. |
| `StreakChain.StreakMeaning` | src/streak/streak.service.ts:127-189 | From the empty tables with empty snapshots, for every sequence of requests with duplicates and refused dates, the stored streak is that trailing chain, with its span bounds, the stored record is the longest chain that ever trailed, each up to a million, and the total is the number of newly recorded activities. |
| `StreakChain.OutOfOrderIgnored` | src/streak/streak.service.ts:283-294 | An activity not later than the last record day leaves everything but the total unchanged. |
| `Quota.PlansService.GetOrCreateUsage` | src/plans/plans.service.ts:123-153 | Afterwards the day has a row, an existing one unchanged, and that row is answered. |
| `Quota.PlansService.SumMonth` | src/plans/plans.service.ts:310-322 | The loop computes the sum of the daily counts of a month. |
| `Quota.PlansService.CheckQuota` | src/plans/plans.service.ts:238-289 | Answers the admission test and the remaining count; its only write is the empty row of today. |
| `Quota.PlansService.ConsumeQuota` | src/plans/plans.service.ts:292-355 | Charges exactly one question to today's row, from the bonus only beyond the daily limit, or leaves all rows unchanged and says which limit was hit; the reservation carries the date of entry. |
| `Quota.PlansService.RefundQuota` | src/plans/plans.service.ts:357-379 | Takes one question back from the reservation's row, restoring a used bonus, unless the row is missing or empty. |
| `Quota.PlansService.RequestBonus` | src/plans/plans.service.ts:382-422 | Adds the plan's bonus to today's row within its daily number of requests, or changes nothing. |
| `Quota.TotalChanges` | src/plans/plans.service.ts:310-322 | Rewriting one row moves its month's sum by exactly the change of that row and no other month's. |
| `Quota.RefundUndoesConsume` | src/plans/plans.service.ts:292-379 | A refund restores the ledger after a consume if and only if both clock reads of the consume gave the same date. |
| `Quota.CanAskIffConsumeSucceeds` | src/plans/plans.service.ts:253-258 | `canAsk` holds exactly if the next consume on that date succeeds. |
| `QuotaStatus.StatusCounts` | src/plans/plans.service.ts:181-182 | Over every run without midnight crossings the status counts people's questions: the day's unrefunded ones, the month's unrefunded ones, and the granted bonus that is not in use. |
| `QuotaStatus.ConsumeDecided` | src/plans/plans.service.ts:292-355 | After such a run a consume succeeds if and only if the day has fewer unrefunded questions than its limit and unused bonus and the month fewer than its own limit; a refusal blames the month exactly if the month is full and charges nothing. |
| `QuotaStatus.BonusDecided` | src/plans/plans.service.ts:382-422 | After any run a bonus request is granted exactly if the plan has the feature and fewer requests were granted that day than it allows; it adds the plan's amount to what is left and counts itself, and a refused one changes nothing. |
| `QuotaStatus.BonusLimit` | src/plans/plans.service.ts:406-414 | No run grants more bonus requests on a day than the largest daily number in force. |
| `QuotaRuns.ConsumeConserves` | src/plans/plans.service.ts:292-355 | A successful consume keeps the books balanced exactly when its clock did not cross midnight. |
| `QuotaRuns.RefundNeverDropped` | src/plans/plans.service.ts:373-376 | With balanced books the guard for an empty row never drops the refund of an outstanding reservation. |
| `QuotaRuns.QuotaConservation` | src/plans/plans.service.ts:292-422 | Over every interleaving of consumes, refunds, bonus requests and reads, the two counters of each day equal its outstanding reservations, and bonus left plus bonus in use is the bonus granted. |
| `QuotaRuns.MidnightLeak` | src/plans/plans.service.ts:292-309 | A concrete run over midnight in which a refunded question stays charged to the new day and uses up its limit. |
| `QuotaLimits.MonthStepExactly` | src/plans/plans.service.ts:326-349 | A successful consume keeps the month it is booked in within a cap no plan exceeds if and only if it was entered in that month or the cap was not yet reached. |
| `QuotaLimits.MonthBound` | src/plans/plans.service.ts:323-349 | Over every run, no month is charged beyond the largest monthly limit in force plus the questions booked in it and entered in another. |
| `QuotaLimits.MonthSafety` | src/plans/plans.service.ts:323-349 | So without a question across a month boundary the limit holds, whatever happens at midnight. |
| `QuotaLimits.MonthBoundaryExceeds` | src/plans/plans.service.ts:297-309 | A concrete run across a month boundary with two questions booked in a month under a limit of one. |
| `QuotaLimits.DayStepExactly` | src/plans/plans.service.ts:323-349 | A successful consume outside the bonus, on any ledger, keeps its day within a cap no plan exceeds if and only if the cap was not reached; on a day whose counter misses none of its reservations a consume within that day always does, and on balanced books only one across midnight can fail to. |
| `QuotaLimits.DayBound` | src/plans/plans.service.ts:323-349 | Over every run, no day holds more questions outside the bonus than the largest daily limit in force plus the questions entered on it and booked on another day. |
| `QuotaLimits.DayBoundAttained` | src/plans/plans.service.ts:323-349 | For every daily limit and every number of crossings up to it, a run reaches that bound exactly. |
| `QuotaLimits.DaySafety` | src/plans/plans.service.ts:323-349 | So without a question across midnight the limit holds. |
| `QuotaLimits.MidnightExceeds` | src/plans/plans.service.ts:297-309 | The smallest run that exceeds it: two questions on one day under a limit of one. |
| `QuotaRuns.ExactCapacity` | src/plans/plans.service.ts:323-349 | Of any number of consecutive consumes exactly as many succeed as a closed formula of limits, use and bonus says. |
| `QuotaRuns.RemainingExactly` | src/plans/plans.service.ts:260-269 | Under a daily limit the `remaining` shown is never too low, and right if and only if at most one bonus or at most one question is left and the month admits as many. |
| `QuotaRuns.RemainingWithoutDailyLimit` | src/plans/plans.service.ts:260-263 | Without a daily limit it is right whenever there is a monthly one; without either it is 9999 and every consume succeeds. |
| `QuotaRuns.BonusCountsHalf` | src/plans/plans.service.ts:260-269 | Within the daily limit and with the month not binding, exactly the rest of the limit plus half the bonus, rounded up, succeed. |
| `QuotaRuns.RemainingTooHigh` | src/plans/plans.service.ts:264-268 | A concrete run after which seven questions are shown and six succeed, however many are tried. |
| `SseInspector.AiSseInspector.InspectParsedEvent` | src/plans/plans.controller.ts:82-121 | Raises the content flag exactly if some object in the list `choices` has non-blank text, or a list with non-blank text in it, at `delta.content`, `message.content` or `text`; raises the error flag exactly for an error value or the word `error` in one of four places of the record or three of a choice; never clears a flag. |
| `SseInspector.FlagsByPath` | src/plans/plans.controller.ts:52-121 | The nested tests of one parsed value agree with that reading by paths, for every JSON value. |
| `SseInspector.AiSseInspector.InspectDataPayload` | src/plans/plans.controller.ts:123-133 | Tells whether the payload was understood, and adds the flags of its value. |
| `SseInspector.AiSseInspector.FlushEvent` | src/plans/plans.controller.ts:135-149 | Adds the flags of the joined data lines, or of each line when the join is no JSON, and empties the event. |
| `SseInspector.AiSseInspector.ProcessOneLine` | src/plans/plans.controller.ts:151-171 | Handles each kind of line as its classification says. |
| `SseInspector.AiSseInspector.DrainCompletedLines` | src/plans/plans.controller.ts:173-181 | Processes all complete lines of the buffer in order and keeps the rest. |
| `SseInspector.AiSseInspector.PushChunk` | src/plans/plans.controller.ts:184-190 | A pushed chunk is decoded with the carried decoder state, appended and drained. |
| `SseInspector.AiSseInspector.FinishStream` | src/plans/plans.controller.ts:191-204 | Flushes decoder, last line and last event and answers the verdict. |
| `SseVerdict.DrainAppend` | src/plans/plans.controller.ts:173-190 | Draining a text in two pieces equals draining it at once. |
| `SseVerdict.PushAllIsUnits` | src/plans/plans.controller.ts:184-190 | Pushing chunks equals pushing their characters and bytes one at a time. |
| `SseVerdict.VerdictIgnoresChunking` | src/plans/plans.controller.ts:184-204 | Two ways of cutting the same stream into chunks give the same verdict, for every parser and every incremental decoder. |
| `SseVerdict.VerdictIsMeaning` | src/plans/plans.controller.ts:74-206 | The verdict equals reading the whole decoded text line by line: what lines say alone, and what the data lines of each blank-line-separated event carry. |
| `SseAnswers.EventByPath` | src/plans/plans.controller.ts:123-147 | The data lines of an event raise what their joined text carries or, when that is not JSON, what any one of them carries; blank payloads and `[DONE]` carry nothing. |
| `SseAnswers.TrimIsMiddle` | src/plans/plans.controller.ts:123-125 | Trimming cuts off white space at both ends and all of it. |
| `SseAnswers.JoinedText` | src/plans/plans.controller.ts:139-140 | The joined data of an event is its lines with one line feed between each two. |
| `SseAnswers.VerdictByPath` | src/plans/plans.controller.ts:74-206 | For any stream, however cut: content was seen exactly if an event or a bare line carries an answer by path, an error exactly if one reports an error or an event is named so, and the refund is due for an error or without content. |
| `SseAnswers.OneEventVerdict` | src/plans/plans.controller.ts:82-206 | A stream of one event is judged by the JSON it carries. |
| `SseAnswers.AnswerIsPaidFor` | src/plans/plans.controller.ts:103-118 | A streamed chunk with its content at any one of the three places is kept as paid exactly if that content is not blank. |
| `SseVerdict.MeaningAddsAtBlank` | src/plans/plans.controller.ts:151-156 | Streams joined at an event boundary: their flags add up. |
| `SseVerdict.InsertedCommentIgnored` | src/plans/plans.controller.ts:157-169 | Inserting a comment, id or retry line at any line boundary never changes the verdict. |
| `SseBlankLines.AppendedBlanksIgnored` | src/plans/plans.controller.ts:191-198 | Appending any mixture of LF and CRLF line ends to any text never changes the verdict, whether the first ends the last line or all are blank lines. |
| `SseStandard.SameLines` | src/plans/plans.controller.ts:151-181 | Without lone carriage returns the inspector sees the lines of section 9.2.6 of the WHATWG HTML Standard. |
| `SseStandard.PaddedFlags` | src/plans/plans.controller.ts:139-146 | For a parser to which two line feeds are as one, as to JSON, empty data lines inserted anywhere change nothing an event says. |
| `SseStandard.StandardPlusBeyond` | src/plans/plans.controller.ts:74-206 | For every text without lone carriage returns, what the inspector finds is what the events dispatched by that section say, plus error names, bare payloads and the unfinished last event; for a parser that tells one line feed from two, also without a line that is just `data`. |
| `SseStandard.AgreesExactly` | src/plans/plans.controller.ts:199-203 | On such texts the verdict is the one of the dispatched events if and only if those three add nothing to it. |
| `SseStandard.RegularAgrees` | src/plans/plans.controller.ts:157-169 | A stream of comments, ids, retry hints, data and other event names that ends at an event boundary is judged by its dispatched events. |
| `SseDifferences.BareLineCounts` | src/plans/plans.controller.ts:170 | A bare line of JSON counts as an answer; the standard dispatches nothing. |
| `SseDifferences.UnterminatedEventCounts` | src/plans/plans.controller.ts:194-198 | The last event counts without a blank line; the standard discards it. |
| `SseDifferences.NameIsNormalised` | src/plans/plans.controller.ts:158-164 | The event name `Error` is an error, although the standard dispatches an event of another type. |
| `SseDifferences.NameWithoutDataCounts` | src/plans/plans.controller.ts:158-164 | An error name counts although the standard dispatches no event without data. |
| `SseDifferences.NamelessDataDispatches` | src/plans/plans.controller.ts:165-170 | A line that is just `data` is a bare payload; the standard dispatches an event with an empty data line, which says nothing. |
| `SseDifferences.LoneCrHides` | src/plans/plans.controller.ts:151-181 | A carriage return alone ends no line, so an answer after it is lost in a comment, although the standard dispatches it. |
| `AiProxy.Charge.RefundOnce` | src/plans/plans.controller.ts:316-326 | However often it is called, the refund is attempted once; one that fails is not tried again. |
| `AiProxy.Relay` | src/plans/plans.controller.ts:375-379 | The loop inspects exactly the chunks that arrive before the client leaves. |
| `AiProxy.ProxyAi` | src/plans/plans.controller.ts:314-394 | The ledger stays charged exactly if the handler ran to its end with an answer in the chunks inspected before the client left, or the one refund failed; in every other case it is the charged one refunded once. |
| `AiProxy.InterpretTuvi` | src/plans/plans.controller.ts:445-508 | One question is charged once over all retries, kept if and only if an attempt brought an answer; a second attempt is made only after an overload or a broken connection. |
| `AiProxy.UndeliveredIsFree` | src/plans/plans.controller.ts:384-385 | With a steady clock a refunded request leaves the ledger as it was, up to the empty row of today. |
| `Envelope.QuoteUnambiguous` | src/readings/reading-encryption.ts:25-49 | A JSON string literal (section 7 of RFC 8259) followed by anything determines the string and the rest. |
| `Envelope.QuoteReads` | src/readings/reading-encryption.ts:25-49 | By the rules for reading a JSON string (section 7 of RFC 8259) a quoted string reads back as itself, whatever its characters and whatever follows. |
| `Envelope.TupleInjective` | src/readings/reading-encryption.ts:33-46 | The printed array of four strings determines all four, whatever characters they contain. |
| `Envelope.AadSeparates` | src/readings/reading-encryption.ts:25-49 | Reading, journal and historical bound bytes are injective in their ids and pairwise disjoint, also for ids with colons and quotes. |
| `Envelope.ParseKeys` | src/readings/reading-encryption.ts:89-136 | A configuration is accepted if and only if it has no malformed entry, no id twice, no missing keys, no missing and no unknown active id; the ring then holds exactly the listed keys, and each of the five errors is reported only where its fault is present. |
| `Envelope.CollectKeys` | src/readings/reading-encryption.ts:94-115 | The loop succeeds exactly without malformed entry and duplicate id, and then has collected exactly the listed keys. |
| `Envelope.SplitJoin` | src/readings/reading-encryption.ts:224-231 | Splitting at colons undoes joining when no part holds a colon. |
| `Envelope.EnvelopeSplits` | src/readings/reading-encryption.ts:278-289 | A printed envelope splits into its five parts and reports its version. |
| `Envelope.OpenSealed` | src/readings/reading-encryption.ts:267-310 | A sealed value opens if and only if the ring holds its key under its id and the bound bytes agree, and then gives its plaintext. |
| `Envelope.EncryptsExactly` | src/readings/reading-encryption.ts:167-226 | Encrypting a reading succeeds exactly with both ids and an active key that is configured, and reports a missing id, a missing configuration and an unknown key in that order. |
| `Envelope.OpenedWasSealed` | src/readings/reading-encryption.ts:267-310 | Authenticity, for arbitrary data: whatever opens is the printed envelope of something sealed under a key of the ring, with that key's id and the bytes its version binds to, and gives what was sealed. |
| `Envelope.OpenedShape` | src/readings/reading-encryption.ts:314-336 | What is returned from an authentic envelope has the fields and types of a reading or of a journal entry with at most five tags. |
| `Envelope.RoundTrip` | src/readings/reading-encryption.ts:167-189 | Decrypting inverts encrypting through the text for the same user and row, for readings and journal entries. |
| `Envelope.RollbackRoundTrip` | src/readings/reading-encryption.ts:192-201 | The historical format round-trips for the same user. |
| `Envelope.ReadingOpensOnlyForItsRow` | src/readings/reading-encryption.ts:234-265 | A reading envelope opens for exactly its user and row and never as a journal entry. |
| `Envelope.JournalOpensOnlyForItsEntry` | src/readings/reading-encryption.ts:250-265 | A journal envelope opens for exactly its user and entry and never as a reading. |
| `Envelope.RollbackOpensOnlyForItsUser` | src/readings/reading-encryption.ts:234-248 | A historical envelope is bound to its user alone and never opens as a journal entry. |
| `Envelope.RelabelledVersionRefused` | src/readings/reading-encryption.ts:239-243 | Relabelling a row-bound envelope as the historical version does not open it. |
| `Migration.AfterSkips` | scripts/encrypt-readings.ts:250-263 | The id of a row as cursor selects exactly the rows after it. |
| `Migration.SavedOfPending` | scripts/encrypt-readings.ts:346-354 | Saving a batch's pending rows writes each row's own rewrite and nothing else. |
| `MigrationPass.ProcessBatch` | scripts/encrypt-readings.ts:265-356 | A batch without fatal row is counted and, in apply mode, saved as a whole; with one it fails with the first fatal row's error and writes nothing. |
| `MigrationPass.ProgressStep` | scripts/encrypt-readings.ts:378-401 | Between batches the table is the original one with exactly the first `scanned` rows converted, and the counters are those of these rows. |
| `MigrationPass.RunPass` | scripts/encrypt-readings.ts:360-403 | A pass without fatal row visits every row exactly once, whatever the batch size; otherwise it stops with the first fatal row's error, the completed batches before it converted and nothing else. |
| `MigrationSafety.RewrittenKeepsPayload` | scripts/encrypt-readings.ts:281-343 | A rewritten row was readable, keeps id, user, app and type, has the target version, and decrypts to the payload it held before. |
| `MigrationMeaning.TreeStands` | src/readings/reading-encryption.ts:336-393 | At any depth a text without the prefix stands for itself and a prefixed one for what the client of that user sealed in it; decryption of a stored value succeeds exactly if it stands for something, and gives that. |
| `MigrationMeaning.LegacyPayloadSays` | scripts/encrypt-readings.ts:195-219 | A historical row has a payload exactly if its columns say one: the question and the title as the texts their columns stand for, with numbers and flags printed and no text for null, and the data as the object its column stands for. |
| `MigrationMeaning.ConvertedSaysColumns` | scripts/encrypt-readings.ts:325-345 | After a forward pass the envelope of a converted historical row opens for its user and row to the question, title and data that the row's own columns stood for. |
| `MigrationMeaning.PassesKeepColumns` | scripts/encrypt-readings.ts:265-403 | After any sequence of passes a row that was historical at the start reads as a payload if and only if its original columns said that payload. |
| `MigrationMeaning.ConvertedHidesText` | scripts/encrypt-readings.ts:187-193 | A converted row has no question in the clear, the cleaned names of its app and type as title, whatever it says, and the envelope as its only data. |
| `MigrationMeaning.RollbackKeepsColumns` | scripts/encrypt-readings.ts:288-298 | Rolling back changes the envelope column only. |
| `MigrationSafety.PassesKeepPayloads` | scripts/encrypt-readings.ts:265-403 | Every sequence of passes, forward, re-encrypting and rolling back under various keys, each complete or stopped half-way, leaves for a reader with all the keys every row's payload as it was. |
| `MigrationSafety.OldKeysRetire` | scripts/encrypt-readings.ts:300-343 | After a re-encrypting apply pass the active key alone opens every envelope, with the same payload. |
| `MigrationSafety.CountsPartition` | scripts/encrypt-readings.ts:390-400 | Scanned rows are exactly eligible plus current plus unreadable (forward) or plus preserved (rollback), and eligible counts the rows to write. |
| `MigrationSafety.CountersAre` | scripts/encrypt-readings.ts:390-400 | Each counter is the number of rows of its kind; the preserved ones are the historical rows a rollback leaves and the unreadable ones that were expected. |
| `MigrationSafety.FailedIdsAre` | scripts/encrypt-readings.ts:326-333 | The reported ids are exactly those of the unreadable legacy rows. |
| `MigrationSafety.FailedIdsCounted` | scripts/encrypt-readings.ts:326-333 | There is one reported id per unreadable row. |
| `MigrationSafety.SecondPassIdle` | scripts/encrypt-readings.ts:300-310 | A further forward pass that does not re-encrypt has nothing eligible, meets no fatal row and changes nothing, also with keys added since. |
| `MigrationSafety.TrialKind` | scripts/encrypt-readings.ts:281-343 | A trial run classifies each row as the apply run does, except that it counts the unexpected unreadable rows the apply run stops at. |
| `MigrationSafety.TrialDecides` | scripts/encrypt-readings.ts:326-340 | The apply pass completes if and only if the trial pass does and reports no unexpected id. |
| `MigrationSafety.IdsMatchExactly` | scripts/encrypt-readings.ts:162-172 | The comparison by size and membership is set equality. |
| `MigrationSafety.AcceptedApply` | scripts/encrypt-readings.ts:405-444 | After an accepted preflight the apply pass cannot stop half-way, counts the same, and leaves unconverted exactly the expected rows, untouched. |
| `MigrationSafety.ApplyWithExpected` | scripts/encrypt-readings.ts:405-444 | In one transaction: success if and only if the preflight accepts, with the whole table converted; any failure leaves every row unchanged; the second comparison never fails. |
| `MigrationSafety.ValidatedDryRun` | scripts/encrypt-readings.ts:446-459 | A dry run never writes and succeeds exactly if every envelope opens and the unreadable rows are the expected ones. |
| `MigrationSafety.Migrate` | scripts/encrypt-readings.ts:485-540 | The command succeeds if and only if its trial run accepts the table; a failure has written nothing, and a successful apply has visited every row. |
| `Payments.Current` | src/payments/payments.service.ts:363-371 | Of the running subscriptions of a user and plan, one that ends last, or none if none runs. |
| `Payments.StartsAt` | src/payments/payments.service.ts:372-373 | A purchase starts no earlier than now and than every finite expiry of that plan, and at one of them or now. |
| `Payments.PaymentsService.CreateOrder` | src/payments/payments.service.ts:60-119 | Opens one pending order exactly for an active plan other than `free`, with settings and a valid price: for that user and plan, at that price, for thirty days, valid for one day, with its audit entry; otherwise reports which check failed and changes nothing. |
| `Payments.PaymentsService.FulfillPaymentOrder` | src/payments/payments.service.ts:350-398 | Adds the bought interval, moves the user to the plan and settles the order; without the user it changes nothing. |
| `Payments.PaymentsService.MarkOrderPaid` | src/payments/payments.service.ts:309-348 | Settles a pending order once: its moment and administrator, one new subscription, the user's plan and the receipt; a paid one is answered as such and a missing order or user reported, without any change. |
| `PaymentRuns.RunPairs` | src/payments/payments.service.ts:309-398 | Over every run, with grants, coupons and revocations, receipts pair the paid orders one to one with the payment subscriptions, of the same user and plan. |
| `PaymentRuns.OneSubscriptionPerOrder` | src/payments/payments.service.ts:319-344 | No order buys two subscriptions and no subscription is sold twice. |
| `PaymentStacking.OrdersKept` | src/payments/payments.service.ts:309-398 | An order never changes except by being settled once. |
| `PaymentStacking.OrderWasPlaced` | src/payments/payments.service.ts:60-119 | Over every run each order goes back to one request of its user for its plan, made while the plan was on sale at just its amount, and orders are numbered in the order of these requests. |
| `PaymentStacking.PaidOrderWasMarked` | src/payments/payments.service.ts:400-403 | A paid order names the moment and the administrator of the request that settled it. |
| `PaymentStacking.MarkedOnce` | src/payments/payments.service.ts:319-321 | Marking a paid order again, at any later time and by anyone, changes nothing. |
| `PaymentStacking.RunHonours` | src/payments/payments.service.ts:363-388 | Over every run without revocation for the user, the intervals bought for a plan follow each other and are together exactly as long as the paid orders say. |
| `PaymentStacking.BoughtIntervalsDisjoint` | src/payments/payments.service.ts:372-376 | Over every run without revocation for the user, no moment is covered by two bought intervals of one plan. |
| `PaymentRevocation.RevokeOverlapsExactly` | src/plans/plans.service.ts:735-738 | A revocation leaves a moment covered by two bought intervals of a plan if and only if two of them had begun, ended or not. |
| `PaymentRevocation.RevokeStacksExactly` | src/plans/plans.service.ts:735-738 | It leaves the bought intervals lined up if and only if all had begun and none but the first before the revocation. |
| `PaymentRevocation.OverlapExactly` | src/plans/plans.service.ts:735-738 | Over every run with a revocation, whatever goes before and follows: some moment is doubly covered at the end if and only if two intervals had begun at the last revocation; nothing else creates or removes an overlap. |
| `PaymentRevocation.LateRevokeOverlapsExactly` | src/plans/plans.service.ts:735-738 | A revocation that saw only part of the subscriptions leaves an overlap if and only if two it saw had begun, two it did not see overlap, or one of each meet. |
| `PaymentRevocation.LateOverlapExactly` | src/plans/plans.service.ts:735-738 | The same over every run whose last revocation committed behind its start. |
| `PaymentRevocation.RevokedTime` | src/plans/plans.service.ts:735-738 | After a revocation the bought intervals of a plan are together as long as the time since each began, instead of the ordered time. |
| `PaymentRevocation.RevocationOverlaps` | src/plans/plans.service.ts:735-738 | A concrete run whose thirty-fifth day is covered by two bought intervals, and whose bought time is ten days short of the ordered sixty. |
| `PaymentRevocation.LateRevocationLeavesGap` | src/plans/plans.service.ts:735-738 | A concrete run in which a revocation overlapped by a payment leaves thirty days without the plan before the new interval. |
| `PaymentStacking.StepNoGapExactly` | src/plans/plans.service.ts:735-738 | Each step of every operation leaves a running plan without gap, except that the commit of a revocation does so if and only if the subscriptions it did not see have none by themselves. |
| `PaymentStacking.LateRevocationGap` | src/plans/plans.service.ts:735-738 | One payment between the start and the commit of a revocation leaves a gap if and only if the user's plan was running. |
| `PaymentStacking.RunNoGap` | src/payments/payments.service.ts:363-376 | In every run, revocations included, whose revocations never commit behind such subscriptions, a user with a running subscription to a plan has it at every moment until its last expiry. |
| `PaymentStacking.PurchaseExtends` | src/payments/payments.service.ts:350-388 | A payment on any reachable state, also one whose clock was read before it got the lock, adds the full ordered time behind every existing expiry, and, absent such a revocation, leaves no gap up to the new end. |
| `Journal.MatchingIs` | src/journal/journal.service.ts:105-107 | The simple form holds exactly the readable entries that carry the tag. |
| `Journal.FullPage` | src/journal/journal.service.ts:113-114 | A full page does not depend on later rows, readable or not. |
| `Journal.JournalService.ScanForTag` | src/journal/journal.service.ts:90-118 | The batched scan ends with exactly the requested page of the filtered list at every alignment of the batches, and fails if and only if an unreadable row comes before the page is complete. |
| `Journal.JournalService.ListEntries` | src/journal/journal.service.ts:58-146 | Succeeds unless a row it needs cannot be opened; then the views are, in list order, exactly the readable rows with the tag that fall on the page and whose reading is available, each with its own payload and reading. Pages count matching rows under a tag and all rows without one, and hold at most 500. |
| `Journal.JournalService.CollectViews` | src/journal/journal.service.ts:142-146 | Every view carries its own entry's reading, and the views are in order exactly the found entries whose reading is available; if all are, none is left out. |
| `Journal.PagesTile` | src/journal/journal.service.ts:86-118 | Listing page after page of any admitted size, with or without a tag, collects in list order every readable row with the tag and an available reading exactly once, with its own payload and reading, as long as no page fails. |
| `Journal.StoredEntryMatches` | src/journal/journal.service.ts:192-205 | An entry as stored is listed for exactly the tags it was written with; in any other row its ciphertext is unreadable. |

## Left out

- Cryptography and encodings: AES-GCM, SHA-256, HMAC, randomness, UTF-8 and base64 are symbolic; nonces are parameters, so a repeated nonce has no consequence here. Texts are sequences of characters without lone surrogates.
- The JSON parser and the streaming text decoder are arbitrary functions given to the inspector; a decoder is any step-by-step machine.
- Locks and isolation: each row-locked or advisory-locked transaction is one step. The migration runs without concurrent writers, so row locks and the per-batch transaction have no effect of their own.
- SessionContinuity.SignedInForever: assumes a configured and constant rotation secret and a user who is not deleted; without a secret the code does not rotate and a session ends after its thirty days.
- SessionGuarantees.RevokeEndsFamilies: is about a revocation in one step; for one that commits behind its start `RevokeCommitExactly` decides. Both are steps of every run.
- QuotaRuns.QuotaConservation: assumes that both clock reads of one consume give the same date; the other case is `MidnightLeak`.
- QuotaStatus.StatusCounts: assumes the same, as `QuotaStatus.ConsumeDecided` does.
- QuotaLimits.DayStepExactly: its last clause needs balanced books; a steady consume can exceed the limit on a day that an earlier crossing unbalanced, which `DayBound` counts.
- Quota locks: the advisory lock is that of the month of entry, the row that of the date read later, so across a month boundary two locks guard one row. The model takes each consume as one step nevertheless.
- The date and month read by one statement are one instant, and the month is the prefix of the date.
- PaymentStacking.RunHonours: excludes revocations for the user concerned; what they do to the intervals and their length is `PaymentRevocation`.
- PaymentStacking.BoughtIntervalsDisjoint: excludes them too; with them `OverlapExactly` and `LateOverlapExactly` decide.
- PaymentStacking.RunNoGap: excludes revocations that commit behind a subscription with a gap before it; `StepNoGapExactly` says when one does.
- SseStandard.StandardPlusBeyond: excludes texts with lone carriage returns, which differ. The standard's last-event id, retry time and byte order mark have no counterpart.
- Migration ids: the order of the primary key is the lexicographic order of the model's strings. Command-line parsing and the loading of the expected ids are left out; a batch has at least one row, as the parser demands.
- The plaintext of a legacy ciphertext is the value the code obtains from it, parsed or raw; two texts parsing to one value are not told apart.
- The streak and quota tables are those of one user and application; ownership and application checks, and the normalising of application names, are left out.
- The effective plan of a user (subscriptions, overrides, the admin shortcut of `checkQuota`) is a parameter of the quota operations.
- Request validation, upstream selection and the text sent to clients at the two AI endpoints.
- Event names are lower-cased for ASCII letters only, which decides the comparison with `error`.
- Coupon redemption and its caps; a redeemed coupon is any subscription with a code, from now on.
- Payment references, bank details and the order listings.
- Journal date and application filters are the database query that delivers the ordered rows; creating, updating and deleting entries only as far as what is stored.
- CSV printing in the admin UI, mail, notes, contact uploads, readings CRUD, dashboards and guards.
