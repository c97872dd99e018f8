# Village wells: validator, illegal-well detector and dataset generator

This project models two connected programs that share a MongoDB "village" database with four collections:

- **users**;
- **registered_wells**, where a well with no authorization date is illegal;
- **water_consumption**, weekly meter readings per user;
- **control_activities**, inspections of wells.

The **generator** fills the database with synthetic data:

- 1000 users;
- 1 to 10 legal wells per user, except for one chosen user, who gets a single planted illegal well;
- 50 weekly readings per user, where the chosen user's readings rise much faster;
- control activities on nine tenths of the legal wells.

The **validator** runs seven independent consistency checks. Each one reports PASS, FAIL or WARN.

The **detector** looks for the illegal well:

- it ranks users by total consumption and keeps the top 10;
- it keeps their wells that are Inactive or unauthorised;
- it drops the wells that have any control activity;
- it reports the first well that remains, with its owner and a verification code built from the owner's name.

The database is modelled as an in-memory snapshot (`Snapshot.Village`): four sequences of datatype values. Each query is a filter over those sequences. Instants are integer seconds and calendar dates are midnights. Every random choice, uuid, faked name or address and the current instant `now` is an explicit input, called a "draw".

Modules:

- `SeqUtil`: filtering, first match, distinct elements, sums, flattening.
- `Snapshot`: the documents and the time helpers.
- `Text`: whitespace splitting, upper-casing, first line, right strip.
- `Checks`: the seven checks.
- `VerificationCode`: `extract_first_syllable`.
- `Detector`: the detector as written, plus a corrected variant.
- `Generator`: the four generation steps and `main`.
- `EndToEnd`: what the checks and the detectors conclude about generated data.

Semantics of the document store that the model spells out:

- Inside `$expr` and `$project`, `$lt` orders null below every date (`Checks.BsonLess`). So the ordering check flags an authorised well whose status-change date is null. The activity-date check never flags an activity whose well has a null status-change date.
- A query operator such as `{$gt: now}` never matches null (`Checks.After`).
- `$lookup` followed by `$unwind` drops an activity that joins no well. It repeats an activity once per well that shares its id, so the activity-date check yields one row per such well that changed status after the activity (`Checks.IssuesOf`).
- The `$sort`/`$limit` ranking breaks ties by first appearance in the consumption collection, because the store leaves tie order unspecified.

## Model

| member | source | states |
|---|---|---|
| Checks.CheckLastStatusChangeDates | code/data_validation.py:15-31 | PASS iff every authorised well has a status-change date no earlier than its authorization; a FAIL lists exactly the authorised wells whose status-change date is null or earlier; wells with a null authorization are never reported; never WARN |
| Checks.PercentageBounds | code/data_validation.py:37-41 | the percentage `covered / legal * 100` is at least 85 iff `85·legal <= 100·covered`, and at most 95 iff `100·covered <= 95·legal` |
| Checks.CheckControlActivitiesCoverage | code/data_validation.py:33-44 | PASS iff there is a legal well and the distinct covered wells are between 85% and 95% of the legal wells; otherwise WARN (so WARN when there are no legal wells); never FAIL |
| Checks.CheckNoControlActivitiesForIllegalWell | code/data_validation.py:46-58 | WARN iff every well is authorised; otherwise the first unauthorised well is found, PASS iff no activity has its id, and a FAIL lists exactly the activities with its id |
| Checks.CheckControlActivityDates | code/data_validation.py:60-91 | PASS iff no activity is dated strictly before the non-null status-change date of a well with its id; a FAIL lists the pipeline's issues |
| Checks.IssuesOf | code/data_validation.py:62-83 | the pipeline's rows for one activity: a row occurs iff it pairs the activity with the later status-change date of a well with its id, and there are as many rows as such wells (`$unwind` repeats the activity per joined well) |
| Checks.IssuesOfNonEmpty | code/data_validation.py:62-83 | an activity yields a row iff some well with its id has a non-null status-change date after the activity's date |
| Checks.DateIssues | code/data_validation.py:62-85 | an issue is produced exactly for an activity and a joined well with a non-null status-change date later than the activity's date |
| Checks.FlaggedActivities | code/data_validation.py:62-85 | an activity is flagged iff some well with its id changed status strictly after it; an activity that joins no well is never flagged (`$unwind`) |
| Checks.FutureActivityPasses | code/data_validation.py:60-85 | the pipeline never compares with today: an activity dated after `now` that follows its wells' status changes passes the check as written and fails the check as announced |
| Checks.CheckControlActivityDatesUntil | code/data_validation.py:60-61 | the check its message announces: PASS iff every activity is dated no later than `now` and no earlier than the status change of any well with its id; a FAIL lists exactly the activities that break either bound |
| Checks.DatesUntilRefinesDates | code/data_validation.py:60-85 | the check as announced passes iff the check as written passes and no activity is dated after `now` |
| Checks.CheckFutureUserRegistrationDates | code/data_validation.py:93-101 | PASS iff no registration date is strictly after `now`; a FAIL lists exactly the users registered after `now` |
| Checks.CheckDatesInFutureInRegisteredWells | code/data_validation.py:152-165 | PASS iff neither date of any well is strictly after `now`; a FAIL lists exactly the wells with either date after `now`, and null dates never match |
| Checks.RegistrationAtNowPasses | code/data_validation.py:95 | the comparison is strict: a registration at exactly `now` passes and one a second later fails |
| Checks.CheckNamesLength | code/data_validation.py:183-191 | PASS iff every name has at least 3 code points; a FAIL lists exactly the users whose name is shorter |
| Text.Split | code/data_validation.py:169 | `str.split()` yields non-empty, whitespace-free parts whose concatenation is the string with its whitespace removed; where the parts break is stated by `Text.SplitJoinWith` |
| Text.SplitJoinWith | code/data_validation.py:169 | `str.split()` breaks exactly at runs of whitespace: words laid out between any whitespace separators (possibly empty at the ends, non-empty between words, any whitespace characters) come back as the list of words |
| Text.Upper | code/data_validation.py:174-175 | upper-casing leaves no lower-case letter and keeps whitespace-free text whitespace-free; without `ß`, it keeps the length and position `i` of the result is the upper case of character `i` |
| Text.UpperKeepsNonLower | code/data_validation.py:174-175 | a string without lower-case letters is upper-cased to itself |
| Text.UpperIdempotent | code/data_validation.py:174-175 | upper-casing twice gives the same as upper-casing once |
| Text.FirstLine | code/data_generation.py:46 | `split('\n')[0]` is the prefix of the address before the first newline, and it contains no newline |
| Text.RStrip | code/data_generation.py:46 | `rstrip()` is a prefix that does not end in whitespace, and only whitespace was removed |
| VerificationCode.Syllable | code/data_validation.py:172-175 | a part's syllable is its first three characters, or the whole part if shorter, upper-cased: non-empty for a word, no lower-case letters, and length `min(len, 3)` when there is no `ß` |
| VerificationCode.ExtractFirstSyllable | code/data_validation.py:167-181 | the code has no whitespace and no lower-case letters, has between 1 and 6 characters per name part, and is empty iff the name is all whitespace |
| VerificationCode.CodeOfSeparatedName | code/data_validation.py:169-181 | the code of a name written as words between any whitespace separators is the concatenation of the words' syllables |
| VerificationCode.CodeOfTwoWords | code/data_validation.py:169-181 | the code of a two-word name is the first syllable followed by the second |
| VerificationCode.CodeOfAnaRuiz | code/data_validation.py:167-181 | "Ana Ruiz" gives "ANARUI" |
| VerificationCode.CodeOfAlLu | code/data_validation.py:167-181 | "Al Lu" gives "ALLU": parts shorter than three characters are kept whole |
| Detector.GroupKeys | code/data_validation.py:196-202 | the `$group` keys are the distinct user ids of the consumption records, each listed once |
| Detector.ArgMax | code/data_validation.py:203 | picks a group with the largest total, the first such group |
| Detector.Rank | code/data_validation.py:203-204 | the ranking of a pool of `n` groups lists `min(k, n)` of them in non-increasing total, repeats none, and leaves out no group larger than a listed one |
| Detector.RankKeepsSmallPool | code/data_validation.py:204 | a pool of at most `k` distinct groups is ranked in full |
| Detector.RankedFirst | code/data_validation.py:203-206 | a group whose total strictly exceeds every other group's is ranked first |
| Detector.FewConsumersAllRanked | code/data_validation.py:196-206 | when at most 10 users consume, every consumer is a top consumer |
| Detector.SuspectWells | code/data_validation.py:209-215 | the suspect wells are exactly the wells of top consumers that are Inactive or have no authorization date |
| Detector.Monitored | code/data_validation.py:224-225 | a well id is monitored iff some control activity references it |
| Detector.UnmonitoredIdIsAWell | code/data_validation.py:229-231 | an id kept by the loop belongs to a registered well, so the `find_one` of line 231 finds one |
| Detector.Report | code/data_validation.py:229-241 | an unknown owner gives `OwnerNotFound`, exactly when no user has the well's owner id; otherwise it gives that owner and the code of the owner's name |
| Detector.FindWell | code/data_validation.py:231 | `find_one` by well id returns a well with that id, and the only one when ids are unique |
| Detector.CollectUnmonitored | code/data_validation.py:222-226 | the loop keeps, in order, exactly the suspect ids that no activity references |
| Detector.IdentifyIllegalWellAndOwner | code/data_validation.py:193-243 | the imperative detector returns the same result as the reference function `Detector.Detect` |
| Detector.UnmonitoredStartsAtFirst | code/data_validation.py:222-230 | the loop's list is empty iff no suspect is unmonitored, and otherwise starts with the first unmonitored suspect |
| Detector.FirstUnmonitored | code/data_validation.py:222-230 | the position of the first suspect well no activity references: every earlier suspect is monitored, and it is the list length when there is none |
| Detector.FirstUnmonitoredFound | code/data_validation.py:229 | that position is inside the list iff some suspect well is unmonitored |
| Detector.DetectionSound | code/data_validation.py:216-243 | "no suspect wells" iff there are none; "no illegal well" iff every suspect is monitored; otherwise the report is the first unmonitored suspect well in collection order |
| Detector.UnmonitoredSuspectsOf | code/data_validation.py:209-226 | one user's unmonitored suspect wells: exactly the wells the user owns that are Inactive or unauthorised and that no activity references |
| Detector.FirstFlaggedRank | code/data_validation.py:196-226 | the first position in the ranking whose user has an unmonitored suspect well; every user ranked before has none |
| Detector.FlaggedRankFound | code/data_validation.py:196-226 | that position is inside the ranking iff some ranked user has an unmonitored suspect well |
| Detector.SomeRankedUserHasUnmonitoredSuspect | code/data_validation.py:209-229 | some top consumer has an unmonitored suspect well iff some suspect well is unmonitored |
| Detector.DetectByRankSound | code/data_validation.py:196-243 | the corrected detector reports "not found" in exactly the same cases as the original; otherwise its well is an unmonitored suspect owned by the highest-ranked user who has one |
| Detector.DetectorsAgreeWhenNothingFound | code/data_validation.py:216-218 | both detectors give "no suspect wells" and "no illegal well" on exactly the same snapshots |
| Detector.DetectByRankTopOwner | code/data_validation.py:196-243 | if the largest consumer owns only one well, and it is an unmonitored suspect, the corrected detector reports it |
| Generator.LaterDateBounds | code/data_generation.py:87-91 | the later date is never before its start, is strictly after it when a whole day separates the start from `now`, and never passes `now` |
| Generator.NewUser | code/data_generation.py:41-48 | the stored address is a prefix of the faked one with no newline and no trailing whitespace; the registration is a midnight |
| Generator.GenerateUsers | code/data_generation.py:38-51 | the loop builds one user per draw, in order |
| Generator.UsersNotInFuture | code/data_generation.py:41-47 | no registration date is after `now` |
| Generator.LegalWellDates | code/data_generation.py:79-102 | for a legal well, authorization <= status change <= `now`, with a strict first inequality when `delta_days > 0` |
| Generator.LegalWellsOf | code/data_generation.py:77-104 | a legal user's wells: one per draw, each owned by the user and carrying an authorization date |
| Generator.UserWells | code/data_generation.py:61-104 | when the planted well is owned by the chosen user, every well written for a user is owned by that user; a user other than the chosen one gets only wells with an authorization date |
| Generator.GenerateRegisteredWells | code/data_generation.py:53-106 | the loop writes each user's wells in user order: the planted illegal well (no dates, Inactive) for the chosen user and a legal well per draw for everyone else |
| Generator.AppendLegalWells | code/data_generation.py:77-104 | the inner loop appends one legal well per draw |
| Generator.PlannedWellsShape | code/data_generation.py:61-104 | every generated well is the planted one or is authorised and dated in order, and is owned by a user |
| Generator.OwnedPlannedWells | code/data_generation.py:61-104 | a user's wells in the collection are exactly the wells written for that user |
| Generator.UnauthorizedPlannedWells | code/data_generation.py:63-75 | exactly one well has no authorization date: the planted one |
| Generator.WellsPerUser | code/data_generation.py:61-78 | the chosen user owns exactly the planted well; every other user owns 1 to 10 wells |
| Generator.Uniform | code/data_generation.py:114-123 | `random.uniform(a, b)` lies in `[a, b]` |
| Generator.Increment | code/data_generation.py:122-123 | a weekly increase is in [20, 50] for the illegal user and in [0, 10] for everyone else |
| Generator.ReadingStep | code/data_generation.py:124-134 | each reading is the previous reading plus that week's increase |
| Generator.SeriesChained | code/data_generation.py:114-135 | a user's readings start 365 days before `now` at the drawn baseline; each record's previous reading is the prior record's current reading; records are 7 days apart; consumption = variation = current − previous = the drawn increase |
| Generator.SeriesBounds | code/data_generation.py:114-134 | readings never decrease and stay non-negative, and each consumption lies in its user's increment range |
| Generator.ReadingBeforeNonNegative | code/data_generation.py:114-134 | every reading is non-negative, because the baseline is in [0, 100] and no increase is negative |
| Generator.SeriesTotal | code/data_generation.py:120-133 | the total of a user's series is the sum of the user's increases, and the series adds nothing to any other user |
| Generator.ReadSeries | code/data_generation.py:113-135 | the inner loop, which updates `previous_reading` and `date`, produces exactly the reference series |
| Generator.GenerateWaterConsumption | code/data_generation.py:111-137 | the loop writes each user's series in user order: `num_records_per_user` records per user |
| Generator.PlannedTotal | code/data_generation.py:111-137 | a user's total consumption is the sum of that user's increments |
| Generator.PlannedConsumptionOwners | code/data_generation.py:113-133 | every record belongs to a user, and every user with at least one week of readings has a record |
| Generator.IncrementsSumBounds | code/data_generation.py:120-123 | over `w` weeks, the illegal user's increases sum to between 20·w and 50·w, and any other user's to between 0 and 10·w |
| Generator.IllegalUserConsumesMost | code/data_generation.py:120-123 | with at least one week of readings, the illegal user's total is at least 20 per week, and every other user's is at most 10 per week and strictly smaller |
| Generator.NumActivities | code/data_generation.py:144 | `int(0.9 * n)` is the largest `r` with `10·r <= 9·n` |
| Generator.GenerateControlActivities | code/data_generation.py:140-170 | exactly `int(0.9 * len(legal_wells))` activities, one per sampled legal well, in sample order |
| Generator.ActivitiesDated | code/data_generation.py:143-165 | each activity controls a sampled legal well, never the illegal well; its date is no earlier than the well's last status change, strictly later when `delta_days > 0`, and not after `now` |
| Generator.ActivityWellsDistinct | code/data_generation.py:147-165 | the activities control pairwise distinct wells |
| Generator.GenerateVillage | code/data_generation.py:174-187 | `main` writes 1000 users, then the wells, the consumption and the activities, exactly as the reference functions plan them |
| EndToEnd.GeneratedWells | code/data_generation.py:53-106 | the planted well is in the collection; it is the only unauthorised well and the only well of its owner; every well is dated in order |
| EndToEnd.GeneratedActivities | code/data_generation.py:143-165 | each generated activity controls its sampled legal well, which is in the collection and is not the planted well; it is dated no earlier than that well's last status change and not after `now`, and strictly after the change when the change lies a whole day or more before `now` |
| EndToEnd.GeneratedActivitiesNotInFuture | code/data_generation.py:149-165 | no generated activity is dated after `now` |
| EndToEnd.GeneratedActivitiesAvoidPlanted | code/data_generation.py:143-165 | no generated activity references the planted well |
| EndToEnd.GeneratedStatusChangesPass | code/data_validation.py:15-31 | generated wells pass the status-change ordering check |
| EndToEnd.GeneratedRegistrationsPass | code/data_validation.py:93-101 | generated users pass the future-registration check |
| EndToEnd.GeneratedWellDatesPass | code/data_validation.py:152-165 | generated wells pass the future-dates check |
| EndToEnd.GeneratedIllegalWellUncontrolled | code/data_validation.py:46-58 | on generated data the isolation check finds the planted well and passes |
| EndToEnd.GeneratedActivityDatesPass | code/data_validation.py:60-91 | generated activities pass the activity-date check |
| EndToEnd.GeneratedActivityDatesPassUntil | code/data_validation.py:60-61 | generated activities also pass the activity-date check as its message announces it |
| EndToEnd.SampleCoverage | code/data_generation.py:144 | `int(0.9 * L)` is within 85-95% of `L` exactly when `7 <= L <= 10` or `L >= 14` |
| EndToEnd.GeneratedLegalWellCount | code/data_validation.py:35 | on generated data, the wells with an authorization date are exactly the legal wells the generator samples from |
| EndToEnd.GeneratedCoveredCount | code/data_validation.py:36 | on generated data, the number of distinct controlled wells is `int(0.9 * L)` |
| EndToEnd.GeneratedCoverage | code/data_validation.py:33-44 | on generated data, the coverage check passes exactly when the number of legal wells is 7-10 or at least 14 |
| EndToEnd.GeneratedGroups | code/data_validation.py:196-202 | on generated data with at least one week of readings, the `$group` keys are exactly the user ids |
| EndToEnd.PlannedGroups | code/data_generation.py:113-133 | when every user has at least one week of readings, the `$group` keys of the consumption are exactly the user ids |
| EndToEnd.IllegalUserRankedFirst | code/data_validation.py:196-206 | on generated data with at least one week of readings, the planted well's owner is ranked first |
| EndToEnd.DetectByRankFindsPlantedWell | code/data_validation.py:193-243 | on generated data, the corrected detector identifies the planted well, its owner and the owner's code |
| EndToEnd.TwoUserVillage | code/data_generation.py:53-170 | with two users and the second one chosen, a first user with one well gets no control activity (`int(0.9 * 1) == 0`) |
| EndToEnd.DetectAsWrittenMissesPlantedWell | code/data_validation.py:222-232 | counterexample: on generated data the detector as written can report a legal well while the planted well goes unreported |

## Left out

- MongoDB itself is not modelled: the connection, collection drops, `insert_many`, and the query and aggregation syntax. Queries are filters over in-memory sequences, and each generation step returns the collection it would insert.
- Printing and message formatting are not modelled. A check returns an `Outcome` value (`Pass`, `Fail(selected)` or `Warn`) instead of printing one.
- Randomness is an input. `random.choice`, `randint`, `uniform`, `sample` and `random()`, uuids and Faker names, addresses and sentences are draws. Their ranges are predicates (`UserDrawInRange`, `WellDrawsInRange`, `ConsumptionDrawsInRange`, `SampleInRange`) that the lemmas assume.
- Uniqueness of uuid4 values is an assumption (`UniqueUserIds`, `UniqueWellIds` inside `Generator.DrawsInRange`).
- Generator.UserDrawInRange: only the upper bound (no day after today) is modelled. The lower bounds of Faker's date windows (5 and 30 years ago) and the 50/50 choice between the windows are not.
- `datetime.now()` is evaluated afresh for every well and every activity. The model uses a single `now` for a whole run and for a whole validator run.
- Floating point is not modelled. Readings and increments are `real`, so `current - previous` is exact, with no rounding. Latitude and longitude are an opaque `Location` that is carried but not checked. `int(0.9 * n)` is `(9 * n) / 10`. The binary value of 0.9 is slightly above 0.9, so the two agree for every list length below 2^50.
- `str.upper()` is modelled for the Latin-1 range only (`Text.UpperChar`). Other scripts are returned unchanged. `str.split()` uses Python's whitespace set.
- Detector.Report: `OwnerNotFound` stands for what the detector does when the reported well's owner is not a user: `find_one` returns `None`, and subscripting it for the owner's name stops the program with an error (`code/data_validation.py:232-234`); the model returns this outcome instead of stopping.
- Detector.Rank: ties between equal totals are broken by first appearance in the consumption collection. The store leaves that order unspecified.
- Generator.GenerateControlActivities requires every sampled well to have a status-change date. Without one, `datetime.now() - None` stops the program with a `TypeError` (`code/data_generation.py:151-153`); generated legal wells always have one.
- `code/db_healthcheck.py`, the demography collection (dropped and never filled) and the validator's `main` driver are not part of this model.
- The first definition of `identify_illegal_well_and_owner` (code/data_validation.py:103-150) is not modelled. It is redefined at line 193, and only that later definition is ever called.

## Findings

| source | as written | input that shows it | evidently intended | confidence | as-written member | corrected member |
|---|---|---|---|---|---|---|
| code/data_validation.py:222-232 | The detector reports the first unmonitored suspect well in collection order. Legal wells are suspects too when they are Inactive, and the generator leaves about a tenth of legal wells uncontrolled. So a top consumer's uncontrolled Inactive legal well listed before the planted well is reported instead of it. | Two users, the second one chosen as the illegal user. The first user has one Inactive legal well. Then `int(0.9 * 1) = 0` activities, the detector reports the first user's legal well, and the planted well goes unreported. | Report the unmonitored suspect well of the highest-ranked consumer, which on generated data is the planted well. | not executed | Detector.Detect, EndToEnd.DetectAsWrittenMissesPlantedWell | Detector.DetectByRank, EndToEnd.DetectByRankFindsPlantedWell |
| code/data_validation.py:60-85 | The activity-date check announces that activity dates are after the wells' last status change "and before today". Its pipeline only compares each activity with the joined wells' status changes and never with today. | One activity dated a day after `now`, whose well changed status before it: the check prints PASS. | Also flag activities dated after `now`. | not executed | Checks.CheckControlActivityDates, Checks.FutureActivityPasses | Checks.CheckControlActivityDatesUntil, EndToEnd.GeneratedActivityDatesPassUntil |
