# Shift-scheduling backend: job documents, rotation and randomizer

This project models the deterministic core of a small airport shift-scheduling
backend (FastAPI over MongoDB):

- **The five-team shift rotation.** `JobsDAL.populate_shifts` counts the days
  since 2024-11-01 and takes that count mod 5 to pick the morning team from
  `alpha, bravo, charlie, delta, echo`. Afternoon and night go to the next two
  teams. The `general` and `ramc` slots are filled every day.
- **The daily job document.** The jobs collection holds one document per date,
  keyed by `YYYY-MM-DD`. It stores the rotation, the employees with an
  active/inactive status and a log of randomizer runs. `JobsDAL` creates the
  document once per date, provided calls for the same date do not overlap (see
  "## Left out"). It appends, re-flags and removes employees, rewrites
  the shift detail and appends log entries. It also lists the active employees
  of one team by joining the document's users with the employee roster.
- **The randomizer.** It draws 40% of a team's active employees without
  replacement and splits the draw 5:3 into a main and a standby group. The
  handler is meant to record each run in the day's log. As written, the call at
  `api/main.py:203` fails and no run is logged (see "## Findings").
- **Reporting and mail.** The log is flattened into report rows. The main
  group's addresses are sent out in batches of 50.

Modules:

- `Records` holds the record shapes.
- `Dates` holds the calendar: CPython's proleptic ordinal, `weekday()`, and the
  `%Y-%m-%d` key with its parser.
- `ShiftRotation` holds the rotation.
- `JobDocs` states each collection operation as a transition on a map from
  `dateDocId` to document:
  - `$concatArrays` becomes `+`;
  - `$pull` becomes a filter;
  - `$set` with array filters becomes a pointwise update;
  - the aggregation pipeline becomes a filter plus a join.
- `JobsDal` is the data-access class. `ShiftDetail` is an object that
  `populate_shifts` updates in place. `JobsStore` holds the collection, and each
  of its methods is proved against the matching `JobDocs` transition. The loops
  that build the `$set` documents are methods with loop invariants.
- `Randomizer`, `Report` and `Mailing` hold the helpers of `api/main.py`.
- `Api` holds the handlers that compose them.

The following are parameters:

- the employee roster (the users collection);
- the clock (`datetime.now()`), as an integer timestamp;
- the random draw, as a permutation of the input positions whose first
  `SampleSize(n)` entries are the sample.

Where the code and its description differ, the model follows the code:

- The weekday test at `api/dal.py:257` is kept literally (`!= 5 or != 6`).
  It is proved to hold on every day.
- Two requested statuses for one userid are not a precondition of
  `update_user_status`. Each becomes an array filter with the same identifier,
  and MongoDB rejects the update. The model returns an error and leaves the
  store unchanged.

## Model

| member | source | states |
|---|---|---|
| Dates.Weekday | api/dal.py:257 | `weekday()` lies in 0..6 (Monday 0, Sunday 6) |
| Dates.Ordinal | api/dal.py:248 | definition: CPython's proleptic ordinal, 0001-01-01 being 1 |
| Dates.DaysSinceEpoch | api/dal.py:248 | definition: `(date - datetime(2024, 11, 1)).days` as a difference of ordinals |
| Dates.EpochFacts | api/dal.py:248 | the epoch 2024-11-01 has ordinal 739191, offset 0 and is a Friday (weekday 4) |
| Dates.NextDayAdvances | api/dal.py:248 | the calendar day after a date is valid, its day offset is one more, and its weekday is the next one mod 7, across month and year ends and leap days |
| Dates.DaysInMonth | api/dal.py:248 | every month has 28 to 31 days |
| Dates.DigitsRoundTrip | api/dal.py:227 | reading back a zero-padded decimal field gives the number |
| Dates.DateKey | api/dal.py:227 | the key is 10 characters `DDDD-DD-DD`: digits with dashes at positions 4 and 7 |
| Dates.DateKeyRoundTrip | api/dal.py:240 | parsing the `%Y-%m-%d` key of a valid date gives back that date |
| Dates.DateKeyInjective | api/dal.py:227-230 | two dates with the same key are the same date, so creations made one after another give one document per calendar day |
| ShiftRotation.RotationIndex | api/dal.py:251 | the index `days % 5` is a valid position, also for days before the epoch |
| ShiftRotation.RotationFor | api/dal.py:250-259 | definition: the five slots populate_shifts writes for a day offset |
| ShiftRotation.SlotsFollowTheList | api/dal.py:250-256 | afternoon is names[(d+1)%5] and night names[(d+2)%5], the mornings of the next two offsets |
| ShiftRotation.SlotsPairwiseDistinct | api/dal.py:251-256 | no team holds two of the morning, afternoon and night slots on one day |
| ShiftRotation.RotationPeriodFive | api/dal.py:251 | the whole shift detail for offset d+5 equals that for d |
| ShiftRotation.FixedSlotsSetOnEveryDay | api/dal.py:257-259 | the weekday test as written is true for every weekday, so general and ramc are always set |
| ShiftRotation.MorningOffset | api/dal.py:251-254 | the morning k days later is k places along the list, wrapping around |
| ShiftRotation.EachTeamMorningOncePerCycle | api/dal.py:250-254 | over any five consecutive offsets each team has the morning exactly once |
| ShiftRotation.TomorrowMorningIsTodayAfternoon | api/dal.py:248-255 | on consecutive calendar days, tomorrow's morning team is today's afternoon team |
| ShiftRotation.RotationExamples | api/dal.py:248-259 | the epoch gives alpha/bravo/charlie with general and ramc; offset -1 gives echo, offset 7 charlie |
| JobDocs.SeedUsers | api/dal.py:233 | the seeded users carry the given ids in order, all with status true |
| JobDocs.NewJobDoc | api/dal.py:233-240 | definition: the document inserted for a new date |
| JobDocs.CreateStep | api/dal.py:226-245 | an existing key gives "already exists" and an unchanged store; otherwise only the new key is added, holding the ids in order (all active), an empty log, prevDocId "", the formatted date, the rotation of that date as its shift detail and `now` as createdOn |
| JobDocs.CreateIsIdempotent | api/dal.py:227-230 | creating the same date twice, with any roster and clock, is creating it once |
| JobDocs.AddUserStep | api/dal.py:261-289 | the date's users grow by exactly (id, false) at the end; every other field and document is unchanged; an unknown date changes nothing |
| JobDocs.WithoutUser | api/dal.py:400-405 | `$pull`: the result is a subsequence with no entry for the id, shorter by the id's occurrences, and unchanged when the id is absent |
| JobDocs.RemoveUserStep | api/dal.py:400-405 | the date's users become exactly `WithoutUser` of the old users (order kept, no-op when absent); other fields and documents are unchanged; an unknown date changes nothing |
| JobDocs.WithoutUserDistributes | api/dal.py:402-405 | the pull keeps relative order: pulling from a concatenation is concatenating the pulls |
| JobDocs.RemoveUndoesAdd | api/dal.py:261-289 | removing a user that was not listed, right after adding it, restores the store |
| JobDocs.UserIdsAfterAddAndRemove | api/dal.py:261-289 | adding makes the listed ids the old ones plus the added id; removing makes them the old ones minus the removed id |
| JobDocs.WithoutUserKeepsOthers | api/dal.py:400-405 | after the pull an id is listed exactly when it was listed before and is not the pulled one |
| JobDocs.RequestedStatus | api/dal.py:296-299 | a request names a status for an id exactly when the id is in it, and that status is one of its entries for the id |
| JobDocs.WithStatuses | api/dal.py:302-303 | the status update keeps length and every userid in place |
| JobDocs.StatusStep | api/dal.py:292-304 | the update fails exactly when two request entries share a userid, and then changes nothing; an unknown date changes nothing; on success only the date's users change, to `WithStatuses` of them; the modified count is 0 or 1, and 1 exactly when the users changed |
| JobDocs.RequestedStatusOfDistinct | api/dal.py:296-299 | with distinct userids each request entry's status is the one applied to its id |
| JobDocs.StatusUpdateSemantics | api/dal.py:292-304 | every entry with a requested id takes the requested status, unrequested entries are kept, request ids matching nothing add nothing, length and order unchanged |
| JobDocs.ShiftDetailStep | api/dal.py:307-312 | the date's shift detail becomes exactly the given one (None fields included); the count is 0 or 1, and 1 exactly when it changed |
| JobDocs.RecordRunStep | api/dal.py:362-397 | exactly one entry is appended to the date's log, the old log is its prefix, nothing else changes |
| JobDocs.RecordedRunsAccumulate | api/dal.py:367-386 | n runs for a date, recorded one after another, leave the old log followed by the n entries, nothing overwritten or merged |
| JobDocs.Lookup | api/dal.py:333-345 | the `$lookup`/`$unwind`/shift `$match` keeps exactly the roster records with that id and that shift |
| JobDocs.ActiveJoin | api/dal.py:320-357 | definition: `$unwind` of users, the status `$match`, then the lookup, per entry in users order |
| JobDocs.ActiveByShift | api/dal.py:319-359 | definition: the join over the date's document, nothing when there is none |
| JobDocs.ActiveJoinMembership | api/dal.py:319-359 | an employee is returned exactly when the roster lists them on that team and the document lists them active |
| JobDocs.ActiveJoinDistributes | api/dal.py:326-332 | the rows follow the order of `users`: the rows of a concatenation are the concatenated rows |
| JobDocs.LookupOfAbsentId | api/dal.py:333-339 | an id the roster does not hold finds no record |
| JobDocs.LookupAtMostOne | api/dal.py:333-341 | with the unique employeeId index, a lookup finds at most one record |
| JobDocs.ActiveJoinAtMostOnePerEntry | api/dal.py:319-359 | with the unique employeeId index, at most one row per users entry |
| JobDocs.ActiveJoinExample | api/dal.py:319-359 | A and B on alpha active, C on bravo inactive: asking for alpha gives A then B |
| JobsDal.ShiftDetail.constructor | api/dal.py:120-125 | a fresh ShiftDetail has every slot unset |
| JobsDal.JobsStore.PopulateShifts | api/dal.py:247-259 | after the call the object holds the rotation of the date's day offset, whatever it held before |
| JobsDal.JobsStore.CreateJobDoc | api/dal.py:226-245 | the collection changes as `CreateStep` says and the outcome is its outcome |
| JobsDal.JobsStore.AddUserToCurrentJobDoc | api/dal.py:261-289 | the collection changes as `AddUserStep` says |
| JobsDal.JobsStore.StatusSetDict | api/dal.py:294-300 | the array filters list the request's userids in order; the set dict has exactly those keys, each mapped to the status the request gives it |
| JobsDal.JobsStore.UpdateUserStatus | api/dal.py:292-304 | result and collection are those of `StatusStep` |
| JobsDal.JobsStore.ShiftSetDict | api/dal.py:308-310 | the set dict has all five field keys, so applying it yields exactly the given detail whatever was stored |
| JobsDal.JobsStore.UpdateShiftDetailsInJobDoc | api/dal.py:307-312 | modified count and collection are those of `ShiftDetailStep` |
| JobsDal.JobsStore.ActiveUsersByShift | api/dal.py:319-359 | rows are exactly the roster employees of that team listed active in the date's document; none for a date without one |
| JobsDal.JobsStore.UpdateRandomizerRunInJobDoc | api/dal.py:362-397 | the collection changes as `RecordRunStep` says, with the entry (now, shift, team, result) |
| JobsDal.JobsStore.RemoveUserFromCurrentJobDoc | api/dal.py:400-405 | the collection changes as `RemoveUserStep` says |
| Randomizer.SampleSize | api/main.py:179-183 | floor(0.4 n), or n when that floor is 0: never above n, positive for n > 0, n itself below 3 |
| Randomizer.Pick | api/main.py:184 | the elements at the given positions, one per position |
| Randomizer.RandomSample | api/main.py:184-185 | the sample has exactly `SampleSize(n)` elements |
| Randomizer.SplitPoint | api/main.py:190 | the split is the largest k with 8k <= 5·size |
| Randomizer.GetRandom | api/main.py:188-194 | main followed by standby is the sample, and main has `SplitPoint` of the total |
| Randomizer.PickIsSubMultiset | api/main.py:184 | elements taken at distinct positions form a sub-multiset of the list |
| Randomizer.SampleWithoutReplacement | api/main.py:184 | the sample is drawn without replacement |
| Randomizer.MainAndStandbyDisjoint | api/main.py:188-194 | main and standby together never hold an employee more often than the input, and share no one when the input has no repeats |
| Randomizer.SplitExamples | api/main.py:179-194 | n = 0 gives empty groups, n = 1 a standby of one, n = 10 a 2/2 split, n = 20 a 5/3 split |
| Report.GroupRows | api/main.py:252-258 | one row per person of a group |
| Report.EntryRows | api/main.py:250-264 | definition: one run's Main rows followed by its Standby rows |
| Report.CsvRows | api/main.py:244-266 | definition: the runs' rows in log order |
| Report.CleanDataForCsv | api/main.py:242-266 | the loop produces exactly the report of the log |
| Report.CsvRowCount | api/main.py:242-266 | the report has one row per selected employee, main and standby, of every run |
| Report.CsvRowsDistribute | api/main.py:244-264 | runs appear in log order: the report of a concatenation is the concatenated reports |
| Report.EntryRowsLayout | api/main.py:246-264 | within a run, all main rows labelled Main come first, then all standby rows labelled Standby, each with the run's time and shift |
| Report.ReportOfAppendedRun | api/main.py:242-266 | a log with one more run yields the old report followed by that run's rows |
| Mailing.SelectedEmails | api/main.py:299 | one (email, name) pair per main-list member, in order; standby members are not selected |
| Mailing.Batches | api/main.py:303 | definition: consecutive slices of 50, the last possibly shorter |
| Mailing.BatchesUnfold | api/main.py:303 | the batches are the first 50 followed by the batches of the rest |
| Mailing.BatchesConcatenate | api/main.py:303 | the batches concatenate back to the selected list |
| Mailing.BatchSizes | api/main.py:303 | ceil(n/50) batches; all but the last hold exactly 50, the last 1 to 50 |
| Mailing.Recipients | api/main.py:227-228 | the `to` list takes the first component of each pair, in order |
| Mailing.SendPlan | api/main.py:299-306 | definition: the `to` list of each send, batch by batch |
| Mailing.SendMail | api/main.py:297-306 | the loop issues one send per batch, in order, each to the batch's addresses |
| Mailing.RecipientsAppend | api/main.py:227-228 | the recipients of a concatenation are the concatenated recipients |
| Mailing.RecipientsDistribute | api/main.py:303-306 | sending per batch reaches the recipients of the whole list in order |
| Mailing.SendPlanMailsMainGroup | api/main.py:297-306 | over all sends, every main-group address is mailed exactly once, in main-list order |
| Api.EmployeeIds | api/main.py:133-138 | one employeeId per roster record, in roster order |
| Api.CreateJobDocEndpoint | api/main.py:127-131 | the collection changes as `CreateStep` says for the roster's ids |
| Api.CreatedDocListsRoster | api/main.py:127-138 | a new day's document lists every roster employee as active, in roster order |
| Api.RandomizerEndpointAsWritten | api/main.py:197-204 | definition: the missing-argument failure with the store unchanged |
| Api.RandomizerEndpoint | api/main.py:197-204 | definition: draw from the team's active employees, append the run to the date's log, answer the draw |
| Api.AsWrittenLosesTheRun | api/main.py:197-204 | as written the handler fails and leaves the store as it was, while the corrected handler answers and grows the log by one |
| Api.CorrectedRunIsLogged | api/main.py:197-204 | corrected: the answer is a 40% draw of the team's active employees, all on that team and active that day, and the log gains exactly that run |
| Api.GetRandomUsersByShiftAsWritten | api/main.py:197-204 | as written the handler answers with the missing-argument error and changes nothing |
| Api.GetRandomUsersByShift | api/main.py:197-204 | corrected: answer and collection are those of `RandomizerEndpoint` |

## Left out

- MongoDB and motor I/O, the async plumbing and the `_id`/`inserted_id` values. The collection is a map from `dateDocId` to document. `create_job_doc`'s success reply (the inserted id) becomes `Created(dateDocId)`.
- The add-user and log-append pipelines write back with `$merge` into the hard-coded collection `daily_jobs`. The join reads the hard-coded `Users_db`. The model assumes these are the configured jobs and users collections.
- The pipeline's `$project` and `EmployeeByShiftResponse.from_doc` are not modelled separately. A joined row is read as the roster record itself, since its userid equals the record's employeeId.
- userid strings are not checked for validity as array-filter identifiers. They are assumed to be valid.
- `Dates.DateKey`: `%Y` zero-pads years below 1000 to four digits. Some C libraries do not, and the model always pads.
- Dates carry no time of day or time zone. A time of day does not change the whole-day difference that populate_shifts takes. The `tzinfo` stripping in `clean_data_for_csv` has no counterpart, and timestamps are integers.
- Randomizer.SampleSize: the percentage is fixed at 0.4 and computed as `(2n)/5`. The float product `0.4 * n` is not modelled. Other percentages are not modelled.
- `random.sample` and `datetime.now()` are parameters. The draw is a permutation of the input positions.
- `get_job_doc`, `get_shift_details_from_job_doc` and the report endpoint's Excel export are out of scope, as are the users DAL, routes, CORS, startup and index creation. Only the unique employeeId index is used, as the `UniqueIds` precondition. They are reads or library serialisers.
- The scheduled `create_daily_job_doc` is `Api.CreateJobDocEndpoint` with today's date. The scheduler itself is out of scope.
- E-mail delivery through resend and the unfinished `randomize_and_send` are out of scope. `Mailing.SendMail` returns the `to` lists instead of sending.
- Every operation is applied atomically and one at a time. Two races in the code are not modelled. `create_job_doc` does a `find_one` and then an `insert_one`, and no unique index exists on `dateDocId`. So the scheduled job, the startup call and `POST /api/jobdoc` running together can insert two documents for one date. The add-user and log-append pipelines read the document and write it back with `$merge`, so two overlapping calls can lose one append. "Once per date", "one document per calendar day" and "nothing overwritten" hold only for calls made one after another.
- `POST /api/jobdoc` parses a `datetime`, which may carry a time zone. For a date that has no document yet, subtracting the naive epoch from an aware value raises TypeError in `populate_shifts`. The model has no such failure: its dates are plain calendar dates.
- `populate_daily_shift` is a stub returning None. The print statements are out of scope.

## Findings

| source | as written | input that shows it | evidently intended | confidence | as-written member | corrected member |
|---|---|---|---|---|---|---|
| api/main.py:203 | `update_randomizer_run_in_job_doc(final_response, date_string, shift)` passes three arguments to a method that takes four (response, date, team, shift); the path's `shift` binds to `team` and the call raises TypeError, so the run is never logged and the request fails | any request to `/api/randomizer/alpha?date_string=2024-11-01` for a date whose document exists | pass both the team (the path parameter) and the shift slot, so the run is appended to the day's log as (now, shift, team, result) | not executed | Api.AsWrittenLosesTheRun | Api.CorrectedRunIsLogged |
