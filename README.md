# Event-Trigger-Platform scheduling core in Dafny

The service stores two kinds of triggers in a trigger table:

- `api` triggers are created by a request.
- `scheduled` triggers carry a `schedule_type` of `fixed_time` (`"H:M"`) or `fixed_interval` (seconds).

A scheduled trigger is compiled into a job, which is installed in the scheduler's registry under `trigger_<id>`. Each firing appends a row to the event-log table. An hourly sweep deletes log rows older than 48 hours. Request handlers do four things:

- create api triggers;
- validate, store and schedule scheduled triggers, rolling back on `ValueError`;
- edit triggers and reschedule them;
- fire triggers manually for testing.

The model is in six modules, one file each:

- `models.dfy` (`Models`): the `Trigger` and `EventLog` rows with their column defaults, and the dictionaries the two `serialize` methods build, together with their inverses.
- `literals.dfy` (`Literals`): the subset of Python `int(text)`, `str(n)` and `text.split(':')` that schedule values go through.
- `validation.dfy` (`Validation`): the scheduled-trigger handler's check of `schedule_value`.
- `scheduling.dfy` (`Scheduling`): the job `schedule_trigger` compiles for a trigger at time `now`, and the log row `trigger_event` writes.
- `retention.dfy` (`Retention`): the query of `cleanup_old_logs` and the effect of deleting the rows it returns.
- `platform.dfy` (`Platform`): the class `Platform.Platform`.

`Platform.Platform` holds the trigger table, the log table, the job registry and the autoincrement counters. Its methods are the handlers and jobs, each proved against the functions above. Its invariant `Valid()` says three things:

- rows sit under their own keys;
- every job sits under the key of the trigger it fires;
- log keys increase.

Time is an integer number of seconds of naive local time, counted from 0001-01-01 00:00:00, and a day is 86400 seconds. `datetime.now()` is a parameter `now`, and one call's two reads of the clock are the same `now`. A `datetime` holds instants up to 9999-12-31 23:59:59 (`Scheduling.MaxTimestamp`). A run date computed past that limit raises OverflowError, which the model carries as the fault `Overflow`.

## Model

| member | source | states |
|---|---|---|
| Models.Truthy | app/job_scheduler.py:17 | a JSON value is false exactly when it is null, false, zero, or an empty text, list or object |
| Models.NewApiTrigger | app/routes.py:22-27 | the `api` row the API-trigger handler builds: NULL schedule columns and the `is_recurring` column default (no contract; see `Platform.Platform.CreateApiTrigger`) |
| Models.NewScheduledTrigger | app/routes.py:64-71 | the `scheduled` row the scheduled-trigger handler builds, with a NULL endpoint (no contract; see `Platform.Platform.CreateScheduledTrigger`) |
| Models.SerializeTrigger | app/models.py:13-23 | the dictionary has exactly the eight column names as keys, and reading it back gives the trigger unchanged |
| Models.SerializeTriggerInjective | app/models.py:13-23 | two triggers with the same serialized dictionary are equal |
| Models.SerializeEventLog | app/models.py:33-41 | the dictionary has exactly the six column names, `triggered_at` is its ISO rendering, and reading it back gives the row unchanged |
| Models.SerializeEventLogInjective | app/models.py:33-41 | two log rows with the same serialized dictionary are equal |
| Literals.FormatNat | app/job_scheduler.py:38 | `str(n)` of a natural number is a non-empty run of digits with no leading zero unless n is 0 |
| Literals.FormatInt | app/job_scheduler.py:38 | `str(n)` is non-empty and holds no colon |
| Literals.DigitsValueOfFormat | app/job_scheduler.py:38 | the digits `str(n)` writes have value n |
| Literals.ParseInt | app/routes.py:58 | `int(text)` succeeds exactly on an optional sign followed by one to 4300 ASCII digits (CPython's default digit limit), and the sign decides the sign of the result |
| Literals.TooManyDigitsRefused | app/routes.py:58 | a digit run longer than 4300 digits, signed or not, is refused by `int` |
| Literals.ParseFormatInt | app/routes.py:58 | `int(str(n)) == n` for every integer of at most 4300 digits |
| Literals.FormatIntInjective | app/job_scheduler.py:38 | distinct integers render as distinct strings |
| Literals.Split | app/routes.py:51 | `split(':')` gives at least one piece and no piece holds the separator |
| Literals.JoinSplit | app/routes.py:51 | joining the pieces of a split with the separator gives the text back, and there is one more piece than separators |
| Literals.SplitJoin | app/routes.py:51 | splitting a join of separator-free pieces gives the pieces back |
| Literals.SplitNoSeparator | app/routes.py:51 | a text without the separator splits into itself alone |
| Literals.SplitPrefix | app/routes.py:51 | a separator-free prefix followed by the separator becomes the first piece |
| Literals.SplitPair | app/routes.py:51 | `"A:B"` with colon-free A and B splits into exactly `[A, B]` |
| Validation.ParseHourMinute | app/routes.py:51 | `map(int, s.split(':'))` unpacked into two: on success the text holds exactly one colon and the two pieces parse to the hour and the minute |
| Validation.ValidateScheduleValue | app/routes.py:48-62 | an unknown schedule type is not examined, fixed_time values are refused only for time reasons, and fixed_interval values only for interval reasons |
| Validation.FixedTimeAccepts | app/routes.py:49-55 | `"H:M"` (each within the digit limit) is accepted if and only if 0 <= H < 24 and 0 <= M < 60, and is refused as out of range otherwise |
| Validation.FixedTimeOfPieces | app/routes.py:49-55 | `"A:B"` is refused as malformed when A or B is not an int, and otherwise is judged on the hour and minute they parse to |
| Validation.FixedTimeAcceptedShape | app/routes.py:49-55 | an accepted fixed_time value is exactly two pieces joined by one colon, parsing to a wall-clock time |
| Validation.FixedTimeHasOneColon | app/routes.py:51 | an accepted fixed_time value contains exactly one colon |
| Validation.FixedIntervalAccepts | app/routes.py:56-62 | `str(n)` as an interval, n within the digit limit, is accepted if and only if n > 0 |
| Validation.LongIntervalRefused | app/routes.py:57-62 | an interval of more than 4300 digits is refused as malformed with 400 |
| Validation.MalformedTimeExamples | app/routes.py:50-55 | `"12:30:00"` and `"abc"` are refused as malformed times |
| Validation.ParseDoubleZero | app/routes.py:51 | `int("00")` is 0: leading zeros are accepted |
| Validation.HourTwentyFourRefused | app/routes.py:52-53 | `"24:00"` is refused as out of range |
| Validation.HourTwentyFiveRefused | app/routes.py:52-53 | `"25:00"` is refused as out of range |
| Validation.MinuteSixtyRefused | app/routes.py:52-53 | `"12:60"` is refused as out of range |
| Validation.MinuteNinetyNineRefused | app/routes.py:52-53 | `"12:99"` is refused as out of range |
| Validation.RejectedIntervalExamples | app/routes.py:56-62 | `"0"` and `"-5"` are refused as non-positive, and `"abc"` as malformed |
| Scheduling.JobKey | app/job_scheduler.py:38 | the key starts with `trigger_` and the trigger id can be read back from the rest whenever `int` converts it |
| Scheduling.FireCall | app/job_scheduler.py:7-37 | every installed job calls `trigger_event` with its trigger's id, `is_test` false and no payload override |
| Scheduling.JobKeyInjective | app/job_scheduler.py:38 | `trigger_{a}` equals `trigger_{b}` if and only if a == b |
| Scheduling.AddJob | app/job_scheduler.py:34-39 | `add_job` puts the installed job under its key and leaves every other key as it was; with no job, the registry is unchanged |
| Scheduling.OneShotRunTime | app/job_scheduler.py:42-44 | the one-shot run time has time of day H:M:00, lies in [now, now + 1 day), and stays today exactly when H:M:00 is not before now |
| Scheduling.OneShotRunTimeUnique | app/job_scheduler.py:42-44 | it is the only instant in [now, now + 1 day) at that time of day |
| Scheduling.CompileSchedule | app/job_scheduler.py:24-73 | every installed job fires `trigger_event(app, id)` of its own trigger; a non-scheduled trigger or an unknown schedule type installs nothing |
| Scheduling.DailyPlanAt | app/job_scheduler.py:31-39 | a recurring fixed_time `"A:B"` trigger whose pieces parse to a wall-clock hour and minute, zero-padded or not, installs exactly one daily job at that hour and minute |
| Scheduling.OneShotPlanAt | app/job_scheduler.py:40-51 | a one-shot fixed_time `"A:B"` trigger installs one run in [now, now + 1 day) at time of day H:M:00; it raises OverflowError instead exactly when that run is past the `datetime` range, which can happen only on the range's last day |
| Scheduling.IntervalPlan | app/job_scheduler.py:53-73 | a fixed_interval trigger whose value parses to n installs an n-second interval when recurring and one run at now + n otherwise; it raises OverflowError when now + n is outside the `datetime` range |
| Scheduling.ValidatedValueSchedules | app/routes.py:49-80 | a value accepted by validation never makes `schedule_trigger` raise ValueError or fail on NULL; the only exception left is OverflowError |
| Scheduling.OverflowingIntervalAccepted | app/job_scheduler.py:64-66 | a one-shot interval longer than the whole `datetime` range but within the digit limit passes validation, and scheduling it raises OverflowError |
| Scheduling.FixedTimeRaisesIffRejected | app/job_scheduler.py:31-42 | for fixed_time, every value creation-time validation refuses makes `schedule_trigger` raise; it raises ValueError if and only if the value is refused, except that a one-shot hour or minute outside the C `int` range raises OverflowError instead; a recurring one raises nothing but ValueError |
| Scheduling.OneShotHugeTimeOverflows | app/job_scheduler.py:40-42 | a one-shot value `str(H):str(M)` with H or M outside the C `int` range (such as "2147483648:0") is refused as out of range at creation, and after an edit `datetime.replace` raises OverflowError for it |
| Scheduling.ZeroIntervalInstalledWithoutValidation | app/routes.py:140-146 | an edited interval of "0", which creation refuses, installs a zero-second interval job |
| Scheduling.EffectivePayload | app/job_scheduler.py:17 | the override is recorded when truthy and the stored payload otherwise; a truthy result comes from a truthy source |
| Scheduling.FiredLog | app/job_scheduler.py:14-20 | the new row references the trigger, is stamped `now`, carries the effective payload and the given `is_test`, and is `active` |
| Scheduling.JobFiringRecordsDefaults | app/job_scheduler.py:37 | a firing through an installed job records the trigger's own payload and `is_test = False` |
| Retention.Cutoff | app/job_scheduler.py:80 | `now - 48 hours` (no contract; its meaning is stated by `Retention.StaleMembership` and `Retention.BoundaryExample`) |
| Retention.Stale | app/job_scheduler.py:80 | the rows the query returns, in table order (no contract; see `Retention.StaleMembership` and `Retention.SweepPartitions`) |
| Retention.Retained | app/job_scheduler.py:80-83 | the rows the sweep leaves, in table order (no contract; see `Retention.RetainedMembership` and `Retention.DeleteStaleIsRetained`) |
| Retention.Without | app/job_scheduler.py:81-82 | the table after deleting every row whose key is in a set (no contract; see `Retention.WithoutOneMore` and `Retention.DeleteStaleIsRetained`) |
| Retention.RetainedMembership | app/job_scheduler.py:80 | a row survives the sweep if and only if it was in the table and is not strictly older than the cutoff |
| Retention.StaleMembership | app/job_scheduler.py:80 | the query returns exactly the rows strictly older than the cutoff |
| Retention.SweepPartitions | app/job_scheduler.py:80-83 | deleted and surviving rows together are the table, each row once |
| Retention.SweepIdempotent | app/job_scheduler.py:75-83 | a second sweep with the same cutoff deletes nothing |
| Retention.HeadKeySmallest | app/job_scheduler.py:81 | in a table with increasing keys the first row has the smallest key |
| Retention.ConsIncreasing | app/job_scheduler.py:81 | a row with a smaller key put in front keeps the keys increasing |
| Retention.RetainedIncreasing | app/job_scheduler.py:81-83 | surviving rows keep their key order |
| Retention.RetainedKeysBounded | app/job_scheduler.py:81-83 | surviving rows keep their key order and all keys stay below the autoincrement counter |
| Retention.WithoutNothing | app/job_scheduler.py:81-82 | deleting no rows changes nothing |
| Retention.WithoutOneMore | app/job_scheduler.py:81-82 | deleting one more row by key after a batch equals deleting the larger batch |
| Retention.WithoutAbsentKey | app/job_scheduler.py:82 | deleting a key no row has changes nothing |
| Retention.DeleteStaleIsRetained | app/job_scheduler.py:80-83 | deleting by key the rows the query returned leaves exactly the rows not older than the cutoff, when keys increase along the table |
| Retention.BoundaryExample | app/job_scheduler.py:80 | of rows aged 47, 48 and 49 hours only the 49-hour row is deleted, because the comparison is strict |
| Platform.Items | app/routes.py:120-127 | the edit arguments in declaration order, None where not given (no contract; see `Platform.EditOverwritesGivenColumns`) |
| Platform.Assign | app/routes.py:136 | `setattr` of one column (no contract; see `Platform.EditOverwritesGivenColumns`) |
| Platform.ApplyEdits | app/routes.py:134-136 | the trigger after the loop has gone through a prefix of the arguments (no contract; see `Platform.EditOverwritesGivenColumns` and `Platform.Platform.EditTrigger`) |
| Platform.EditOverwritesGivenColumns | app/routes.py:134-136 | the `setattr` loop overwrites exactly the columns whose argument is not None, never the id, and agrees with a column-wise definition |
| Platform.EmptyEditIsIdentity | app/routes.py:134-136 | an edit with no arguments leaves the trigger as it was |
| Platform.EditIdempotent | app/routes.py:134-136 | repeating an edit changes nothing more |
| Platform.Platform.constructor | app/__init__.py:11-56 | start-up keeps whatever rows the database file holds (none on a first start) and the counters above their keys; the registry holds no trigger job, so no stored trigger is scheduled again; the invariant holds |
| Platform.Platform.TriggerEvent | app/job_scheduler.py:7-22 | a missing trigger leaves the log table unchanged; otherwise exactly one row is appended and the existing rows are kept |
| Platform.Platform.ScheduleTrigger | app/job_scheduler.py:24-73 | the registry gains the compiled job under `trigger_{id}` and loses nothing; the raised exception is reported; the invariant is kept |
| Platform.Platform.CleanupOldLogs | app/job_scheduler.py:75-83 | deleting the selected rows one at a time leaves exactly the retained rows, and the invariant is kept |
| Platform.Platform.CreateApiTrigger | app/routes.py:13-31 | 201 and one new `api` trigger under a fresh key; no job is installed and no log is written |
| Platform.Platform.StoreAndSchedule | app/routes.py:64-82 | the trigger is stored under a fresh key whose job key is free, then scheduled; ValueError removes it again with 400; another exception gives 500 with the trigger kept |
| Platform.Platform.CreateScheduledTrigger | app/routes.py:33-82 | a refused value gives 400 and changes nothing; an accepted one is stored under a fresh key and its compiled job installed with 201, or, when its run date overflows the `datetime` range, kept without a job with 500 |
| Platform.EditColumns | app/routes.py:134-136 | the `setattr` loop leaves the row with exactly the given columns overwritten (`Overwritten`) and its id unchanged |
| Platform.Platform.EditTrigger | app/routes.py:117-148 | 404 and no change for an unknown key; otherwise the given columns are overwritten; a trigger that is now `scheduled` has its old job replaced by the newly compiled one (500 if that raises); other types keep their jobs |
| Platform.Platform.TestTrigger | app/routes.py:88-103 | 404 for an unknown key; one log with `is_test = False` and the trigger's own payload for `api` and `scheduled`; 400 and no log otherwise |

## Left out

- HTTP plumbing is not modelled: `reqparse` argument parsing and routing. Arguments arrive already parsed. `choices` on `schedule_type` and `type=bool` coercion are not modelled, so `CreateScheduledTrigger` accepts any schedule type and treats an unknown one as the code after parsing would.
- Response messages are not modelled. A handler's answer is its status code; an exception escaping a handler is status 500.
- The list endpoints `TriggerResource.get` and `EventLogResource.get` are not modelled. They only serialize rows, and `SerializeTrigger` and `SerializeEventLog` cover what they return.
- The database is abstract state: a map of triggers, a sequence of logs and autoincrement counters. Add, delete and commit are single atomic updates.
- SQLite key reuse after the highest row is deleted is not modelled. Keys come from a counter that only grows.
- APScheduler's runtime is not modelled: when cron, interval and date jobs fire, its threads, and what `add_job` does with a key that is already taken. A job is the plan value that is installed. The handlers never install under a taken key: `Valid()` and `JobKeyInjective` prove the key is free.
- `CronTrigger` is assumed to reject an hour outside 0-23 or a minute outside 0-59 with ValueError, whatever its size. `datetime.replace` is assumed to raise OverflowError for an hour or minute that is not a 32-bit C `int`, and ValueError for one that is but lies outside the day. Neither one's code is part of this model.
- `IntervalTrigger` may reject or normalise a non-positive interval. The model installs `Every(n)` as given, and a one-shot job at `now + n`.
- `IntervalTrigger` is assumed to compute its first run as `now + interval`, so that a recurring interval raises OverflowError exactly when a one-shot one would. Its code is not part of this model.
- Platform.Platform.CleanupOldLogs: does not model the OverflowError that `now - 48 hours` raises for a clock reading within the first two days of year 1.
- Concurrency between scheduler threads and requests is not modelled. The model is sequential.
- Time zones, DST, microseconds and the `isoformat` text are not modelled. A timestamp is integer seconds, and `IsoCell` stands for its rendering.
- `int()` is modelled on an optional sign followed by one to 4300 ASCII digits, the default limit of CPython 3.11 and later (and of the 3.8-3.10 security releases that introduced it). Python also accepts surrounding whitespace, `_` between digits and non-ASCII digits. The model refuses those values where Python would accept them.
- Literals.FormatInt: does not model that `str(n)` also raises ValueError past 4300 digits; it renders only trigger ids here, which come from a counter and never get that long.
- A NULL `schedule_value` on a scheduled trigger makes `schedule_trigger` raise `NoneValue` (AttributeError/TypeError in Python). Only an edit can produce one.
- JSON numbers are reals. Payload contents matter only through Python truthiness.
- App start-up (`app/__init__.py`) and `run.py` are not part of this model, apart from what the constructor states. The hourly interval job that runs the cleanup is not modelled: `CleanupOldLogs` is one run of it, and when runs happen is up to the scheduler.
- The `is_test` column default of the trigger table is not modelled. Both creation handlers always pass a value, so the default never applies.
- There is no delete-trigger handler, so no operation removes a trigger's job except an edit.
- Manual test-firing records `is_test = False` and the trigger's own payload. That is what the handler's call with default arguments does.
