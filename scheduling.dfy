/** What `schedule_trigger` installs for a trigger and what `trigger_event`
    writes when a job fires, as values. The registry and the log table that
    receive them are the state of `Platform.Platform`. */
module Scheduling {
  import opened Models
  import opened Literals
  import opened Validation

  const SecondsPerMinute: int := 60
  const SecondsPerHour: int := 3600
  const SecondsPerDay: int := 86400

  /** Instants are whole seconds counted from 0001-01-01 00:00:00, the
      first instant Python's `datetime` can hold. The last one it can hold
      (at whole-second precision) is 9999-12-31 23:59:59, the end of day
      3652059 counted from 1. */
  const MaxTimestamp: int := 3652059 * SecondsPerDay - 1

  /** An instant a `datetime` can hold; arithmetic that leaves this range
      raises OverflowError. */
  predicate Representable(t: int) {
    0 <= t <= MaxTimestamp
  }

  /** The range of a C `int`: `datetime.replace` converts each argument to
      one before any range check, and raises OverflowError for a value that
      does not fit. */
  const CIntMin: int := -0x8000_0000
  const CIntMax: int := 0x7fff_ffff

  predicate FitsCInt(x: int) {
    CIntMin <= x <= CIntMax
  }

  /** A fixed_time value whose two pieces parse, but to an hour or minute
      that is not a C `int`. */
  predicate OverflowsCInt(value: string) {
    var p := ParseHourMinute(value);
    p.Some? && !(FitsCInt(p.value.0) && FitsCInt(p.value.1))
  }

  /** The trigger a job is installed with: a cron trigger on hour and
      minute, a single run date, or an interval in seconds. */
  datatype Plan =
    | Daily(hour: int, minute: int)
    | Once(runAt: int)
    | Every(seconds: int)

  /** The call a job makes when it fires: `trigger_event(app, triggerId,
      is_test, payload)`; a JNull override stands for `payload=None`. */
  datatype Call = TriggerEvent(triggerId: int, isTest: bool, payloadOverride: Json)

  datatype Job = Job(plan: Plan, call: Call)

  /** The exception `schedule_trigger` raises. A NULL `schedule_value` fails
      in `split` or `int` with an error other than ValueError; a run date
      past the `datetime` range raises OverflowError. */
  datatype Fault = ValueError | NoneValue | Overflow

  /** What one `schedule_trigger` call does to the registry. */
  datatype Outcome =
    | Install(job: Job)
    | NoJob
    | Raise(fault: Fault)

  /** The registry key `f'trigger_{id}'`: the id can be read back from it
      whenever `int` converts it at all. */
  function JobKey(triggerId: int): (k: string)
    ensures |k| > 8 && k[..8] == "trigger_"
    ensures FitsDigitLimit(triggerId) ==> ParseInt(k[8..]) == Some(triggerId)
  {
    assert FitsDigitLimit(triggerId) ==> ParseInt(FormatInt(triggerId)) == Some(triggerId) by {
      if FitsDigitLimit(triggerId) { ParseFormatInt(triggerId); }
    }
    var k := "trigger_" + FormatInt(triggerId);
    assert k[8..] == FormatInt(triggerId);
    k
  }

  /** Distinct triggers get distinct job keys. */
  lemma JobKeyInjective(a: int, b: int)
    ensures JobKey(a) == JobKey(b) <==> a == b
  {
    var prefix := "trigger_";
    assert FormatInt(a) == JobKey(a)[|prefix|..];
    assert FormatInt(b) == JobKey(b)[|prefix|..];
    if JobKey(a) == JobKey(b) {
      FormatIntInjective(a, b);
    }
  }

  /** `scheduler.add_job(..., id=key)` with the outcome of one
      `schedule_trigger` call. */
  function AddJob(jobs: map<string, Job>, key: string, outcome: Outcome): (r: map<string, Job>)
    ensures outcome.Install? ==> key in r && r[key] == outcome.job
    ensures forall k :: k in r && k != key ==> k in jobs && r[k] == jobs[k]
    ensures forall k :: k in jobs && k != key ==> k in r
    ensures !outcome.Install? ==> r == jobs
  {
    if outcome.Install? then jobs[key := outcome.job] else jobs
  }

  /** The default of `trigger_event`'s `is_test` parameter. */
  const DefaultFireIsTest: bool := false

  /** Every installed job calls `trigger_event(app, trigger.id)` and so
      leaves `is_test` and `payload` at their defaults. */
  function FireCall(triggerId: int): (c: Call)
    ensures c.triggerId == triggerId && !c.isTest && !Truthy(c.payloadOverride)
  {
    TriggerEvent(triggerId, DefaultFireIsTest, JNull)
  }

  /** The run date of a one-shot fixed_time job: today at hour:minute:00,
      or tomorrow when that is already earlier than `now`. */
  function OneShotRunTime(now: int, hour: int, minute: int): (r: int)
    requires InDay(hour, minute)
    ensures r % SecondsPerDay == hour * SecondsPerHour + minute * SecondsPerMinute
    ensures now <= r < now + SecondsPerDay
    ensures r / SecondsPerDay == now / SecondsPerDay
            <==> hour * SecondsPerHour + minute * SecondsPerMinute >= now % SecondsPerDay
  {
    var midnight := now - now % SecondsPerDay;
    var today := midnight + hour * SecondsPerHour + minute * SecondsPerMinute;
    if today < now then today + SecondsPerDay else today
  }

  /** The one-shot run date is the only instant in [now, now + 1 day) at
      that time of day. */
  lemma OneShotRunTimeUnique(now: int, hour: int, minute: int, t: int)
    requires InDay(hour, minute)
    requires t % SecondsPerDay == hour * SecondsPerHour + minute * SecondsPerMinute
    requires now <= t < now + SecondsPerDay
    ensures t == OneShotRunTime(now, hour, minute)
  {
    var r := OneShotRunTime(now, hour, minute);
    var d := t - r;
    assert -SecondsPerDay < d < SecondsPerDay;
    assert d % SecondsPerDay == 0 by {
      assert t == (t / SecondsPerDay) * SecondsPerDay + t % SecondsPerDay;
      assert r == (r / SecondsPerDay) * SecondsPerDay + r % SecondsPerDay;
      assert d == (t / SecondsPerDay - r / SecondsPerDay) * SecondsPerDay;
    }
  }

  /** `schedule_trigger`: the job the trigger compiles to at time `now`.
      fixed_time values go through `int` on both pieces of the split. An hour
      or minute outside the day is refused with ValueError by the cron
      trigger (recurring) or by `datetime.replace` (one-shot); the latter
      first raises OverflowError for one that is not a C `int`. fixed_interval
      values are not range-checked; an interval that puts `now + interval`
      outside the `datetime` range raises OverflowError, for a one-shot job
      in the `timedelta` addition and for a recurring one when the interval
      trigger computes its first run. */
  function CompileSchedule(t: Trigger, now: int): (r: Outcome)
    ensures r.Install? ==> r.job.call == FireCall(t.id)
    ensures t.kind != "scheduled" ==> r == NoJob
    ensures t.scheduleType != Some("fixed_time") && t.scheduleType != Some("fixed_interval") ==> r == NoJob
  {
    if t.kind != "scheduled" then NoJob
    else if t.scheduleType == Some("fixed_time") then
      match t.scheduleValue
      case None => Raise(NoneValue)
      case Some(value) =>
        match ParseHourMinute(value)
        case None => Raise(ValueError)
        case Some((hour, minute)) =>
          if t.isRecurring then
            if !InDay(hour, minute) then Raise(ValueError)
            else Install(Job(Daily(hour, minute), FireCall(t.id)))
          else if !(FitsCInt(hour) && FitsCInt(minute)) then Raise(Overflow)
          else if !InDay(hour, minute) then Raise(ValueError)
          else
            var runAt := OneShotRunTime(now, hour, minute);
            if Representable(runAt) then Install(Job(Once(runAt), FireCall(t.id)))
            else Raise(Overflow)
    else if t.scheduleType == Some("fixed_interval") then
      match t.scheduleValue
      case None => Raise(NoneValue)
      case Some(value) =>
        match ParseInt(value)
        case None => Raise(ValueError)
        case Some(interval) =>
          if !Representable(now + interval) then Raise(Overflow)
          else if t.isRecurring then Install(Job(Every(interval), FireCall(t.id)))
          else Install(Job(Once(now + interval), FireCall(t.id)))
    else NoJob
  }

  /** A scheduled, recurring fixed_time trigger whose value is "A:B", where
      the colon-free pieces A and B parse to a wall-clock hour and minute
      (zero-padded or not), installs one daily job at exactly that hour and
      minute. */
  lemma DailyPlanAt(t: Trigger, now: int, a: string, b: string, hour: int, minute: int)
    requires t.kind == "scheduled" && t.scheduleType == Some("fixed_time") && t.isRecurring
    requires ':' !in a && ':' !in b && t.scheduleValue == Some(a + ":" + b)
    requires ParseInt(a) == Some(hour) && ParseInt(b) == Some(minute) && InDay(hour, minute)
    ensures CompileSchedule(t, now) == Install(Job(Daily(hour, minute), FireCall(t.id)))
  {
    SplitPair(a, b);
  }

  /** A scheduled, one-shot fixed_time trigger whose value is "A:B" as above
      installs one run at the next H:M:00 that is not before `now`, unless
      that instant is past the `datetime` range, which can only happen on
      its last day. */
  lemma OneShotPlanAt(t: Trigger, now: int, a: string, b: string, hour: int, minute: int)
    requires t.kind == "scheduled" && t.scheduleType == Some("fixed_time") && !t.isRecurring
    requires ':' !in a && ':' !in b && t.scheduleValue == Some(a + ":" + b)
    requires ParseInt(a) == Some(hour) && ParseInt(b) == Some(minute) && InDay(hour, minute)
    ensures CompileSchedule(t, now).Install? <==> Representable(OneShotRunTime(now, hour, minute))
    ensures !CompileSchedule(t, now).Install? ==> CompileSchedule(t, now) == Raise(Overflow)
    ensures 0 <= now <= MaxTimestamp + 1 - SecondsPerDay ==> CompileSchedule(t, now).Install?
    ensures CompileSchedule(t, now).Install? ==>
            var plan := CompileSchedule(t, now).job.plan;
            plan.Once? && now <= plan.runAt < now + SecondsPerDay
            && plan.runAt % SecondsPerDay == hour * SecondsPerHour + minute * SecondsPerMinute
  {
    SplitPair(a, b);
  }

  /** A scheduled fixed_interval trigger whose value parses to n installs an
      n-second interval job when recurring and one run n seconds after `now`
      otherwise, provided `now + n` is a `datetime`; otherwise it raises
      OverflowError. */
  lemma IntervalPlan(t: Trigger, now: int, n: int)
    requires t.kind == "scheduled" && t.scheduleType == Some("fixed_interval")
    requires t.scheduleValue.Some? && ParseInt(t.scheduleValue.value) == Some(n)
    ensures CompileSchedule(t, now)
            == if !Representable(now + n) then Raise(Overflow)
               else Install(Job(if t.isRecurring then Every(n) else Once(now + n), FireCall(t.id)))
  {
  }

  /** A value that passed the creation handler's validation never makes
      `schedule_trigger` raise ValueError, so the handler's rollback branch
      is never taken for it; the only exception left is OverflowError. */
  lemma ValidatedValueSchedules(t: Trigger, now: int)
    requires t.kind == "scheduled" && t.scheduleType.Some? && t.scheduleValue.Some?
    requires ValidateScheduleValue(t.scheduleType.value, t.scheduleValue.value) == Accept
    ensures CompileSchedule(t, now).Raise? ==> CompileSchedule(t, now) == Raise(Overflow)
  {
  }

  /** Validation sets no upper bound on an interval beyond the digit limit of
      `int`: a one-shot interval longer than the whole `datetime` range but
      within that limit is accepted, and scheduling it then raises
      OverflowError. */
  lemma OverflowingIntervalAccepted(t: Trigger, now: int, n: int)
    requires t.kind == "scheduled" && t.scheduleType == Some("fixed_interval") && !t.isRecurring
    requires t.scheduleValue == Some(FormatInt(n)) && n > MaxTimestamp && FitsDigitLimit(n)
    requires Representable(now)
    ensures ValidateScheduleValue("fixed_interval", FormatInt(n)) == Accept
    ensures CompileSchedule(t, now) == Raise(Overflow)
  {
    FixedIntervalAccepts(n);
    ParseFormatInt(n);
  }

  /** For fixed_time, every value the creation handler refuses makes
      `schedule_trigger` raise. It raises ValueError exactly on the refused
      values, except that a one-shot one whose hour or minute is not a C
      `int` raises OverflowError instead. A recurring one raises nothing
      but ValueError, and only on refused values. */
  lemma FixedTimeRaisesIffRejected(t: Trigger, now: int)
    requires t.kind == "scheduled" && t.scheduleType == Some("fixed_time") && t.scheduleValue.Some?
    ensures ValidateScheduleValue("fixed_time", t.scheduleValue.value).Reject? ==> CompileSchedule(t, now).Raise?
    ensures CompileSchedule(t, now) == Raise(ValueError)
            <==> ValidateScheduleValue("fixed_time", t.scheduleValue.value).Reject?
                 && (t.isRecurring || !OverflowsCInt(t.scheduleValue.value))
    ensures !t.isRecurring && OverflowsCInt(t.scheduleValue.value) ==> CompileSchedule(t, now) == Raise(Overflow)
    ensures t.isRecurring ==>
            (CompileSchedule(t, now).Raise? <==> ValidateScheduleValue("fixed_time", t.scheduleValue.value).Reject?)
            && (CompileSchedule(t, now).Raise? ==> CompileSchedule(t, now) == Raise(ValueError))
  {
  }

  /** A one-shot fixed_time value `str(H):str(M)` whose hour or minute is
      not a C `int` (such as "2147483648:0") is refused as out of range at
      creation, but after an edit `schedule_trigger` raises OverflowError
      for it rather than ValueError. */
  lemma OneShotHugeTimeOverflows(t: Trigger, now: int, h: int, m: int)
    requires t.kind == "scheduled" && t.scheduleType == Some("fixed_time") && !t.isRecurring
    requires t.scheduleValue == Some(FormatInt(h) + ":" + FormatInt(m))
    requires FitsDigitLimit(h) && FitsDigitLimit(m) && !(FitsCInt(h) && FitsCInt(m))
    ensures ValidateScheduleValue("fixed_time", t.scheduleValue.value) == Reject(TimeOutOfRange)
    ensures CompileSchedule(t, now) == Raise(Overflow)
  {
    FixedTimeAccepts(h, m);
    SplitPair(FormatInt(h), FormatInt(m));
    ParseFormatInt(h);
    ParseFormatInt(m);
  }

  /** The edit path does not validate: an interval of "0", which creation
      refuses, installs a zero-second interval job after an edit. */
  lemma ZeroIntervalInstalledWithoutValidation(t: Trigger, now: int)
    requires t.kind == "scheduled" && t.scheduleType == Some("fixed_interval") && t.isRecurring
    requires t.scheduleValue == Some("0") && Representable(now)
    ensures ValidateScheduleValue("fixed_interval", "0") == Reject(NonPositiveInterval)
    ensures CompileSchedule(t, now) == Install(Job(Every(0), FireCall(t.id)))
  {
    ParseFormatInt(0);
    assert FormatInt(0) == "0";
    IntervalPlan(t, now, 0);
    FixedIntervalAccepts(0);
  }

  /** The payload a firing records: the override when it is truthy,
      otherwise the trigger's own payload. */
  function EffectivePayload(override: Json, stored: Json): (p: Json)
    ensures Truthy(override) ==> p == override
    ensures !Truthy(override) ==> p == stored
    ensures Truthy(p) ==> Truthy(override) || Truthy(stored)
  {
    if Truthy(override) then override else stored
  }

  /** The row `trigger_event` adds for trigger `t` fired at `now`. */
  function FiredLog(logId: int, t: Trigger, isTest: bool, override: Json, now: int): (e: EventLog)
    ensures e.id == logId && e.triggerId == t.id && e.triggeredAt == now
    ensures e.payload == EffectivePayload(override, t.payload)
    ensures e.isTest == isTest && e.state == DefaultLogState
  {
    EventLog(logId, t.id, now, EffectivePayload(override, t.payload), isTest, DefaultLogState)
  }

  /** A firing through a job records the trigger's own payload and
      `is_test = False`, whatever the trigger's own `is_test` is. */
  lemma JobFiringRecordsDefaults(logId: int, t: Trigger, now: int)
    ensures var c := FireCall(t.id);
            var e := FiredLog(logId, t, c.isTest, c.payloadOverride, now);
            e.payload == t.payload && !e.isTest && e.triggerId == t.id
  {
  }
}
