/** The service's shared state — the trigger table, the event-log table and
    the scheduler's job registry — and the request handlers and jobs that
    change it. Each table write is one atomic state update. */
module Platform {
  import opened Models
  import opened Literals
  import opened Validation
  import opened Scheduling
  import opened Retention

  // HTTP status codes the handlers return.
  const StatusOk: int := 200
  const StatusCreated: int := 201
  const StatusBadRequest: int := 400
  const StatusNotFound: int := 404
  const StatusServerError: int := 500  // an exception escapes the handler

  /** One column assignment of the edit handler's `setattr` loop. */
  datatype Setting =
    | SetKind(kind: string)
    | SetScheduleType(scheduleType: string)
    | SetScheduleValue(scheduleValue: string)
    | SetRecurring(isRecurring: bool)
    | SetApiEndpoint(apiEndpoint: string)
    | SetPayload(payload: map<string, Json>)
    | SetTest(isTest: bool)

  /** The edit handler's parsed arguments; None is an argument that was not
      given. */
  datatype EditArgs = EditArgs(
    kind: Option<string>,
    scheduleType: Option<string>,
    scheduleValue: Option<string>,
    isRecurring: Option<bool>,
    apiEndpoint: Option<string>,
    payload: Option<map<string, Json>>,
    isTest: Option<bool>)

  /** `args.items()`, in the order the arguments are declared. */
  function Items(args: EditArgs): seq<Option<Setting>> {
    [ if args.kind.Some? then Some(SetKind(args.kind.value)) else None,
      if args.scheduleType.Some? then Some(SetScheduleType(args.scheduleType.value)) else None,
      if args.scheduleValue.Some? then Some(SetScheduleValue(args.scheduleValue.value)) else None,
      if args.isRecurring.Some? then Some(SetRecurring(args.isRecurring.value)) else None,
      if args.apiEndpoint.Some? then Some(SetApiEndpoint(args.apiEndpoint.value)) else None,
      if args.payload.Some? then Some(SetPayload(args.payload.value)) else None,
      if args.isTest.Some? then Some(SetTest(args.isTest.value)) else None ]
  }

  /** `setattr(trigger, key, value)`. */
  function Assign(t: Trigger, s: Setting): Trigger {
    match s
    case SetKind(k) => t.(kind := k)
    case SetScheduleType(v) => t.(scheduleType := Some(v))
    case SetScheduleValue(v) => t.(scheduleValue := Some(v))
    case SetRecurring(b) => t.(isRecurring := b)
    case SetApiEndpoint(e) => t.(apiEndpoint := Some(e))
    case SetPayload(p) => t.(payload := JObject(p))
    case SetTest(b) => t.(isTest := b)
  }

  /** The trigger after the loop has gone through `items`, skipping the
      arguments that are None. */
  function ApplyEdits(t: Trigger, items: seq<Option<Setting>>): Trigger {
    if items == [] then t
    else Step(ApplyEdits(t, items[..|items| - 1]), items[|items| - 1])
  }

  /** One iteration of the loop: `if value is not None: setattr(...)`. */
  function Step(t: Trigger, item: Option<Setting>): Trigger {
    if item.Some? then Assign(t, item.value) else t
  }

  lemma ApplyEditsPrefix(t: Trigger, items: seq<Option<Setting>>, k: nat)
    requires k < |items|
    ensures ApplyEdits(t, items[..k + 1]) == Step(ApplyEdits(t, items[..k]), items[k])
  {
    assert items[..k + 1][..k] == items[..k];
  }

  function Overwrite<T>(arg: Option<T>, current: T): T {
    if arg.Some? then arg.value else current
  }

  /** The first three iterations of the loop, unrolled. */
  lemma ApplyThreeEdits(t: Trigger, items: seq<Option<Setting>>)
    requires |items| == 7
    ensures ApplyEdits(t, items[..3]) == Step(Step(Step(t, items[0]), items[1]), items[2])
  {
    assert items[..0] == [];
    ApplyEditsPrefix(t, items, 0);
    ApplyEditsPrefix(t, items, 1);
    ApplyEditsPrefix(t, items, 2);
  }

  /** The loop over the seven arguments, unrolled. */
  lemma ApplySevenEdits(t: Trigger, items: seq<Option<Setting>>)
    requires |items| == 7
    ensures ApplyEdits(t, items)
            == Step(Step(Step(Step(Step(Step(Step(t, items[0]), items[1]), items[2]), items[3]), items[4]), items[5]), items[6])
  {
    ApplyThreeEdits(t, items);
    ApplyEditsPrefix(t, items, 3);
    ApplyEditsPrefix(t, items, 4);
    ApplyEditsPrefix(t, items, 5);
    ApplyEditsPrefix(t, items, 6);
    assert items[..7] == items;
  }

  /** The trigger with the given columns overwritten. */
  function Overwritten(t: Trigger, args: EditArgs): Trigger {
    t.(kind := Overwrite(args.kind, t.kind),
       scheduleType := if args.scheduleType.Some? then args.scheduleType else t.scheduleType,
       scheduleValue := if args.scheduleValue.Some? then args.scheduleValue else t.scheduleValue,
       isRecurring := Overwrite(args.isRecurring, t.isRecurring),
       apiEndpoint := if args.apiEndpoint.Some? then args.apiEndpoint else t.apiEndpoint,
       payload := if args.payload.Some? then JObject(args.payload.value) else t.payload,
       isTest := Overwrite(args.isTest, t.isTest))
  }

  /** Each of the seven loop steps overwrites its own column when the
      argument was given. */
  lemma EarlyStepItems(t: Trigger, args: EditArgs)
    ensures Step(t, Items(args)[0]) == t.(kind := Overwrite(args.kind, t.kind))
    ensures Step(t, Items(args)[1]) == t.(scheduleType := if args.scheduleType.Some? then args.scheduleType else t.scheduleType)
    ensures Step(t, Items(args)[2]) == t.(scheduleValue := if args.scheduleValue.Some? then args.scheduleValue else t.scheduleValue)
    ensures Step(t, Items(args)[3]) == t.(isRecurring := Overwrite(args.isRecurring, t.isRecurring))
  {
  }

  lemma LaterStepItems(t: Trigger, args: EditArgs)
    ensures Step(t, Items(args)[4]) == t.(apiEndpoint := if args.apiEndpoint.Some? then args.apiEndpoint else t.apiEndpoint)
    ensures Step(t, Items(args)[5]) == t.(payload := if args.payload.Some? then JObject(args.payload.value) else t.payload)
    ensures Step(t, Items(args)[6]) == t.(isTest := Overwrite(args.isTest, t.isTest))
  {
  }

  /** The first three steps set the kind and the schedule columns. */
  lemma FrontSteps(t: Trigger, args: EditArgs)
    ensures var items := Items(args);
            Step(Step(Step(t, items[0]), items[1]), items[2])
            == t.(kind := Overwrite(args.kind, t.kind),
                  scheduleType := if args.scheduleType.Some? then args.scheduleType else t.scheduleType,
                  scheduleValue := if args.scheduleValue.Some? then args.scheduleValue else t.scheduleValue)
  {
    var items := Items(args);
    var t1 := Step(t, items[0]);
    EarlyStepItems(t, args);
    EarlyStepItems(t1, args);
    EarlyStepItems(Step(t1, items[1]), args);
  }

  /** The last four steps set the remaining columns. */
  lemma BackSteps(t: Trigger, args: EditArgs)
    ensures var items := Items(args);
            Step(Step(Step(Step(t, items[3]), items[4]), items[5]), items[6])
            == t.(isRecurring := Overwrite(args.isRecurring, t.isRecurring),
                  apiEndpoint := if args.apiEndpoint.Some? then args.apiEndpoint else t.apiEndpoint,
                  payload := if args.payload.Some? then JObject(args.payload.value) else t.payload,
                  isTest := Overwrite(args.isTest, t.isTest))
  {
    var items := Items(args);
    var t4 := Step(t, items[3]);
    EarlyStepItems(t, args);
    LaterStepItems(t4, args);
    var t5 := Step(t4, items[4]);
    LaterStepItems(t5, args);
    LaterStepItems(Step(t5, items[5]), args);
  }

  lemma StepsOverwrite(t: Trigger, args: EditArgs)
    ensures var items := Items(args);
            Step(Step(Step(Step(Step(Step(Step(t, items[0]), items[1]), items[2]), items[3]), items[4]), items[5]), items[6])
            == Overwritten(t, args)
  {
    var items := Items(args);
    FrontSteps(t, args);
    BackSteps(Step(Step(Step(t, items[0]), items[1]), items[2]), args);
  }

  /** The edit handler's loop overwrites exactly the columns whose argument
      was given, and never the id. */
  lemma EditOverwritesGivenColumns(t: Trigger, args: EditArgs)
    ensures var u := ApplyEdits(t, Items(args));
            && u == Overwritten(t, args)
            && u.id == t.id
            && (args.kind.None? ==> u.kind == t.kind)
            && (args.scheduleType.None? ==> u.scheduleType == t.scheduleType)
            && (args.scheduleValue.None? ==> u.scheduleValue == t.scheduleValue)
            && (args.isRecurring.None? ==> u.isRecurring == t.isRecurring)
            && (args.apiEndpoint.None? ==> u.apiEndpoint == t.apiEndpoint)
            && (args.payload.None? ==> u.payload == t.payload)
            && (args.isTest.None? ==> u.isTest == t.isTest)
  {
    ApplySevenEdits(t, Items(args));
    StepsOverwrite(t, args);
  }

  /** An edit with no arguments leaves the trigger as it was. */
  lemma EmptyEditIsIdentity(t: Trigger)
    ensures ApplyEdits(t, Items(EditArgs(None, None, None, None, None, None, None))) == t
  {
    EditOverwritesGivenColumns(t, EditArgs(None, None, None, None, None, None, None));
  }

  /** Repeating an edit changes nothing more. */
  lemma EditIdempotent(t: Trigger, args: EditArgs)
    ensures ApplyEdits(ApplyEdits(t, Items(args)), Items(args)) == ApplyEdits(t, Items(args))
  {
    EditOverwritesGivenColumns(t, args);
    EditOverwritesGivenColumns(ApplyEdits(t, Items(args)), args);
  }

  /** The edit handler's `setattr` loop over the arguments: the row it
      leaves has exactly the given columns overwritten. */
  method EditColumns(original: Trigger, args: EditArgs) returns (t: Trigger)
    ensures t == ApplyEdits(original, Items(args))
    ensures t == Overwritten(original, args) && t.id == original.id
  {
    var items := Items(args);
    t := original;
    for i := 0 to |items|
      invariant t == ApplyEdits(original, items[..i])
    {
      ApplyEditsPrefix(original, items, i);
      if items[i].Some? {
        t := Assign(t, items[i].value);
      }
    }
    assert items[..|items|] == items;
    EditOverwritesGivenColumns(original, args);
  }

  class Platform {
    /** The trigger table, by primary key. */
    var triggers: map<int, Trigger>
    /** The event-log table, in insertion order. */
    var logs: seq<EventLog>
    /** The scheduler's job registry, by job id. */
    var jobs: map<string, Job>
    /** The keys the next inserted rows receive. */
    var nextTriggerId: int
    var nextLogId: int

    /** Rows are stored under their own keys, keys are never reused, and
        every job is stored under the key of the trigger it fires. */
    ghost predicate Valid()
      reads this
    {
      && (forall id :: id in triggers ==> triggers[id].id == id && id < nextTriggerId)
      && (forall key :: key in jobs ==>
            key == JobKey(jobs[key].call.triggerId) && jobs[key].call.triggerId < nextTriggerId)
      && IdsIncreasing(logs)
      && (forall i :: 0 <= i < |logs| ==> logs[i].id < nextLogId)
    }

    /** Start-up: the tables are whatever the database file already holds
        (empty on a first start, with autoincrement keys from 1), while the
        scheduler's registry starts empty and nothing schedules the stored
        triggers again. */
    constructor (storedTriggers: map<int, Trigger>, storedLogs: seq<EventLog>,
                 triggerCounter: int, logCounter: int)
      requires forall id :: id in storedTriggers ==> storedTriggers[id].id == id && id < triggerCounter
      requires IdsIncreasing(storedLogs)
      requires forall i :: 0 <= i < |storedLogs| ==> storedLogs[i].id < logCounter
      ensures Valid()
      ensures triggers == storedTriggers && logs == storedLogs && jobs == map[]
      ensures nextTriggerId == triggerCounter && nextLogId == logCounter
    {
      triggers := storedTriggers;
      logs := storedLogs;
      jobs := map[];
      nextTriggerId := triggerCounter;
      nextLogId := logCounter;
    }

    /** `trigger_event`: appends one log for an existing trigger; a missing
        trigger is skipped without a log and without an error. */
    method TriggerEvent(triggerId: int, isTest: bool, payload: Json, now: int)
      requires Valid()
      modifies this`logs, this`nextLogId
      ensures Valid()
      ensures triggerId !in triggers ==> logs == old(logs) && nextLogId == old(nextLogId)
      ensures triggerId in triggers ==>
                && logs == old(logs) + [FiredLog(old(nextLogId), triggers[triggerId], isTest, payload, now)]
                && nextLogId == old(nextLogId) + 1
    {
      if triggerId in triggers {
        var t := triggers[triggerId];
        logs := logs + [FiredLog(nextLogId, t, isTest, payload, now)];
        nextLogId := nextLogId + 1;
      }
    }

    /** `schedule_trigger`: installs the compiled job under `trigger_{id}`,
        installs nothing for a non-scheduled trigger or an unknown schedule
        type, and reports the exception it raises. It removes no job. */
    method ScheduleTrigger(t: Trigger, now: int) returns (fault: Option<Fault>)
      requires Valid() && t.id in triggers
      modifies this`jobs
      ensures Valid()
      ensures jobs == AddJob(old(jobs), JobKey(t.id), CompileSchedule(t, now))
      ensures fault == if CompileSchedule(t, now).Raise? then Some(CompileSchedule(t, now).fault) else None
    {
      var outcome := CompileSchedule(t, now);
      match outcome
      case Install(job) =>
        jobs := jobs[JobKey(t.id) := job];
        fault := None;
      case NoJob =>
        fault := None;
      case Raise(f) =>
        fault := Some(f);
    }

    /** `cleanup_old_logs`: deletes, one by one, the rows its query selects,
        leaving exactly the rows not strictly older than 48 hours. */
    method CleanupOldLogs(now: int)
      requires Valid()
      modifies this`logs
      ensures Valid()
      ensures logs == Retained(old(logs), Cutoff(now))
    {
      var cutoff := Cutoff(now);
      var stale := Stale(logs, cutoff);
      ghost var before := logs;
      WithoutNothing(before);
      assert IdsOf(stale[..0]) == {};
      for i := 0 to |stale|
        invariant logs == Without(before, IdsOf(stale[..i]))
      {
        WithoutOneMore(before, IdsOf(stale[..i]), stale[i].id);
        assert IdsOf(stale[..i + 1]) == IdsOf(stale[..i]) + {stale[i].id} by {
          assert stale[..i + 1] == stale[..i] + [stale[i]];
        }
        logs := Without(logs, {stale[i].id});
      }
      assert stale[..|stale|] == stale;
      DeleteStaleIsRetained(before, cutoff);
      RetainedKeysBounded(before, cutoff, nextLogId);
    }

    /** The API-trigger handler: stores one `api` trigger under a fresh key
        and installs no job. */
    method CreateApiTrigger(endpoint: string, payload: map<string, Json>, isTest: bool)
      returns (status: int, id: int)
      requires Valid()
      modifies this`triggers, this`nextTriggerId
      ensures Valid()
      ensures status == StatusCreated
      ensures id == old(nextTriggerId) && id !in old(triggers) && nextTriggerId == old(nextTriggerId) + 1
      ensures triggers == old(triggers)[id := NewApiTrigger(id, endpoint, JObject(payload), isTest)]
      ensures jobs == old(jobs) && logs == old(logs)
    {
      id := nextTriggerId;
      triggers := triggers[id := NewApiTrigger(id, endpoint, JObject(payload), isTest)];
      nextTriggerId := nextTriggerId + 1;
      status := StatusCreated;
    }

    /** Lines after validation in the scheduled-trigger handler: store the
        trigger, schedule it, and on ValueError delete it again and answer
        400. Another exception escapes with the trigger stored. */
    method StoreAndSchedule(scheduleType: string, scheduleValue: string, isRecurring: bool,
                            payload: map<string, Json>, isTest: bool, now: int)
      returns (status: int, id: Option<int>)
      requires Valid()
      modifies this`triggers, this`nextTriggerId, this`jobs
      ensures Valid()
      ensures logs == old(logs) && nextTriggerId == old(nextTriggerId) + 1
      ensures var newId := old(nextTriggerId);
              var t := NewScheduledTrigger(newId, scheduleType, scheduleValue, isRecurring, JObject(payload), isTest);
              var outcome := CompileSchedule(t, now);
              && newId !in old(triggers)
              && JobKey(newId) !in old(jobs)
              && jobs == AddJob(old(jobs), JobKey(newId), outcome)
              && (outcome == Raise(ValueError) ==> status == StatusBadRequest && id == None && triggers == old(triggers))
              && (outcome != Raise(ValueError) ==> id == Some(newId) && triggers == old(triggers)[newId := t])
              && (!outcome.Raise? ==> status == StatusCreated)
              && (outcome.Raise? && outcome.fault != ValueError ==> status == StatusServerError)
    {
      var newId := nextTriggerId;
      var t := NewScheduledTrigger(newId, scheduleType, scheduleValue, isRecurring, JObject(payload), isTest);
      forall key | key in jobs
        ensures key != JobKey(newId)
      {
        JobKeyInjective(newId, jobs[key].call.triggerId);
      }
      triggers := triggers[newId := t];
      nextTriggerId := nextTriggerId + 1;
      var fault := ScheduleTrigger(t, now);
      if fault == Some(ValueError) {
        triggers := triggers - {newId};
        status, id := StatusBadRequest, None;
      } else {
        status := if fault.None? then StatusCreated else StatusServerError;
        id := Some(newId);
      }
    }

    /** The scheduled-trigger handler: a refused `schedule_value` is answered
        with 400 before anything is stored or installed; an accepted one is
        stored under a fresh key and scheduled, and the rollback is never
        needed. An accepted value whose run date leaves the `datetime` range
        escapes as a 500 with the trigger kept. */
    method CreateScheduledTrigger(scheduleType: string, scheduleValue: string, isRecurring: bool,
                                  payload: map<string, Json>, isTest: bool, now: int)
      returns (status: int, id: Option<int>)
      requires Valid()
      modifies this`triggers, this`nextTriggerId, this`jobs
      ensures Valid()
      ensures logs == old(logs)
      ensures ValidateScheduleValue(scheduleType, scheduleValue).Reject? ==>
                && status == StatusBadRequest && id == None
                && triggers == old(triggers) && jobs == old(jobs) && nextTriggerId == old(nextTriggerId)
      ensures ValidateScheduleValue(scheduleType, scheduleValue) == Accept ==>
                var newId := old(nextTriggerId);
                var t := NewScheduledTrigger(newId, scheduleType, scheduleValue, isRecurring, JObject(payload), isTest);
                && status == (if CompileSchedule(t, now).Raise? then StatusServerError else StatusCreated)
                && (CompileSchedule(t, now).Raise? ==> CompileSchedule(t, now) == Raise(Overflow))
                && id == Some(newId) && newId !in old(triggers) && nextTriggerId == newId + 1
                && triggers == old(triggers)[newId := t]
                && JobKey(newId) !in old(jobs)
                && jobs == AddJob(old(jobs), JobKey(newId), CompileSchedule(t, now))
    {
      var verdict := ValidateScheduleValue(scheduleType, scheduleValue);
      if verdict.Reject? {
        return StatusBadRequest, None;
      }
      ghost var t := NewScheduledTrigger(nextTriggerId, scheduleType, scheduleValue, isRecurring, JObject(payload), isTest);
      ValidatedValueSchedules(t, now);
      status, id := StoreAndSchedule(scheduleType, scheduleValue, isRecurring, payload, isTest, now);
    }

    /** The edit handler: 404 for an unknown key; otherwise overwrite the
        given columns, and when the trigger is now `scheduled`, remove its
        job (absence tolerated) and schedule it again. An exception from
        scheduling escapes as a 500 after the edit is stored and the old job
        is gone. Nothing is validated, and a trigger changed away from
        `scheduled` keeps its job. */
    method EditTrigger(triggerId: int, args: EditArgs, now: int) returns (status: int)
      requires Valid()
      modifies this`triggers, this`jobs
      ensures Valid()
      ensures logs == old(logs) && nextTriggerId == old(nextTriggerId)
      ensures triggerId !in old(triggers) ==>
                status == StatusNotFound && triggers == old(triggers) && jobs == old(jobs)
      ensures triggerId in old(triggers) ==>
                var edited := ApplyEdits(old(triggers)[triggerId], Items(args));
                var key := JobKey(triggerId);
                var outcome := CompileSchedule(edited, now);
                && triggers == old(triggers)[triggerId := edited]
                && (edited.kind != "scheduled" ==> jobs == old(jobs) && status == StatusOk)
                && (edited.kind == "scheduled" ==>
                      && jobs == AddJob(old(jobs) - {key}, key, outcome)
                      && status == (if outcome.Raise? then StatusServerError else StatusOk))
    {
      if triggerId !in triggers {
        return StatusNotFound;
      }
      var t := EditColumns(triggers[triggerId], args);
      triggers := triggers[triggerId := t];
      status := StatusOk;
      if t.kind == "scheduled" {
        jobs := jobs - {JobKey(t.id)};
        var fault := ScheduleTrigger(t, now);
        status := if fault.Some? then StatusServerError else StatusOk;
      }
    }

    /** The test-fire handler: 404 for an unknown key; one log with
        `is_test = False` and the trigger's own payload for an `api` or
        `scheduled` trigger; 400 and no log for any other type. */
    method TestTrigger(triggerId: int, now: int) returns (status: int)
      requires Valid()
      modifies this`logs, this`nextLogId
      ensures Valid()
      ensures triggerId !in triggers ==>
                status == StatusNotFound && logs == old(logs) && nextLogId == old(nextLogId)
      ensures triggerId in triggers && triggers[triggerId].kind in {"api", "scheduled"} ==>
                && status == StatusOk
                && logs == old(logs) + [FiredLog(old(nextLogId), triggers[triggerId], false, JNull, now)]
                && nextLogId == old(nextLogId) + 1
      ensures triggerId in triggers && triggers[triggerId].kind !in {"api", "scheduled"} ==>
                status == StatusBadRequest && logs == old(logs) && nextLogId == old(nextLogId)
    {
      if triggerId !in triggers {
        return StatusNotFound;
      }
      var t := triggers[triggerId];
      if t.kind == "api" {
        TriggerEvent(t.id, DefaultFireIsTest, JNull, now);
        return StatusOk;
      } else if t.kind == "scheduled" {
        TriggerEvent(t.id, DefaultFireIsTest, JNull, now);
        return StatusOk;
      }
      return StatusBadRequest;
    }
  }
}
