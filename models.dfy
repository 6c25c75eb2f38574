/** Record shapes of the two tables: Trigger and EventLog, their column
    defaults, and the dictionaries their `serialize` methods build. */
module Models {

  /** A nullable column or an absent argument. */
  datatype Option<+T> = None | Some(value: T)

  /** A decoded JSON column value. Numbers are reals, so both Python ints and
      floats fit. */
  datatype Json =
    | JNull
    | JBool(b: bool)
    | JNum(n: real)
    | JStr(s: string)
    | JArray(items: seq<Json>)
    | JObject(fields: map<string, Json>)

  /** Python truthiness of a decoded JSON value: None, False, zero and empty
      containers are false, and they are the only false values. */
  predicate Truthy(j: Json)
    ensures !Truthy(j) <==> j in {JNull, JBool(false), JNum(0.0), JStr(""), JArray([]), JObject(map[])}
  {
    match j
    case JNull => false
    case JBool(b) => b
    case JNum(n) => n != 0.0
    case JStr(s) => s != ""
    case JArray(items) => items != []
    case JObject(fields) => fields != map[]
  }

  /** A trigger row. `kind` is the `type` column, which is NOT NULL; the
      nullable text columns are options, and `payload` uses JNull for NULL. */
  datatype Trigger = Trigger(
    id: int,
    kind: string,
    scheduleType: Option<string>,
    scheduleValue: Option<string>,
    isRecurring: bool,
    apiEndpoint: Option<string>,
    payload: Json,
    isTest: bool)

  /** An event-log row. `triggeredAt` is NOT NULL, in whole seconds of naive
      local time. */
  datatype EventLog = EventLog(
    id: int,
    triggerId: int,
    triggeredAt: int,
    payload: Json,
    isTest: bool,
    state: string)

  // Column defaults.
  const DefaultIsRecurring: bool := false
  const DefaultLogState: string := "active"

  /** A value in a serialized dictionary. `IsoCell(t)` stands for the
      `isoformat()` rendering of the timestamp `t`. */
  datatype Cell =
    | IntCell(i: int)
    | TextCell(text: Option<string>)
    | BoolCell(b: bool)
    | JsonCell(j: Json)
    | IsoCell(at: int)

  const TriggerColumns: set<string> :=
    {"id", "type", "schedule_type", "schedule_value", "is_recurring", "api_endpoint", "payload", "is_test"}

  const EventLogColumns: set<string> :=
    {"id", "trigger_id", "triggered_at", "payload", "is_test", "state"}

  /** `Trigger.serialize`: one entry per column, under the column's name. */
  function SerializeTrigger(t: Trigger): (d: map<string, Cell>)
    ensures d.Keys == TriggerColumns
    ensures ReadTrigger(d) == Some(t)
  {
    map[
      "id" := IntCell(t.id),
      "type" := TextCell(Some(t.kind)),
      "schedule_type" := TextCell(t.scheduleType),
      "schedule_value" := TextCell(t.scheduleValue),
      "is_recurring" := BoolCell(t.isRecurring),
      "api_endpoint" := TextCell(t.apiEndpoint),
      "payload" := JsonCell(t.payload),
      "is_test" := BoolCell(t.isTest)]
  }

  /** Reads a trigger back from a serialized dictionary, column by column. */
  function ReadTrigger(d: map<string, Cell>): Option<Trigger> {
    if TriggerColumns <= d.Keys
       && d["id"].IntCell? && d["type"].TextCell? && d["type"].text.Some?
       && d["schedule_type"].TextCell? && d["schedule_value"].TextCell?
       && d["is_recurring"].BoolCell? && d["api_endpoint"].TextCell?
       && d["payload"].JsonCell? && d["is_test"].BoolCell?
    then
      Some(Trigger(d["id"].i, d["type"].text.value, d["schedule_type"].text,
                   d["schedule_value"].text, d["is_recurring"].b,
                   d["api_endpoint"].text, d["payload"].j, d["is_test"].b))
    else None
  }

  /** `EventLog.serialize`: one entry per column, `triggered_at` rendered in
      ISO form. */
  function SerializeEventLog(e: EventLog): (d: map<string, Cell>)
    ensures d.Keys == EventLogColumns
    ensures ReadEventLog(d) == Some(e)
  {
    map[
      "id" := IntCell(e.id),
      "trigger_id" := IntCell(e.triggerId),
      "triggered_at" := IsoCell(e.triggeredAt),
      "payload" := JsonCell(e.payload),
      "is_test" := BoolCell(e.isTest),
      "state" := TextCell(Some(e.state))]
  }

  /** Reads an event log back from a serialized dictionary. */
  function ReadEventLog(d: map<string, Cell>): Option<EventLog> {
    if EventLogColumns <= d.Keys
       && d["id"].IntCell? && d["trigger_id"].IntCell? && d["triggered_at"].IsoCell?
       && d["payload"].JsonCell? && d["is_test"].BoolCell?
       && d["state"].TextCell? && d["state"].text.Some?
    then
      Some(EventLog(d["id"].i, d["trigger_id"].i, d["triggered_at"].at,
                    d["payload"].j, d["is_test"].b, d["state"].text.value))
    else None
  }

  /** Serialization loses nothing: two triggers with the same dictionary are
      the same trigger. */
  lemma SerializeTriggerInjective(a: Trigger, b: Trigger)
    requires SerializeTrigger(a) == SerializeTrigger(b)
    ensures a == b
  {
    assert Some(a) == ReadTrigger(SerializeTrigger(a)) == ReadTrigger(SerializeTrigger(b)) == Some(b);
  }

  /** Likewise for event logs. */
  lemma SerializeEventLogInjective(a: EventLog, b: EventLog)
    requires SerializeEventLog(a) == SerializeEventLog(b)
    ensures a == b
  {
    assert Some(a) == ReadEventLog(SerializeEventLog(a)) == ReadEventLog(SerializeEventLog(b)) == Some(b);
  }

  /** A new `api` trigger as the API-trigger handler builds it: the schedule
      columns are NULL and `is_recurring` takes its default. */
  function NewApiTrigger(id: int, endpoint: string, payload: Json, isTest: bool): Trigger {
    Trigger(id, "api", None, None, DefaultIsRecurring, Some(endpoint), payload, isTest)
  }

  /** A new `scheduled` trigger as the scheduled-trigger handler builds it. */
  function NewScheduledTrigger(id: int, scheduleType: string, scheduleValue: string,
                               isRecurring: bool, payload: Json, isTest: bool): Trigger {
    Trigger(id, "scheduled", Some(scheduleType), Some(scheduleValue), isRecurring, None, payload, isTest)
  }
}
