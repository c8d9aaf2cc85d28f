/** What creating or updating an automation accepts (src/taskowl/automations.py). */
module Definitions {
  import opened Rows
  import opened Workflow
  import opened ShortRetention

  /** The fields that are looked into; conditions, actions and the breaker are not. */
  datatype Definition = Definition(
    triggerType: string,
    eventType: Option<string>,
    scheduleSeconds: Option<int>,
    cooldownSeconds: Option<int>,
    maxRunsPerWindow: Option<int>,
    windowSeconds: Option<int>)

  datatype Refusal = UnknownTrigger | NoEventType | UnknownEventType | BadSchedule | BadCooldown | BadCap | BadWindow

  /** The automation that is stored for an accepted definition. */
  function Automate(d: Definition, id: int, enabled: bool, breaker: Option<Breaker>): Automation {
    var trigger := if d.triggerType == "event" && d.eventType.Some? then OnEvent(d.eventType.value)
                   else Periodic(d.scheduleSeconds);
    Automation(id, enabled, trigger, d.cooldownSeconds, d.maxRunsPerWindow, d.windowSeconds, breaker)
  }

  /** _validate_automation: the first thing that is wrong, if any. */
  method ValidateAutomation(d: Definition) returns (refusal: Option<Refusal>)
    ensures refusal.None? <==>
              && (d.triggerType == "event" || d.triggerType == "periodic")
              && (d.triggerType == "event" ==> d.eventType.Some? && IsEventType(d.eventType.value))
              && (d.triggerType == "periodic" ==> d.scheduleSeconds.Some? && d.scheduleSeconds.value > 0)
              && (d.cooldownSeconds.Some? ==> d.cooldownSeconds.value >= 0)
              && (d.maxRunsPerWindow.Some? ==>
                    d.maxRunsPerWindow.value > 0 && d.windowSeconds.Some? && d.windowSeconds.value > 0)
    ensures refusal.None? ==>
              forall id, enabled, breaker :: ValidDefinition(Automate(d, id, enabled, breaker))
    ensures refusal == Some(UnknownTrigger) <==> d.triggerType != "event" && d.triggerType != "periodic"
  {
    if d.triggerType != "event" && d.triggerType != "periodic" {
      return Some(UnknownTrigger);
    }
    if d.triggerType == "event" {
      if d.eventType.None? || d.eventType.value == "" {
        return Some(NoEventType);
      }
      if d.eventType.value !in EVENT_TYPES {
        EventTypesAre(d.eventType.value);
        return Some(UnknownEventType);
      }
      EventTypesAre(d.eventType.value);
    } else if d.scheduleSeconds.None? || d.scheduleSeconds.value <= 0 {
      return Some(BadSchedule);
    }
    if d.cooldownSeconds.Some? && d.cooldownSeconds.value < 0 {
      return Some(BadCooldown);
    }
    if d.maxRunsPerWindow.Some? && d.maxRunsPerWindow.value <= 0 {
      return Some(BadCap);
    }
    if d.maxRunsPerWindow.Some? && (d.windowSeconds.None? || d.windowSeconds.value <= 0) {
      return Some(BadWindow);
    }
    return None;
  }

  /** A task or worker event of a type that is stored. */
  predicate IsEventType(eventType: string) {
    || eventType == "task-sent" || eventType == "task-received" || eventType == "task-started"
    || eventType == "task-succeeded" || eventType == "task-failed" || eventType == "task-revoked"
    || eventType == "task-retried" || eventType == "task-rejected"
    || eventType == "worker-online" || eventType == "worker-heartbeat" || eventType == "worker-offline"
  }

  lemma EventTypesAre(eventType: string)
    ensures eventType in EVENT_TYPES <==> IsEventType(eventType)
    ensures eventType in EVENT_TYPES ==> eventType != ""
  {
    assert EVENT_TYPES[0] == "task-sent" && EVENT_TYPES[1] == "task-received" && EVENT_TYPES[2] == "task-started";
    assert EVENT_TYPES[3] == "task-succeeded" && EVENT_TYPES[4] == "task-failed" && EVENT_TYPES[5] == "task-revoked";
    assert EVENT_TYPES[6] == "task-retried" && EVENT_TYPES[7] == "task-rejected" && EVENT_TYPES[8] == "worker-online";
    assert EVENT_TYPES[9] == "worker-heartbeat" && EVENT_TYPES[10] == "worker-offline";
  }

  /** Every valid automation can be created: some accepted definition is stored as it. */
  lemma ValidAutomationsCanBeCreated(a: Automation) returns (d: Definition)
    requires ValidDefinition(a)
    ensures Automate(d, a.id, a.enabled, a.circuitBreaker) == a
    ensures d.triggerType == "event" || d.triggerType == "periodic"
    ensures d.triggerType == "event" ==> d.eventType.Some? && IsEventType(d.eventType.value)
    ensures d.triggerType == "periodic" ==> d.scheduleSeconds.Some? && d.scheduleSeconds.value > 0
    ensures d.cooldownSeconds.Some? ==> d.cooldownSeconds.value >= 0
    ensures d.maxRunsPerWindow.Some? ==>
              d.maxRunsPerWindow.value > 0 && d.windowSeconds.Some? && d.windowSeconds.value > 0
  {
    match a.trigger
    case OnEvent(eventType) =>
      EventTypesAre(eventType);
      d := Definition("event", Some(eventType), None, a.cooldownSeconds, a.maxRunsPerWindow, a.windowSeconds);
    case Periodic(schedule) =>
      d := Definition("periodic", None, schedule, a.cooldownSeconds, a.maxRunsPerWindow, a.windowSeconds);
  }
}
