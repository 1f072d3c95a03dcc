/** The habit schedule that App.tsx, DetailsScreen and AdjustSpecificDaysScreen read and write:
    a map from a day name to that day's tasks, in insertion order. */
module Schedules {
  import opened Options

  /** A check-in. `name` is `None` for the tasks App.tsx creates, whose local task type has
      no name field; the other screens always set it. */
  datatype Task = Task(time: string, accomplished: bool, name: Option<string>)

  type Schedule = map<string, seq<Task>>

  /** The seven day names, in the order the screens list them. */
  const DaysOfWeek: seq<string> :=
    ["sunday", "monday", "tuesday", "wednesday", "thursday", "friday", "saturday"]

  /** `schedule[day] || []`: an absent day reads as an empty list. */
  function Lookup(schedule: Schedule, day: string): seq<Task> {
    if day in schedule then schedule[day] else []
  }

  /** `{...schedule, [day]: [...(schedule[day] || []), ...extra]}`. */
  function Append(schedule: Schedule, day: string, extra: seq<Task>): Schedule {
    schedule[day := Lookup(schedule, day) + extra]
  }

  /** `s'` is `s` with `extra` added after the existing tasks of `day`, every other entry as it was. */
  ghost predicate AppendedTo(s: Schedule, s': Schedule, day: string, extra: seq<Task>) {
    && s'.Keys == s.Keys + {day}
    && |s'[day]| == |Lookup(s, day)| + |extra|
    && s'[day][..|Lookup(s, day)|] == Lookup(s, day)
    && s'[day][|Lookup(s, day)|..] == extra
    && forall d :: d in s && d != day ==> s'[d] == s[d]
  }

  lemma AppendIsAppendedTo(s: Schedule, day: string, extra: seq<Task>)
    ensures AppendedTo(s, Append(s, day, extra), day, extra)
  {
    var t := Lookup(s, day) + extra;
    assert t[..|Lookup(s, day)|] == Lookup(s, day);
    assert t[|Lookup(s, day)|..] == extra;
  }
}
