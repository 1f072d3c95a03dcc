/** The schedule handlers of App.tsx: appending a free-text time to the selected day and
    flipping a task's `accomplished` flag once its time has come. */
module App {
  import opened Options
  import opened Schedules
  import opened ClockText

  /** What `handleAddTime` leaves behind: the schedule it writes, if any, and the contents of the
      time field afterwards. */
  datatype AddTimeOutcome = AddTimeOutcome(written: Option<Schedule>, time: string)

  /** `handleAddTime`: with a day and a time entered, the schedule written back holds one new
      unaccomplished task at the end of that day and the time field is cleared; otherwise nothing
      is written and the field keeps its text. */
  function HandleAddTime(schedule: Schedule, selectedDay: string, time: string): (r: AddTimeOutcome)
    ensures r.written.None? <==> selectedDay == "" || time == ""
    ensures r.written.Some? ==> AppendedTo(schedule, r.written.value, selectedDay, [Task(time, false, None)])
    ensures r.written.Some? ==> r.time == ""
    ensures r.written.None? ==> r.time == time
  {
    if selectedDay == "" || time == "" then AddTimeOutcome(None, time)
    else
      AppendIsAppendedTo(schedule, selectedDay, [Task(time, false, None)]);
      AddTimeOutcome(Some(Append(schedule, selectedDay, [Task(time, false, None)])), "")
  }

  /** The check of `handleToggleAccomplished`: the current hour is later than the task's, or the
      hours agree and the current minute is not earlier. JavaScript comparisons with NaN are false,
      so a task whose hour part is not a number is never due; when only the minutes are missing or
      not a number, the task is due once the current hour is later. */
  predicate IsDue(nowHours: nat, nowMinutes: nat, taskTime: string) {
    match Parse(taskTime)
    case (Num(h), m) => nowHours > h || (nowHours == h && m.Num? && nowMinutes >= m.n)
    case (NaN, _) => false
  }

  /** For a well-formed task time, "due" is "the task's minute of the day is not after now";
      a task due exactly now counts. */
  lemma DueIffNotLater(nowHours: nat, nowMinutes: nat, hours: nat, minutes: nat)
    requires nowMinutes < 60 && minutes < 60
    ensures IsDue(nowHours, nowMinutes, Format(hours, minutes))
        <==> hours * 60 + minutes <= nowHours * 60 + nowMinutes
  {
    FormatParseRoundTrip(hours, minutes);
    if nowHours > hours {
      assert nowHours * 60 >= hours * 60 + 60;
    } else if nowHours < hours {
      assert hours * 60 >= nowHours * 60 + 60;
    }
  }

  /** A time whose hour reads as a number but whose minutes are missing or not a number is not
      treated as never due: the hour alone decides, and in that same hour the task is never due. */
  lemma HourDecidesHalfMalformedTime(nowHours: nat, nowMinutes: nat, hours: nat, minutesText: string)
    requires ':' !in minutesText && !AllDigits(minutesText)
    ensures Parse(DecimalText(hours)) == (Num(hours), NaN)
    ensures IsDue(nowHours, nowMinutes, DecimalText(hours)) <==> nowHours > hours
    ensures Parse(DecimalText(hours) + ":" + minutesText) == (Num(hours), NaN)
    ensures IsDue(nowHours, nowMinutes, DecimalText(hours) + ":" + minutesText) <==> nowHours > hours
  {
    var hourText := DecimalText(hours);
    DigitsOfDecimal(hours);
    SplitWithoutSeparator(hourText, ':');
    SplitTwoParts(hourText, ':', minutesText);
    assert hourText + ":" + minutesText == hourText + [':'] + minutesText;
  }

  /** The write `handleToggleAccomplished` makes once the task is due: the day's list (or `[]`)
      with the flag of the task at `index` negated, if there is one. */
  function WithFlagFlipped(schedule: Schedule, day: string, index: nat): Schedule {
    var tasks := Lookup(schedule, day);
    schedule[day := if index < |tasks| then tasks[index := tasks[index].(accomplished := !tasks[index].accomplished)] else tasks]
  }

  /** Only the flag of the chosen task changes: its time and name, the other tasks and the other
      days stay as they were. */
  lemma FlipChangesOnlyTheFlag(schedule: Schedule, day: string, index: nat)
    requires index < |Lookup(schedule, day)|
    ensures var r := WithFlagFlipped(schedule, day, index);
      && r.Keys == schedule.Keys
      && |r[day]| == |schedule[day]|
      && r[day][index].accomplished == !schedule[day][index].accomplished
      && r[day][index].time == schedule[day][index].time
      && r[day][index].name == schedule[day][index].name
      && (forall k :: 0 <= k < |r[day]| && k != index ==> r[day][k] == schedule[day][k])
      && (forall d :: d in schedule && d != day ==> r[d] == schedule[d])
  {
  }

  /** An index past the end changes no task; a day that was absent is written back as `[]`. */
  lemma FlipOutOfRange(schedule: Schedule, day: string, index: nat)
    requires |Lookup(schedule, day)| <= index
    ensures WithFlagFlipped(schedule, day, index) == schedule[day := Lookup(schedule, day)]
    ensures day in schedule ==> WithFlagFlipped(schedule, day, index) == schedule
  {
  }

  /** Flipping the same task twice restores the schedule. */
  lemma FlipTwiceRestores(schedule: Schedule, day: string, index: nat)
    requires day in schedule
    ensures WithFlagFlipped(WithFlagFlipped(schedule, day, index), day, index) == schedule
  {
    var once: Schedule := WithFlagFlipped(schedule, day, index);
    if index < |schedule[day]| {
      var t: Task := once[day][index];
      assert once[day][index := t.(accomplished := !t.accomplished)] == schedule[day];
    }
  }

  /** `handleToggleAccomplished`: with a day selected and the task due at `now`, copies the day's
      list, negates the flag at `index` in the copy if that task exists, and writes the schedule
      back with the copy; otherwise writes nothing. */
  method HandleToggleAccomplished(schedule: Schedule, selectedDay: string, index: nat, taskTime: string,
                                  nowHours: nat, nowMinutes: nat)
    returns (written: Option<Schedule>)
    ensures written.Some? <==> selectedDay != "" && IsDue(nowHours, nowMinutes, taskTime)
    ensures written.Some? ==> written.value == WithFlagFlipped(schedule, selectedDay, index)
  {
    if selectedDay == "" {
      return None;
    }
    if IsDue(nowHours, nowMinutes, taskTime) {
      var day := Lookup(schedule, selectedDay);
      var tasks := new Task[|day|](i requires 0 <= i < |day| => day[i]);
      assert tasks[..] == day;
      if index < tasks.Length {
        tasks[index] := tasks[index].(accomplished := !tasks[index].accomplished);
      }
      written := Some(schedule[selectedDay := tasks[..]]);
    } else {
      written := None;
    }
  }
}
