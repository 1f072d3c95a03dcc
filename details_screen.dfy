/** `handleAddHabit` of src/screens/DetailsScreen.tsx: adds one named task at the picked time to
    the selected day of the stored schedule. */
module DetailsScreen {
  import opened Options
  import opened Schedules
  import opened ClockText

  /** What the handler leaves behind: the schedule it writes to the store, if any, and the
      contents of the name field afterwards. */
  datatype AddHabitOutcome = AddHabitOutcome(written: Option<Schedule>, name: string)

  /** An empty name writes nothing; otherwise the stored schedule is written back with one
      unaccomplished task named `name` at the picked hour and minute appended to `selectedDay`,
      every other day untouched, and the name field is cleared. */
  function HandleAddHabit(stored: Schedule, selectedDay: string, hours: nat, minutes: nat, name: string)
    : (r: AddHabitOutcome)
    ensures r.written.None? <==> name == ""
    ensures r.written.Some? ==>
      AppendedTo(stored, r.written.value, selectedDay, [Task(Format(hours, minutes), false, Some(name))])
    ensures r.name == ""
  {
    if name == "" then AddHabitOutcome(None, name)
    else
      var task := Task(Format(hours, minutes), false, Some(name));
      AppendIsAppendedTo(stored, selectedDay, [task]);
      AddHabitOutcome(Some(Append(stored, selectedDay, [task])), "")
  }
}
