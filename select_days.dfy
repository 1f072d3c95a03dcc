/** src/screens/AddHabit/SelectDaysScreen.tsx: choosing the days of a new habit one by one or
    through a preset, and the gate before the next step. */
module SelectDays {
  import opened Schedules
  import opened Lists

  /** The selected days and the highlighted preset (`""` when none). */
  datatype Selection = Selection(days: seq<string>, pattern: string)

  /** Where the "next" button leads. */
  datatype NextAction =
    | ConfigureTime(selectedDays: seq<string>, habitName: string)
    | HighlightPlaceholder(color: string)

  const WarningColor := "#b10f2e"

  /** `toggleDay`: a selected day is removed (every occurrence of it), an unselected day is
      added at the end; the preset highlight is cleared either way. */
  function ToggleDay(selection: Selection, day: string): (r: Selection)
    ensures r.pattern == ""
    ensures day in selection.days ==> forall d :: d in r.days <==> d in selection.days && d != day
    ensures day in selection.days ==> multiset(r.days) == multiset(selection.days)[day := 0]
    ensures NoDuplicates(selection.days) ==>
      forall k :: 0 <= k < |selection.days| && selection.days[k] == day ==>
        r.days == selection.days[..k] + selection.days[k + 1..]
    ensures day !in selection.days ==> r.days == selection.days + [day]
  {
    if day in selection.days then
      WithoutMembers(selection.days, day);
      WithoutCounts(selection.days, day);
      RemovesOnlyThatPosition(selection.days, day);
      Selection(Without(selection.days, day), "")
    else Selection(selection.days + [day], "")
  }

  lemma RemovesOnlyThatPosition(days: seq<string>, day: string)
    ensures NoDuplicates(days) ==>
      forall k :: 0 <= k < |days| && days[k] == day ==> Without(days, day) == days[..k] + days[k + 1..]
  {
    if NoDuplicates(days) {
      forall k | 0 <= k < |days| && days[k] == day
        ensures Without(days, day) == days[..k] + days[k + 1..]
      {
        WithoutUnique(days, k);
      }
    }
  }

  /** Toggling an unselected day twice gives back the selected days. */
  lemma ToggleTwiceRestores(selection: Selection, day: string)
    requires day !in selection.days
    ensures ToggleDay(ToggleDay(selection, day), day).days == selection.days
  {
    WithoutAppended(selection.days, day);
  }

  /** Toggling keeps a duplicate-free selection duplicate-free. */
  lemma ToggleKeepsNoDuplicates(selection: Selection, day: string)
    requires NoDuplicates(selection.days)
    ensures NoDuplicates(ToggleDay(selection, day).days)
  {
    if day in selection.days {
      WithoutNoDuplicates(selection.days, day);
    } else {
      AppendFreshNoDuplicates(selection.days, day);
    }
  }

  /** `selectAllDays`: the seven days once each, in the order the screens list them. */
  function SelectAllDays(): (r: Selection)
    ensures |r.days| == 7 && NoDuplicates(r.days)
    ensures forall d :: d in r.days <==> d in DaysOfWeek
    ensures r.days[0] == "sunday" && r.days[6] == "saturday"
    ensures r.pattern == "all"
  {
    Selection(DaysOfWeek, "all")
  }

  /** `selectWeekdays`: Monday to Friday, each once. */
  function SelectWeekdays(): (r: Selection)
    ensures NoDuplicates(r.days)
    ensures forall d :: d in r.days <==> d in DaysOfWeek && d != "saturday" && d != "sunday"
    ensures r.pattern == "weekdays"
  {
    Selection(["monday", "tuesday", "wednesday", "thursday", "friday"], "weekdays")
  }

  /** `selectWeekend`: Saturday then Sunday. */
  function SelectWeekend(): (r: Selection)
    ensures NoDuplicates(r.days)
    ensures forall d :: d in r.days <==> d == "saturday" || d == "sunday"
    ensures r.pattern == "weekend"
  {
    Selection(["saturday", "sunday"], "weekend")
  }

  /** The weekday and weekend presets split the week between them. */
  lemma PresetsPartitionWeek(d: string)
    ensures d in DaysOfWeek <==> d in SelectWeekdays().days || d in SelectWeekend().days
    ensures !(d in SelectWeekdays().days && d in SelectWeekend().days)
  {
  }

  /** The "next" button: with a habit name it moves on carrying the selection and the name;
      with an empty name it only turns the placeholder red. */
  function HandleNextPress(selection: Selection, habitName: string): (r: NextAction)
    ensures r.ConfigureTime? <==> habitName != ""
    ensures r.ConfigureTime? ==> r.selectedDays == selection.days && r.habitName == habitName
    ensures r.HighlightPlaceholder? ==> r.color == WarningColor
  {
    if habitName != "" then ConfigureTime(selection.days, habitName) else HighlightPlaceholder(WarningColor)
  }
}
