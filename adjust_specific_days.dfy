/** src/screens/AddHabit/AdjustSpecificDaysScreen.tsx: per-day lists of times for a new habit,
    seeded from the times chosen on the previous screen, edited day by day and finally merged
    into the stored schedule. */
module AdjustSpecificDays {
  import opened Options
  import opened Schedules
  import opened Lists

  /** `dayAdjustments`: for each day, the times of the new habit on that day. */
  type Adjustments = map<string, seq<string>>

  /** The adjustment lists together with the pending edit (`editIndex`, `null` when none). */
  datatype Editor = Editor(adjustments: Adjustments, editIndex: Option<nat>)

  /** `dayAdjustments[day] || []`. */
  function TimesFor(adjustments: Adjustments, day: string): seq<string> {
    if day in adjustments then adjustments[day] else []
  }

  /** The initial `reduce`, which assigns `acc[day] = fixedTimes` for every selected day in turn. */
  method InitialAdjustments(selectedDays: seq<string>, fixedTimes: seq<string>) returns (acc: Adjustments)
    ensures forall d :: d in acc <==> d in selectedDays
    ensures forall d :: d in acc ==> acc[d] == fixedTimes
  {
    acc := map[];
    for i := 0 to |selectedDays|
      invariant forall d :: d in acc <==> d in selectedDays[..i]
      invariant forall d :: d in acc ==> acc[d] == fixedTimes
    {
      assert selectedDays[..i + 1] == selectedDays[..i] + [selectedDays[i]];
      acc := acc[selectedDays[i] := fixedTimes];
    }
    assert selectedDays[..|selectedDays|] == selectedDays;
  }

  /** `times.map((time) => ({ time, accomplished: false, name: habitName }))`. */
  function NewTasks(times: seq<string>, habitName: string): seq<Task> {
    seq(|times|, i requires 0 <= i < |times| => Task(times[i], false, Some(habitName)))
  }

  /** The entry the save builds for one day: the stored list followed by the new tasks. */
  function SavedDay(stored: Schedule, adjustments: Adjustments, habitName: string, day: string): seq<Task> {
    Lookup(stored, day) + NewTasks(TimesFor(adjustments, day), habitName)
  }

  /** The `reduce` of `handleSave`, which spreads `acc` and sets one day per step. */
  function SaveEntries(stored: Schedule, adjustments: Adjustments, habitName: string,
                       days: seq<string>, acc: Schedule): Schedule
    decreases |days|
  {
    if days == [] then acc
    else SaveEntries(stored, adjustments, habitName, days[1..],
                     acc[days[0] := SavedDay(stored, adjustments, habitName, days[0])])
  }

  lemma {:induction false} SaveEntriesContents(stored: Schedule, adjustments: Adjustments, habitName: string,
                                               days: seq<string>, acc: Schedule)
    ensures var r := SaveEntries(stored, adjustments, habitName, days, acc);
      && (forall d :: d in r <==> d in acc || d in days)
      && (forall d :: d in days ==> r[d] == SavedDay(stored, adjustments, habitName, d))
      && (forall d :: d in acc && d !in days ==> r[d] == acc[d])
    decreases |days|
  {
    if days != [] {
      var acc' := acc[days[0] := SavedDay(stored, adjustments, habitName, days[0])];
      SaveEntriesContents(stored, adjustments, habitName, days[1..], acc');
      assert days == [days[0]] + days[1..];
    }
  }

  /** `handleSave`: every selected day becomes its stored list followed by one unaccomplished task
      named `habitName` per adjustment time, in order; every other stored day is kept as it was. */
  function HandleSave(stored: Schedule, selectedDays: seq<string>, adjustments: Adjustments, habitName: string)
    : (r: Schedule)
    ensures forall d :: d in r <==> d in stored || d in selectedDays
    ensures forall d :: d in selectedDays ==>
      && |r[d]| == |Lookup(stored, d)| + |TimesFor(adjustments, d)|
      && r[d][..|Lookup(stored, d)|] == Lookup(stored, d)
      && forall k :: 0 <= k < |TimesFor(adjustments, d)| ==>
           r[d][|Lookup(stored, d)| + k] == Task(TimesFor(adjustments, d)[k], false, Some(habitName))
    ensures forall d :: d in stored && d !in selectedDays ==> r[d] == stored[d]
  {
    SaveEntriesContents(stored, adjustments, habitName, selectedDays, map[]);
    SavedDaysShape(stored, adjustments, habitName, selectedDays);
    stored + SaveEntries(stored, adjustments, habitName, selectedDays, map[])
  }

  /** Each day's saved entry is its stored list followed by one new task per adjustment time. */
  lemma SavedDayShape(stored: Schedule, adjustments: Adjustments, habitName: string, d: string)
    ensures |SavedDay(stored, adjustments, habitName, d)| == |Lookup(stored, d)| + |TimesFor(adjustments, d)|
    ensures SavedDay(stored, adjustments, habitName, d)[..|Lookup(stored, d)|] == Lookup(stored, d)
    ensures forall k :: 0 <= k < |TimesFor(adjustments, d)| ==>
      SavedDay(stored, adjustments, habitName, d)[|Lookup(stored, d)| + k]
        == Task(TimesFor(adjustments, d)[k], false, Some(habitName))
  {
    var before, added := Lookup(stored, d), NewTasks(TimesFor(adjustments, d), habitName);
    assert SavedDay(stored, adjustments, habitName, d) == before + added;
    assert (before + added)[..|before|] == before;
    forall k | 0 <= k < |added| ensures (before + added)[|before| + k] == added[k] {
    }
  }

  lemma SavedDaysShape(stored: Schedule, adjustments: Adjustments, habitName: string, days: seq<string>)
    ensures forall d :: d in days ==>
      && |SavedDay(stored, adjustments, habitName, d)| == |Lookup(stored, d)| + |TimesFor(adjustments, d)|
      && SavedDay(stored, adjustments, habitName, d)[..|Lookup(stored, d)|] == Lookup(stored, d)
      && forall k :: 0 <= k < |TimesFor(adjustments, d)| ==>
           SavedDay(stored, adjustments, habitName, d)[|Lookup(stored, d)| + k]
             == Task(TimesFor(adjustments, d)[k], false, Some(habitName))
  {
    forall d | d in days {
      SavedDayShape(stored, adjustments, habitName, d);
    }
  }

  /** Naming a day twice among the selected days adds its times once: each entry is rebuilt from
      the stored list, not from the previous step. */
  lemma SaveIgnoresRepeatedDay(stored: Schedule, selectedDays: seq<string>, adjustments: Adjustments,
                               habitName: string, day: string)
    requires day in selectedDays
    ensures HandleSave(stored, selectedDays + [day], adjustments, habitName)
         == HandleSave(stored, selectedDays, adjustments, habitName)
  {
    SaveEntriesIgnoresRepeatedDay(stored, adjustments, habitName, selectedDays, day);
  }

  lemma SaveEntriesIgnoresRepeatedDay(stored: Schedule, adjustments: Adjustments, habitName: string,
                                      selectedDays: seq<string>, day: string)
    requires day in selectedDays
    ensures SaveEntries(stored, adjustments, habitName, selectedDays + [day], map[])
         == SaveEntries(stored, adjustments, habitName, selectedDays, map[])
  {
    var e1 := SaveEntries(stored, adjustments, habitName, selectedDays, map[]);
    var e2 := SaveEntries(stored, adjustments, habitName, selectedDays + [day], map[]);
    SaveEntriesContents(stored, adjustments, habitName, selectedDays, map[]);
    SaveEntriesContents(stored, adjustments, habitName, selectedDays + [day], map[]);
    assert forall d :: d in selectedDays + [day] <==> d in selectedDays;
    assert e1.Keys == e2.Keys;
    assert forall d :: d in e1 ==> e1[d] == e2[d];
  }

  /** `addAdjustmentTime`: without a pending edit, appends `newTime` to the day's list (`[]` if it
      has none); with one, splices `newTime` in at `editIndex`, which replaces that element when it
      exists and appends otherwise. The edit is cleared and the other days are untouched. */
  function AddAdjustmentTime(editor: Editor, day: string, newTime: string): (r: Editor)
    requires editor.editIndex.Some? ==> day in editor.adjustments
    ensures r.editIndex == None
    ensures r.adjustments.Keys == editor.adjustments.Keys + {day}
    ensures forall d :: d in editor.adjustments && d != day ==> r.adjustments[d] == editor.adjustments[d]
    ensures editor.editIndex.None? ==> r.adjustments[day] == TimesFor(editor.adjustments, day) + [newTime]
    ensures editor.editIndex.Some? && editor.editIndex.value < |editor.adjustments[day]| ==>
      r.adjustments[day] == editor.adjustments[day][editor.editIndex.value := newTime]
    ensures editor.editIndex.Some? && |editor.adjustments[day]| <= editor.editIndex.value ==>
      r.adjustments[day] == editor.adjustments[day] + [newTime]
  {
    var updated :=
      if editor.editIndex.Some? then
        SpliceEffect(editor.adjustments[day], editor.editIndex.value, newTime);
        Splice(editor.adjustments[day], editor.editIndex.value, newTime)
      else TimesFor(editor.adjustments, day) + [newTime];
    Editor(editor.adjustments[day := updated], None)
  }

  /** `deleteFixedTime`: the selected day's list loses exactly the element at `index` (nothing when
      `index` is past the end), the rest keeping their order; other days are untouched. */
  function DeleteFixedTime(adjustments: Adjustments, selectedDay: string, index: nat): (r: Adjustments)
    requires selectedDay in adjustments
    ensures r.Keys == adjustments.Keys
    ensures forall d :: d in adjustments && d != selectedDay ==> r[d] == adjustments[d]
    ensures index < |adjustments[selectedDay]| ==>
      r[selectedDay] == adjustments[selectedDay][..index] + adjustments[selectedDay][index + 1..]
    ensures |adjustments[selectedDay]| <= index ==> r[selectedDay] == adjustments[selectedDay]
  {
    WithoutIndexSlices(adjustments[selectedDay], index);
    adjustments[selectedDay := WithoutIndex(adjustments[selectedDay], index)]
  }
}
