# Habit schedule and app blocker — a Dafny model

This project models the core of a React Native habit tracker and its Android blocker.

The app keeps a **schedule**: a map from a day name (`"sunday"` … `"saturday"`) to that day's list of **tasks**. Each task is a time text (`HH:MM` on every screen but App.tsx, where it is free text), an `accomplished` flag and, on most screens, a habit name. The schedule lives as JSON text in the Android shared preferences file `AppSettings`.

- App.tsx fetches the schedule once, when it mounts. Its handlers change that copy and write the result back.
- The DetailsScreen and AdjustSpecificDaysScreen handlers read the stored schedule, change it and write it back.
- The SelectDaysScreen and ConfigureTimeScreen handlers never touch the store. They only change the screen's own state.

The model covers:

- **App.tsx.** `handleAddTime` appends a free-text time to the selected day. `handleToggleAccomplished` flips a task's flag, but only once the task's time has come (modules `App`, `Schedules`).
- **DetailsScreen.tsx.** `handleAddHabit` appends one named task at a picked time (module `DetailsScreen`).
- **SelectDaysScreen.tsx.** Toggling days, the all / weekdays / weekend presets, and the "next" gate that requires a habit name (module `SelectDays`).
- **ConfigureTimeScreen.tsx.** The list of fixed times with its pending edit, deletion by index, and the periodic generator `calculatePeriodicTimes` (a `while` loop, modelled as a method with loop invariants). Also `handleNext`, which picks between the two (module `ConfigureTime`).
- **AdjustSpecificDaysScreen.tsx.** The initial per-day lists (a loop), per-day add / replace / delete, and `handleSave`, which merges the new tasks into the stored schedule (module `AdjustSpecificDays`).
- **AppBlockerModule.kt.** A class over the preferences file. It toggles and reads the monitoring flag, and stores and reads the schedule text (module `AppBlocker`).
- **AppMonitorService.kt.** A class whose event handler opens the blocking overlay when a window of a package containing `com.instagram.android` comes to the front, monitoring is on and overlay permission is granted. Each overlay start is counted in `overlayLaunches` (module `AppBlocker`).

Supporting modules:

- `ClockText` models JavaScript's handling of clock text. Writing uses `padStart(2, '0')` / `toTimeString().slice(0, 5)`. Reading uses `split(':').map(Number)`, where `Number` yields NaN and a missing part yields `undefined`.
- `Lists` models the array idioms the screens use: `filter` by index and by value, and the spread-and-slice replacement of one element, with JavaScript's clamping of slice bounds.

Instants (`Date` values on the time pickers) are natural numbers of minutes since a local midnight. Clock readings enter as hour and minute parameters.

Some facts about the code that a reader of a habit blocker might not expect:

- The blocker never reads the schedule. It blocks any package whose name *contains* `com.instagram.android`, rather than checking a due, unaccomplished task against a set of blocked packages.
- The service starts an overlay on every qualifying event. It keeps no block state between events.
- Marking a task accomplished is a two-way toggle, not a one-way set.
- A half-malformed task time is not treated as never due. When the hour part reads as a number but the minutes are missing or not a number, the task is due once the current hour is later.
- There is no daily reset and no photo-proof completion.
- With nothing stored, the schedule text is `[]`, not an empty JSON object.

## Model

| member | source | states |
|---|---|---|
| Lists.WithoutIndexSlices | src/screens/AddHabit/ConfigureTimeScreen.tsx:65-67 | `WithoutIndex`, the filter by index, removes exactly the element at that index when it exists, and leaves the list unchanged otherwise |
| Lists.WithoutMembers | src/screens/AddHabit/SelectDaysScreen.tsx:42 | `Without`, the filter by value, keeps exactly the elements different from the value |
| Lists.WithoutCounts | src/screens/AddHabit/SelectDaysScreen.tsx:42 | filtering by value drops every occurrence of the value and keeps every other element as often as it occurred |
| Lists.WithoutConcat | src/screens/AddHabit/SelectDaysScreen.tsx:42 | filtering a concatenation filters each part in place, so the kept elements stay in order |
| Lists.NotBeforeNorAfter | src/screens/AddHabit/SelectDaysScreen.tsx:42 | in a duplicate-free list the element at position k occurs neither before nor after k |
| Lists.WithoutAtPosition | src/screens/AddHabit/SelectDaysScreen.tsx:42 | filtering out a value that occurs only at position k removes that position alone |
| Lists.WithoutUnique | src/screens/AddHabit/SelectDaysScreen.tsx:42 | in a duplicate-free list, filtering out the element at position k removes exactly that position and keeps the rest in order |
| Lists.WithoutAbsent | src/screens/AddHabit/SelectDaysScreen.tsx:42 | filtering out a value that does not occur leaves the list unchanged |
| Lists.WithoutAppended | src/screens/AddHabit/SelectDaysScreen.tsx:41-43 | appending a fresh value and then filtering it out gives back the original list |
| Lists.WithoutNoDuplicates | src/screens/AddHabit/SelectDaysScreen.tsx:42 | filtering keeps a duplicate-free list duplicate-free |
| Lists.SpliceEffect | src/screens/AddHabit/AdjustSpecificDaysScreen.tsx:84 | `Splice`, the slice-and-spread replacement, replaces the element in range, keeping the length, and appends when the index is past the end (slice clamping) |
| ClockText.DecimalText | src/screens/AddHabit/ConfigureTimeScreen.tsx:143-144 | `toString` of a non-negative integer is a non-empty string of decimal digits |
| ClockText.DigitsOfDecimal | src/screens/AddHabit/ConfigureTimeScreen.tsx:143-144 | reading back the decimal text of `n` gives `n` |
| ClockText.LeadingZero | src/screens/AddHabit/ConfigureTimeScreen.tsx:143-144 | a leading `0` does not change the value of a digit string |
| ClockText.PaddedValue | src/screens/AddHabit/ConfigureTimeScreen.tsx:143-144 | `padStart(2, '0')` (`PadStart2`) keeps a digit string a digit string of the same value |
| ClockText.Split | App.tsx:86 | `split(':')` always yields at least one part, and no part holds the separator |
| ClockText.SplitWithoutSeparator | App.tsx:86 | text without a separator splits into itself alone |
| ClockText.SplitTwoParts | App.tsx:86 | `a + ':' + b` splits into exactly `[a, b]` when neither part holds `:` |
| ClockText.FormatParseRoundTrip | src/screens/AddHabit/ConfigureTimeScreen.tsx:41 | `Parse` (`split(':').map(Number)`, with `Number` giving NaN for non-digit text) applied to `Format`, the zero-padded `HH:MM` text of any hour and minute, gives back that hour and minute; `TimeOfDay` is `Format` of an instant's hour and minute |
| Schedules.AppendIsAppendedTo | App.tsx:56-62 | the spread update adds the new tasks after the day's existing tasks (an absent day counts as `[]`), adds the day as a key and leaves every other day unchanged |
| App.HandleAddTime | App.tsx:53-71 | nothing is written exactly when the day or the time is empty, and the time field then keeps its text; otherwise one unaccomplished, nameless task with that time is appended to the day, nothing else changes, and the time field is cleared |
| App.DueIffNotLater | App.tsx:81-92 | for a well-formed task time, `IsDue` (the toggle's hour/minute comparison, false when the hour part is not a number; when only the minutes are missing or not a number, the task is due once the current hour is later) holds exactly when the task's minute of the day is not after the current one |
| App.HourDecidesHalfMalformedTime | App.tsx:86-92 | a time whose hour reads as a number but whose minutes are missing (`"9"`) or not a number (`"9:ab"`) parses as that hour and NaN, and is due exactly when the current hour is later |
| App.FlipChangesOnlyTheFlag | App.tsx:93-105 | `WithFlagFlipped`, the toggle's write, negates the flag of the task at the index and keeps its time and name, the other tasks of the day and the other days |
| App.FlipOutOfRange | App.tsx:93-105 | an index past the end changes no task; a day that was absent is written back as `[]` |
| App.FlipTwiceRestores | App.tsx:93-105 | toggling the same task twice restores the schedule |
| App.HandleToggleAccomplished | App.tsx:73-116 | a write happens exactly when a day is selected and the task is due at the given clock reading; the written schedule is the screen's copy, fetched at mount, with that task's flag flipped |
| DetailsScreen.HandleAddHabit | src/screens/DetailsScreen.tsx:32-53 | an empty name writes nothing; otherwise the stored schedule gains one unaccomplished task with the name and the zero-padded picked time at the end of the selected day, other days untouched, and the name field is cleared |
| SelectDays.ToggleDay | src/screens/AddHabit/SelectDaysScreen.tsx:39-46 | a selected day loses every occurrence while every other day keeps its count; in a duplicate-free selection the day's one position is cut out and the others keep their order; an unselected day is appended; the preset highlight is cleared |
| SelectDays.ToggleTwiceRestores | src/screens/AddHabit/SelectDaysScreen.tsx:39-46 | toggling an unselected day twice gives back the selection |
| SelectDays.ToggleKeepsNoDuplicates | src/screens/AddHabit/SelectDaysScreen.tsx:39-46 | toggling keeps a duplicate-free selection duplicate-free |
| SelectDays.SelectAllDays | src/screens/AddHabit/SelectDaysScreen.tsx:52-55 | the selection becomes the seven days once each, Sunday first, and the pattern becomes `all` |
| SelectDays.SelectWeekdays | src/screens/AddHabit/SelectDaysScreen.tsx:57-60 | the selection becomes exactly Monday to Friday, once each, and the pattern becomes `weekdays` |
| SelectDays.SelectWeekend | src/screens/AddHabit/SelectDaysScreen.tsx:62-65 | the selection becomes exactly Saturday and Sunday, and the pattern becomes `weekend` |
| SelectDays.PresetsPartitionWeek | src/screens/AddHabit/SelectDaysScreen.tsx:57-65 | every day of the week is in exactly one of the weekday and weekend presets, and nothing else is in either |
| SelectDays.HandleNextPress | src/screens/AddHabit/SelectDaysScreen.tsx:142-148 | the press moves on exactly when the habit name is non-empty, carrying the selected days and the name; otherwise the placeholder turns `#b10f2e` |
| ConfigureTime.AddFixedTime | src/screens/AddHabit/ConfigureTimeScreen.tsx:47-57 | with a pending edit, the formatted time overwrites the edited element only (or is appended when the index equals the length) and the edit is cleared; without one, the time is appended when absent and the list is kept when present |
| ConfigureTime.AddFixedTimeKeepsNoDuplicates | src/screens/AddHabit/ConfigureTimeScreen.tsx:54-56 | adding without a pending edit keeps the fixed times duplicate-free |
| ConfigureTime.AddFixedTimeIdempotent | src/screens/AddHabit/ConfigureTimeScreen.tsx:54-56 | adding the same time twice without a pending edit is the same as adding it once |
| ConfigureTime.DeleteFixedTime | src/screens/AddHabit/ConfigureTimeScreen.tsx:65-67 | exactly the element at the index is removed, the rest keeping their order; an index past the end removes nothing |
| ConfigureTime.PeriodCountBounds | src/screens/AddHabit/ConfigureTimeScreen.tsx:73-77 | `PeriodCount`, the closed form ⌊(end − start) / step⌋ + 1, is such that the generator yields at least one instant when start is not after end; its last instant is not after end, and one more step would be |
| ConfigureTime.CalculatePeriodicTimes | src/screens/AddHabit/ConfigureTimeScreen.tsx:69-80 | the loop returns `PeriodCount` times, and the i-th one is the time of day of `start + i * interval` |
| ConfigureTime.PeriodCountStep | src/screens/AddHabit/ConfigureTimeScreen.tsx:73-77 | after one step from a start not after the end, one instant fewer remains |
| ConfigureTime.LabelledLoopComputes | src/screens/AddHabit/ConfigureTimeScreen.tsx:73-77 | `LabelledLoop`, the loop run as a recursion that labels each instant with any text function, finishes within `PeriodCount` iterations when the step is positive, with the label of `start + i * step` at position i |
| ConfigureTime.PeriodicLoopComputesTimes | src/screens/AddHabit/ConfigureTimeScreen.tsx:73-77 | with a positive interval, `PeriodicLoop` (`LabelledLoop` with `TimeOfDay` as the label) finishes within `PeriodCount` iterations with the time of day of `start + i * step` at position i |
| ConfigureTime.LoopAgreesWithTimes | src/screens/AddHabit/ConfigureTimeScreen.tsx:73-77 | a list with the count and elements that `CalculatePeriodicTimes` ensures is exactly what `PeriodicLoop` yields, so the method and the recursion agree |
| ConfigureTime.CountAtLoopExit | src/screens/AddHabit/ConfigureTimeScreen.tsx:73 | when the loop stops after n steps, n is the number of instants from start to end |
| ConfigureTime.ZeroIntervalStalls | src/screens/AddHabit/ConfigureTimeScreen.tsx:73-77 | with a zero step and start not after end, `LabelledLoop` is still running after any number of iterations, whatever the labels |
| ConfigureTime.ZeroIntervalNeverStops | src/screens/AddHabit/ConfigureTimeScreen.tsx:73-77 | with a zero interval and start not after end, `PeriodicLoop` is still running after any number of iterations |
| ConfigureTime.DefaultIntervalNeverStops | src/screens/AddHabit/ConfigureTimeScreen.tsx:24 | the initial interval `00:00` reads as zero minutes, so generating from it with start not after end never finishes |
| ConfigureTime.IntervalMinutesOfFormat | src/screens/AddHabit/ConfigureTimeScreen.tsx:140-147 | an interval written by the interval picker reads back in `handleNext` as its hours and minutes |
| ConfigureTime.HandleNext | src/screens/AddHabit/ConfigureTimeScreen.tsx:38-45 | outside periodic mode with both ends picked, the fixed times are passed on; inside it, the times generated from start to end at the parsed interval |
| AdjustSpecificDays.InitialAdjustments | src/screens/AddHabit/AdjustSpecificDaysScreen.tsx:49-55 | the initial map has exactly the selected days as keys, each mapped to the fixed times |
| AdjustSpecificDays.SaveEntriesContents | src/screens/AddHabit/AdjustSpecificDaysScreen.tsx:62-71 | `SaveEntries`, the reduce, has a result that covers the accumulator's keys and the days; each day gets its stored list followed by its new tasks, and other keys keep their values |
| AdjustSpecificDays.SavedDayShape | src/screens/AddHabit/AdjustSpecificDaysScreen.tsx:63-69 | `SavedDay`, the entry built for one day, is the stored list followed by one unaccomplished task named after the habit per adjustment time, in order |
| AdjustSpecificDays.HandleSave | src/screens/AddHabit/AdjustSpecificDaysScreen.tsx:57-79 | each selected day becomes its stored tasks followed by one unaccomplished task named after the habit per adjustment time, in order; other stored days are unchanged and no other key appears |
| AdjustSpecificDays.SaveIgnoresRepeatedDay | src/screens/AddHabit/AdjustSpecificDaysScreen.tsx:62-71 | repeating a selected day does not add its times twice |
| AdjustSpecificDays.SaveEntriesIgnoresRepeatedDay | src/screens/AddHabit/AdjustSpecificDaysScreen.tsx:62-71 | the reduce builds the same entries whether or not a selected day is named again |
| AdjustSpecificDays.AddAdjustmentTime | src/screens/AddHabit/AdjustSpecificDaysScreen.tsx:81-92 | without an edit, the time is appended to the day's list (`[]` if none); with one, it replaces the edited element in range and is appended past the end; the edit is cleared and other days are untouched |
| AdjustSpecificDays.DeleteFixedTime | src/screens/AddHabit/AdjustSpecificDaysScreen.tsx:104-112 | the selected day loses exactly the element at the index (nothing past the end), the rest keeping their order; other days are untouched |
| AppBlocker.KeysAreIndependent | android/app/src/main/java/com/awesomeproject/AppBlockerModule.kt:22-44 | with `MonitoringFlag` and `StoredSchedule` as the typed reads with their defaults, writing the schedule never changes the monitoring flag, and writing the flag never changes the schedule |
| AppBlocker.Preferences.constructor | android/app/src/main/java/com/awesomeproject/AppBlockerModule.kt:18 | a fresh preferences file holds no entries |
| AppBlocker.AppBlockerModule.constructor | android/app/src/main/java/com/awesomeproject/AppBlockerModule.kt:17-18 | the module works on the preferences file it is given |
| AppBlocker.AppBlockerModule.ToggleMonitoring | android/app/src/main/java/com/awesomeproject/AppBlockerModule.kt:22-27 | stores and returns the negation of the current flag (unset counts as false), leaving the schedule alone |
| AppBlocker.AppBlockerModule.IsMonitoringEnabled | android/app/src/main/java/com/awesomeproject/AppBlockerModule.kt:29-33 | answers true exactly when the flag is stored as true |
| AppBlocker.AppBlockerModule.UpdateSchedule | android/app/src/main/java/com/awesomeproject/AppBlockerModule.kt:35-44 | stores the schedule text verbatim under its key and leaves the flag alone |
| AppBlocker.AppBlockerModule.GetSchedule | android/app/src/main/java/com/awesomeproject/AppBlockerModule.kt:46-55 | answers the stored schedule text, or `[]` when none is stored |
| AppBlocker.ToggleTwice | android/app/src/main/java/com/awesomeproject/AppBlockerModule.kt:22-27 | two toggles report opposite values, and the flag ends as it started |
| AppBlocker.UpdateThenGet | android/app/src/main/java/com/awesomeproject/AppBlockerModule.kt:35-55 | reading the schedule right after storing it gives back the stored text |
| AppBlocker.ContainsIff | android/app/src/main/java/com/awesomeproject/AppMonitorService.kt:25 | `Contains`, Kotlin's `contains`, holds exactly when the blocked name occurs at some position of the package name |
| AppBlocker.LaunchesOverlayIff | android/app/src/main/java/com/awesomeproject/AppMonitorService.kt:21-35 | `LaunchesOverlay`, the nested conditions, says the overlay starts exactly on a window-state change, with monitoring on, overlay permission and a package name containing the blocked package |
| AppBlocker.EmbeddedPackageIsBlocked | android/app/src/main/java/com/awesomeproject/AppMonitorService.kt:25 | any package name with the blocked package inside it triggers the overlay, not only the exact name |
| AppBlocker.AppMonitorService.constructor | android/app/src/main/java/com/awesomeproject/AppMonitorService.kt:13-14 | a new service has no preferences yet and has started no overlay |
| AppBlocker.AppMonitorService.OnServiceConnected | android/app/src/main/java/com/awesomeproject/AppMonitorService.kt:16-19 | connecting opens the preferences file and starts no overlay |
| AppBlocker.AppMonitorService.OnAccessibilityEvent | android/app/src/main/java/com/awesomeproject/AppMonitorService.kt:21-35 | one overlay is started exactly when the decision holds for the event, the stored flag and the permission; otherwise nothing happens |

## Left out

- The native bridge and JSON are not modelled. Handlers take the stored schedule as a parsed map and return the map they would store. `JSON.parse`/`JSON.stringify`, promise rejections and the `catch` branches that only log are left out. When nothing is stored, `getSchedule` answers `[]`, which parses as an empty array; spreading it yields an empty object, so it is modelled as the empty schedule.
- The screens' React state is modelled as values that handlers take and return: the selection and preset, the pending edit indexes, and the cleared name and time fields. Left out are:
  - the fetch on mount in App.tsx and its `setSchedule`. The schedule written back is the new local copy.
  - DetailsScreen.tsx's reset of the picked time to the current time after a write, which depends on the clock.
  - rendering and navigation.
- Also left out: `editFixedTime` in both screens (it only records the index and parses a `Date` for the picker), `toggleDay` of AdjustSpecificDaysScreen.tsx (it only selects the day) and `onInterrupt` (empty). `editFixedTime` is also what sets the pending edit index, which the model takes as given.
- Clocks and `Date` are not modelled as such. Time zones, daylight saving and seconds are out. The current time is an hour/minute parameter, the picked times are hour and minute numbers below 24 and 60, and the period instants are minutes since a local midnight. Each `setHours`/`setMinutes` pair is taken as adding `hours * 60 + minutes` minutes.
- ClockText.Number: models `Number` on digit strings only (the empty string is 0). Signs, spaces, decimals, exponents and hex text, which `Number` would also accept, read as NaN here.
- App.FlipTwiceRestores: requires the day to be in the schedule. For an absent day, the first toggle writes `[]` under it, so two toggles do not give back the original map.
- ConfigureTime.CalculatePeriodicTimes: requires a positive interval whenever start is not after end. With a zero interval the screen's `while` loop never ends, which is shown separately by `ZeroIntervalNeverStops`. The interval starts as `00:00` until the interval picker is used.
- ConfigureTime.HandleNext: requires the interval text to parse as two numbers, as the picker always writes it, and to be positive when start is not after end (see above).
- ConfigureTime.AddFixedTime: requires a pending edit index that is at most the list's length. An index at the length appends. The screen can leave a larger index pending: `deleteFixedTime` shrinks the list without clearing the edit, and closing the picker without a date keeps it. Assigning further past the end of a JavaScript array leaves holes, which the model does not represent.
- AdjustSpecificDays.AddAdjustmentTime: requires the day to have a list while an edit is pending. `prevAdjustments[day].slice` would throw on `undefined`. On this screen the time picker that calls it opens only through `editFixedTime` on an entry the selected day lists (AdjustSpecificDaysScreen.tsx:98-101 and 135-160).
- AdjustSpecificDays.DeleteFixedTime: requires the selected day to have a list. `prevAdjustments[selectedDay].filter` would throw on `undefined`. The delete buttons are drawn only for entries the selected day lists (AdjustSpecificDaysScreen.tsx:135-145).
- AppBlocker.AppBlockerModule.ToggleMonitoring: requires (like every method of the module) the flag to hold a boolean and the schedule a string. A value of another type would make the typed getters throw; only these methods write the two keys.
- AppBlocker.AppMonitorService.OnAccessibilityEvent: requires the service to be connected; the service's `lateinit` property would throw before `onServiceConnected`. `Settings.canDrawOverlays` is a parameter, and the overlay activity (OverlayActivity.kt is not part of this model) is represented only by the count of starts.
- Logging (`console.log`, `console.error`, `Log`) is left out.
