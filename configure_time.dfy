/** src/screens/AddHabit/ConfigureTimeScreen.tsx: the times of day of a new habit, either a list
    of fixed times or the times generated from a start, an end and a repeat interval.

    Instants (`periodStartTime`, `periodEndTime`) are minutes since a local midnight. */
module ConfigureTime {
  import opened Options
  import opened ClockText
  import opened Lists

  /** `fixedTimes` together with the pending edit (`editIndex`, `null` when none). */
  datatype FixedTimeList = FixedTimeList(times: seq<string>, editIndex: Option<nat>)

  /** `addFixedTime` for a picked hour and minute: with a pending edit, the time is assigned at
      `editIndex` (overwriting that element, or appending when the index is the length) and the
      edit is cleared; without one, the time is appended unless it is already in the list. */
  function AddFixedTime(list: FixedTimeList, hours: nat, minutes: nat): (r: FixedTimeList)
    requires list.editIndex.Some? ==> list.editIndex.value <= |list.times|
    ensures r.editIndex == None
    ensures list.editIndex.Some? && list.editIndex.value < |list.times| ==>
      && |r.times| == |list.times|
      && r.times[list.editIndex.value] == Format(hours, minutes)
      && forall k :: 0 <= k < |r.times| && k != list.editIndex.value ==> r.times[k] == list.times[k]
    ensures list.editIndex.Some? && list.editIndex.value == |list.times| ==>
      r.times == list.times + [Format(hours, minutes)]
    ensures list.editIndex.None? && Format(hours, minutes) in list.times ==> r.times == list.times
    ensures list.editIndex.None? && Format(hours, minutes) !in list.times ==>
      r.times == list.times + [Format(hours, minutes)]
  {
    var formatted := Format(hours, minutes);
    if list.editIndex.Some? then
      var index := list.editIndex.value;
      FixedTimeList(if index < |list.times| then list.times[index := formatted] else list.times + [formatted], None)
    else if formatted !in list.times then FixedTimeList(list.times + [formatted], list.editIndex)
    else list
  }

  /** Without a pending edit, adding keeps a duplicate-free list duplicate-free. */
  lemma AddFixedTimeKeepsNoDuplicates(list: FixedTimeList, hours: nat, minutes: nat)
    requires list.editIndex.None? && NoDuplicates(list.times)
    ensures NoDuplicates(AddFixedTime(list, hours, minutes).times)
  {
    if Format(hours, minutes) !in list.times {
      AppendFreshNoDuplicates(list.times, Format(hours, minutes));
    }
  }

  /** Without a pending edit, adding the same time a second time changes nothing. */
  lemma AddFixedTimeIdempotent(list: FixedTimeList, hours: nat, minutes: nat)
    requires list.editIndex.None?
    ensures AddFixedTime(AddFixedTime(list, hours, minutes), hours, minutes) == AddFixedTime(list, hours, minutes)
  {
    var once := AddFixedTime(list, hours, minutes);
    assert Format(hours, minutes) in once.times;
  }

  /** `deleteFixedTime`: removes exactly the element at `index` (nothing when it is past the end),
      keeping the others in order. */
  function DeleteFixedTime(times: seq<string>, index: nat): (r: seq<string>)
    ensures index < |times| ==> r == times[..index] + times[index + 1..]
    ensures |times| <= index ==> r == times
  {
    WithoutIndexSlices(times, index);
    WithoutIndex(times, index)
  }

  /** The number of times the generator yields from `start` to `end` stepping by `step` minutes. */
  function PeriodCount(start: nat, end: nat, step: nat): nat
    requires step > 0 || start > end
  {
    if start <= end then (end - start) / step + 1 else 0
  }

  /** The generated instants run from `start` up to the last one not after `end`; one more step
      would pass `end`. */
  lemma PeriodCountBounds(start: nat, end: nat, step: nat)
    requires step > 0 && start <= end
    ensures PeriodCount(start, end, step) >= 1
    ensures start + (PeriodCount(start, end, step) - 1) * step <= end
    ensures end < start + PeriodCount(start, end, step) * step
  {
    var q := (end - start) / step;
    assert end - start == q * step + (end - start) % step;
    assert (q + 1) * step == q * step + step;
  }

  lemma QuotientFromBounds(d: nat, step: nat, q: nat)
    requires step > 0 && q * step <= d < (q + 1) * step
    ensures d / step == q
  {
    var p := d / step;
    assert d == p * step + d % step;
    if p < q {
      MultiplyMonotone(p + 1, q, step);
    } else if p > q {
      MultiplyMonotone(q + 1, p, step);
    }
  }

  lemma MultiplyMonotone(a: nat, b: nat, c: nat)
    requires a <= b
    ensures a * c <= b * c
  {
    assert b * c == a * c + (b - a) * c;
  }

  /** The repeat interval in minutes. */
  function IntervalStep(hours: nat, minutes: nat): nat {
    hours * 60 + minutes
  }

  /** `calculatePeriodicTimes`: while the current instant is not after `end`, records its time of
      day and advances by `hours` hours and `minutes` minutes. The times are those of
      `start`, `start + step`, ... for the `PeriodCount` instants not after `end`. */
  method CalculatePeriodicTimes(start: nat, end: nat, hours: nat, minutes: nat) returns (times: seq<string>)
    requires IntervalStep(hours, minutes) > 0 || start > end
    ensures |times| == PeriodCount(start, end, IntervalStep(hours, minutes))
    ensures forall i :: 0 <= i < |times| ==> times[i] == TimeOfDay(start + i * IntervalStep(hours, minutes))
  {
    var step := IntervalStep(hours, minutes);
    times := [];
    var current := start;
    while current <= end
      invariant current == start + |times| * step
      invariant |times| > 0 ==> current - step <= end
      invariant forall i :: 0 <= i < |times| ==> times[i] == TimeOfDay(start + i * step)
      decreases end - current
    {
      NextInstant(start, step, |times|);
      times := times + [TimeOfDay(current)];
      current := current + step;
    }
    CountAtLoopExit(start, end, step, |times|);
  }

  /** The loop run as a recursion agrees with `CalculatePeriodicTimes`: any list with the count
      and the elements the method promises is exactly what the loop yields. */
  lemma LoopAgreesWithTimes(start: nat, end: nat, step: nat, times: seq<string>)
    requires step > 0 || start > end
    requires |times| == PeriodCount(start, end, step)
    requires forall i :: 0 <= i < |times| ==> times[i] == TimeOfDay(start + i * step)
    ensures PeriodicLoop(start, end, step, |times|) == Some(times)
  {
    if step > 0 {
      PeriodicLoopComputesTimes(start, end, step, |times|);
      var run := PeriodicLoop(start, end, step, |times|).value;
      assert run == times;
    }
  }

  lemma NextInstant(start: nat, step: nat, n: nat)
    ensures start + (n + 1) * step == start + n * step + step
  {
  }

  /** When the loop stops after `n` iterations, `n` is the number of instants not after `end`. */
  lemma CountAtLoopExit(start: nat, end: nat, step: nat, n: nat)
    requires step > 0 || start > end
    requires end < start + n * step
    requires n > 0 ==> start + n * step - step <= end
    ensures n == PeriodCount(start, end, step)
  {
    if start <= end {
      assert n > 0;
      assert (n - 1) * step == n * step - step;
      QuotientFromBounds(end - start, step, n - 1);
    }
  }

  /** The loop of `calculatePeriodicTimes`, recording `textOf(current)` for each instant, run for
      at most `fuel` iterations; `None` when it is still running after them. */
  function LabelledLoop(textOf: nat -> string, current: nat, end: nat, step: nat, fuel: nat): Option<seq<string>>
    decreases fuel
  {
    if current > end then Some([])
    else if fuel == 0 then None
    else match LabelledLoop(textOf, current + step, end, step, fuel - 1)
      case None => None
      case Some(rest) => Some([textOf(current)] + rest)
  }

  /** The loop as the screen runs it: each instant is recorded as its time of day. */
  function PeriodicLoop(current: nat, end: nat, step: nat, fuel: nat): Option<seq<string>> {
    LabelledLoop(TimeOfDay, current, end, step, fuel)
  }

  /** One step later, one instant fewer remains. */
  lemma PeriodCountStep(start: nat, end: nat, step: nat)
    requires step > 0 && start <= end
    ensures PeriodCount(start + step, end, step) == PeriodCount(start, end, step) - 1
  {
    var d := end - start;
    if start + step > end {
      QuotientFromBounds(d, step, 0);
    } else {
      var q := (d - step) / step;
      assert d - step == q * step + (d - step) % step;
      assert (q + 1) * step == q * step + step;
      assert (q + 2) * step == (q + 1) * step + step;
      QuotientFromBounds(d, step, q + 1);
    }
  }

  /** With a positive interval, the loop finishes within `PeriodCount` iterations and records the
      text of `start + i * step` at position `i`, whatever `textOf` is. */
  lemma {:induction false} LabelledLoopComputes(textOf: nat -> string, start: nat, end: nat, step: nat, fuel: nat)
    requires step > 0 && fuel >= PeriodCount(start, end, step)
    ensures LabelledLoop(textOf, start, end, step, fuel).Some?
    ensures |LabelledLoop(textOf, start, end, step, fuel).value| == PeriodCount(start, end, step)
    ensures forall i :: 0 <= i < |LabelledLoop(textOf, start, end, step, fuel).value| ==>
      LabelledLoop(textOf, start, end, step, fuel).value[i] == textOf(start + i * step)
    decreases fuel
  {
    if start <= end {
      PeriodCountStep(start, end, step);
      LabelledLoopComputes(textOf, start + step, end, step, fuel - 1);
      var rest := LabelledLoop(textOf, start + step, end, step, fuel - 1).value;
      var all := [textOf(start)] + rest;
      forall i | 0 < i < |all| ensures all[i] == textOf(start + i * step) {
        OneStepLater(start, step, i);
      }
    }
  }

  /** With a positive interval, the screen's loop finishes within `PeriodCount` iterations and
      yields the time of day of `start + i * step` at position `i`. */
  lemma PeriodicLoopComputesTimes(start: nat, end: nat, step: nat, fuel: nat)
    requires step > 0 && fuel >= PeriodCount(start, end, step)
    ensures PeriodicLoop(start, end, step, fuel).Some?
    ensures |PeriodicLoop(start, end, step, fuel).value| == PeriodCount(start, end, step)
    ensures forall i :: 0 <= i < |PeriodicLoop(start, end, step, fuel).value| ==>
      PeriodicLoop(start, end, step, fuel).value[i] == TimeOfDay(start + i * step)
  {
    LabelledLoopComputes(TimeOfDay, start, end, step, fuel);
  }

  lemma OneStepLater(start: nat, step: nat, i: nat)
    requires i > 0
    ensures start + step + (i - 1) * step == start + i * step
  {
    assert (i - 1) * step + step == i * step;
  }

  /** With a zero interval and a start not after the end, the loop never stops, however many
      iterations it is given. */
  lemma ZeroIntervalNeverStops(start: nat, end: nat, step: nat, fuel: nat)
    requires start <= end && step == 0
    ensures PeriodicLoop(start, end, step, fuel) == None
  {
    ZeroIntervalStalls(TimeOfDay, start, end, step, fuel);
  }

  lemma {:induction false} ZeroIntervalStalls(textOf: nat -> string, start: nat, end: nat, step: nat, fuel: nat)
    requires start <= end && step == 0
    ensures LabelledLoop(textOf, start, end, step, fuel) == None
    decreases fuel
  {
    if fuel > 0 {
      ZeroIntervalStalls(textOf, start + step, end, step, fuel - 1);
    }
  }

  /** The interval the screen starts with, `"00:00"`, reads as zero minutes, so generating times
      from it with a start not after the end never finishes. */
  lemma DefaultIntervalNeverStops(start: nat, end: nat, fuel: nat)
    requires start <= end
    ensures IntervalMinutes("00:00") == Some(0)
    ensures PeriodicLoop(start, end, IntervalMinutes("00:00").value, fuel) == None
  {
    IntervalMinutesOfFormat(0, 0);
    assert Format(0, 0) == "00:00";
    ZeroIntervalNeverStops(start, end, 0, fuel);
  }

  /** The interval text as `handleNext` reads it, in minutes, when both parts are numbers. */
  function IntervalMinutes(periodicTime: string): Option<nat> {
    match Parse(periodicTime)
    case (Num(h), Num(m)) => Some(h * 60 + m)
    case _ => None
  }

  /** An interval written by the interval picker reads back as its hours and minutes. */
  lemma IntervalMinutesOfFormat(hours: nat, minutes: nat)
    ensures IntervalMinutes(Format(hours, minutes)) == Some(hours * 60 + minutes)
  {
    FormatParseRoundTrip(hours, minutes);
  }

  /** `handleNext`: in periodic mode with both ends picked, the times generated from the interval;
      otherwise the fixed times. */
  method HandleNext(mode: string, periodStart: Option<nat>, periodEnd: Option<nat>, periodicTime: string,
                    fixedTimes: seq<string>)
    returns (times: seq<string>)
    requires mode == "periodic" && periodStart.Some? && periodEnd.Some? ==>
      IntervalMinutes(periodicTime).Some? &&
      (IntervalMinutes(periodicTime).value > 0 || periodStart.value > periodEnd.value)
    ensures !(mode == "periodic" && periodStart.Some? && periodEnd.Some?) ==> times == fixedTimes
    ensures mode == "periodic" && periodStart.Some? && periodEnd.Some? ==>
      var step := IntervalMinutes(periodicTime).value;
      && |times| == PeriodCount(periodStart.value, periodEnd.value, step)
      && forall i :: 0 <= i < |times| ==> times[i] == TimeOfDay(periodStart.value + i * step)
  {
    times := fixedTimes;
    if mode == "periodic" && periodStart.Some? && periodEnd.Some? {
      var (h, m) := Parse(periodicTime);
      times := CalculatePeriodicTimes(periodStart.value, periodEnd.value, h.n, m.n);
    }
  }
}
