/**
 * The recording scheduler of the player: the schedule the form builds
 * (a countdown timer, or a start/end window that is either "daily" or on a
 * date), the once-per-second decision taken from the active schedule, the
 * week-day picker and the elapsed-time display. Time is in milliseconds
 * since the epoch; the wall clock and the local calendar are inputs.
 */
module Scheduler {
  import opened Optional
  import opened Text
  import opened Stations

  const MinuteMs: int := 60_000
  const HourMs: int := 3_600_000
  const DayMs: int := 86_400_000

  datatype Kind = Timer | Daily | OnDate

  /**
   * The active schedule. `None` in a numeric field stands for a value left
   * out or for `NaN`; both are falsy, as is `0`.
   */
  datatype Schedule = Schedule(
    kind: Kind,
    start: Option<int>,
    end: Option<int>,
    duration: Option<int>,
    stationId: Option<string>,
    days: Option<seq<int>>)

  /** JavaScript truthiness of an optional number. */
  predicate Given(n: Option<int>) {
    n.Some? && n.value != 0
  }

  /** JavaScript truthiness of an optional string. */
  predicate GivenId(s: Option<string>) {
    s.Some? && s.value != ""
  }

  /**
   * What one tick of the monitor sees: the time, the local day of the week
   * (0 is Sunday), the session and loading flags, the elapsed recording
   * seconds, the id of the station playing (`None` when there is none), the
   * dial, and whether the parent passed a station-select callback.
   */
  datatype Observation = Observation(
    now: int,
    weekday: int,
    recording: bool,
    loading: bool,
    stopping: bool,
    elapsed: int,
    currentId: Option<string>,
    stations: seq<Station>,
    canSelect: bool)

  datatype Action = Idle | ClearAndStop | Select(station: Station) | StartRecording

  /** `allStations.find(s => s.id === id)`: the first station with the id. */
  function FindStation(list: seq<Station>, id: string): (r: Option<Station>)
    ensures r.Some? ==> r.value in list && r.value.id == id
    ensures r.None? <==> !HasId(list, id)
  {
    if list == [] then None
    else if list[0].id == id then Some(list[0])
    else
      assert forall i :: 1 <= i < |list| ==> list[i] == list[1..][i - 1];
      FindStation(list[1..], id)
  }

  /** The schedule has a window to check: a daily or dated one with start and end set. */
  predicate Windowed(s: Schedule) {
    (s.kind == Daily || s.kind == OnDate) && Given(s.start) && Given(s.end)
  }

  predicate InTime(s: Schedule, o: Observation)
    requires Windowed(s)
  {
    s.start.value <= o.now < s.end.value
  }

  /** Only a daily schedule with a day list restricts the day of the week. */
  predicate RightDay(s: Schedule, o: Observation) {
    s.kind == Daily && s.days.Some? ==> o.weekday in s.days.value
  }

  predicate Ready(o: Observation) {
    !o.recording && !o.loading && !o.stopping
  }

  /** The schedule names a station other than the one playing, and the player can switch. */
  predicate WantsOther(s: Schedule, o: Observation) {
    GivenId(s.stationId) && o.currentId != Some(s.stationId.value) && o.canSelect
  }

  /** `checkSchedule`: the decision one tick of the monitor takes. */
  function CheckSchedule(schedule: Option<Schedule>, o: Observation): (a: Action)
    ensures schedule.None? ==> a == Idle
    ensures a == ClearAndStop ==> o.recording
    ensures a.StartRecording? || a.Select? ==>
      Ready(o) && Windowed(schedule.value) && InTime(schedule.value, o) && RightDay(schedule.value, o)
    ensures a.Select? ==>
      a.station in o.stations && schedule.value.stationId == Some(a.station.id)
      && GivenId(schedule.value.stationId) && o.currentId != Some(a.station.id)
  {
    if schedule.None? then Idle
    else
      var s := schedule.value;
      if s.kind == Timer && Given(s.duration) && o.recording && o.elapsed >= s.duration.value then
        ClearAndStop
      else if Windowed(s) then
        if InTime(s, o) && RightDay(s, o) then
          if !Ready(o) then Idle
          else if WantsOther(s, o) then
            match FindStation(o.stations, s.stationId.value)
            case Some(st) => Select(st)
            case None => Idle
          else StartRecording
        else if o.recording && o.now >= s.end.value then ClearAndStop
        else Idle
      else Idle
  }

  /** A timer with a duration stops the session exactly when it is recording and the duration has elapsed. */
  lemma TimerRule(s: Schedule, o: Observation)
    requires s.kind == Timer
    ensures CheckSchedule(Some(s), o) == ClearAndStop
        <==> Given(s.duration) && o.recording && o.elapsed >= s.duration.value
    ensures CheckSchedule(Some(s), o) == ClearAndStop || CheckSchedule(Some(s), o) == Idle
  {
  }

  /** Inside the window on a right day, an idle player switches to the scheduled station or starts recording. */
  lemma WindowRule(s: Schedule, o: Observation)
    requires Windowed(s) && InTime(s, o) && RightDay(s, o) && Ready(o)
    ensures !WantsOther(s, o) ==> CheckSchedule(Some(s), o) == StartRecording
    ensures WantsOther(s, o) && HasId(o.stations, s.stationId.value) ==>
      CheckSchedule(Some(s), o) == Select(FindStation(o.stations, s.stationId.value).value)
    ensures WantsOther(s, o) && !HasId(o.stations, s.stationId.value) ==> CheckSchedule(Some(s), o) == Idle
  {
  }

  /** A windowed schedule is cleared and the session stopped exactly when recording outside the window at or after its end. */
  lemma StopRule(s: Schedule, o: Observation)
    requires s.kind != Timer
    ensures CheckSchedule(Some(s), o) == ClearAndStop
        <==> Windowed(s) && !(InTime(s, o) && RightDay(s, o)) && o.recording && o.now >= s.end.value
  {
  }

  /** On a day not in the list, a recording already running before the end goes on. */
  lemma WrongDayKeepsRecording(s: Schedule, o: Observation)
    requires Windowed(s) && s.kind == Daily && s.days.Some? && o.weekday !in s.days.value
    requires o.recording && o.now < s.end.value
    ensures CheckSchedule(Some(s), o) == Idle
  {
  }

  /** From its end on, a windowed schedule never starts a recording or switches station again. */
  lemma NothingStartsAfterEnd(s: Schedule, o: Observation)
    requires Windowed(s) && o.now >= s.end.value
    ensures CheckSchedule(Some(s), o) == Idle || CheckSchedule(Some(s), o) == ClearAndStop
  {
  }

  // ---------------------------------------------------------------------------
  // Building the schedule

  datatype Mode = ByDuration | ByTime

  datatype Recurrence = EveryDay | OnDay

  /** The scheduler form: its fields hold the text of the inputs. */
  datatype Form = Form(
    mode: Mode,
    durationInput: string,
    recurrence: Recurrence,
    dateInput: string,
    startInput: string,
    endInput: string,
    stationInput: string,
    days: seq<int>)

  /** The schedule to activate and whether a start is due (run 100 ms later). */
  datatype Applied = Applied(schedule: Schedule, startNow: bool)

  /** `Number(piece)` for the pieces of a time input: empty is 0, digits are their value, anything else `NaN`. */
  function NumberOf(piece: string): (r: Option<int>)
    ensures r.Some? ==> r.value >= 0
  {
    if piece == "" then Some(0)
    else if AllDigits(piece) then Some(DecimalValue(piece))
    else None
  }

  /** `text.split(':').map(Number)` taken as hours and minutes; a missing piece is `NaN`. */
  function ClockTime(text: string): (r: Option<(int, int)>)
    ensures ':' !in text ==> r == None
    ensures r.Some? ==> r.value.0 >= 0 && r.value.1 >= 0
  {
    var i := IndexOf(text, ':');
    if i == |text| then None
    else
      var rest := text[i + 1..];
      var hours := NumberOf(text[..i]);
      var minutes := NumberOf(rest[..IndexOf(rest, ':')]);
      if hours.Some? && minutes.Some? then Some((hours.value, minutes.value)) else None
  }

  lemma Pad2HasNoColon(n: nat)
    ensures ':' !in Pad2(n)
  {
    var p := Pad2(n);
    assert forall k :: 0 <= k < |p| ==> IsDigit(p[k]);
  }

  /** A time written as the time input writes it reads back as its hours and minutes. */
  lemma ClockTimeOfPadded(hours: nat, minutes: nat)
    requires hours < 100 && minutes < 100
    ensures ClockTime(Pad2(hours) + ":" + Pad2(minutes)) == Some((hours, minutes))
  {
    var text := Pad2(hours) + ":" + Pad2(minutes);
    Pad2HasNoColon(hours);
    Pad2HasNoColon(minutes);
    IndexOfAfter(Pad2(hours), ':', Pad2(minutes));
    assert IndexOf(text, ':') == 2;
    assert text[..2] == Pad2(hours) && text[3..] == Pad2(minutes);
    var rest := Pad2(minutes);
    assert IndexOf(rest, ':') == 2;
    assert rest[..2] == rest;
    Pad2Value(hours);
    Pad2Value(minutes);
    assert NumberOf(Pad2(hours)) == Some(hours);
    assert NumberOf(rest) == Some(minutes);
  }

  predicate ValidTime(t: Option<(int, int)>) {
    t.Some? && 0 <= t.value.0 < 24 && 0 <= t.value.1 < 60
  }

  /** `date.setHours(h, m, 0, 0)` on a day starting at `midnight`; `None` is an invalid date. */
  function At(midnight: int, t: Option<(int, int)>): (r: Option<int>)
    ensures ValidTime(t) ==> r.Some? && midnight <= r.value < midnight + DayMs
  {
    if t.None? then None else Some(midnight + t.value.0 * HourMs + t.value.1 * MinuteMs)
  }

  /** The start and end instants, the end moved one day on when it falls before the start. */
  function Window(midnight: int, startTime: Option<(int, int)>, endTime: Option<(int, int)>): (w: (Option<int>, Option<int>))
    ensures w.0 == At(midnight, startTime)
    ensures w.1.Some? <==> At(midnight, endTime).Some?
    ensures w.1.Some? ==> w.1.value == At(midnight, endTime).value || w.1.value == At(midnight, endTime).value + DayMs
    ensures w.0.Some? && w.1.Some? && At(midnight, endTime).value >= w.0.value ==> w.1 == At(midnight, endTime)
  {
    var start := At(midnight, startTime);
    var end := At(midnight, endTime);
    if start.Some? && end.Some? && end.value < start.value then (start, Some(end.value + DayMs))
    else (start, end)
  }

  /** With valid times the window starts on the chosen day and lasts less than a day. */
  lemma WindowWithinDay(midnight: int, startTime: Option<(int, int)>, endTime: Option<(int, int)>)
    requires ValidTime(startTime) && ValidTime(endTime)
    ensures Window(midnight, startTime, endTime).0 == At(midnight, startTime)
    ensures var (start, end) := Window(midnight, startTime, endTime);
      start.Some? && end.Some? && midnight <= start.value <= end.value < start.value + DayMs
  {
  }

  /** The window is rolled over exactly when the end time of day is before the start. */
  lemma WindowRollsOver(midnight: int, startTime: Option<(int, int)>, endTime: Option<(int, int)>)
    requires ValidTime(startTime) && ValidTime(endTime)
    ensures Window(midnight, startTime, endTime).1.value >= midnight + DayMs
        <==> At(midnight, endTime).value < At(midnight, startTime).value
  {
  }

  /** `parseInt(input) * 60`: the timer length in seconds, `NaN` kept as `None`. */
  function TimerSeconds(input: string): (r: Option<int>)
    ensures r.Some? <==> ParseInt(input).Some?
    ensures r.Some? ==> r.value == ParseInt(input).value * 60
  {
    match ParseInt(input)
    case None => None
    case Some(n) => Some(n * 60)
  }

  /**
   * `applySchedule`. The timer mode starts a recording; the time mode does
   * nothing unless both times are filled in. `today` is the local midnight
   * of the current day and `pickedDay` that of the date in the date field.
   */
  function ApplySchedule(f: Form, today: int, pickedDay: int, currentId: Option<string>): (r: Option<Applied>)
    ensures f.mode == ByDuration ==> r.Some? && r.value.startNow && r.value.schedule.kind == Timer
    ensures f.mode == ByTime ==> (r.Some? <==> f.startInput != "" && f.endInput != "")
    ensures r.Some? && f.mode == ByTime ==>
      && !r.value.startNow
      && r.value.schedule.kind == (if f.recurrence == OnDay then OnDate else Daily)
      && r.value.schedule.days == (if f.recurrence == EveryDay then Some(f.days) else None)
      && r.value.schedule.stationId == (if f.stationInput != "" then Some(f.stationInput) else currentId)
  {
    if f.mode == ByDuration then
      Some(Applied(Schedule(Timer, None, None, TimerSeconds(f.durationInput), None, None), true))
    else if f.startInput == "" || f.endInput == "" then None
    else
      var midnight := if f.recurrence == OnDay && f.dateInput != "" then pickedDay else today;
      var (start, end) := Window(midnight, ClockTime(f.startInput), ClockTime(f.endInput));
      Some(Applied(
        Schedule(
          if f.recurrence == OnDay then OnDate else Daily,
          start, end, None,
          if f.stationInput != "" then Some(f.stationInput) else currentId,
          if f.recurrence == EveryDay then Some(f.days) else None),
        false))
  }

  /** A timer of `n` minutes stops a recording once `60 * n` seconds have elapsed, and not before. */
  lemma TimerOfMinutes(f: Form, today: int, pickedDay: int, currentId: Option<string>, n: nat, o: Observation)
    requires f.mode == ByDuration && f.durationInput == NatToString(n) && n > 0
    ensures var s := ApplySchedule(f, today, pickedDay, currentId).value.schedule;
      s.duration == Some(60 * n)
      && (CheckSchedule(Some(s), o) == ClearAndStop <==> o.recording && o.elapsed >= 60 * n)
  {
    ParseIntOfNatToString(n);
    TimerRule(ApplySchedule(f, today, pickedDay, currentId).value.schedule, o);
  }

  /**
   * A daily schedule holds two fixed instants: a day after its start it
   * never starts a recording or switches station again.
   */
  lemma DailyDoesNotRecur(f: Form, today: int, pickedDay: int, currentId: Option<string>, o: Observation)
    requires f.mode == ByTime && f.recurrence == EveryDay && f.startInput != "" && f.endInput != ""
    requires ValidTime(ClockTime(f.startInput)) && ValidTime(ClockTime(f.endInput))
    requires o.now >= At(today, ClockTime(f.startInput)).value + DayMs
    ensures var a := CheckSchedule(Some(ApplySchedule(f, today, pickedDay, currentId).value.schedule), o);
      a == Idle || a == ClearAndStop
  {
    WindowWithinDay(today, ClockTime(f.startInput), ClockTime(f.endInput));
    var s := ApplySchedule(f, today, pickedDay, currentId).value.schedule;
    if Windowed(s) {
      NothingStartsAfterEnd(s, o);
    }
  }

  // ---------------------------------------------------------------------------
  // Week-day picker

  predicate Ascending(days: seq<int>) {
    forall i, j :: 0 <= i < j < |days| ==> days[i] <= days[j]
  }

  predicate StrictlyAscending(days: seq<int>) {
    forall i, j :: 0 <= i < j < |days| ==> days[i] < days[j]
  }

  /** `prev.filter(d => d !== day)`. */
  function Remove(days: seq<int>, day: int): (r: seq<int>)
    ensures forall x :: x in r <==> x in days && x != day
    ensures |r| <= |days|
  {
    if days == [] then []
    else if days[0] == day then Remove(days[1..], day)
    else [days[0]] + Remove(days[1..], day)
  }

  lemma {:induction false} RemoveAscending(days: seq<int>, day: int)
    requires Ascending(days)
    ensures Ascending(Remove(days, day))
  {
    if days != [] {
      assert Ascending(days[1..]);
      RemoveAscending(days[1..], day);
      if days[0] != day {
        ConsAscending(days[0], Remove(days[1..], day));
      }
    }
  }

  /** An ascending list stays ascending with a smaller-or-equal element in front. */
  lemma ConsAscending(x: int, rest: seq<int>)
    requires Ascending(rest)
    requires forall y :: y in rest ==> x <= y
    ensures Ascending([x] + rest)
  {
    var r := [x] + rest;
    forall i, j | 0 <= i < j < |r| ensures r[i] <= r[j] {
      assert r[j] == rest[j - 1] && rest[j - 1] in rest;
      if i > 0 {
        assert r[i] == rest[i - 1];
      }
    }
  }

  lemma {:induction false} RemoveAbsent(days: seq<int>, day: int)
    requires day !in days
    ensures Remove(days, day) == days
  {
    if days != [] {
      assert days == [days[0]] + days[1..];
      RemoveAbsent(days[1..], day);
    }
  }

  /** Puts `x` before the first element not smaller than it. */
  function InsertDay(x: int, sorted: seq<int>): (r: seq<int>)
    ensures multiset(r) == multiset(sorted) + multiset{x}
  {
    if sorted == [] || x <= sorted[0] then [x] + sorted
    else
      assert sorted == [sorted[0]] + sorted[1..];
      [sorted[0]] + InsertDay(x, sorted[1..])
  }

  lemma {:induction false} InsertDayAscending(x: int, sorted: seq<int>)
    requires Ascending(sorted)
    ensures Ascending(InsertDay(x, sorted))
  {
    if sorted == [] || x <= sorted[0] {
      ConsAscending(x, sorted);
    } else {
      assert Ascending(sorted[1..]);
      InsertDayAscending(x, sorted[1..]);
      var rest := InsertDay(x, sorted[1..]);
      forall y | y in rest ensures sorted[0] <= y {
        assert y in multiset(rest);
      }
      ConsAscending(sorted[0], rest);
    }
  }

  /** `[...prev, day].sort((a, b) => a - b)`: an ascending arrangement of the same days. */
  function SortDays(days: seq<int>): (r: seq<int>)
    ensures multiset(r) == multiset(days)
  {
    if days == [] then []
    else
      assert days == days[..|days| - 1] + [days[|days| - 1]];
      InsertDay(days[|days| - 1], SortDays(days[..|days| - 1]))
  }

  lemma {:induction false} SortDaysAscending(days: seq<int>)
    ensures Ascending(SortDays(days))
  {
    if days != [] {
      SortDaysAscending(days[..|days| - 1]);
      InsertDayAscending(days[|days| - 1], SortDays(days[..|days| - 1]));
    }
  }

  /** Sorting an ascending list leaves it as it is. */
  lemma {:induction false} InsertDayOfSorted(days: seq<int>)
    requires Ascending(days)
    ensures SortDays(days) == days
  {
    if days != [] {
      var init := days[..|days| - 1];
      var last := days[|days| - 1];
      assert init + [last] == days;
      AscendingInit(init, last);
      InsertDayOfSorted(init);
      InsertAtEnd(last, init);
    }
  }

  lemma AscendingInit(init: seq<int>, last: int)
    requires Ascending(init + [last])
    ensures Ascending(init)
    ensures forall k :: 0 <= k < |init| ==> init[k] <= last
  {
    var days := init + [last];
    forall i, j | 0 <= i < j < |init| ensures init[i] <= init[j] {
      assert init[i] == days[i] && init[j] == days[j];
    }
    forall k | 0 <= k < |init| ensures init[k] <= last {
      assert init[k] == days[k] && last == days[|init|];
    }
  }

  /** A day no smaller than any on an ascending list goes at its end. */
  lemma {:induction false} InsertAtEnd(x: int, sorted: seq<int>)
    requires Ascending(sorted)
    requires forall k :: 0 <= k < |sorted| ==> sorted[k] <= x
    ensures InsertDay(x, sorted) == sorted + [x]
  {
    if sorted != [] {
      if x <= sorted[0] {
        assert forall k :: 0 <= k < |sorted| ==> sorted[k] == x;
        assert forall k :: 0 <= k <= |sorted| ==> ([x] + sorted)[k] == (sorted + [x])[k];
      } else {
        InsertAtEnd(x, sorted[1..]);
      }
    }
  }

  /** `toggleDay`: removes the day when it is on the list, otherwise adds it in order. */
  function ToggleDay(days: seq<int>, day: int): (r: seq<int>)
    ensures day in r <==> day !in days
    ensures forall x :: x != day ==> (x in r <==> x in days)
  {
    if day in days then Remove(days, day)
    else
      assert multiset(SortDays(days + [day])) == multiset(days) + multiset{day};
      assert forall x :: x in SortDays(days + [day]) <==> x in multiset(days) + multiset{day};
      SortDays(days + [day])
  }

  /** The list stays in ascending order. */
  lemma ToggleDayAscending(days: seq<int>, day: int)
    requires Ascending(days)
    ensures Ascending(ToggleDay(days, day))
  {
    if day in days {
      RemoveAscending(days, day);
    } else {
      SortDaysAscending(days + [day]);
    }
  }

  /** A list without repeats in ascending order keeps both properties under any toggle. */
  lemma ToggleDayStrictlyAscending(days: seq<int>, day: int)
    requires StrictlyAscending(days)
    ensures StrictlyAscending(ToggleDay(days, day))
  {
    if day in days {
      RemoveStrictlyAscending(days, day);
    } else {
      SortAppend(days, day);
      InsertDayStrictlyAscending(day, days);
    }
  }

  /** A strictly ascending list stays so with a strictly smaller element in front. */
  lemma ConsStrictlyAscending(x: int, rest: seq<int>)
    requires StrictlyAscending(rest)
    requires forall y :: y in rest ==> x < y
    ensures StrictlyAscending([x] + rest)
  {
    var r := [x] + rest;
    forall i, j | 0 <= i < j < |r| ensures r[i] < r[j] {
      assert r[j] == rest[j - 1] && rest[j - 1] in rest;
      if i > 0 {
        assert r[i] == rest[i - 1];
      }
    }
  }

  lemma {:induction false} RemoveStrictlyAscending(days: seq<int>, day: int)
    requires StrictlyAscending(days)
    ensures StrictlyAscending(Remove(days, day))
  {
    if days != [] {
      assert StrictlyAscending(days[1..]);
      RemoveStrictlyAscending(days[1..], day);
      if days[0] != day {
        forall y | y in Remove(days[1..], day) ensures days[0] < y {
          var k :| 0 <= k < |days[1..]| && days[1..][k] == y;
          assert days[1..][k] == days[k + 1];
        }
        ConsStrictlyAscending(days[0], Remove(days[1..], day));
      }
    }
  }

  lemma {:induction false} InsertDayStrictlyAscending(x: int, sorted: seq<int>)
    requires StrictlyAscending(sorted) && x !in sorted
    ensures StrictlyAscending(InsertDay(x, sorted))
  {
    if sorted == [] || x <= sorted[0] {
      forall y | y in sorted ensures x < y {
        var k :| 0 <= k < |sorted| && sorted[k] == y;
        assert sorted[0] <= sorted[k];
      }
      ConsStrictlyAscending(x, sorted);
    } else {
      assert StrictlyAscending(sorted[1..]);
      assert x !in sorted[1..];
      InsertDayStrictlyAscending(x, sorted[1..]);
      var rest := InsertDay(x, sorted[1..]);
      forall y | y in rest ensures sorted[0] < y {
        assert y in multiset(rest);
        if y != x {
          var k :| 0 <= k < |sorted[1..]| && sorted[1..][k] == y;
          assert sorted[1..][k] == sorted[k + 1];
        }
      }
      ConsStrictlyAscending(sorted[0], rest);
    }
  }

  /** Toggling a day twice gives the list back, for a list without repeats in ascending order. */
  lemma ToggleDayTwice(days: seq<int>, day: int)
    requires StrictlyAscending(days)
    ensures ToggleDay(ToggleDay(days, day), day) == days
  {
    if day in days {
      var removed := Remove(days, day);
      RemoveAscending(days, day);
      SortAppend(removed, day);
      InsertRemoved(days, day);
    } else {
      SortAppend(days, day);
      var added := InsertDay(day, days);
      assert multiset(added) == multiset(days) + multiset{day};
      assert day in multiset(added);
      RemoveInserted(days, day);
    }
  }

  /** Sorting an ascending list with one day appended is inserting that day. */
  lemma SortAppend(days: seq<int>, day: int)
    requires Ascending(days)
    ensures SortDays(days + [day]) == InsertDay(day, days)
  {
    assert (days + [day])[..|days|] == days;
    InsertDayOfSorted(days);
  }

  lemma {:induction false} InsertRemoved(days: seq<int>, day: int)
    requires StrictlyAscending(days) && day in days
    ensures InsertDay(day, Remove(days, day)) == days
  {
    if days[0] == day {
      assert day !in days[1..];
      RemoveAbsent(days[1..], day);
      if days[1..] != [] {
        assert day < days[1];
      }
    } else {
      assert day in days[1..];
      InsertRemoved(days[1..], day);
      assert days[0] < day;
    }
  }

  lemma {:induction false} RemoveInserted(days: seq<int>, day: int)
    requires day !in days
    ensures Remove(InsertDay(day, days), day) == days
  {
    if days == [] || day <= days[0] {
      RemoveAbsent(days, day);
    } else {
      assert day !in days[1..];
      RemoveInserted(days[1..], day);
    }
  }

  // ---------------------------------------------------------------------------
  // Elapsed-time display

  /** `formatDuration`: whole minutes, a colon, then the seconds on two digits. */
  function FormatDuration(seconds: nat): (r: string)
    ensures |r| >= 4 && r[|r| - 3] == ':'
    ensures r[..|r| - 3] == NatToString(seconds / 60) && r[|r| - 2..] == Pad2(seconds % 60)
  {
    NatToString(seconds / 60) + ":" + Pad2(seconds % 60)
  }

  /** The text reads back as minutes times sixty plus seconds, the seconds below sixty. */
  lemma FormatDurationReadsBack(seconds: nat)
    ensures var r := FormatDuration(seconds);
      && |r| >= 4 && r[|r| - 3] == ':'
      && AllDigits(r[..|r| - 3]) && AllDigits(r[|r| - 2..])
      && DecimalValue(r[|r| - 2..]) < 60
      && DecimalValue(r[..|r| - 3]) * 60 + DecimalValue(r[|r| - 2..]) == seconds
  {
    var r := FormatDuration(seconds);
    var m := NatToString(seconds / 60);
    assert r[..|r| - 3] == m;
    assert r[|r| - 2..] == Pad2(seconds % 60);
    DecimalOfNatToString(seconds / 60);
    Pad2Value(seconds % 60);
  }

  /** Different elapsed times are shown differently. */
  lemma FormatDurationInjective(a: nat, b: nat)
    requires FormatDuration(a) == FormatDuration(b)
    ensures a == b
  {
    FormatDurationReadsBack(a);
    FormatDurationReadsBack(b);
  }
}
