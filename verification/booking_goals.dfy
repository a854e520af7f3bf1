/** Normalisation of the booking goals a user writes in YAML (src/booking_goals.py).
    Loading the YAML text is not modelled: the input is what the loader
    returns, a mapping from day names to mappings from times to class names. */
module BookingGoals {
  import opened Errors
  import opened Text

  /** A mapping key after loading: a string; a byte string (a `!!binary`
      key), which has `lower()` but never equals a weekday name and has no
      `replace` that takes string arguments; or any other scalar (a number, a
      boolean, null) that has neither. An unquoted `9:00` loads as a number. */
  datatype Scalar = Str(text: string) | Binary | NonStr

  /** The value under a day name: the items of the loaded dictionary from
      time to class name (distinct keys, in the order each key first
      appears), or anything that is not a mapping. */
  datatype Schedule = TimeTable(slots: seq<(Scalar, string)>) | NotTimeTable

  /** The loaded document: the items of the loaded dictionary from day name
      to schedule (distinct keys, in the order each key first appears), or
      anything that is not a mapping (the empty document loads as null). */
  datatype Document = DayTable(days: seq<(Scalar, Schedule)>) | NotDayTable

  /** One booking goal: a dictionary with the keys "name" and "time". */
  type Entry = map<string, string>

  /** The booking goals, keyed by weekday digit "0" (Monday) to "6" (Sunday). */
  type Goals = map<string, Entry>

  /** The fixed table from lower-case English weekday name to weekday digit. */
  const DayMapping: map<string, string> := map[
    "monday" := "0",
    "tuesday" := "1",
    "wednesday" := "2",
    "thursday" := "3",
    "friday" := "4",
    "saturday" := "5",
    "sunday" := "6"
  ]

  /** A time as written by the user with every colon and every space removed:
      "9:00" becomes "900" and "15:30" becomes "1530". */
  function NormaliseTime(time: string): (r: string)
    ensures ':' !in r && ' ' !in r
    ensures forall c :: c in r ==> c in time
  {
    RemoveAll(RemoveAll(time, ':'), ' ')
  }

  /** Normalisation drops the colons and spaces and nothing else. */
  lemma NormaliseTimeCounts(time: string)
    ensures multiset(NormaliseTime(time)) == multiset(time)[':' := 0][' ' := 0]
  {
    RemoveAllCounts(time, ':');
    RemoveAllCounts(RemoveAll(time, ':'), ' ');
  }

  /** A time that is already normalised is left unchanged. */
  lemma NormaliseTimeIdempotent(time: string)
    ensures NormaliseTime(NormaliseTime(time)) == NormaliseTime(time)
  {
    var n := NormaliseTime(time);
    RemoveAllAbsent(n, ':');
    RemoveAllAbsent(n, ' ');
  }

  function GoalEntry(name: string, time: string): Entry {
    map["name" := name, "time" := time]
  }

  /** The goal one time-table line stands for. */
  function SlotEntry(slot: (Scalar, string)): Entry
    requires slot.0.Str?
  {
    GoalEntry(slot.1, NormaliseTime(slot.0.text))
  }

  /** The day name is one of the seven weekdays, ignoring case. */
  predicate Recognised(day: (Scalar, Schedule)) {
    day.0.Str? && Lower(day.0.text) in DayMapping
  }

  /** The weekday digit a recognised day name selects. */
  function DayKey(day: (Scalar, Schedule)): string
    requires Recognised(day)
  {
    DayMapping[Lower(day.0.text)]
  }

  /** Every key of a time table is a string. */
  ghost predicate SlotsWellFormed(slots: seq<(Scalar, string)>) {
    forall j :: 0 <= j < |slots| ==> slots[j].0.Str?
  }

  /** A day the source can process without an exception: its name has
      `lower()` (a string or a byte string), and if it names a weekday, its
      schedule is a mapping whose keys are strings. Unknown day names,
      byte strings included, are skipped without looking at their schedule. */
  ghost predicate DayWellFormed(day: (Scalar, Schedule)) {
    && !day.0.NonStr?
    && (Recognised(day) ==> day.1.TimeTable? && SlotsWellFormed(day.1.slots))
  }

  ghost predicate WellFormed(days: seq<(Scalar, Schedule)>) {
    forall i :: 0 <= i < |days| ==> DayWellFormed(days[i])
  }

  /** The day names a weekday with digit `k` and has at least one time, so
      it writes a goal under `k`. */
  ghost predicate DayWrites(day: (Scalar, Schedule), k: string) {
    && Recognised(day)
    && DayKey(day) == k
    && day.1.TimeTable?
    && |day.1.slots| > 0
  }

  /** Day `i` of the document writes a goal under `k`. */
  ghost predicate Writes(days: seq<(Scalar, Schedule)>, i: int, k: string) {
    0 <= i < |days| && DayWrites(days[i], k)
  }

  /** Day `i` is the last day that writes under `k`. */
  ghost predicate LastWrite(days: seq<(Scalar, Schedule)>, i: int, k: string) {
    Writes(days, i, k) && forall j :: i < j < |days| ==> !Writes(days, j, k)
  }

  /** The goal the last line of a non-empty time table stands for. */
  function LastSlotEntry(slots: seq<(Scalar, string)>): Entry
    requires |slots| > 0 && slots[|slots| - 1].0.Str?
  {
    SlotEntry(slots[|slots| - 1])
  }

  /** The inner loop: each line of one weekday's time table overwrites the
      goal under that weekday's digit. */
  function AddSlots(acc: Goals, key: string, slots: seq<(Scalar, string)>): (r: Result<Goals>)
    ensures r.Err? ==> r.error == InvalidBookingGoals
    ensures r.Ok? <==> SlotsWellFormed(slots)
    ensures r.Ok? ==> r.value.Keys == acc.Keys + (if |slots| > 0 then {key} else {})
    ensures r.Ok? ==> forall k :: k in acc && k != key ==> r.value[k] == acc[k]
    ensures r.Ok? && |slots| > 0 ==> r.value[key] == LastSlotEntry(slots)
  {
    if |slots| == 0 then
      Ok(acc)
    else
      var front := slots[..|slots| - 1];
      var last := slots[|slots| - 1];
      assert forall j :: 0 <= j < |front| ==> front[j] == slots[j];
      match AddSlots(acc, key, front)
      case Err(e) => Err(e)
      case Ok(prev) =>
        match last.0
        case NonStr => Err(InvalidBookingGoals)
        case Binary => Err(InvalidBookingGoals)
        case Str(time) =>
          var entry := GoalEntry(last.1, NormaliseTime(time));
          assert entry == LastSlotEntry(slots);
          Ok(prev[key := entry])
  }

  /** One iteration of the outer loop: a day whose lower-cased name is not a
      weekday contributes nothing; a weekday's time table is added line by
      line. */
  function AddDay(acc: Goals, day: (Scalar, Schedule)): (r: Result<Goals>)
    ensures r.Err? ==> r.error == InvalidBookingGoals
    ensures r.Ok? <==> DayWellFormed(day)
    ensures r.Ok? && !Recognised(day) ==> r.value == acc
    ensures r.Ok? ==> forall k :: k in r.value <==> k in acc || DayWrites(day, k)
    ensures r.Ok? ==> forall k :: k in acc && !DayWrites(day, k) ==> r.value[k] == acc[k]
    ensures r.Ok? ==> forall k :: DayWrites(day, k) ==> r.value[k] == LastSlotEntry(day.1.slots)
  {
    match day.0
    case NonStr => Err(InvalidBookingGoals)
    case Binary => Ok(acc)
    case Str(name) =>
      var dayKey := Lower(name);
      if dayKey !in DayMapping then
        Ok(acc)
      else
        match day.1
        case NotTimeTable => Err(InvalidBookingGoals)
        case TimeTable(slots) => AddSlots(acc, DayMapping[dayKey], slots)
  }

  /** The outer loop over the days in document order; the value for a prefix
      is the dictionary after processing that prefix. */
  function AddDays(days: seq<(Scalar, Schedule)>): (r: Result<Goals>)
    ensures r.Err? ==> r.error == InvalidBookingGoals
    ensures r.Ok? <==> WellFormed(days)
  {
    if |days| == 0 then
      Ok(map[])
    else
      var front := days[..|days| - 1];
      assert forall i :: 0 <= i < |front| ==> front[i] == days[i];
      match AddDays(front)
      case Err(e) =>
        assert !WellFormed(days) by {
          var i :| 0 <= i < |front| && !DayWellFormed(front[i]);
          assert !DayWellFormed(days[i]);
        }
        Err(e)
      case Ok(prev) => AddDay(prev, days[|days| - 1])
  }

  /** What the outer loop builds from a well-formed document: a goal exactly
      under the digits some day writes, and under each digit the goal of the
      last time of the last day that writes it. */
  lemma {:induction false} AddDaysLastWriteWins(days: seq<(Scalar, Schedule)>)
    requires WellFormed(days)
    ensures AddDays(days).Ok?
    ensures forall k :: k in AddDays(days).value <==> exists i :: Writes(days, i, k)
    ensures forall i, k :: LastWrite(days, i, k) ==> AddDays(days).value[k] == LastSlotEntry(days[i].1.slots)
  {
    if |days| > 0 {
      var front := days[..|days| - 1];
      var last := days[|days| - 1];
      assert forall i :: 0 <= i < |front| ==> front[i] == days[i];
      assert WellFormed(front);
      AddDaysLastWriteWins(front);
      var prev := AddDays(front).value;
      var g := AddDays(days).value;
      assert g == AddDay(prev, last).value;
      forall k | k in g
        ensures exists i :: Writes(days, i, k)
      {
        if DayWrites(last, k) {
          assert Writes(days, |days| - 1, k);
        } else {
          var i :| Writes(front, i, k);
          assert Writes(days, i, k);
        }
      }
      forall k | exists i :: Writes(days, i, k)
        ensures k in g
      {
        var i :| Writes(days, i, k);
        if i < |front| {
          assert Writes(front, i, k);
        }
      }
      forall i, k | LastWrite(days, i, k)
        ensures g[k] == LastSlotEntry(days[i].1.slots)
      {
        if i < |front| {
          assert !Writes(days, |days| - 1, k);
          forall j | i < j < |front|
            ensures !Writes(front, j, k)
          {
            assert !Writes(days, j, k);
          }
          assert LastWrite(front, i, k);
        }
      }
    }
  }

  /** A weekday digit that some day writes has a last day writing it. */
  lemma {:induction false} LastWriteExists(days: seq<(Scalar, Schedule)>, i: int, k: string)
    requires Writes(days, i, k)
    ensures exists j :: LastWrite(days, j, k)
    decreases |days| - i
  {
    if !LastWrite(days, i, k) {
      var j :| i < j < |days| && Writes(days, j, k);
      LastWriteExists(days, j, k);
    }
  }

  /** A stored goal: exactly a name and a time, the time free of colons and
      spaces. */
  predicate ValidGoal(e: Entry) {
    e.Keys == {"name", "time"} && ':' !in e["time"] && ' ' !in e["time"]
  }

  /** `transform_yaml_to_dict` after loading: any exception becomes
      InvalidBookingGoals, and so does a result with no goal in it. */
  function TransformYamlToDict(doc: Document): (r: Result<Goals>)
    ensures r.Err? ==> r.error == InvalidBookingGoals
    ensures r.Ok? <==> doc.DayTable? && WellFormed(doc.days) && exists i, k :: Writes(doc.days, i, k)
    ensures r.Ok? ==> forall k :: k in r.value <==> exists i :: Writes(doc.days, i, k)
    ensures r.Ok? ==> forall i, k :: LastWrite(doc.days, i, k) ==> r.value[k] == LastSlotEntry(doc.days[i].1.slots)
    ensures r.Ok? ==> forall k :: k in r.value ==> k in DayMapping.Values && ValidGoal(r.value[k])
  {
    match doc
    case NotDayTable => Err(InvalidBookingGoals)
    case DayTable(days) =>
      match AddDays(days)
      case Err(e) => Err(e)
      case Ok(goals) =>
        AddDaysLastWriteWins(days);
        if goals == map[] then
          assert forall i, k :: Writes(days, i, k) ==> k in goals;
          Err(InvalidBookingGoals)
        else
          assert exists i, k :: Writes(days, i, k) by {
            var k :| k in goals;
            var i :| Writes(days, i, k);
          }
          assert forall k :: k in goals ==> k in DayMapping.Values && ValidGoal(goals[k]) by {
            forall k | k in goals
              ensures k in DayMapping.Values && ValidGoal(goals[k])
            {
              var i :| Writes(days, i, k);
              LastWriteExists(days, i, k);
              var j :| LastWrite(days, j, k);
            }
          }
          Ok(goals)
  }

  /** A day whose name has `lower()` but is not a weekday changes nothing,
      wherever it appears. */
  lemma {:induction false} UnknownDayIgnored(a: seq<(Scalar, Schedule)>, d: (Scalar, Schedule), b: seq<(Scalar, Schedule)>)
    requires !d.0.NonStr? && !Recognised(d)
    ensures AddDays(a + [d] + b) == AddDays(a + b)
    ensures TransformYamlToDict(DayTable(a + [d] + b)) == TransformYamlToDict(DayTable(a + b))
  {
    if |b| == 0 {
      assert a + [d] + b == a + [d];
      assert (a + [d])[..|a|] == a;
      assert a + b == a;
    } else {
      var front := b[..|b| - 1];
      var last := b[|b| - 1];
      UnknownDayIgnored(a, d, front);
      assert (a + [d] + b)[..|a + [d] + b| - 1] == a + [d] + front;
      assert (a + b)[..|a + b| - 1] == a + front;
      assert (a + [d] + b)[|a + [d] + b| - 1] == last;
      assert (a + b)[|a + b| - 1] == last;
    }
  }

  /** The times of the source's own test, normalised. */
  lemma ExampleTimes()
    ensures NormaliseTime("9:00") == "900"
    ensures NormaliseTime("15:30") == "1530"
  {
    assert RemoveAll("9:00", ':') == "900";
    RemoveAllAbsent("900", ' ');
    assert RemoveAll("15:30", ':') == "1530";
    RemoveAllAbsent("1530", ' ');
  }

  /** The day names of the source's own test: matching ignores case, and a
      Spanish day name is not a weekday. */
  lemma ExampleDayNames()
    ensures Lower("Monday") in DayMapping && DayMapping[Lower("Monday")] == "0"
    ensures Lower("friDAY") in DayMapping && DayMapping[Lower("friDAY")] == "4"
    ensures Lower("viernes") !in DayMapping
  {
    assert Lower("Monday") == "monday";
    assert Lower("friDAY") == "friday";
    assert Lower("viernes") == "viernes";
    assert "viernes"[0] != "tuesday"[0];
  }

  /** The document of the source's own test: Monday and friDAY are kept with
      their times stripped of the colon, viernes is dropped. */
  lemma TransformExample()
    ensures TransformYamlToDict(DayTable([
              (Str("Monday"), TimeTable([(Str("9:00"), "wod")])),
              (Str("friDAY"), TimeTable([(Str("15:30"), "functional")])),
              (Str("viernes"), TimeTable([(Str("12:12"), "wod")]))]))
            == Ok(map["0" := GoalEntry("wod", "900"), "4" := GoalEntry("functional", "1530")])
  {
    var d0 := (Str("Monday"), TimeTable([(Str("9:00"), "wod")]));
    var d1 := (Str("friDAY"), TimeTable([(Str("15:30"), "functional")]));
    var d2 := (Str("viernes"), TimeTable([(Str("12:12"), "wod")]));
    var days := [d0, d1, d2];
    var g0 := map["0" := GoalEntry("wod", "900")];
    var g1 := g0["4" := GoalEntry("functional", "1530")];
    ExampleTimes();
    ExampleDayNames();
    assert AddDays([d0]) == Ok(g0) by {
      assert [d0][..0] == [];
      assert AddDay(map[], d0) == Ok(g0);
    }
    assert AddDays([d0, d1]) == Ok(g1) by {
      assert [d0, d1][..1] == [d0];
      assert AddDay(g0, d1) == Ok(g1);
    }
    assert AddDays(days) == Ok(g1) by {
      assert days[..2] == [d0, d1];
      assert AddDay(g1, d2) == Ok(g1);
    }
    assert g1 == map["0" := GoalEntry("wod", "900"), "4" := GoalEntry("functional", "1530")];
  }

  /** The failing documents of the source's own test: the empty document,
      and one whose day names are all foreign. */
  lemma InvalidExamples()
    ensures TransformYamlToDict(NotDayTable) == Err(InvalidBookingGoals)
    ensures TransformYamlToDict(DayTable([
              (Str("Segunda-feira"), TimeTable([(Str("9:00"), "wod")])),
              (Str("viernes"), TimeTable([(Str("12:12"), "wod")]))]))
            == Err(InvalidBookingGoals)
  {
    ExampleDayNames();
    var d0 := (Str("Segunda-feira"), TimeTable([(Str("9:00"), "wod")]));
    var d1 := (Str("viernes"), TimeTable([(Str("12:12"), "wod")]));
    assert Lower("Segunda-feira") !in DayMapping by {
      assert |Lower("Segunda-feira")| == 13;
    }
    assert AddDays([d0]) == Ok(map[]) by {
      assert [d0][..0] == [];
    }
    assert [d0, d1][..1] == [d0];
    assert AddDays([d0, d1]) == Ok(map[]);
  }

  /** A `!!binary` day name is skipped like any other unknown day, even when
      its schedule is not a mapping, while a numeric day name is an error. */
  lemma BinaryDayExample()
    ensures TransformYamlToDict(DayTable([
              (Binary, NotTimeTable),
              (Str("Monday"), TimeTable([(Str("9:00"), "wod")]))]))
            == Ok(map["0" := GoalEntry("wod", "900")])
    ensures TransformYamlToDict(DayTable([
              (NonStr, NotTimeTable),
              (Str("Monday"), TimeTable([(Str("9:00"), "wod")]))]))
            == Err(InvalidBookingGoals)
  {
    var d := (Str("Monday"), TimeTable([(Str("9:00"), "wod")]));
    ExampleTimes();
    ExampleDayNames();
    UnknownDayIgnored([], (Binary, NotTimeTable), [d]);
    assert [] + [(Binary, NotTimeTable)] + [d] == [(Binary, NotTimeTable), d];
    assert [] + [d] == [d];
    assert [d][..0] == [];
    assert AddDays([d]) == Ok(map["0" := GoalEntry("wod", "900")]);
    assert !WellFormed([(NonStr, NotTimeTable), d]) by {
      assert !DayWellFormed([(NonStr, NotTimeTable), d][0]);
    }
  }
}
