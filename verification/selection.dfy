/** Choosing what to book (src/main.py): the goal for the target weekday,
    and the class among the portal's list that matches that goal. */
module Selection {
  import opened Errors
  import opened Text
  import opened Seqs
  import BookingGoals

  /** `datetime.weekday()`: 0 is Monday, 6 is Sunday. */
  type Weekday = d: int | 0 <= d <= 6

  /** `str(d)` for a weekday: its one decimal digit. */
  function WeekdayKey(d: Weekday): (k: string)
    ensures |k| == 1 && '0' <= k[0] <= '6'
    ensures k[0] as int - '0' as int == d
  {
    [('0' as int + d) as char]
  }

  /** The goals document maps each English weekday name to the digit
      `str(day.weekday())` gives for that weekday, Monday being 0, so the two
      parts of the bot agree. */
  lemma WeekdayKeyMatchesDayMapping()
    ensures BookingGoals.DayMapping == map[
      "monday" := WeekdayKey(0),
      "tuesday" := WeekdayKey(1),
      "wednesday" := WeekdayKey(2),
      "thursday" := WeekdayKey(3),
      "friday" := WeekdayKey(4),
      "saturday" := WeekdayKey(5),
      "sunday" := WeekdayKey(6)
    ]
  {
  }

  /** `k` is the decimal numeral of `d`. */
  ghost predicate Denotes(k: string, d: int) {
    |k| == 1 && k[0] as int - '0' as int == d
  }

  /** Exactly one one-character key names each weekday. */
  lemma DenotesUnique(k: string, d: Weekday)
    requires Denotes(k, d)
    ensures k == WeekdayKey(d)
  {
  }

  /** The goals hold, under key `k`, an entry with both a time and a name. */
  ghost predicate HasGoal(goals: BookingGoals.Goals, k: string) {
    k in goals && "time" in goals[k] && "name" in goals[k]
  }

  /** `get_booking_goal_time`: the time and the class name of the goal for the
      target weekday. A missing goal, or one lacking its time or its name,
      is NoClassOnTargetDayTime. */
  function GetBookingGoalTime(weekday: Weekday, goals: BookingGoals.Goals): (r: Result<(string, string)>)
    ensures r.Err? ==> r.error == NoClassOnTargetDayTime
    ensures r.Ok? <==> exists k :: Denotes(k, weekday) && HasGoal(goals, k)
    ensures r.Ok? ==>
      exists k :: Denotes(k, weekday) && HasGoal(goals, k) && r.value == (goals[k]["time"], goals[k]["name"])
  {
    var key := WeekdayKey(weekday);
    if key in goals && "time" in goals[key] && "name" in goals[key] then
      assert Denotes(key, weekday);
      Ok((goals[key]["time"], goals[key]["name"]))
    else
      assert forall k :: Denotes(k, weekday) ==> k == key;
      Err(NoClassOnTargetDayTime)
  }

  /** One bookable class as the portal lists it: its id, its time identifier
      such as "1700_60", and its display name. */
  datatype ClassSlot = ClassSlot(id: int, timeId: string, className: string)

  /** The class starts at the target time: plain, case-sensitive containment. */
  predicate AtTime(c: ClassSlot, targetTime: string) {
    Contains(c.timeId, targetTime)
  }

  /** The class carries the wanted name: containment after lower-casing both. */
  predicate Named(c: ClassSlot, className: string) {
    Contains(Lower(c.className), Lower(className))
  }

  predicate Wanted(c: ClassSlot, targetTime: string, className: string) {
    AtTime(c, targetTime) && Named(c, className)
  }

  /** `i` is the position of the first wanted class in the list. */
  ghost predicate FirstWanted(classes: seq<ClassSlot>, targetTime: string, className: string, i: int) {
    && 0 <= i < |classes|
    && Wanted(classes[i], targetTime, className)
    && forall j :: 0 <= j < i ==> !Wanted(classes[j], targetTime, className)
  }

  /** `get_class_to_book`: an empty list means the box is closed; otherwise the
      list is filtered by time, then by name, and the first survivor's id is
      returned, or NoBookingGoal if nothing survives. */
  function GetClassToBook(classes: seq<ClassSlot>, targetTime: string, className: string): (r: Result<int>)
    ensures r == Err(BoxClosed) <==> |classes| == 0
    ensures r == Err(NoBookingGoal) <==>
      |classes| > 0 && forall i :: 0 <= i < |classes| ==> !Wanted(classes[i], targetTime, className)
    ensures r.Err? ==> r.error == BoxClosed || r.error == NoBookingGoal
    ensures r.Ok? ==> exists i :: FirstWanted(classes, targetTime, className, i) && r.value == classes[i].id
  {
    if |classes| == 0 then
      Err(BoxClosed)
    else
      var atTime := Filter(c => AtTime(c, targetTime), classes);
      var named := Filter(c => Named(c, className), atTime);
      FilterFilter(c => AtTime(c, targetTime), c => Named(c, className),
                   c => Wanted(c, targetTime, className), classes);
      if |named| == 0 then
        Err(NoBookingGoal)
      else
        assert exists i :: FirstWanted(classes, targetTime, className, i) && named[0] == classes[i] by {
          FirstWantedExists(classes, targetTime, className);
          var i :| FirstWanted(classes, targetTime, className, i);
          FilterHead(c => Wanted(c, targetTime, className), classes, i);
        }
        Ok(named[0].id)
  }

  /** If some class is wanted, one of them comes first. */
  lemma {:induction false} FirstWantedExists(classes: seq<ClassSlot>, targetTime: string, className: string)
    requires exists i :: 0 <= i < |classes| && Wanted(classes[i], targetTime, className)
    ensures exists i :: FirstWanted(classes, targetTime, className, i)
  {
    if Wanted(classes[0], targetTime, className) {
      assert FirstWanted(classes, targetTime, className, 0);
    } else {
      var i :| 0 <= i < |classes| && Wanted(classes[i], targetTime, className);
      assert 0 <= i - 1 < |classes[1..]| && Wanted(classes[1..][i - 1], targetTime, className);
      FirstWantedExists(classes[1..], targetTime, className);
      var j :| FirstWanted(classes[1..], targetTime, className, j);
      assert FirstWanted(classes, targetTime, className, j + 1);
    }
  }

  /** Only which classes are wanted matters: two queries that want the same
      classes of a list choose the same one. */
  lemma SameWantedSameChoice(classes: seq<ClassSlot>, t1: string, n1: string, t2: string, n2: string)
    requires forall i :: 0 <= i < |classes| ==> Wanted(classes[i], t1, n1) == Wanted(classes[i], t2, n2)
    ensures GetClassToBook(classes, t1, n1) == GetClassToBook(classes, t2, n2)
  {
    var r1 := GetClassToBook(classes, t1, n1);
    var r2 := GetClassToBook(classes, t2, n2);
    if r1.Ok? {
      var i :| FirstWanted(classes, t1, n1, i) && r1.value == classes[i].id;
      assert FirstWanted(classes, t2, n2, i);
      var j :| FirstWanted(classes, t2, n2, j) && r2.value == classes[j].id;
      assert FirstWanted(classes, t1, n1, j);
      assert i == j;
    }
  }

  /** The wanted class name is matched regardless of case: names that
      lower-case alike choose the same class. */
  lemma NameMatchIgnoresCase(classes: seq<ClassSlot>, targetTime: string, n1: string, n2: string)
    requires Lower(n1) == Lower(n2)
    ensures GetClassToBook(classes, targetTime, n1) == GetClassToBook(classes, targetTime, n2)
  {
    SameWantedSameChoice(classes, targetTime, n1, targetTime, n2);
  }

  /** The time is matched as written: "AM" does not find "1700_am", while
      the class name "WOD" finds "wod". */
  lemma TimeMatchIsCaseSensitive()
    ensures GetClassToBook([ClassSlot(1, "1700_am", "wod")], "AM", "WOD") == Err(NoBookingGoal)
    ensures GetClassToBook([ClassSlot(1, "1700_am", "wod")], "am", "WOD") == Ok(1)
  {
    var c := ClassSlot(1, "1700_am", "wod");
    assert !Contains("1700_am", "AM") by {
      forall i ensures !OccursAt("AM", "1700_am", i) {
        if 0 <= i <= 5 {
          assert "1700_am"[i + 1] != 'M';
        }
      }
    }
    assert OccursAt("am", "1700_am", 5);
    assert Lower("WOD") == "wod" && Lower("wod") == "wod";
    assert OccursAt("wod", "wod", 0);
    assert FirstWanted([c], "am", "WOD", 0);
  }

  /** The cases of the source's own test: two identical matching classes
      give their id, a class at another time is no booking goal, and an empty
      list means the box is closed. */
  lemma ClassToBookExamples()
    ensures GetClassToBook([ClassSlot(123, "1700_60", "foo")], "1700", "foo") == Ok(123)
    ensures GetClassToBook([ClassSlot(123, "1700_60", "foo"), ClassSlot(123, "1700_60", "foo")], "1700", "foo") == Ok(123)
    ensures GetClassToBook([ClassSlot(123, "1100_60", "foo")], "1700", "foo") == Err(NoBookingGoal)
    ensures GetClassToBook([], "1700", "foo") == Err(BoxClosed)
  {
    var c := ClassSlot(123, "1700_60", "foo");
    assert OccursAt("1700", "1700_60", 0);
    assert Lower("foo") == "foo";
    assert OccursAt("foo", "foo", 0);
    assert FirstWanted([c], "1700", "foo", 0);
    assert FirstWanted([c, c], "1700", "foo", 0);
    assert !Contains("1100_60", "1700") by {
      forall i ensures !OccursAt("1700", "1100_60", i) {
        if 0 <= i <= 3 {
          assert "1100_60"[i + 1] != '7';
        }
      }
    }
  }

  /** Of two wanted classes with different ids, the first in list order is
      chosen, even when the second spells the name differently. */
  lemma FirstOfTwoMatchesWins()
    ensures GetClassToBook([ClassSlot(123, "1700_60", "foo"), ClassSlot(124, "1700_60", "FOO")], "1700", "foo") == Ok(123)
  {
  }

  /** The cases of the source's own test for the goal lookup: a Monday with a
      goal, and no goals at all. */
  lemma BookingGoalTimeExamples()
    ensures GetBookingGoalTime(0, map["0" := map["time" := "1700", "name" := "foo"]]) == Ok(("1700", "foo"))
    ensures GetBookingGoalTime(0, map[]) == Err(NoClassOnTargetDayTime)
  {
    assert WeekdayKey(0) == "0";
  }

  /** Reading back the goals of a normalised document: a weekday has a goal
      exactly when some day of the document writes one for it, and the goal
      found is the normalised time and the name of the last time of the last
      such day. The program does not chain the two routines (its goals come
      from the `--booking-goals` JSON); this shows the two formats agree. */
  lemma GoalLookupAfterTransform(doc: BookingGoals.Document, weekday: Weekday, goals: BookingGoals.Goals)
    requires BookingGoals.TransformYamlToDict(doc) == Ok(goals)
    ensures GetBookingGoalTime(weekday, goals).Ok? <==>
      exists i :: BookingGoals.Writes(doc.days, i, WeekdayKey(weekday))
    ensures forall i :: BookingGoals.LastWrite(doc.days, i, WeekdayKey(weekday)) ==>
      var e := BookingGoals.LastSlotEntry(doc.days[i].1.slots);
      GetBookingGoalTime(weekday, goals) == Ok((e["time"], e["name"]))
  {
    var key := WeekdayKey(weekday);
    assert Denotes(key, weekday);
    forall k | Denotes(k, weekday)
      ensures k == key
    {
      DenotesUnique(k, weekday);
    }
    if key in goals {
      assert BookingGoals.ValidGoal(goals[key]);
      assert HasGoal(goals, key);
    }
  }
}
