# fitbot booking selection, modelled in Dafny

fitbot books gym classes on a box's web portal. Before it books anything, it
decides what to book, and it does this with two pure routines, which this
project models and proves properties of:

- **Goal normalisation** (`transform_yaml_to_dict`, src/booking_goals.py). The
  user writes a YAML document that maps day names to `time: class name` pairs.
  Day names are matched against the seven English weekday names, ignoring case,
  and become the weekday digits `"0"` (Monday) to `"6"` (Sunday). Unknown day
  names are skipped. Every colon and space is stripped from the times. A later
  day name that lower-cases to the same weekday and has at least one time
  overwrites an earlier one, and within a day the last time wins. Any exception, and a result with no goal in
  it, becomes `InvalidBookingGoals`.
- **Class selection** (`get_booking_goal_time` and `get_class_to_book`,
  src/main.py). The first looks up the goal for the target weekday. If there
  is no goal, or the goal lacks a time or a name, it fails with
  `NoClassOnTargetDayTime`. The second chooses a class from the portal's list.
  An empty list is `BoxClosed`. Otherwise it keeps the classes whose time
  identifier contains the target time (case-sensitive), then those whose
  lower-cased name contains the lower-cased wanted name. It returns the id of
  the first class left, or fails with `NoBookingGoal` if none is left.

Layout, one module per file:

- `errors.dfy` (`Errors`): the four exception kinds and a `Result` type.
- `text.dfy` (`Text`): the Python string operations the core uses. These are
  ASCII `str.lower()`, substring `in`, and `str.replace(c, "")` for one
  character.
- `seqs.dfy` (`Seqs`): `list(filter(...))`, with its order and first-element
  facts.
- `booking_goals.dfy` (`BookingGoals`): the document after loading, the
  normalisation loop, and its declarative description. Day `i` *writes* the
  weekday digit `k` when its name lower-cases to the weekday of `k` and it has
  at least one time. It is the *last write* of `k` when no later day writes `k`.
- `selection.dfy` (`Selection`): the goal lookup and the class choice. The
  class choice is stated against an independent description: the first class
  in the list that is wanted. A lemma feeds the normalisation's output to the
  lookup. The program itself never does this (`main` reads its goals from the
  `--booking-goals` JSON, src/main.py:82, and does not call
  `transform_yaml_to_dict`), so the lemma shows that the two data formats are
  compatible, not a call path of the program.

Errors are values: every operation that can fail in the source returns
`Result`, and the error paths of the source that the model's input types can
express are the `Err` cases, not preconditions.

## Model

| member | source | states |
|---|---|---|
| Text.Contains | src/main.py:30 | `p in s` holds exactly when `p` occurs at some index of `s`; the empty string occurs in every string |
| Text.Lower | src/booking_goals.py:21 | lower-casing keeps the length, maps each ASCII capital to its small letter, keeps every other character, and leaves no capital |
| Text.RemoveAll | src/booking_goals.py:24 | after `replace(c, "")` the string holds no `c` and no character that was not there before |
| Text.RemoveAllCounts | src/booking_goals.py:24 | `replace(c, "")` drops exactly the occurrences of `c`: all other characters keep their multiplicity, and the length falls by the count of `c` |
| Text.RemoveAllAppend | src/booking_goals.py:24 | removal keeps the order of the remaining characters: it works piecewise on a concatenation |
| Text.RemoveAllAbsent | src/booking_goals.py:24 | a string without `c` is returned unchanged |
| Seqs.Filter | src/main.py:30-35 | the filtered list is no longer than the input, every survivor satisfies the condition, and it is empty exactly when no element satisfies it |
| Seqs.FilterAppend | src/main.py:30-35 | filtering preserves order: it distributes over concatenation |
| Seqs.FilterFilter | src/main.py:30-35 | filtering by time and then by name keeps the same list as filtering once by both conditions |
| Seqs.FilterHead | src/main.py:36-40 | the first survivor of a filter is the first element of the input that satisfies the condition |
| BookingGoals.NormaliseTime | src/booking_goals.py:24 | a normalised time contains neither `:` nor a space, and no character that was not in the input |
| BookingGoals.NormaliseTimeCounts | src/booking_goals.py:24 | normalisation removes every colon and space and keeps all other characters with their multiplicity |
| BookingGoals.NormaliseTimeIdempotent | src/booking_goals.py:24 | normalising a normalised time changes nothing |
| BookingGoals.ExampleTimes | src/booking_goals.py:24 | `"9:00"` becomes `"900"` and `"15:30"` becomes `"1530"` |
| BookingGoals.ExampleDayNames | src/booking_goals.py:10-22 | `Monday` maps to `"0"` and `friDAY` to `"4"` after lower-casing; `viernes` is not a weekday |
| BookingGoals.AddSlots | src/booking_goals.py:23-28 | the inner loop fails with InvalidBookingGoals exactly when some time key is not a string; otherwise it adds the weekday digit if there is a time, stores the last time's goal (name unchanged, time normalised) under it, and leaves every other weekday as it was |
| BookingGoals.AddDay | src/booking_goals.py:20-31 | one day fails exactly when its name has no `lower()` (neither a string nor a byte string) or it names a weekday with a malformed schedule; an unknown day, a byte-string name included, changes nothing; a weekday's last time overwrites that digit and nothing else |
| BookingGoals.AddDays | src/booking_goals.py:20-31 | the loop over the days succeeds exactly when every day is well formed (its name has `lower()`, and a weekday's schedule is a mapping with string times), and otherwise fails with InvalidBookingGoals |
| BookingGoals.AddDaysLastWriteWins | src/booking_goals.py:20-28 | on a well-formed document, the result holds a goal exactly for the digits some day writes, and under each digit the goal of the last time of the last day that writes it |
| BookingGoals.TransformYamlToDict | src/booking_goals.py:6-36 | fails only with InvalidBookingGoals; succeeds exactly when the document is a mapping, every day is well formed and some weekday gets a time; on success every key is one of `"0"`..`"6"`, every goal is exactly a name and a time free of colons and spaces, and the last write wins |
| BookingGoals.UnknownDayIgnored | src/booking_goals.py:21-22 | a day whose name has `lower()` but is not a weekday can be removed from anywhere in the document without changing the result |
| BookingGoals.TransformExample | src/tests/test_booking_goals.py:12-23 | Monday and friDAY are kept with times `"900"` and `"1530"`; viernes is dropped |
| BookingGoals.BinaryDayExample | src/booking_goals.py:20-22 | a `!!binary` day name is skipped even when its schedule is not a mapping, while a numeric day name makes the whole document InvalidBookingGoals |
| BookingGoals.InvalidExamples | src/tests/test_booking_goals.py:34-46 | the empty document, and a document with only foreign day names, are InvalidBookingGoals |
| Selection.WeekdayKey | src/main.py:16-17 | `str(day.weekday())` is the one digit whose value is the weekday |
| Selection.WeekdayKeyMatchesDayMapping | src/booking_goals.py:10-18 | the day table maps each English weekday name, Monday first, to the digit the lookup uses for that weekday |
| Selection.GetBookingGoalTime | src/main.py:11-23 | succeeds exactly when some key spelling the weekday's number holds an entry with both a time and a name, and then returns that entry's time and name; otherwise fails with NoClassOnTargetDayTime |
| Selection.GetClassToBook | src/main.py:26-40 | BoxClosed exactly for the empty list; NoBookingGoal exactly for a non-empty list in which no class has the target time and the wanted name; on success, the id of the first class in list order that has both |
| Selection.SameWantedSameChoice | src/main.py:30-40 | the choice depends only on which classes are wanted: two queries that want the same classes choose the same one |
| Selection.NameMatchIgnoresCase | src/main.py:33 | wanted names that lower-case alike choose the same class |
| Selection.TimeMatchIsCaseSensitive | src/main.py:30-33 | the time `AM` does not find `1700_am` while `am` does, and the name `WOD` finds `wod` |
| Selection.ClassToBookExamples | src/tests/test_main.py:44-73 | a matching class is chosen, two identical matches give their id, a class at another time is NoBookingGoal, and the empty list is BoxClosed |
| Selection.FirstOfTwoMatchesWins | src/main.py:36-40 | of two wanted classes with different ids (123 named `foo`, then 124 named `FOO`), the first in list order, 123, is chosen |
| Selection.BookingGoalTimeExamples | src/tests/test_main.py:19-33 | Monday with goal `("1700", "foo")` returns it; no goals is NoClassOnTargetDayTime |
| Selection.GoalLookupAfterTransform | src/main.py:15-18 | the two goal formats agree (the program itself does not chain the routines): on goals produced by normalisation, a weekday has a goal exactly when some day of the document writes it, and the lookup returns the normalised time and the unchanged name of the last time of the last such day |

## Left out

- `main()` and the command-line entry point (src/main.py:43-89) are left out. They only log, parse arguments and call the client. `main` (src/main.py:43) requires `family_id`, which the test in src/tests/test_main.py:176-193 does not pass.
- `load_days_off`, `validate_target_day` and the `DayOff` exception are left out. The tests import them (src/tests/test_main.py:11-14), but src/main.py does not define `load_days_off` or `validate_target_day`, src/exceptions.py does not define `DayOff`, and the two functions read files.
- The client (`AimHarderClient`: login, class listing, booking, and the classification of the portal's login and booking responses) is left out. It does HTTP I/O and classifies the portal's HTML and JSON responses, which is outside the two pure routines modelled here. One consequence is not modelled: when the portal response has no `bookings` key, `get_classes` returns `None` (src/tests/test_client.py:62-65, where `{}` gives `None`), and `get_class_to_book` would then fail on `len(None)`.
- `yaml.safe_load` is left out because it is a foreign library. The input is the loader's result. Keys are modelled as `Str` (a string), `Binary` (a `!!binary` byte string, which has `lower()` and so is skipped as a day name, but makes `replace` raise as a time) and `NonStr` (anything without `lower()`). Non-mapping values are `NotTimeTable` / `NotDayTable`. The source raises inside its `try` block for `NonStr` day names, for non-`Str` times of a weekday, and for non-mapping documents and weekday schedules. YAML syntax errors end in the same `InvalidBookingGoals`, and the model does not distinguish them from the `NotDayTable` case.
- BookingGoals.TransformYamlToDict: class names are modelled as strings only. The source stores whatever value the loader produced, unchanged.
- Text.Lower: only ASCII letters are lower-cased. Python's `str.lower()` is Unicode-aware. For day names this makes no difference, because no non-ASCII character lower-cases into a spelling of an English weekday. For class names it can: a non-ASCII capital in a class name or wanted name is compared unchanged.
- Selection.GetBookingGoalTime: the weekday is an integer from 0 to 6 instead of a `datetime`. The clock (`datetime.today() + timedelta`) and the `strftime` text of the error message are left out. Goals are a map from key to a string-to-string dictionary, so a goal entry that is not a dictionary (for example `{"0": "1700"}` passed as `--booking-goals`, src/main.py:82) is not expressible; the source raises `TypeError` there, which neither `get_booking_goal_time` (src/main.py:19) nor `main` (src/main.py:65) catches.
- Repeated YAML keys: the loader keeps one dictionary entry per repeated key, at the position where the key first appears and with the last value. The model takes the loader's dictionary items, so it assumes distinct keys and does not model this collapsing; fed the document's lines in order with a repeated key, it would let the last repetition's position win instead.
- `InvalidBookingGoals` is imported by src/booking_goals.py:3, but src/exceptions.py does not define it, so the module as written fails at import. The model assumes the class exists, as an ordinary exception.
- Exception messages are left out. Every error is modelled by its kind only.
- Class records: the portal's records are modelled with exactly `id`, `timeid` and `className`, with an integer id. A record missing one of these keys, which would raise `KeyError` in the source, is not modelled.
