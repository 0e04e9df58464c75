# LightMaster scheduling core in Dafny

This project models the sequential core of LightMaster, a program that decides
which time-windowed light show is active at an instant and paints it onto a
WS281x LED strip:

- `scheduled_event.dfy` (module `ScheduledEvents`): the `ScheduledEvent` time
  window. A `datetime` is an integer count of microseconds (`Instant`), a
  `date` a day number and a `time` the microseconds since midnight, so that
  `datetime.combine` is `day * 86_400_000_000 + time`. It covers construction
  with the `end >= start` check, `start_datetime`/`end_datetime`, `contains`
  and `from_datetimes`.
- `scheduler.dfy` (module `Scheduler`): `EventScheduler`, an insertion-ordered
  list of `(priority, event)` entries. It covers `add_event`, `remove_event`
  (the first entry whose event is `==`), `get_matching_events` and
  `get_highest_priority_event`. The last one is modelled literally: filter,
  stable sort on `(-priority, start_datetime)`, take the head. The exact
  selection rule (`IsWinner`: largest tuple priority, then earliest start,
  then earliest insertion) is proved about it.
- `light_pattern.dfy` (module `LightPatterns`): `_validate_rgb`, the `Light`
  record (a validated colour and a count that is never negative) and the
  `LightPattern` container, a class whose `lights` sequence is updated in place.
- `rpi_controller.dfy` (module `RpiController`): the mock `PixelStrip`, a class
  over an `array` of RGB triples, and `LEDController`. `send_pattern` is
  written as the source's nested loops and proved to leave the buffer equal to
  `Render(old buffer, Expand(pattern), offset)`. `Expand` is the run-length
  expansion; lemmas about `Render` state what `send_pattern` promises.
- `wrappers.dfy` (module `Wrappers`): `Option`, and `Result` carrying the
  Python exception (`TypeError`/`ValueError` with the source's message)
  that a failing constructor raises.

Notes on the code:

- `remove_event` compares events with dataclass `==`, field by field.
  Datatype equality does the same here. `pattern` is a `LightPattern`
  reference, so it is compared by identity, as Python's default `__eq__`
  compares it.
- `id` defaults to `0`; `from_datetimes` passes `None`, so the model types it
  as `Option<int>`.

Some source defects are taken as intended behaviour:

- `pattern` has no default, yet `from_datetimes` never supplies one.
  `FromDatetimes` allocates a fresh empty pattern.
- `add_light` is called but never defined. `AddLight` validates the colour
  with `ValidateRgb`, then builds `Light(color, count)` and appends it.
- The `validate` metadata on `Light.color` is never invoked. Colours are
  validated explicitly instead.

## Model

| member | source | states |
|---|---|---|
| `LightPatterns.ValidateRgb` | LightPattern.py:6-9 | accepted exactly when the value has three components, each in 0..255; the colour then has the same components in the same order; otherwise the TypeError with the source's message |
| `LightPatterns.ValidateRgbRoundTrip` | LightPattern.py:6-9 | every colour passes validation and comes back unchanged |
| `LightPatterns.MakeLight` | LightPattern.py:15-20 | succeeds exactly when the colour is valid and the count is not negative (count 0 allowed), keeping both; a bad colour gives the TypeError, a negative count the ValueError |
| `LightPatterns.DefaultLight` | LightPattern.py:15-16 | the defaults are one white `(255, 255, 255)` LED and pass validation |
| `LightPatterns.MakeLightRoundTrip` | LightPattern.py:13-20 | rebuilding a light from its own colour and count gives the same light |
| `LightPatterns.LightPattern.constructor` | LightPattern.py:28-32 | the lights are the given ones, in the same order (none by default) |
| `LightPatterns.LightPattern.AddLight` | LightPattern.py:32 | the result is `MakeLight(color, count)`; the light is appended on success, the list is unchanged on failure |
| `LightPatterns.LightPattern.AsList` | LightPattern.py:34-35 | a new list holding the same lights, in stored order |
| `LightPatterns.LightPattern.Clear` | LightPattern.py:37-38 | the pattern is left empty |
| `LightPatterns.LightPattern.Iter` | LightPattern.py:44-45 | yields `Len()` lights, the k-th stored light k-th |
| `LightPatterns.LightPattern.Len` | LightPattern.py:47-48 | the number of stored lights |
| `LightPatterns.ConstructedPatterns` | LightPattern.py:28-35 | a pattern built with no lights has length 0; one built from lights lists them back in order |
| `ScheduledEvents.Combine` | ScheduledEvent.py:24 | `datetime.combine(d, t)`: the instant whose date is `d` and whose time is `t` |
| `ScheduledEvents.DateOf` | ScheduledEvent.py:43 | `dt.date()`: the day whose midnight is the last one at or before `dt` |
| `ScheduledEvents.TimeOf` | ScheduledEvent.py:43 | `dt.time()`: the microseconds from the midnight of `dt`'s date to `dt` |
| `ScheduledEvents.CombineSplit` | ScheduledEvent.py:22-28 | the date and time parts of an instant combine back to it |
| `ScheduledEvents.CombineOrder` | ScheduledEvent.py:22-28 | combined instants compare lexicographically on (date, time) |
| `ScheduledEvents.ScheduledEvent.StartDatetime` | ScheduledEvent.py:22-24 | the instant whose date is `start_date` and whose time is `start_time` |
| `ScheduledEvents.ScheduledEvent.EndDatetime` | ScheduledEvent.py:26-28 | the instant whose date is `end_date` and whose time is `end_time` |
| `ScheduledEvents.ScheduledEvent.Valid` | ScheduledEvent.py:18-20 | the `__post_init__` invariant: holds exactly when the end (date, time) is not lexicographically before the start |
| `ScheduledEvents.ScheduledEvent.Contains` | ScheduledEvent.py:30-31 | start <= dt <= end, both ends included; a window that contains any instant is valid |
| `ScheduledEvents.MakeEvent` | ScheduledEvent.py:7-20 | succeeds exactly when end is not before start, with the given fields and the valid-window invariant; otherwise the ValueError |
| `ScheduledEvents.MakeEventRejectsReversed` | ScheduledEvent.py:18-20 | construction fails exactly when the end (date, time) is lexicographically before the start; a zero-length window is accepted |
| `ScheduledEvents.MakeEventDefaults` | ScheduledEvent.py:13-15 | on every window whose end is not before its start, unspecified `id`, `name` and `priority` are 0, "" and 0 |
| `ScheduledEvents.ContainsIff` | ScheduledEvent.py:30-31 | `contains(dt)` holds exactly when the (date, time) of `dt` lies lexicographically between the start and end (date, time), both ends included |
| `ScheduledEvents.ContainsEndpoints` | ScheduledEvent.py:18-31 | every valid event contains its own start and end |
| `ScheduledEvents.ContainsConvex` | ScheduledEvent.py:31 | an instant between two contained instants is contained |
| `ScheduledEvents.EventBetween` | ScheduledEvent.py:40-48 | fails exactly when end < start; otherwise start/end instants equal the arguments, `id` is None, `name` is "" and `priority` is 0 |
| `ScheduledEvents.FromDatetimes` | ScheduledEvent.py:39-48 | as `EventBetween`, with a fresh empty pattern |
| `Scheduler.Matching` | Scheduler.py:26-28 | keeps only entries from the list that contain `now`, and keeps every one that does |
| `Scheduler.MatchingConcat` | Scheduler.py:28 | filtering commutes with concatenation, so matches stay in insertion order |
| `Scheduler.MatchingMultiplicity` | Scheduler.py:28 | each matching entry occurs as often as in the list; non-matching entries never |
| `Scheduler.MatchingIdempotent` | Scheduler.py:28 | filtering the matches again changes nothing |
| `Scheduler.KeyLess` | Scheduler.py:35 | `<` on the sort keys `(-priority, start_datetime)`: an entry sorts before every entry of lower priority and before none of higher priority |
| `Scheduler.Insert` | Scheduler.py:35 | the insertion step of the stable sort adds exactly the one entry |
| `Scheduler.SortByKey` | Scheduler.py:35 | the sort is a permutation of its input |
| `Scheduler.InsertSorted` | Scheduler.py:35 | insertion keeps a key-ordered list ordered |
| `Scheduler.SortByKeySorted` | Scheduler.py:35 | the sorted list is ordered by `(-priority, start_datetime)` |
| `Scheduler.WinnerUnique` | Scheduler.py:34-36 | the selection rule picks at most one entry |
| `Scheduler.Resolve` | Scheduler.py:30-36 | the literal filter, stable sort and head: None exactly when no entry contains `now`, else the event of the head of the sorted matches, an event of an entry containing `now` |
| `Scheduler.HeadIsWinner` | Scheduler.py:31-36 | the head of the sorted matches is the entry the selection rule picks |
| `Scheduler.SelectionRule` | Scheduler.py:30-36 | None exactly when no entry contains `now`; otherwise the event of an entry that contains `now`, has the largest tuple priority, the earliest start among those and the earliest insertion among those |
| `Scheduler.NoWindowNoEvent` | Scheduler.py:32-33 | no active event at an instant outside every window |
| `Scheduler.SoleWindowWins` | Scheduler.py:30-36 | inside exactly one window, that window's event is active |
| `Scheduler.HigherPriorityWins` | Scheduler.py:35-36 | of two windows containing `now`, the higher priority wins in either insertion order |
| `Scheduler.EarlierStartWins` | Scheduler.py:35-36 | at equal priority the earlier start wins in either insertion order |
| `Scheduler.FirstAddedWins` | Scheduler.py:28-36 | at equal priority and start the entry added first wins |
| `Scheduler.ScenarioThreeWindows` | Scheduler.py:30-36 | three overlapping windows: the priority-2 window at t+35 s and t+45 s, none at t+60 s, the third at t+120 s |
| `Scheduler.ScenarioWindowsExist` | ScheduledEvent.py:40-48 | `from_datetimes` builds the three windows of that scenario, with exactly the start and end instants its precondition asks for |
| `Scheduler.FirstIndexOf` | Scheduler.py:20-21 | None exactly when no entry's event is `==` the argument; otherwise the first such index |
| `Scheduler.RemoveFirst` | Scheduler.py:20-23 | the list with the first entry whose event is `==` the argument deleted: one entry shorter exactly when such an entry exists, and holding nothing that was not in the list |
| `Scheduler.RemoveFirstMultiset` | Scheduler.py:19-24 | removal takes out exactly one occurrence of the first equal entry; with no equal entry the list is unchanged |
| `Scheduler.AddThenRemove` | Scheduler.py:16-24 | removing an event just appended, absent before, restores the earlier list |
| `Scheduler.EventScheduler.constructor` | Scheduler.py:13-14 | a new scheduler has no entries |
| `Scheduler.EventScheduler.AddEvent` | Scheduler.py:16-17 | appends `(priority, event)` (priority 0 by default), earlier entries unchanged |
| `Scheduler.EventScheduler.RemoveEvent` | Scheduler.py:19-24 | True exactly when some entry's event is `==` the argument, and then only the first such entry is deleted, the rest in order; otherwise False and unchanged |
| `Scheduler.EventScheduler.GetMatchingEvents` | Scheduler.py:26-28 | the entries containing `now`, all of them and only them, read without changing the list |
| `Scheduler.EventScheduler.GetHighestPriorityEvent` | Scheduler.py:30-36 | the selection rule on the current entries |
| `RpiController.Expand` | rpi_controller.py:82-88 | the expansion has as many pixels as the counts add up to |
| `RpiController.TotalCountConcat` | rpi_controller.py:82-84 | counts of concatenated patterns add up |
| `RpiController.ExpandConcat` | rpi_controller.py:82-88 | the expansion of concatenated patterns is the concatenation of their expansions |
| `RpiController.PrefixCount` | rpi_controller.py:82-88 | the count before a run plus the run's count stays within the total |
| `RpiController.ExpandRun` | rpi_controller.py:82-88 | position k of run j lands at the cumulative count before run j plus k, with run j's colour |
| `RpiController.ExpandAt` | rpi_controller.py:82-88 | every expanded position lies in the count range of a run and has that run's colour |
| `RpiController.NonEmptyRuns` | rpi_controller.py:84 | keeps exactly the runs of the pattern with a positive count |
| `RpiController.EmptyRunsVanish` | rpi_controller.py:84 | runs of count 0 produce no pixels |
| `RpiController.Render` | rpi_controller.py:85-95 | the buffer keeps its length: nothing is written at or past `num_pixels` |
| `RpiController.RenderKeepsBelowOffset` | rpi_controller.py:81-95 | pixels below the offset are never modified |
| `RpiController.RenderExpansion` | rpi_controller.py:81-90 | for offset o >= 0, pixel o+k inside strip and pattern gets the colour of the run covering k |
| `RpiController.RenderTailBlack` | rpi_controller.py:92-95 | every pixel from offset + total count to the end is black |
| `RpiController.RenderOffsetPastEnd` | rpi_controller.py:85-95 | an offset at or past the end leaves the buffer unchanged |
| `RpiController.EmptyPatternClears` | rpi_controller.py:93-95 | an empty pattern at offset 0 blacks out the whole buffer, as `clear` does |
| `RpiController.RenderIdempotent` | rpi_controller.py:74-95 | sending the same pattern at the same offset twice equals sending it once |
| `RpiController.DemoPattern` | rpi_controller.py:113-119 | red 3, green 2, blue 1 on eight pixels leaves the last two black |
| `RpiController.Width` | rpi_controller.py:31 | the length of `[c] * num`: the larger of `num` and 0 |
| `RpiController.Put` | rpi_controller.py:36-38 | `setPixelColor` on a buffer: pixel `i` becomes the colour when it is on the strip, every other pixel is unchanged |
| `RpiController.PixelStrip.constructor` | rpi_controller.py:27-31 | `num` black pixels (none when `num` is negative) |
| `RpiController.PixelStrip.SetPixelColor` | rpi_controller.py:36-38 | the buffer becomes `Put(old buffer, i, c)`: only pixel i changes when 0 <= i < num; otherwise nothing changes |
| `RpiController.PixelStrip.NumPixels` | rpi_controller.py:50-51 | returns `num`, whose non-negative part sizes the buffer |
| `RpiController.LEDController.constructor` | rpi_controller.py:64-72 | stores the settings and creates a strip of `num_pixels` black pixels |
| `RpiController.LEDController.SendPattern` | rpi_controller.py:74-95 | the buffer becomes `Render(old buffer, Expand(lights), offset)` and only the strip's buffer is written |
| `RpiController.LEDController.Clear` | rpi_controller.py:100-102 | every pixel is black |
| `RpiController.LEDController.Close` | rpi_controller.py:106-107 | every pixel is black |

## Left out

- The clock: `now` is a required argument; the `now or datetime.now()` default is dropped.
- Python `datetime` limits (years 1 to 9999), time zones and `fold`: instants are unbounded integers of microseconds.
- `to_iso` (ScheduledEvent.py:33-37): it only calls the library's `isoformat`.
- The `__dataclass_fields__` inspection in `from_datetimes`: the dataclass has both `id` and `name`, so only its first branch can run, and that branch is what is modelled.
- `_validate_rgb` on values that are neither tuples nor lists, or whose components are not ints: the input is a sequence of integers.
- `LightPattern.display` and `__repr__` print or return nothing usable.
- Python iterators: a Dafny sequence stands in for the Python iterator, which yields the same lights in the same order.
- `begin`, `show` and the `show` flags affect only printing or hardware. `pin`, `brightness` and `channel` are stored as in the source, but nothing in the model reads them: they matter only to printing or the hardware.
- The real `rpi_ws281x` `PixelStrip` and `Color`: a foreign library; the mock's buffer is modelled instead.
- `Color` objects: a pixel holds an `Rgb` value; object identity of the mock's colours plays no part.
- `LightMaster.run_processing_loop`, the smoke test and the JSON demo: a polling loop, threads, sleeps and file I/O.
- Field mutation of `Light` and `ScheduledEvent`: both are mutable dataclasses in the source, but here they are immutable values. Two behaviours are therefore not captured. `as_list` returns a new list that shares its `Light` objects with the pattern, so changing a light obtained from it changes the pattern. `add_event` stores a reference to the event, so assigning an event's field after `add_event` changes what later `get_matching_events` and `get_highest_priority_event` see, and can bypass the `__post_init__` check.
