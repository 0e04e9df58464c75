/**
 * The time window of ScheduledEvent.py. A naive `datetime` is an Instant:
 * whole microseconds counted from the start of day 0. A `date` is a day
 * number and a `time` the microseconds elapsed since that day's midnight.
 */
module ScheduledEvents {
  import opened Wrappers
  import opened LightPatterns

  const MicrosPerSecond: int := 1_000_000
  const MicrosPerDay: int := 86_400 * MicrosPerSecond

  type Instant = int
  type Date = int
  type TimeOfDay = t: int | 0 <= t < MicrosPerDay

  /** `datetime.combine(date, time)`: the instant whose date and time are the given ones. */
  function Combine(d: Date, t: TimeOfDay): (dt: Instant)
    ensures DateOf(dt) == d && TimeOf(dt) == t
  {
    d * MicrosPerDay + t
  }

  /** `dt.date()`: the day whose midnight is the last one at or before `dt`. */
  function DateOf(dt: Instant): (d: Date)
    ensures d * MicrosPerDay <= dt < d * MicrosPerDay + MicrosPerDay
  {
    dt / MicrosPerDay
  }

  /** `dt.time()`: the microseconds from the midnight of `dt`'s date to `dt`. */
  function TimeOf(dt: Instant): (t: TimeOfDay)
    ensures t == dt - DateOf(dt) * MicrosPerDay
  {
    dt % MicrosPerDay
  }

  /** Splitting an instant into its date and time and combining them again gives it back. */
  lemma CombineSplit(dt: Instant)
    ensures Combine(DateOf(dt), TimeOf(dt)) == dt
  {
  }

  /** Instants compare lexicographically on (date, time). */
  lemma CombineOrder(d1: Date, t1: TimeOfDay, d2: Date, t2: TimeOfDay)
    ensures Combine(d1, t1) <= Combine(d2, t2) <==> d1 < d2 || (d1 == d2 && t1 <= t2)
  {
    if d1 < d2 {
      assert (d2 - d1) * MicrosPerDay >= MicrosPerDay;
      assert Combine(d2, t2) - Combine(d1, t1) == (d2 - d1) * MicrosPerDay + t2 - t1;
    } else if d2 < d1 {
      assert (d1 - d2) * MicrosPerDay >= MicrosPerDay;
      assert Combine(d1, t1) - Combine(d2, t2) == (d1 - d2) * MicrosPerDay + t1 - t2;
    }
  }

  const OrderMessage := "end datetime must be same or after start datetime"

  /**
   * The `ScheduledEvent` dataclass. Datatype equality compares every
   * field, and `pattern` by reference, as the generated `__eq__` does for a
   * `LightPattern`, which defines no equality of its own.
   */
  datatype ScheduledEvent = ScheduledEvent(
    startDate: Date,
    startTime: TimeOfDay,
    endDate: Date,
    endTime: TimeOfDay,
    id: Option<int>,
    name: string,
    priority: int,
    pattern: LightPattern)
  {
    /** `start_datetime`: the instant on `startDate` at `startTime`. */
    function StartDatetime(): (dt: Instant)
      ensures DateOf(dt) == startDate && TimeOf(dt) == startTime
    {
      Combine(startDate, startTime)
    }

    /** `end_datetime`: the instant on `endDate` at `endTime`. */
    function EndDatetime(): (dt: Instant)
      ensures DateOf(dt) == endDate && TimeOf(dt) == endTime
    {
      Combine(endDate, endTime)
    }

    /** The invariant `__post_init__` enforces: the end (date, time) is not before the start. */
    predicate Valid(): (b: bool)
      ensures b <==> startDate < endDate || (startDate == endDate && startTime <= endTime)
    {
      CombineOrder(startDate, startTime, endDate, endTime);
      StartDatetime() <= EndDatetime()
    }

    /** `contains`: inclusive at both ends; only a valid window contains anything. */
    predicate Contains(dt: Instant): (b: bool)
      ensures b ==> Valid()
    {
      StartDatetime() <= dt <= EndDatetime()
    }
  }

  /**
   * The dataclass constructor followed by `__post_init__`; `id`, `name` and
   * `priority` default to 0, "" and 0.
   */
  function MakeEvent(startDate: Date, startTime: TimeOfDay, endDate: Date, endTime: TimeOfDay,
                     pattern: LightPattern, id: Option<int> := Some(0), name: string := "",
                     priority: int := 0): (r: Result<ScheduledEvent>)
    ensures r.Success? <==> Combine(startDate, startTime) <= Combine(endDate, endTime)
    ensures r.Failure? ==> r.error == ValueError(OrderMessage)
    ensures r.Success? ==> r.value.Valid()
    ensures r.Success? ==> r.value == ScheduledEvent(startDate, startTime, endDate, endTime, id, name, priority, pattern)
  {
    var e := ScheduledEvent(startDate, startTime, endDate, endTime, id, name, priority, pattern);
    if e.EndDatetime() < e.StartDatetime() then Failure(ValueError(OrderMessage)) else Success(e)
  }

  /** Construction fails exactly when the end is before the start; a zero-length window is allowed. */
  lemma MakeEventRejectsReversed(startDate: Date, startTime: TimeOfDay, endDate: Date, endTime: TimeOfDay,
                                 pattern: LightPattern)
    ensures MakeEvent(startDate, startTime, endDate, endTime, pattern).Failure?
            <==> endDate < startDate || (endDate == startDate && endTime < startTime)
    ensures MakeEvent(startDate, startTime, startDate, startTime, pattern).Success?
  {
    CombineOrder(startDate, startTime, endDate, endTime);
  }

  /** The defaults of the dataclass on any valid window: id 0, empty name, priority 0. */
  lemma MakeEventDefaults(startDate: Date, startTime: TimeOfDay, endDate: Date, endTime: TimeOfDay,
                          pattern: LightPattern)
    requires Combine(startDate, startTime) <= Combine(endDate, endTime)
    ensures MakeEvent(startDate, startTime, endDate, endTime, pattern)
            == Success(ScheduledEvent(startDate, startTime, endDate, endTime, Some(0), "", 0, pattern))
  {
  }

  /**
   * `contains(dt)` holds exactly when the (date, time) of `dt` lies between
   * the start and the end (date, time) in lexicographic order, both included.
   */
  lemma ContainsIff(e: ScheduledEvent, dt: Instant)
    ensures e.Contains(dt) <==>
              (e.startDate < DateOf(dt) || (e.startDate == DateOf(dt) && e.startTime <= TimeOf(dt))) &&
              (DateOf(dt) < e.endDate || (DateOf(dt) == e.endDate && TimeOf(dt) <= e.endTime))
  {
    CombineSplit(dt);
    CombineOrder(e.startDate, e.startTime, DateOf(dt), TimeOf(dt));
    CombineOrder(DateOf(dt), TimeOf(dt), e.endDate, e.endTime);
  }

  /** A valid event contains its own start and end. */
  lemma ContainsEndpoints(e: ScheduledEvent)
    requires e.Valid()
    ensures e.Contains(e.StartDatetime()) && e.Contains(e.EndDatetime())
  {
  }

  /** Membership is convex. */
  lemma ContainsConvex(e: ScheduledEvent, a: Instant, b: Instant, c: Instant)
    requires e.Contains(a) && e.Contains(c) && a <= b <= c
    ensures e.Contains(b)
  {
  }

  /**
   * The event `from_datetimes(start, end)` builds around a given pattern:
   * the date and time parts of `start` and `end`, `id=None`, `name=""` and
   * the default priority; it fails when end is before start.
   */
  function EventBetween(start: Instant, end: Instant, pattern: LightPattern): (r: Result<ScheduledEvent>)
    ensures r.Success? <==> start <= end
    ensures r.Failure? ==> r.error == ValueError(OrderMessage)
    ensures r.Success? ==> r.value.StartDatetime() == start && r.value.EndDatetime() == end
    ensures r.Success? ==> r.value.id == None && r.value.name == "" && r.value.priority == 0
    ensures r.Success? ==> r.value.pattern == pattern
  {
    CombineSplit(start);
    CombineSplit(end);
    MakeEvent(DateOf(start), TimeOf(start), DateOf(end), TimeOf(end), pattern, id := None, name := "")
  }

  /**
   * `from_datetimes(start, end)`: `EventBetween` with a new, empty pattern
   * standing in for the pattern the source never supplies.
   */
  method FromDatetimes(start: Instant, end: Instant) returns (r: Result<ScheduledEvent>)
    ensures r.Success? <==> start <= end
    ensures r.Failure? ==> r.error == ValueError(OrderMessage)
    ensures r.Success? ==> r.value.StartDatetime() == start && r.value.EndDatetime() == end
    ensures r.Success? ==> r.value.id == None && r.value.name == "" && r.value.priority == 0
    ensures r.Success? ==> fresh(r.value.pattern) && r.value.pattern.lights == []
  {
    var pattern := new LightPattern();
    r := EventBetween(start, end, pattern);
  }
}
