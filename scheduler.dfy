/**
 * The priority time-window matcher of Scheduler.py: an insertion-ordered
 * list of (priority, event) entries and the rule that picks the single
 * active event at an instant.
 */
module Scheduler {
  import opened Wrappers
  import opened ScheduledEvents
  import opened LightPatterns

  /** A `(priority, event)` tuple as stored by `EventScheduler`. */
  type Entry = (int, ScheduledEvent)

  // ---------------------------------------------------------------------
  // Matching: the list comprehension of `get_matching_events`
  // ---------------------------------------------------------------------

  /** The entries whose event contains `now`, in insertion order. */
  function Matching(entries: seq<Entry>, now: Instant): (r: seq<Entry>)
    ensures |r| <= |entries|
    ensures forall x :: x in r ==> x in entries && x.1.Contains(now)
    ensures forall k :: 0 <= k < |entries| && entries[k].1.Contains(now) ==> entries[k] in r
  {
    if entries == [] then []
    else if entries[0].1.Contains(now) then [entries[0]] + Matching(entries[1..], now)
    else Matching(entries[1..], now)
  }

  /** Filtering commutes with concatenation, so insertion order is kept. */
  lemma {:induction false} MatchingConcat(a: seq<Entry>, b: seq<Entry>, now: Instant)
    ensures Matching(a + b, now) == Matching(a, now) + Matching(b, now)
  {
    if a == [] {
      assert a + b == b;
    } else {
      assert (a + b)[1..] == a[1..] + b;
      MatchingConcat(a[1..], b, now);
    }
  }

  /** Every matching entry is kept as often as it occurs, and no other entry is kept. */
  lemma {:induction false} MatchingMultiplicity(entries: seq<Entry>, now: Instant, x: Entry)
    ensures multiset(Matching(entries, now))[x] == if x.1.Contains(now) then multiset(entries)[x] else 0
  {
    if entries != [] {
      assert entries == [entries[0]] + entries[1..];
      MatchingMultiplicity(entries[1..], now, x);
    }
  }

  /** Filtering an already filtered list changes nothing. */
  lemma {:induction false} MatchingIdempotent(entries: seq<Entry>, now: Instant)
    ensures Matching(Matching(entries, now), now) == Matching(entries, now)
  {
    if entries != [] {
      MatchingIdempotent(entries[1..], now);
    }
  }

  // ---------------------------------------------------------------------
  // The stable sort on the key (-priority, start_datetime)
  // ---------------------------------------------------------------------

  /**
   * Python's `<` on the keys `(-p, start_datetime)`: an entry sorts before
   * every entry of lower priority and before none of higher priority.
   */
  predicate KeyLess(a: Entry, b: Entry): (r: bool)
    ensures a.0 > b.0 ==> r
    ensures r ==> a.0 >= b.0
  {
    -a.0 < -b.0 || (-a.0 == -b.0 && a.1.StartDatetime() < b.1.StartDatetime())
  }

  /** No entry's key is below an earlier one's. */
  predicate SortedByKey(s: seq<Entry>) {
    forall i, j :: 0 <= i < j < |s| ==> !KeyLess(s[j], s[i])
  }

  /** Inserts `x` before the first entry whose key is not below its own. */
  function Insert(x: Entry, s: seq<Entry>): (r: seq<Entry>)
    ensures |r| == |s| + 1
    ensures multiset(r) == multiset(s) + multiset{x}
  {
    if s == [] then [x]
    else if KeyLess(s[0], x) then
      assert s == [s[0]] + s[1..];
      [s[0]] + Insert(x, s[1..])
    else [x] + s
  }

  /**
   * `list.sort(key=...)`: a stable sort. Each entry is inserted ahead of
   * the entries with an equal key that come after it, so any stable sort
   * gives this same list.
   */
  function SortByKey(s: seq<Entry>): (r: seq<Entry>)
    ensures |r| == |s|
    ensures multiset(r) == multiset(s)
  {
    if s == [] then []
    else
      assert s == [s[0]] + s[1..];
      Insert(s[0], SortByKey(s[1..]))
  }

  lemma {:induction false} InsertSorted(x: Entry, s: seq<Entry>)
    requires SortedByKey(s)
    ensures SortedByKey(Insert(x, s))
  {
    if s != [] && KeyLess(s[0], x) {
      InsertSorted(x, s[1..]);
      var r := Insert(x, s);
      var t := Insert(x, s[1..]);
      assert r == [s[0]] + t;
      forall j | 0 < j < |r| ensures !KeyLess(r[j], r[0]) {
        assert r[j] == t[j - 1];
        assert r[j] in multiset(t);
        assert r[j] in multiset(s[1..]) + multiset{x};
        if r[j] != x {
          assert r[j] in s[1..];
          var m :| 0 <= m < |s[1..]| && s[1..][m] == r[j];
          assert s[m + 1] == r[j];
        }
      }
    }
  }

  /** The sort's result is ordered by key (it is a permutation by `SortByKey`'s contract). */
  lemma {:induction false} SortByKeySorted(s: seq<Entry>)
    ensures SortedByKey(SortByKey(s))
  {
    if s != [] {
      SortByKeySorted(s[1..]);
      InsertSorted(s[0], SortByKey(s[1..]));
    }
  }

  // ---------------------------------------------------------------------
  // The selection rule
  // ---------------------------------------------------------------------

  /**
   * Entry `i` is the one the rule selects at `now`: it contains `now`, its
   * tuple priority is the largest among the matches, its start is the
   * earliest among the matches of that priority, and it was inserted
   * before every other match with the same priority and start.
   */
  predicate IsWinner(entries: seq<Entry>, now: Instant, i: int)
    requires 0 <= i < |entries|
  {
    && entries[i].1.Contains(now)
    && (forall j :: 0 <= j < |entries| && entries[j].1.Contains(now) ==> entries[j].0 <= entries[i].0)
    && (forall j :: 0 <= j < |entries| && entries[j].1.Contains(now) && entries[j].0 == entries[i].0 ==>
          entries[i].1.StartDatetime() <= entries[j].1.StartDatetime())
    && (forall j ::
          (0 <= j < |entries| && entries[j].1.Contains(now) && entries[j].0 == entries[i].0 &&
           entries[j].1.StartDatetime() == entries[i].1.StartDatetime()) ==> i <= j)
  }

  /** The rule names at most one entry. */
  lemma WinnerUnique(entries: seq<Entry>, now: Instant, i: int, j: int)
    requires 0 <= i < |entries| && 0 <= j < |entries|
    requires IsWinner(entries, now, i) && IsWinner(entries, now, j)
    ensures i == j
  {
  }

  /**
   * `get_highest_priority_event` on a snapshot of the entries: None when
   * nothing matches, else the event of the head of the stably sorted matches,
   * which is the event of some entry containing `now`.
   */
  function Resolve(entries: seq<Entry>, now: Instant): (r: Option<ScheduledEvent>)
    ensures r.None? <==> forall k :: 0 <= k < |entries| ==> !entries[k].1.Contains(now)
    ensures r.Some? ==> exists x :: x in entries && x.1.Contains(now) && x.1 == r.value
  {
    var matches := Matching(entries, now);
    if |matches| == 0 then None
    else
      assert SortByKey(matches)[0] in multiset(matches);
      Some(SortByKey(matches)[0].1)
  }

  /** A winner of `rest` stays the winner when an entry that does not beat it is put in front. */
  lemma WinnerShift(x: Entry, rest: seq<Entry>, now: Instant, i: int)
    requires 0 <= i < |rest| && IsWinner(rest, now, i)
    requires !x.1.Contains(now) || KeyLess(rest[i], x)
    ensures IsWinner([x] + rest, now, i + 1)
  {
    var entries := [x] + rest;
    assert forall j :: 0 < j < |entries| ==> entries[j] == rest[j - 1];
  }

  /** A matching entry put in front of entries none of which beats it is the winner. */
  lemma WinnerFront(x: Entry, rest: seq<Entry>, now: Instant)
    requires x.1.Contains(now)
    requires forall j :: 0 <= j < |rest| && rest[j].1.Contains(now) ==> !KeyLess(rest[j], x)
    ensures IsWinner([x] + rest, now, 0)
  {
    var entries := [x] + rest;
    assert forall j :: 0 < j < |entries| ==> entries[j] == rest[j - 1];
  }

  /** No match of `rest` beats an entry that its winner does not beat. */
  lemma WinnerBoundsAll(rest: seq<Entry>, now: Instant, i: int, x: Entry)
    requires 0 <= i < |rest| && IsWinner(rest, now, i) && !KeyLess(rest[i], x)
    ensures forall j :: 0 <= j < |rest| && rest[j].1.Contains(now) ==> !KeyLess(rest[j], x)
  {
  }

  /** The head of the sorted matches is the winner of the rule. */
  lemma {:induction false} HeadIsWinner(entries: seq<Entry>, now: Instant)
    requires |Matching(entries, now)| > 0
    ensures exists i :: 0 <= i < |entries| && IsWinner(entries, now, i) &&
                        SortByKey(Matching(entries, now))[0] == entries[i]
  {
    var x, rest := entries[0], entries[1..];
    assert entries == [x] + rest;
    var m := Matching(rest, now);
    if !x.1.Contains(now) {
      assert Matching(entries, now) == m;
      HeadIsWinner(rest, now);
      var i :| 0 <= i < |rest| && IsWinner(rest, now, i) && SortByKey(m)[0] == rest[i];
      WinnerShift(x, rest, now, i);
    } else {
      assert Matching(entries, now) == [x] + m;
      assert ([x] + m)[1..] == m;
      assert SortByKey(Matching(entries, now)) == Insert(x, SortByKey(m));
      if |m| == 0 {
        WinnerFront(x, rest, now);
      } else {
        HeadIsWinner(rest, now);
        var i :| 0 <= i < |rest| && IsWinner(rest, now, i) && SortByKey(m)[0] == rest[i];
        if KeyLess(rest[i], x) {
          WinnerShift(x, rest, now, i);
          assert SortByKey(Matching(entries, now))[0] == entries[i + 1];
        } else {
          WinnerBoundsAll(rest, now, i, x);
          WinnerFront(x, rest, now);
          assert SortByKey(Matching(entries, now))[0] == entries[0];
        }
      }
    }
  }

  /**
   * The selection rule: no event exactly when no entry contains `now`;
   * otherwise the event of the unique winning entry.
   */
  lemma SelectionRule(entries: seq<Entry>, now: Instant)
    ensures Resolve(entries, now).None? <==> forall k :: 0 <= k < |entries| ==> !entries[k].1.Contains(now)
    ensures Resolve(entries, now).Some? ==>
              exists i :: 0 <= i < |entries| && IsWinner(entries, now, i) && entries[i].1 == Resolve(entries, now).value
  {
    if |Matching(entries, now)| > 0 {
      HeadIsWinner(entries, now);
    }
  }

  /** Outside every window there is no active event. */
  lemma NoWindowNoEvent(entries: seq<Entry>, now: Instant)
    requires forall k :: 0 <= k < |entries| ==> !entries[k].1.Contains(now)
    ensures Resolve(entries, now) == None
  {
    SelectionRule(entries, now);
  }

  /** Inside exactly one window, that window's event is the active one. */
  lemma SoleWindowWins(entries: seq<Entry>, now: Instant, i: int)
    requires 0 <= i < |entries| && entries[i].1.Contains(now)
    requires forall k :: 0 <= k < |entries| && k != i ==> !entries[k].1.Contains(now)
    ensures Resolve(entries, now) == Some(entries[i].1)
  {
    SelectionRule(entries, now);
  }

  /** Of two overlapping windows, the higher priority wins whichever was added first. */
  lemma HigherPriorityWins(e1: ScheduledEvent, p1: int, e2: ScheduledEvent, p2: int, now: Instant)
    requires e1.Contains(now) && e2.Contains(now) && p1 > p2
    ensures Resolve([(p1, e1), (p2, e2)], now) == Some(e1)
    ensures Resolve([(p2, e2), (p1, e1)], now) == Some(e1)
  {
    SelectionRule([(p1, e1), (p2, e2)], now);
    SelectionRule([(p2, e2), (p1, e1)], now);
  }

  /** At equal priority, the earlier start wins whichever was added first. */
  lemma EarlierStartWins(e1: ScheduledEvent, e2: ScheduledEvent, p: int, now: Instant)
    requires e1.Contains(now) && e2.Contains(now) && e1.StartDatetime() < e2.StartDatetime()
    ensures Resolve([(p, e1), (p, e2)], now) == Some(e1)
    ensures Resolve([(p, e2), (p, e1)], now) == Some(e1)
  {
    SelectionRule([(p, e1), (p, e2)], now);
    SelectionRule([(p, e2), (p, e1)], now);
  }

  /** At equal priority and start, the entry added first wins. */
  lemma FirstAddedWins(e1: ScheduledEvent, e2: ScheduledEvent, p: int, now: Instant)
    requires e1.Contains(now) && e2.Contains(now) && e1.StartDatetime() == e2.StartDatetime()
    ensures Resolve([(p, e1), (p, e2)], now) == Some(e1)
  {
    SelectionRule([(p, e1), (p, e2)], now);
  }

  /**
   * Three windows around an instant `t`, in seconds: W1 = [t+30, t+40] at
   * priority 1, W2 = [t+10, t+50] at priority 2, W3 = [t+100, t+150] at
   * priority 1. W2 is active at t+35 and t+45, nothing at t+60, W3 at t+120.
   */
  lemma ScenarioThreeWindows(t: Instant, w1: ScheduledEvent, w2: ScheduledEvent, w3: ScheduledEvent)
    requires ScenarioWindows(t, w1, w2, w3)
    ensures Resolve([(1, w1), (2, w2), (1, w3)], t + 35 * MicrosPerSecond) == Some(w2)
    ensures Resolve([(1, w1), (2, w2), (1, w3)], t + 45 * MicrosPerSecond) == Some(w2)
    ensures Resolve([(1, w1), (2, w2), (1, w3)], t + 60 * MicrosPerSecond) == None
    ensures Resolve([(1, w1), (2, w2), (1, w3)], t + 120 * MicrosPerSecond) == Some(w3)
  {
    ScenarioOverlap(t, w1, w2, w3);
    SoleWindowWins([(1, w1), (2, w2), (1, w3)], t + 45 * MicrosPerSecond, 1);
    NoWindowNoEvent([(1, w1), (2, w2), (1, w3)], t + 60 * MicrosPerSecond);
    SoleWindowWins([(1, w1), (2, w2), (1, w3)], t + 120 * MicrosPerSecond, 2);
  }

  /** The start and end instants of the scenario's windows. */
  predicate ScenarioWindows(t: Instant, w1: ScheduledEvent, w2: ScheduledEvent, w3: ScheduledEvent) {
    && w1.StartDatetime() == t + 30 * MicrosPerSecond && w1.EndDatetime() == t + 40 * MicrosPerSecond
    && w2.StartDatetime() == t + 10 * MicrosPerSecond && w2.EndDatetime() == t + 50 * MicrosPerSecond
    && w3.StartDatetime() == t + 100 * MicrosPerSecond && w3.EndDatetime() == t + 150 * MicrosPerSecond
  }

  lemma ScenarioOverlap(t: Instant, w1: ScheduledEvent, w2: ScheduledEvent, w3: ScheduledEvent)
    requires ScenarioWindows(t, w1, w2, w3)
    ensures Resolve([(1, w1), (2, w2), (1, w3)], t + 35 * MicrosPerSecond) == Some(w2)
  {
    var entries, now := [(1, w1), (2, w2), (1, w3)], t + 35 * MicrosPerSecond;
    SelectionRule(entries, now);
    var i :| 0 <= i < |entries| && IsWinner(entries, now, i) && entries[i].1 == Resolve(entries, now).value;
    assert entries[1].1.Contains(now) && !entries[2].1.Contains(now);
    assert i == 1;
  }

  /** `from_datetimes` builds the three windows of the scenario, so its precondition can be met. */
  lemma ScenarioWindowsExist(t: Instant, pattern: LightPattern)
    ensures var r1 := EventBetween(t + 30 * MicrosPerSecond, t + 40 * MicrosPerSecond, pattern);
            var r2 := EventBetween(t + 10 * MicrosPerSecond, t + 50 * MicrosPerSecond, pattern);
            var r3 := EventBetween(t + 100 * MicrosPerSecond, t + 150 * MicrosPerSecond, pattern);
            r1.Success? && r2.Success? && r3.Success? && ScenarioWindows(t, r1.value, r2.value, r3.value)
  {
  }

  // ---------------------------------------------------------------------
  // Removal of the first equal entry
  // ---------------------------------------------------------------------

  /** The index of the first entry whose event equals `event`. */
  function FirstIndexOf(entries: seq<Entry>, event: ScheduledEvent): (r: Option<nat>)
    ensures r.None? <==> forall k :: 0 <= k < |entries| ==> entries[k].1 != event
    ensures r.Some? ==> r.value < |entries| && entries[r.value].1 == event &&
                        forall k :: 0 <= k < r.value ==> entries[k].1 != event
  {
    if entries == [] then None
    else if entries[0].1 == event then Some(0)
    else match FirstIndexOf(entries[1..], event)
         case None => None
         case Some(i) => Some(i + 1)
  }

  /**
   * The `del` of `remove_event`: the entries with the first one holding
   * `event` deleted. One entry fewer exactly when some entry holds `event`,
   * and nothing that was not there before.
   */
  function RemoveFirst(entries: seq<Entry>, event: ScheduledEvent): (r: seq<Entry>)
    ensures |r| == if exists k :: 0 <= k < |entries| && entries[k].1 == event then |entries| - 1 else |entries|
    ensures multiset(r) <= multiset(entries)
  {
    match FirstIndexOf(entries, event)
    case None => entries
    case Some(i) =>
      assert entries == entries[..i] + [entries[i]] + entries[i + 1..];
      entries[..i] + entries[i + 1..]
  }

  /** Removal takes out exactly one occurrence of the matching entry and nothing else. */
  lemma RemoveFirstMultiset(entries: seq<Entry>, event: ScheduledEvent)
    ensures FirstIndexOf(entries, event).Some? ==>
              multiset(RemoveFirst(entries, event)) + multiset{entries[FirstIndexOf(entries, event).value]}
              == multiset(entries)
    ensures FirstIndexOf(entries, event).None? ==> RemoveFirst(entries, event) == entries
  {
    match FirstIndexOf(entries, event)
    case None =>
    case Some(i) =>
      assert entries == entries[..i] + [entries[i]] + entries[i + 1..];
  }

  /** Removing an event that was only just added gives back the earlier list. */
  lemma AddThenRemove(entries: seq<Entry>, event: ScheduledEvent, priority: int)
    requires FirstIndexOf(entries, event).None?
    ensures FirstIndexOf(entries + [(priority, event)], event) == Some(|entries|)
    ensures RemoveFirst(entries + [(priority, event)], event) == entries
  {
    var s := entries + [(priority, event)];
    var n := |entries|;
    assert s[n].1 == event;
    var f := FirstIndexOf(s, event);
    assert f.Some?;
    assert forall k :: 0 <= k < n ==> s[k] == entries[k];
    assert f.value == n;
    assert s[..n] == entries && s[n + 1..] == [];
  }

  // ---------------------------------------------------------------------
  // The scheduler object
  // ---------------------------------------------------------------------

  /** `EventScheduler`, whose `_events` list is updated in place. */
  class EventScheduler {
    var events: seq<Entry>

    /** A new scheduler has no entries. */
    constructor ()
      ensures events == []
    {
      events := [];
    }

    /** `add_event`: appends `(priority, event)`; earlier entries are unchanged. */
    method AddEvent(event: ScheduledEvent, priority: int := 0)
      modifies this
      ensures events == old(events) + [(priority, event)]
    {
      events := events + [(priority, event)];
    }

    /**
     * `remove_event`: deletes the first entry whose event equals `event` and
     * reports whether there was one; the other entries keep their order.
     */
    method RemoveEvent(event: ScheduledEvent) returns (removed: bool)
      modifies this
      ensures removed <==> FirstIndexOf(old(events), event).Some?
      ensures events == RemoveFirst(old(events), event)
    {
      var i := 0;
      while i < |events|
        invariant 0 <= i <= |events|
        invariant events == old(events)
        invariant forall k :: 0 <= k < i ==> events[k].1 != event
      {
        if events[i].1 == event {
          assert FirstIndexOf(events, event) == Some(i);
          events := events[..i] + events[i + 1..];
          return true;
        }
        i := i + 1;
      }
      return false;
    }

    /** `get_matching_events`: the entries containing `now`, in insertion order; nothing changes. */
    function GetMatchingEvents(now: Instant): (r: seq<Entry>)
      reads this
      ensures forall x :: x in r ==> x in events && x.1.Contains(now)
      ensures forall k :: 0 <= k < |events| && events[k].1.Contains(now) ==> events[k] in r
    {
      Matching(events, now)
    }

    /** `get_highest_priority_event`: the event of the entry the selection rule picks. */
    function GetHighestPriorityEvent(now: Instant): (r: Option<ScheduledEvent>)
      reads this
      ensures r.None? <==> forall k :: 0 <= k < |events| ==> !events[k].1.Contains(now)
      ensures r.Some? ==> exists i :: 0 <= i < |events| && IsWinner(events, now, i) && events[i].1 == r.value
    {
      SelectionRule(events, now);
      Resolve(events, now)
    }
  }
}
