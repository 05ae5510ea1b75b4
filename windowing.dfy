/**
 * The windowed timeline of the CASAS baseline (baseline.py): the 60-second window builder, the
 * sensor events of a window (`get_events_in_window`), their ON/OFF counts
 * (`event_count_features`), the window's ground-truth label by largest overlap
 * (`assign_window_label`) and the part of the day it starts in (`temporal_features`).
 * Timestamps are integers in seconds, counted from a midnight.
 */
module Windowing {
  import opened Wrappers
  import opened Annotations

  /** `WINDOW_SIZE = pd.Timedelta(seconds=60)`. */
  const WindowSize: int := 60

  /** A half-open window `(current, current + WINDOW_SIZE)`. */
  datatype Window = Window(start: int, end: int)

  // ---------------------------------------------------------------------------------------------
  // The timeline

  /** `Timestamp.floor("min")`: the minute boundary at or before `ts`. */
  function FloorMinute(ts: int): (r: int)
    ensures r % WindowSize == 0 && r <= ts < r + WindowSize
  {
    ts - ts % WindowSize
  }

  /** `Timestamp.ceil("min")`: the minute boundary at or after `ts`. */
  function CeilMinute(ts: int): (r: int)
    ensures r % WindowSize == 0 && r - WindowSize < ts <= r
  {
    if ts % WindowSize == 0 then ts else ts - ts % WindowSize + WindowSize
  }

  /**
   * `ws` is the list of windows of the builder from `start` to `endTime`: there are none when
   * `start >= endTime`; otherwise the first starts at `start`, each is one window size long and
   * starts before `endTime`, each ends where the next starts, and the last reaches `endTime`.
   */
  predicate Tiles(ws: seq<Window>, start: int, endTime: int)
  {
    && (|ws| == 0 <==> start >= endTime)
    && (|ws| > 0 ==> ws[0].start == start && ws[|ws| - 1].end >= endTime)
    && (forall k :: 0 <= k < |ws| ==> ws[k].end - ws[k].start == WindowSize && ws[k].start < endTime)
    && (forall k :: 0 <= k < |ws| - 1 ==> ws[k].end == ws[k + 1].start)
  }

  /** The `while current < end_time` loop of baseline.py. */
  method BuildWindows(startTime: int, endTime: int) returns (windows: seq<Window>)
    ensures Tiles(windows, startTime, endTime)
    ensures |windows| == if endTime > startTime then (endTime - startTime + WindowSize - 1) / WindowSize else 0
  {
    windows := [];
    var current := startTime;
    while current < endTime
      invariant current == startTime + |windows| * WindowSize
      invariant |windows| > 0 ==> current - WindowSize < endTime
      invariant forall k :: 0 <= k < |windows| ==>
        windows[k] == Window(startTime + k * WindowSize, startTime + k * WindowSize + WindowSize)
    {
      windows := windows + [Window(current, current + WindowSize)];
      current := current + WindowSize;
    }
  }

  /** The k-th window of a tiling starts k window sizes after the first. */
  lemma {:induction false} TileStart(ws: seq<Window>, start: int, endTime: int, k: nat)
    requires Tiles(ws, start, endTime) && k < |ws|
    ensures ws[k].start == start + k * WindowSize
  {
    if k > 0 {
      TileStart(ws, start, endTime, k - 1);
    }
  }

  /** A timestamp in `[start, endTime)` lies in exactly one window of the tiling. */
  lemma TilesCoverOnce(ws: seq<Window>, start: int, endTime: int, ts: int)
    requires Tiles(ws, start, endTime) && start <= ts < endTime
    ensures exists k :: 0 <= k < |ws| && ws[k].start <= ts < ws[k].end
    ensures forall k, l :: (0 <= k < |ws| && 0 <= l < |ws| && ws[k].start <= ts < ws[k].end
      && ws[l].start <= ts < ws[l].end) ==> k == l
  {
    var k := (ts - start) / WindowSize;
    TileStart(ws, start, endTime, |ws| - 1);
    assert k < |ws|;
    TileStart(ws, start, endTime, k);
    forall k, l | 0 <= k < |ws| && 0 <= l < |ws| && ws[k].start <= ts < ws[k].end
      && ws[l].start <= ts < ws[l].end
      ensures k == l
    {
      TileStart(ws, start, endTime, k);
      TileStart(ws, start, endTime, l);
    }
  }

  /** The earliest timestamp of a non-empty log (`sensor_df["timestamp"].min()`). */
  function MinTimestamp(events: seq<SensorEvent>): (r: int)
    requires |events| > 0
    ensures exists i :: 0 <= i < |events| && events[i].timestamp == r
    ensures forall i :: 0 <= i < |events| ==> r <= events[i].timestamp
  {
    if |events| == 1 then events[0].timestamp
    else
      var rest := MinTimestamp(events[1..]);
      assert forall i :: 1 <= i < |events| ==> events[i] == events[1..][i - 1];
      if events[0].timestamp <= rest then events[0].timestamp else rest
  }

  /** The latest timestamp of a non-empty log (`sensor_df["timestamp"].max()`). */
  function MaxTimestamp(events: seq<SensorEvent>): (r: int)
    requires |events| > 0
    ensures exists i :: 0 <= i < |events| && events[i].timestamp == r
    ensures forall i :: 0 <= i < |events| ==> events[i].timestamp <= r
  {
    if |events| == 1 then events[0].timestamp
    else
      var rest := MaxTimestamp(events[1..]);
      assert forall i :: 1 <= i < |events| ==> events[i] == events[1..][i - 1];
      if events[0].timestamp >= rest then events[0].timestamp else rest
  }

  /**
   * The timeline as written: from the minute of the first event to the ceiling of the last,
   * `(min().floor("min"), max().ceil("min"))`.
   */
  function TimelineAsWritten(events: seq<SensorEvent>): (w: Window)
    requires |events| > 0
    ensures w.start % WindowSize == 0 && w.end % WindowSize == 0
    ensures forall i :: 0 <= i < |events| ==> w.start <= events[i].timestamp <= w.end
    ensures exists i :: 0 <= i < |events| && w.end - WindowSize < events[i].timestamp
  {
    Window(FloorMinute(MinTimestamp(events)), CeilMinute(MaxTimestamp(events)))
  }

  /**
   * When the last event falls exactly on a minute, the ceiling is that event's own timestamp,
   * and no window of the timeline contains it: `get_events_in_window` drops the last event.
   */
  lemma LastEventOnMinuteUncovered(events: seq<SensorEvent>, ws: seq<Window>)
    requires |events| > 0 && MaxTimestamp(events) % WindowSize == 0
    requires Tiles(ws, TimelineAsWritten(events).start, TimelineAsWritten(events).end)
    ensures forall k :: 0 <= k < |ws| ==> !(ws[k].start <= MaxTimestamp(events) < ws[k].end)
  {
    forall k | 0 <= k < |ws| ensures ws[k].end <= MaxTimestamp(events) {
      AlignedTileEndsByEnd(ws, TimelineAsWritten(events).start, TimelineAsWritten(events).end, k);
    }
  }

  /** When a tiling starts and stops on minute boundaries, none of its windows passes the stop. */
  lemma AlignedTileEndsByEnd(ws: seq<Window>, start: int, endTime: int, k: nat)
    requires Tiles(ws, start, endTime) && k < |ws|
    requires start % WindowSize == 0 && endTime % WindowSize == 0
    ensures ws[k].end <= endTime
  {
    TileStart(ws, start, endTime, k);
  }

  /**
   * A log with events at 0 s and 60 s: the timeline as written is [0, 60), a single window that
   * holds the first event and not the second.
   */
  lemma MinuteAlignedLogAsWritten()
    ensures TimelineAsWritten([SensorEvent(0, "Door", "ON"), SensorEvent(60, "Door", "OFF")]) == Window(0, 60)
  {
    var events := [SensorEvent(0, "Door", "ON"), SensorEvent(60, "Door", "OFF")];
    assert events[1..] == [SensorEvent(60, "Door", "OFF")];
  }

  /**
   * The timeline with the evident intent of covering every event: from the minute of the first
   * event to the end of the minute of the last.
   */
  function Timeline(events: seq<SensorEvent>): (w: Window)
    requires |events| > 0
    ensures w.start % WindowSize == 0 && w.end % WindowSize == 0
    ensures forall i :: 0 <= i < |events| ==> w.start <= events[i].timestamp < w.end
  {
    Window(FloorMinute(MinTimestamp(events)), FloorMinute(MaxTimestamp(events)) + WindowSize)
  }

  /** Every event of the log lies in exactly one window of the timeline. */
  lemma TimelineCoversEveryEvent(events: seq<SensorEvent>, ws: seq<Window>, i: nat)
    requires |events| > 0 && i < |events|
    requires Tiles(ws, Timeline(events).start, Timeline(events).end)
    ensures exists k :: 0 <= k < |ws| && ws[k].start <= events[i].timestamp < ws[k].end
    ensures forall k, l :: (0 <= k < |ws| && 0 <= l < |ws|
      && ws[k].start <= events[i].timestamp < ws[k].end
      && ws[l].start <= events[i].timestamp < ws[l].end) ==> k == l
  {
    TilesCoverOnce(ws, Timeline(events).start, Timeline(events).end, events[i].timestamp);
  }

  /** The windows of a sensor log (none for an empty log), over the covering timeline. */
  method TimelineWindows(events: seq<SensorEvent>) returns (windows: seq<Window>)
    ensures events == [] ==> windows == []
    ensures events != [] ==> Tiles(windows, Timeline(events).start, Timeline(events).end)
  {
    if events == [] {
      return [];
    }
    var timeline := Timeline(events);
    windows := BuildWindows(timeline.start, timeline.end);
  }

  // ---------------------------------------------------------------------------------------------
  // Sensor events of a window

  /** One row of `sensor_df`: timestamp, location and state. */
  datatype SensorEvent = SensorEvent(timestamp: int, location: string, state: string)

  /** `get_events_in_window`: the rows with `start <= timestamp < end`, in log order. */
  function EventsInWindow(events: seq<SensorEvent>, start: int, end: int): (r: seq<SensorEvent>)
    ensures |r| <= |events|
    ensures forall e :: e in r <==> e in events && start <= e.timestamp < end
    ensures forall e :: multiset(r)[e] == if start <= e.timestamp < end then multiset(events)[e] else 0
  {
    if events == [] then []
    else
      assert events == [events[0]] + events[1..];
      (if start <= events[0].timestamp < end then [events[0]] else []) + EventsInWindow(events[1..], start, end)
  }

  /** No sensor event is counted in two windows of a tiling. */
  lemma EventInOneWindow(events: seq<SensorEvent>, ws: seq<Window>, start: int, endTime: int,
                         e: SensorEvent, k: nat, l: nat)
    requires Tiles(ws, start, endTime) && k < |ws| && l < |ws|
    requires e in EventsInWindow(events, ws[k].start, ws[k].end)
    requires e in EventsInWindow(events, ws[l].start, ws[l].end)
    ensures k == l
  {
    TileStart(ws, start, endTime, k);
    TileStart(ws, start, endTime, l);
  }

  /** The number of events whose state is `state`: `(window_events["state"] == state).sum()`. */
  function CountState(events: seq<SensorEvent>, state: string): (c: nat)
    ensures c <= |events|
    ensures c == 0 <==> forall i :: 0 <= i < |events| ==> events[i].state != state
    ensures c == |events| <==> forall i :: 0 <= i < |events| ==> events[i].state == state
  {
    if events == [] then 0
    else
      assert forall i :: 1 <= i < |events| ==> events[i] == events[1..][i - 1];
      (if events[0].state == state then 1 else 0) + CountState(events[1..], state)
  }

  lemma {:induction false} OnOffAtMostTotal(events: seq<SensorEvent>)
    ensures CountState(events, "ON") + CountState(events, "OFF") <= |events|
  {
    if events != [] {
      OnOffAtMostTotal(events[1..]);
    }
  }

  /** The result of `event_count_features`. */
  datatype EventCounts = EventCounts(totalEvents: nat, onEvents: nat, offEvents: nat)

  /**
   * `event_count_features`: the window's size and its ON and OFF events; an event is not both,
   * so the two counts add up to at most the total.
   */
  function EventCountFeatures(window: seq<SensorEvent>): (r: EventCounts)
    ensures r.totalEvents == |window|
    ensures r.onEvents + r.offEvents <= r.totalEvents
    ensures r.totalEvents == 0 ==> r.onEvents == 0 && r.offEvents == 0
  {
    OnOffAtMostTotal(window);
    EventCounts(|window|, CountState(window, "ON"), CountState(window, "OFF"))
  }

  // ---------------------------------------------------------------------------------------------
  // The window label

  function Max(a: int, b: int): int { if a >= b then a else b }

  function Min(a: int, b: int): int { if a <= b then a else b }

  /** `(min(window_end, end) - max(window_start, start)).total_seconds()`. */
  function Overlap(start: int, end: int, iv: Interval): int
  {
    Min(end, iv.end) - Max(start, iv.start)
  }

  /**
   * Interval i overlaps the window positively, no interval overlaps it more, and every earlier
   * interval overlaps it strictly less: the element Python's `max` returns.
   */
  predicate IsFirstLargestOverlap(start: int, end: int, activities: seq<Interval>, i: int)
  {
    && 0 <= i < |activities|
    && Overlap(start, end, activities[i]) > 0
    && (forall j :: 0 <= j < |activities| ==> Overlap(start, end, activities[j]) <= Overlap(start, end, activities[i]))
    && (forall j :: 0 <= j < i ==> Overlap(start, end, activities[j]) < Overlap(start, end, activities[i]))
  }

  /**
   * `overlaps` lists, in order, the activity and overlap of every interval that overlaps the
   * window positively; `origin` gives the interval each entry comes from.
   */
  ghost predicate ListsPositiveOverlaps(start: int, end: int, activities: seq<Interval>,
                                        overlaps: seq<(string, int)>, origin: seq<int>)
  {
    && |origin| == |overlaps|
    && (forall m :: 0 <= m < |overlaps| ==> 0 <= origin[m] < |activities|)
    && (forall m :: 0 <= m < |overlaps| ==>
         overlaps[m] == (activities[origin[m]].activity, Overlap(start, end, activities[origin[m]])))
    && (forall m :: 0 <= m < |overlaps| ==> overlaps[m].1 > 0)
    && (forall m, q :: 0 <= m < q < |overlaps| ==> origin[m] < origin[q])
    && (forall i :: 0 <= i < |activities| && Overlap(start, end, activities[i]) > 0 ==> i in origin)
  }

  /** The first loop of `assign_window_label`: the list of positive overlaps. */
  method PositiveOverlaps(start: int, end: int, activities: seq<Interval>)
    returns (overlaps: seq<(string, int)>, ghost origin: seq<int>)
    ensures ListsPositiveOverlaps(start, end, activities, overlaps, origin)
  {
    overlaps := [];
    origin := [];
    var r := 0;
    while r < |activities|
      invariant 0 <= r <= |activities|
      invariant |origin| == |overlaps|
      invariant forall m :: 0 <= m < |overlaps| ==> 0 <= origin[m] < r
      invariant forall m :: 0 <= m < |overlaps| ==>
        overlaps[m] == (activities[origin[m]].activity, Overlap(start, end, activities[origin[m]]))
      invariant forall m :: 0 <= m < |overlaps| ==> overlaps[m].1 > 0
      invariant forall m, q :: 0 <= m < q < |overlaps| ==> origin[m] < origin[q]
      invariant forall i :: 0 <= i < r && Overlap(start, end, activities[i]) > 0 ==> i in origin
    {
      var overlapStart := Max(start, activities[r].start);
      var overlapEnd := Min(end, activities[r].end);
      var overlap := overlapEnd - overlapStart;
      if overlap > 0 {
        overlaps := overlaps + [(activities[r].activity, overlap)];
        origin := origin + [r];
      }
      r := r + 1;
    }
  }

  /**
   * `max(overlaps, key=lambda x: x[1])`: the index of the first entry with the largest overlap
   * (Python's `max` keeps the first of several equal maxima).
   */
  method FirstLargest(overlaps: seq<(string, int)>) returns (best: int)
    requires |overlaps| > 0
    ensures 0 <= best < |overlaps|
    ensures forall q :: 0 <= q < |overlaps| ==> overlaps[q].1 <= overlaps[best].1
    ensures forall q :: 0 <= q < best ==> overlaps[q].1 < overlaps[best].1
  {
    best := 0;
    var m := 1;
    while m < |overlaps|
      invariant 1 <= m <= |overlaps| && 0 <= best < m
      invariant forall q :: 0 <= q < m ==> overlaps[q].1 <= overlaps[best].1
      invariant forall q :: 0 <= q < best ==> overlaps[q].1 < overlaps[best].1
    {
      if overlaps[m].1 > overlaps[best].1 {
        best := m;
      }
      m := m + 1;
    }
  }

  /** The first largest entry of the list of positive overlaps is the first largest interval. */
  lemma FirstLargestEntryIsFirstLargestOverlap(start: int, end: int, activities: seq<Interval>,
                                               overlaps: seq<(string, int)>, origin: seq<int>, best: int)
    requires ListsPositiveOverlaps(start, end, activities, overlaps, origin)
    requires 0 <= best < |overlaps|
    requires forall q :: 0 <= q < |overlaps| ==> overlaps[q].1 <= overlaps[best].1
    requires forall q :: 0 <= q < best ==> overlaps[q].1 < overlaps[best].1
    ensures IsFirstLargestOverlap(start, end, activities, origin[best])
  {
    var i := origin[best];
    forall j | 0 <= j < |activities| && Overlap(start, end, activities[j]) > 0
      ensures Overlap(start, end, activities[j]) <= Overlap(start, end, activities[i])
      ensures j < i ==> Overlap(start, end, activities[j]) < Overlap(start, end, activities[i])
    {
      var q :| 0 <= q < |origin| && origin[q] == j;
      if j < i {
        assert q < best;
      }
    }
  }

  /**
   * `assign_window_label`: "Other" when no activity overlaps the window positively, otherwise
   * the activity of the first interval with the largest overlap. When no activity is itself
   * named "Other", the result is "Other" exactly when nothing overlaps.
   */
  method AssignWindowLabel(start: int, end: int, activities: seq<Interval>) returns (windowLabel: string)
    ensures (forall i :: 0 <= i < |activities| ==> Overlap(start, end, activities[i]) <= 0) ==> windowLabel == "Other"
    ensures (exists i :: 0 <= i < |activities| && Overlap(start, end, activities[i]) > 0) ==>
      exists i :: IsFirstLargestOverlap(start, end, activities, i) && windowLabel == activities[i].activity
    ensures (forall i :: 0 <= i < |activities| ==> activities[i].activity != "Other") ==>
      (windowLabel == "Other" <==> forall i :: 0 <= i < |activities| ==> Overlap(start, end, activities[i]) <= 0)
  {
    var overlaps, origin := PositiveOverlaps(start, end, activities);
    if overlaps == [] {
      return "Other";
    }
    var best := FirstLargest(overlaps);
    windowLabel := overlaps[best].0;
    FirstLargestEntryIsFirstLargestOverlap(start, end, activities, overlaps, origin, best);
  }

  // ---------------------------------------------------------------------------------------------
  // Part of the day

  /** `window_start.hour`. */
  function HourOf(ts: int): (h: int)
    ensures 0 <= h < 24
  {
    (ts % 86400) / 3600
  }

  /** The result of `temporal_features`. */
  datatype TemporalFlags = TemporalFlags(hour: int, isMorning: int, isAfternoon: int, isEvening: int, isNight: int)

  /** `int(condition)`. */
  function Flag(b: bool): int
  {
    if b then 1 else 0
  }

  /**
   * `temporal_features`: the hour and four 0/1 flags for 6-11, 12-17, 18-22 and 23-5; every hour
   * of the day has exactly one flag set.
   */
  function TemporalFeatures(windowStart: int): (r: TemporalFlags)
    ensures 0 <= r.hour < 24
    ensures r.isMorning in {0, 1} && r.isAfternoon in {0, 1} && r.isEvening in {0, 1} && r.isNight in {0, 1}
    ensures r.isMorning + r.isAfternoon + r.isEvening + r.isNight == 1
  {
    var hour := HourOf(windowStart);
    TemporalFlags(hour, Flag(6 <= hour < 12), Flag(12 <= hour < 18), Flag(18 <= hour < 23), Flag(hour >= 23 || hour < 6))
  }
}
