/**
 * The rule-based activity predictor of baseline.py: the dominant room of a feature row
 * (`get_dominant_room`) and the decision table of `rule_based_predict`.
 *
 * A feature row holds the window's event total, its hour, and its count columns in column order;
 * the per-room columns are the ones named `room_<room>_count` by `room_features`. A count that
 * pandas leaves as NaN (the room had no event in that window) is 0 here: `sum` and `idxmax` skip
 * NaN, and when the sum is positive the largest count is positive, so a 0 is never chosen either.
 */
module RuleBased {
  import opened Wrappers

  /** One count column of a feature row. */
  datatype RoomCount = RoomCount(column: string, count: nat)

  /** The columns of one row of the feature table that the predictor reads. */
  datatype FeatureRow = FeatureRow(totalEvents: nat, hour: Option<int>, columns: seq<RoomCount>)

  const RoomPrefix: string := "room_"
  const CountSuffix: string := "_count"

  predicate StartsWith(s: string, prefix: string)
  {
    |prefix| <= |s| && s[..|prefix|] == prefix
  }

  predicate EndsWith(s: string, suffix: string)
  {
    |suffix| <= |s| && s[|s| - |suffix|..] == suffix
  }

  /** The column `room_features` writes a room's count to: `f"room_{room}_count"`. */
  function RoomColumnName(room: string): (c: string)
    ensures StartsWith(c, RoomPrefix) && EndsWith(c, CountSuffix)
    ensures |c| == |room| + |RoomPrefix| + |CountSuffix|
  {
    RoomPrefix + room + CountSuffix
  }

  // ---------------------------------------------------------------------------------------------
  // Python's str.replace

  /** `pattern` occurs in `s` at index i. */
  predicate OccursAt(s: string, pattern: string, i: int)
  {
    0 <= i && i + |pattern| <= |s| && s[i..i + |pattern|] == pattern
  }

  /**
   * `s.replace(pattern, replacement)`: every occurrence of `pattern` found scanning from the left,
   * without overlaps, is replaced.
   */
  function Replace(s: string, pattern: string, replacement: string): (r: string)
    requires |pattern| > 0
    ensures replacement == [] ==> |r| <= |s|
    decreases |s|
  {
    if |s| < |pattern| then s
    else if s[..|pattern|] == pattern then replacement + Replace(s[|pattern|..], pattern, replacement)
    else [s[0]] + Replace(s[1..], pattern, replacement)
  }

  /** `.replace("room_", "").replace("_count", "")`, as `get_dominant_room` names the room. */
  function RoomOfColumnAsWritten(c: string): (r: string)
    ensures |r| <= |c|
  {
    Replace(Replace(c, RoomPrefix, ""), CountSuffix, "")
  }

  /** A string in which the pattern does not occur is left as it is. */
  lemma {:induction false} ReplaceAbsent(s: string, pattern: string, replacement: string)
    requires |pattern| > 0
    requires forall i :: 0 <= i <= |s| - |pattern| ==> !OccursAt(s, pattern, i)
    ensures Replace(s, pattern, replacement) == s
    decreases |s|
  {
    if |s| >= |pattern| {
      assert !OccursAt(s, pattern, 0);
      forall i | 0 <= i <= |s[1..]| - |pattern| ensures !OccursAt(s[1..], pattern, i) {
        assert !OccursAt(s, pattern, i + 1);
        assert s[1..][i..i + |pattern|] == s[i + 1..i + 1 + |pattern|];
      }
      ReplaceAbsent(s[1..], pattern, replacement);
    }
  }

  /** A string without the pattern's first character has no occurrence of the pattern. */
  lemma NoFirstCharNoOccurrence(s: string, pattern: string)
    requires |pattern| > 0 && pattern[0] !in s
    ensures forall i :: 0 <= i <= |s| - |pattern| ==> !OccursAt(s, pattern, i)
  {
    forall i | 0 <= i <= |s| - |pattern| ensures !OccursAt(s, pattern, i) {
      assert s[i..i + |pattern|][0] == s[i];
    }
  }

  /** Text before the first possible occurrence is kept as it is. */
  lemma {:induction false} ReplaceKeepsClearPrefix(a: string, b: string, pattern: string, replacement: string)
    requires |pattern| > 0 && pattern[0] !in a
    ensures Replace(a + b, pattern, replacement) == a + Replace(b, pattern, replacement)
  {
    if a != [] {
      var s := a + b;
      if |s| >= |pattern| {
        assert s[..|pattern|][0] == a[0] != pattern[0];
        assert s[1..] == a[1..] + b;
        ReplaceKeepsClearPrefix(a[1..], b, pattern, replacement);
        assert Replace(s, pattern, replacement) == [a[0]] + (a[1..] + Replace(b, pattern, replacement));
        assert [a[0]] + a[1..] == a;
      } else {
        assert |b| < |pattern|;
      }
    } else {
      assert a + b == b;
    }
  }

  /** An occurrence at the front is replaced. */
  lemma ReplaceAtFront(b: string, pattern: string, replacement: string)
    requires |pattern| > 0
    ensures Replace(pattern + b, pattern, replacement) == replacement + Replace(b, pattern, replacement)
  {
    assert (pattern + b)[..|pattern|] == pattern;
    assert (pattern + b)[|pattern|..] == b;
  }

  /**
   * The replacement also removes the "room_" inside "Bathroom_count" and "Bedroom_count", so the
   * room of these columns comes out as "Bathcount" and "Bedcount".
   */
  lemma BathroomAndBedroomMisnamed()
    ensures RoomOfColumnAsWritten(RoomColumnName("Bathroom")) == "Bathcount"
    ensures RoomOfColumnAsWritten(RoomColumnName("Bedroom")) == "Bedcount"
  {
    assert "Bath" + "room" == "Bathroom" && "Bath" + "count" == "Bathcount";
    MisnamedRoom("Bath");
    assert "Bed" + "room" == "Bedroom" && "Bed" + "count" == "Bedcount";
    MisnamedRoom("Bed");
  }

  /**
   * A room whose name has no lower-case "r" and no "_", such as "Kitchen" or "LivingRoom", is read
   * back right by the replacement.
   */
  lemma PlainRoomNamed(room: string)
    requires 'r' !in room && '_' !in room
    ensures RoomOfColumnAsWritten(RoomColumnName(room)) == room
  {
    assert RoomColumnName(room) == RoomPrefix + (room + CountSuffix);
    ReplaceAtFront(room + CountSuffix, RoomPrefix, "");
    ReplaceKeepsClearPrefix(room, CountSuffix, RoomPrefix, "");
    NoFirstCharNoOccurrence(CountSuffix, RoomPrefix);
    ReplaceAbsent(CountSuffix, RoomPrefix, "");
    assert Replace(RoomColumnName(room), RoomPrefix, "") == room + CountSuffix;
    ReplaceKeepsClearPrefix(room, CountSuffix, CountSuffix, "");
    ReplaceAtFront([], CountSuffix, "");
    assert CountSuffix + [] == CountSuffix;
    assert Replace(CountSuffix, CountSuffix, "") == "";
  }

  /** A pattern at the front and again after a clear stem: both occurrences are removed. */
  lemma RemoveTwoOccurrences(pattern: string, stem: string, rest: string)
    requires |pattern| > 0 && pattern[0] !in stem && pattern[0] !in rest
    ensures Replace(pattern + (stem + (pattern + rest)), pattern, "") == stem + rest
  {
    ReplaceAtFront(stem + (pattern + rest), pattern, "");
    ReplaceKeepsClearPrefix(stem, pattern + rest, pattern, "");
    ReplaceAtFront(rest, pattern, "");
    NoFirstCharNoOccurrence(rest, pattern);
    ReplaceAbsent(rest, pattern, "");
  }

  /** The column of a room named `stem + "room"` loses the "room" as well. */
  lemma MisnamedRoom(stem: string)
    requires 'r' !in stem && '_' !in stem
    ensures RoomOfColumnAsWritten(RoomColumnName(stem + "room")) == stem + "count"
  {
    assert RoomColumnName(stem + "room") == RoomPrefix + (stem + (RoomPrefix + "count"));
    RemoveTwoOccurrences(RoomPrefix, stem, "count");
    NoFirstCharNoOccurrence(stem + "count", CountSuffix);
    ReplaceAbsent(stem + "count", CountSuffix, "");
  }

  /** The room of a column: "room_" taken off the front and "_count" off the end, once each. */
  function RoomOfColumn(c: string): string
  {
    var rest := if StartsWith(c, RoomPrefix) then c[|RoomPrefix|..] else c;
    if EndsWith(rest, CountSuffix) then rest[..|rest| - |CountSuffix|] else rest
  }

  /** Naming a room's column and reading the room back gives the room, for every room name. */
  lemma RoomOfColumnRoundTrip(room: string)
    ensures RoomOfColumn(RoomColumnName(room)) == room
  {
    var c := RoomColumnName(room);
    assert c[|RoomPrefix|..] == room + CountSuffix;
    assert (room + CountSuffix)[..|room|] == room;
  }

  // ---------------------------------------------------------------------------------------------
  // The dominant room

  /** `[c for c in row.index if c.startswith("room_")]`, with their counts, in column order. */
  function RoomColumns(columns: seq<RoomCount>): (rooms: seq<RoomCount>)
    ensures |rooms| <= |columns|
    ensures forall k :: 0 <= k < |rooms| ==> StartsWith(rooms[k].column, RoomPrefix)
    ensures forall c :: c in rooms <==> c in columns && StartsWith(c.column, RoomPrefix)
  {
    if columns == [] then []
    else (if StartsWith(columns[0].column, RoomPrefix) then [columns[0]] else []) + RoomColumns(columns[1..])
  }

  /** The filter keeps column order: filtering two runs of columns is filtering each in turn. */
  lemma {:induction false} RoomColumnsOfConcat(xs: seq<RoomCount>, ys: seq<RoomCount>)
    ensures RoomColumns(xs + ys) == RoomColumns(xs) + RoomColumns(ys)
  {
    if xs != [] {
      assert (xs + ys)[0] == xs[0];
      assert (xs + ys)[1..] == xs[1..] + ys;
      RoomColumnsOfConcat(xs[1..], ys);
    } else {
      assert xs + ys == ys;
    }
  }

  /**
   * A room column stays between the room columns before it and those after it, so its position
   * among the room columns is the number of room columns that precede it in the row.
   */
  lemma RoomColumnInPlace(before: seq<RoomCount>, c: RoomCount, after: seq<RoomCount>)
    requires StartsWith(c.column, RoomPrefix)
    ensures RoomColumns(before + [c] + after) == RoomColumns(before) + [c] + RoomColumns(after)
  {
    var single := [c];
    assert single[1..] == [];
    assert RoomColumns(single) == single;
    RoomColumnsOfConcat(before, single);
    RoomColumnsOfConcat(before + single, after);
  }

  /** `row[room_cols].sum()`. */
  function SumCounts(counts: seq<RoomCount>): (total: nat)
    ensures total == 0 <==> forall k :: 0 <= k < |counts| ==> counts[k].count == 0
    ensures forall k :: 0 <= k < |counts| ==> counts[k].count <= total
  {
    if counts == [] then 0
    else
      assert forall k :: 1 <= k < |counts| ==> counts[k] == counts[1..][k - 1];
      counts[0].count + SumCounts(counts[1..])
  }

  /** Entry k has the largest count and every earlier entry a smaller one. */
  predicate IsFirstMax(counts: seq<RoomCount>, k: int)
  {
    && 0 <= k < |counts|
    && (forall j :: 0 <= j < |counts| ==> counts[j].count <= counts[k].count)
    && (forall j :: 0 <= j < k ==> counts[j].count < counts[k].count)
  }

  /** `idxmax()`: the position of the first largest count. */
  function IdxMax(counts: seq<RoomCount>): (k: nat)
    requires |counts| > 0
    ensures IsFirstMax(counts, k)
  {
    if |counts| == 1 then 0
    else
      var init := counts[..|counts| - 1];
      var k := IdxMax(init);
      assert forall j :: 0 <= j < |init| ==> init[j] == counts[j];
      if counts[|counts| - 1].count > counts[k].count then |counts| - 1 else k
  }

  /** The first largest entry is the only one. */
  lemma FirstMaxUnique(counts: seq<RoomCount>, k: int, l: int)
    requires IsFirstMax(counts, k) && IsFirstMax(counts, l)
    ensures k == l
  {
    assert counts[k].count <= counts[l].count && counts[l].count <= counts[k].count;
  }

  /**
   * `get_dominant_room` as written: None when every room count is 0, otherwise the column of the
   * first largest count, named with `RoomOfColumnAsWritten`.
   */
  function GetDominantRoomAsWritten(columns: seq<RoomCount>): (room: Option<string>)
    ensures room.None? <==> forall k :: 0 <= k < |RoomColumns(columns)| ==> RoomColumns(columns)[k].count == 0
    ensures room.Some? ==>
      exists k :: (IsFirstMax(RoomColumns(columns), k) && RoomColumns(columns)[k].count > 0
        && room.value == RoomOfColumnAsWritten(RoomColumns(columns)[k].column))
  {
    var rooms := RoomColumns(columns);
    if SumCounts(rooms) == 0 then None else Some(RoomOfColumnAsWritten(rooms[IdxMax(rooms)].column))
  }

  /**
   * `get_dominant_room` with the room read back from the column name: None exactly when no room
   * column has a positive count, otherwise the room of the first largest room count.
   */
  function GetDominantRoom(columns: seq<RoomCount>): (room: Option<string>)
    ensures room.None? <==> forall k :: 0 <= k < |RoomColumns(columns)| ==> RoomColumns(columns)[k].count == 0
    ensures room.Some? ==>
      exists k :: (IsFirstMax(RoomColumns(columns), k) && RoomColumns(columns)[k].count > 0
        && room.value == RoomOfColumn(RoomColumns(columns)[k].column))
  {
    var rooms := RoomColumns(columns);
    if SumCounts(rooms) == 0 then None else Some(RoomOfColumn(rooms[IdxMax(rooms)].column))
  }

  /** A row whose largest room count is in `room`'s own column has `room` as its dominant room. */
  lemma DominantRoomOfNamedColumn(columns: seq<RoomCount>, room: string, k: int)
    requires IsFirstMax(RoomColumns(columns), k) && RoomColumns(columns)[k].count > 0
    requires RoomColumns(columns)[k].column == RoomColumnName(room)
    ensures GetDominantRoom(columns) == Some(room)
  {
    var rooms := RoomColumns(columns);
    FirstMaxUnique(rooms, k, IdxMax(rooms));
    RoomOfColumnRoundTrip(room);
  }

  // ---------------------------------------------------------------------------------------------
  // The decision table

  /** The activities `rule_based_predict` can return. */
  const Predictions: set<string> :=
    {"Other", "Toilet", "Personal_Hygiene", "Sleep", "Sleep_Out_Of_Bed", "Eat_Breakfast", "Eat_Lunch", "Watch_TV"}

  /** The rules of `rule_based_predict`, on the event total, the dominant room and the hour. */
  function Predict(totalEvents: nat, dominant: Option<string>, hour: Option<int>): (activity: string)
    ensures activity in Predictions
    ensures totalEvents == 0 ==> activity == "Other"
  {
    if totalEvents == 0 then "Other"
    else if dominant == Some("Bathroom") then
      (if totalEvents < 5 then "Toilet" else "Personal_Hygiene")
    else if dominant == Some("Bedroom") then
      (if hour.Some? && (22 <= hour.value || hour.value < 6) then "Sleep" else "Sleep_Out_Of_Bed")
    else if dominant == Some("Kitchen") || dominant == Some("DiningRoom") then
      (if hour.Some? && hour.value < 11 then "Eat_Breakfast"
       else if hour.Some? && 11 <= hour.value < 15 then "Eat_Lunch"
       else "Other")
    else if dominant == Some("LivingRoom") || dominant == Some("LivingRoomArea") then "Watch_TV"
    else "Other"
  }

  /** Nighttime for the bedroom rule: 22:00 to 05:59. */
  predicate IsNight(hour: Option<int>)
  {
    hour.Some? && (22 <= hour.value || hour.value < 6)
  }

  /** Which rows get which activity: each activity's rows, by room, count and hour. */
  lemma PredictionsByRoom(totalEvents: nat, dominant: Option<string>, hour: Option<int>)
    ensures Predict(totalEvents, dominant, hour) == "Toilet" <==>
      totalEvents > 0 && dominant == Some("Bathroom") && totalEvents < 5
    ensures Predict(totalEvents, dominant, hour) == "Personal_Hygiene" <==>
      dominant == Some("Bathroom") && totalEvents >= 5
    ensures Predict(totalEvents, dominant, hour) == "Sleep" <==>
      totalEvents > 0 && dominant == Some("Bedroom") && IsNight(hour)
    ensures Predict(totalEvents, dominant, hour) == "Sleep_Out_Of_Bed" <==>
      totalEvents > 0 && dominant == Some("Bedroom") && !IsNight(hour)
    ensures Predict(totalEvents, dominant, hour) == "Eat_Breakfast" <==>
      totalEvents > 0 && dominant in {Some("Kitchen"), Some("DiningRoom")} && hour.Some? && hour.value < 11
    ensures Predict(totalEvents, dominant, hour) == "Eat_Lunch" <==>
      totalEvents > 0 && dominant in {Some("Kitchen"), Some("DiningRoom")} && hour.Some? && 11 <= hour.value < 15
    ensures Predict(totalEvents, dominant, hour) == "Watch_TV" <==>
      totalEvents > 0 && dominant in {Some("LivingRoom"), Some("LivingRoomArea")}
  {
  }

  /** A window whose dominant room none of the rules names is "Other". */
  lemma UnknownRoomIsOther(totalEvents: nat, dominant: Option<string>, hour: Option<int>)
    requires dominant !in {Some("Bathroom"), Some("Bedroom"), Some("Kitchen"), Some("DiningRoom"),
                           Some("LivingRoom"), Some("LivingRoomArea")}
    ensures Predict(totalEvents, dominant, hour) == "Other"
  {
  }

  /** `rule_based_predict` as written, with the dominant room of `GetDominantRoomAsWritten`. */
  function RuleBasedPredictAsWritten(row: FeatureRow): (activity: string)
    ensures activity in Predictions
    ensures row.totalEvents == 0 ==> activity == "Other"
    ensures activity != "Other" ==> GetDominantRoomAsWritten(row.columns).Some?
  {
    Predict(row.totalEvents, GetDominantRoomAsWritten(row.columns), row.hour)
  }

  /** As written, a row whose first largest room count is in `room`'s column is named from it. */
  lemma DominantRoomAsWrittenOfNamedColumn(columns: seq<RoomCount>, room: string, k: int)
    requires IsFirstMax(RoomColumns(columns), k) && RoomColumns(columns)[k].count > 0
    requires RoomColumns(columns)[k].column == RoomColumnName(room)
    ensures GetDominantRoomAsWritten(columns) == Some(RoomOfColumnAsWritten(RoomColumnName(room)))
  {
    var rooms := RoomColumns(columns);
    FirstMaxUnique(rooms, k, IdxMax(rooms));
  }

  /** "Bathcount" and "Bedcount" are rooms no rule names. */
  lemma MisnamedRoomsAreUnknown(totalEvents: nat, hour: Option<int>)
    ensures Predict(totalEvents, Some("Bathcount"), hour) == "Other"
    ensures Predict(totalEvents, Some("Bedcount"), hour) == "Other"
  {
    assert |"Bathcount"| == 9 && "Bedcount"[1] == 'e' && "Bedcount"[2] == 'd';
    UnknownRoomIsOther(totalEvents, Some("Bathcount"), hour);
    UnknownRoomIsOther(totalEvents, Some("Bedcount"), hour);
  }

  /**
   * As written, a row whose first largest room count is in the Bathroom or the Bedroom column is
   * always "Other": its dominant room is "Bathcount" or "Bedcount", which no rule names.
   */
  lemma BathroomAndBedroomRulesUnreachable(row: FeatureRow, room: string, k: int)
    requires IsFirstMax(RoomColumns(row.columns), k) && RoomColumns(row.columns)[k].count > 0
    requires RoomColumns(row.columns)[k].column == RoomColumnName(room)
    requires room == "Bathroom" || room == "Bedroom"
    ensures RuleBasedPredictAsWritten(row) == "Other"
  {
    DominantRoomAsWrittenOfNamedColumn(row.columns, room, k);
    BathroomAndBedroomMisnamed();
    MisnamedRoomsAreUnknown(row.totalEvents, row.hour);
  }

  /** `rule_based_predict`, with the dominant room read back from its column. */
  function RuleBasedPredict(row: FeatureRow): (activity: string)
    ensures activity in Predictions
    ensures row.totalEvents == 0 ==> activity == "Other"
    ensures activity != "Other" ==> GetDominantRoom(row.columns).Some?
  {
    Predict(row.totalEvents, GetDominantRoom(row.columns), row.hour)
  }

  /** A window of three bathroom events, at 8 o'clock. */
  const BathroomVisit: FeatureRow :=
    FeatureRow(3, Some(8), [RoomCount("total_events", 3), RoomCount(RoomColumnName("Bathroom"), 3)])

  /** The one room column of the bathroom window. */
  lemma BathroomVisitRooms()
    ensures RoomColumns(BathroomVisit.columns) == [RoomCount(RoomColumnName("Bathroom"), 3)]
  {
    var columns := BathroomVisit.columns;
    assert "total_events"[0] != RoomPrefix[0];
    assert !StartsWith(columns[0].column, RoomPrefix);
    assert columns[1..][1..] == [];
  }

  /** As written, the bathroom window is named "Bathcount" and falls through to "Other". */
  lemma BathroomVisitAsWritten()
    ensures GetDominantRoomAsWritten(BathroomVisit.columns) == Some("Bathcount")
    ensures RuleBasedPredictAsWritten(BathroomVisit) == "Other"
  {
    BathroomVisitRooms();
    var rooms := RoomColumns(BathroomVisit.columns);
    assert IdxMax(rooms) == 0 && SumCounts(rooms) == 3;
    BathroomAndBedroomMisnamed();
    var dominant := GetDominantRoomAsWritten(BathroomVisit.columns);
    assert dominant == Some("Bathcount");
    // "Bathcount" has nine letters, and no room the rules name has nine
    assert |dominant.value| == 9;
    UnknownRoomIsOther(BathroomVisit.totalEvents, dominant, BathroomVisit.hour);
  }

  /** With the room read back from its column, the bathroom window is "Toilet". */
  lemma BathroomVisitIsToilet()
    ensures RuleBasedPredict(BathroomVisit) == "Toilet"
  {
    BathroomVisitRooms();
    DominantRoomOfNamedColumn(BathroomVisit.columns, "Bathroom", 0);
  }

  /** Every room the rules name is reached: a row dominated by `room`'s column gets `room`'s rule. */
  lemma DominantColumnSelectsRule(row: FeatureRow, room: string, k: int)
    requires IsFirstMax(RoomColumns(row.columns), k) && RoomColumns(row.columns)[k].count > 0
    requires RoomColumns(row.columns)[k].column == RoomColumnName(room)
    ensures RuleBasedPredict(row) == Predict(row.totalEvents, Some(room), row.hour)
  {
    DominantRoomOfNamedColumn(row.columns, room, k);
  }
}
