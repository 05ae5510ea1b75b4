/**
 * Activity annotations of the CASAS baseline (baseline.py): `parse_annotation`, which reads
 * `Toilet="begin"` / `Toilet="end"` out of the free-text column, and the loop that pairs each
 * "end" with the open "begin" of the same activity into activity intervals. Timestamps are
 * integers (seconds); `\w` and `\s` are their ASCII members.
 */
module Annotations {
  import opened Wrappers

  // ---------------------------------------------------------------------------------------------
  // parse_annotation

  /** `\w`: ASCII letters, digits and the underscore. */
  predicate IsWordChar(c: char)
  {
    'a' <= c <= 'z' || 'A' <= c <= 'Z' || '0' <= c <= '9' || c == '_'
  }

  /** `\s`: ASCII whitespace. */
  predicate IsSpaceChar(c: char)
  {
    c == ' ' || c == '\t' || c == '\n' || c == '\r' || c == '\U{000B}' || c == '\U{000C}'
  }

  /** The end of the run of characters of the class that starts at index `from`. */
  function RunEnd(s: string, from: nat, inClass: char -> bool): (r: nat)
    requires from <= |s|
    ensures from <= r <= |s|
    ensures forall k :: from <= k < r ==> inClass(s[k])
    ensures r < |s| ==> !inClass(s[r])
    decreases |s| - from
  {
    if from == |s| || !inClass(s[from]) then from else RunEnd(s, from + 1, inClass)
  }

  /** The run is determined by its two defining facts: it is maximal. */
  lemma RunEndIs(s: string, from: nat, inClass: char -> bool, r: nat)
    requires from <= r <= |s|
    requires forall k :: from <= k < r ==> inClass(s[k])
    requires r < |s| ==> !inClass(s[r])
    ensures RunEnd(s, from, inClass) == r
  {
  }

  /** The second group of the pattern. */
  datatype Marker = Begin | End

  /** `"begin"` or `"end"` with its quotes, as the pattern spells it. */
  function Quoted(marker: Marker): string
  {
    match marker
    case Begin => "\"begin\""
    case End => "\"end\""
  }

  /** `p` occurs in `s` at index j. */
  predicate HasAt(s: string, j: nat, p: string)
  {
    j + |p| <= |s| && s[j .. j + |p|] == p
  }

  /** `"(begin|end)"` at index j: the alternatives tried in order. */
  function MarkerAt(s: string, j: nat): (r: Option<Marker>)
    ensures r.Some? <==> HasAt(s, j, Quoted(Begin)) || HasAt(s, j, Quoted(End))
    ensures r.Some? ==> HasAt(s, j, Quoted(r.value))
  {
    if HasAt(s, j, Quoted(Begin)) then Some(Begin)
    else if HasAt(s, j, Quoted(End)) then Some(End)
    else None
  }

  /** At most one of the two alternatives occurs at an index. */
  lemma MarkerAtUnique(s: string, j: nat, marker: Marker)
    requires HasAt(s, j, Quoted(marker))
    ensures MarkerAt(s, j) == Some(marker)
  {
    assert s[j + 1] == Quoted(marker)[1];
  }

  /**
   * `parse_annotation`: `None` for a missing value (`pd.isna`), otherwise the groups of
   * `re.match(r'(\w+)\s*=\s*"(begin|end)"', annotation)`, or `None` when it does not match.
   */
  function ParseAnnotation(annotation: Option<string>): (r: Option<(string, Marker)>)
    ensures r.Some? ==> annotation.Some? && 0 < |r.value.0| <= |annotation.value|
    ensures r.Some? ==> r.value.0 == annotation.value[..|r.value.0|]
  {
    match annotation
    case None => None
    case Some(s) =>
      var w := RunEnd(s, 0, IsWordChar);
      var i := RunEnd(s, w, IsSpaceChar);
      if w == 0 || i == |s| || s[i] != '=' then None
      else
        match MarkerAt(s, RunEnd(s, i + 1, IsSpaceChar))
        case None => None
        case Some(marker) => Some((s[..w], marker))
  }

  /**
   * `s` matches `(\w+)\s*=\s*"(begin|end)"` from its first character with group 1 `activity`
   * and group 2 `marker`, the `=` at index i and the opening quote at index j; anything may
   * follow the closing quote.
   */
  predicate MatchesAt(s: string, activity: string, marker: Marker, i: nat, j: nat)
  {
    && 0 < |activity| <= i < j
    && HasAt(s, j, Quoted(marker))
    && s[..|activity|] == activity
    && (forall k :: 0 <= k < |activity| ==> IsWordChar(activity[k]))
    && (forall k :: |activity| <= k < i ==> IsSpaceChar(s[k]))
    && s[i] == '='
    && (forall k :: i < k < j ==> IsSpaceChar(s[k]))
  }

  ghost predicate Matches(s: string, activity: string, marker: Marker)
  {
    exists i: nat, j: nat :: MatchesAt(s, activity, marker, i, j)
  }

  lemma ParseSound(s: string)
    requires ParseAnnotation(Some(s)).Some?
    ensures Matches(s, ParseAnnotation(Some(s)).value.0, ParseAnnotation(Some(s)).value.1)
  {
    var w := RunEnd(s, 0, IsWordChar);
    var i := RunEnd(s, w, IsSpaceChar);
    var j := RunEnd(s, i + 1, IsSpaceChar);
    assert MatchesAt(s, s[..w], ParseAnnotation(Some(s)).value.1, i, j);
  }

  /** The parse read off the three runs the pattern scans. */
  lemma ParseFromRuns(s: string, w: nat, i: nat, j: nat, marker: Marker)
    requires 0 < w && w <= |s| && RunEnd(s, 0, IsWordChar) == w
    requires w <= i < |s| && RunEnd(s, w, IsSpaceChar) == i && s[i] == '='
    requires RunEnd(s, i + 1, IsSpaceChar) == j && MarkerAt(s, j) == Some(marker)
    ensures ParseAnnotation(Some(s)) == Some((s[..w], marker))
  {
    assert RunEnd(s, RunEnd(s, 0, IsWordChar), IsSpaceChar) == i;
  }

  lemma ParseComplete(s: string, activity: string, marker: Marker, i: nat, j: nat)
    requires MatchesAt(s, activity, marker, i, j)
    ensures ParseAnnotation(Some(s)) == Some((activity, marker))
  {
    var w := |activity|;
    forall k | 0 <= k < w ensures IsWordChar(s[k]) {
      assert s[k] == s[..w][k];
    }
    if w < i {
      assert IsSpaceChar(s[w]);
    }
    RunEndIs(s, 0, IsWordChar, w);
    RunEndIs(s, w, IsSpaceChar, i);
    RunEndIs(s, i + 1, IsSpaceChar, j);
    MarkerAtUnique(s, j, marker);
    ParseFromRuns(s, w, i, j, marker);
  }

  /**
   * `parse_annotation` returns exactly the groups of a match of the pattern at the start of the
   * text, so it is `None` exactly when no prefix of the text matches.
   */
  lemma ParseAnnotationMatches(s: string, activity: string, marker: Marker)
    ensures ParseAnnotation(Some(s)) == Some((activity, marker)) <==> Matches(s, activity, marker)
  {
    if ParseAnnotation(Some(s)) == Some((activity, marker)) {
      ParseSound(s);
    }
    if Matches(s, activity, marker) {
      var i: nat, j: nat :| MatchesAt(s, activity, marker, i, j);
      ParseComplete(s, activity, marker, i, j);
    }
  }

  /** `re.match` anchors only at the start: text after the closing quote changes nothing. */
  lemma ParseIgnoresTrailingText(s: string, rest: string)
    requires ParseAnnotation(Some(s)).Some?
    ensures ParseAnnotation(Some(s + rest)) == ParseAnnotation(Some(s))
  {
    var parsed := ParseAnnotation(Some(s)).value;
    ParseSound(s);
    var i: nat, j: nat :| MatchesAt(s, parsed.0, parsed.1, i, j);
    assert (s + rest)[j .. j + |Quoted(parsed.1)|] == s[j .. j + |Quoted(parsed.1)|];
    assert (s + rest)[..|parsed.0|] == s[..|parsed.0|];
    assert MatchesAt(s + rest, parsed.0, parsed.1, i, j);
    ParseComplete(s + rest, parsed.0, parsed.1, i, j);
  }

  // ---------------------------------------------------------------------------------------------
  // Pairing begin and end markers into intervals

  /** One row of the sorted sensor log: its timestamp and its annotation column. */
  datatype Row = Row(timestamp: int, annotation: Option<string>)

  /** One `{"activity": ..., "start": ..., "end": ...}` of `activity_intervals`. */
  datatype Interval = Interval(activity: string, start: int, end: int)

  /** The loop's state: `active_activities` and `activity_intervals`. */
  datatype Pairing = Pairing(open: map<string, int>, intervals: seq<Interval>)

  /**
   * The loop body on one row. The intervals only grow, by at most one, and only an "end" row of
   * an open activity adds one: the interval of that activity from its recorded start to this row.
   */
  function PairStep(st: Pairing, row: Row): (r: Pairing)
    ensures st.intervals <= r.intervals && |r.intervals| <= |st.intervals| + 1
    ensures |r.intervals| > |st.intervals| ==>
      var iv := r.intervals[|st.intervals|];
      ParseAnnotation(row.annotation) == Some((iv.activity, End)) && iv.activity in st.open &&
      iv == Interval(iv.activity, st.open[iv.activity], row.timestamp)
  {
    match ParseAnnotation(row.annotation)
    case None => st
    case Some((activity, marker)) =>
      if marker == Begin then
        Pairing(st.open[activity := row.timestamp], st.intervals)
      else if activity in st.open then
        Pairing(st.open - {activity}, st.intervals + [Interval(activity, st.open[activity], row.timestamp)])
      else
        st
  }

  /** The state after the loop has visited `rows` in order. */
  function PairAll(rows: seq<Row>): (p: Pairing)
    ensures |p.intervals| <= |rows|
  {
    if rows == [] then Pairing(map[], []) else PairStep(PairAll(rows[..|rows| - 1]), rows[|rows| - 1])
  }

  /** The pairing loop of baseline.py over the rows, returning `activity_intervals`. */
  method ExtractIntervals(rows: seq<Row>) returns (intervals: seq<Interval>)
    ensures intervals == PairAll(rows).intervals
  {
    var open: map<string, int> := map[];
    intervals := [];
    var i := 0;
    while i < |rows|
      invariant 0 <= i <= |rows|
      invariant Pairing(open, intervals) == PairAll(rows[..i])
    {
      assert rows[..i + 1][..i] == rows[..i];
      var parsed := ParseAnnotation(rows[i].annotation);
      if parsed.Some? {
        var (activity, marker) := parsed.value;
        var ts := rows[i].timestamp;
        if marker == Begin {
          open := open[activity := ts];
        } else if activity in open {
          var start := open[activity];
          open := open - {activity};
          intervals := intervals + [Interval(activity, start, ts)];
        }
      }
      i := i + 1;
    }
    assert rows[..|rows|] == rows;
  }

  /** The row carries an annotation of the activity. */
  predicate Annotates(row: Row, activity: string)
  {
    ParseAnnotation(row.annotation).Some? && ParseAnnotation(row.annotation).value.0 == activity
  }

  /** The index of the last row annotating the activity, or -1. */
  function LastAnnotating(rows: seq<Row>, activity: string): (k: int)
    ensures -1 <= k < |rows|
    ensures k >= 0 ==> Annotates(rows[k], activity)
    ensures forall i :: k < i < |rows| ==> !Annotates(rows[i], activity)
  {
    if rows == [] then -1
    else if Annotates(rows[|rows| - 1], activity) then |rows| - 1
    else
      var init := rows[..|rows| - 1];
      assert forall i :: 0 <= i < |init| ==> init[i] == rows[i];
      LastAnnotating(init, activity)
  }

  /** The last annotation of the activity is a "begin". */
  predicate LastIsBegin(rows: seq<Row>, activity: string)
  {
    var k := LastAnnotating(rows, activity);
    k >= 0 && ParseAnnotation(rows[k].annotation).value.1 == Begin
  }

  /**
   * An activity is open after the rows exactly when its last annotation is a "begin", and its
   * recorded start is that row's timestamp: a repeated "begin" overwrites, an "end" closes.
   */
  lemma {:induction false} OpenIsLastBegin(rows: seq<Row>, activity: string)
    ensures activity in PairAll(rows).open <==> LastIsBegin(rows, activity)
    ensures activity in PairAll(rows).open ==>
      PairAll(rows).open[activity] == rows[LastAnnotating(rows, activity)].timestamp
  {
    if rows != [] {
      var init := rows[..|rows| - 1];
      OpenIsLastBegin(init, activity);
      var k := LastAnnotating(init, activity);
      var last := rows[|rows| - 1];
      assert PairAll(rows) == PairStep(PairAll(init), last);
      if !Annotates(last, activity) {
        assert LastAnnotating(rows, activity) == k;
        assert k >= 0 ==> rows[k] == init[k];
        assert activity in PairAll(rows).open <==> activity in PairAll(init).open;
      } else {
        assert LastAnnotating(rows, activity) == |rows| - 1;
      }
    }
  }

  /**
   * On an "end" row the loop emits an interval exactly when the activity's last annotation was
   * a "begin", starting at that "begin" and ending at this row; afterwards the activity is not
   * open. An "end" without an open "begin" is dropped.
   */
  lemma EndClosesLastBegin(rows: seq<Row>, row: Row, activity: string)
    requires ParseAnnotation(row.annotation) == Some((activity, End))
    ensures activity !in PairAll(rows + [row]).open
    ensures PairAll(rows + [row]).intervals == PairAll(rows).intervals +
      (if LastIsBegin(rows, activity)
       then [Interval(activity, rows[LastAnnotating(rows, activity)].timestamp, row.timestamp)]
       else [])
  {
    assert (rows + [row])[..|rows|] == rows;
    OpenIsLastBegin(rows, activity);
  }

  /** A "begin" row, or a row the parser does not recognise, emits no interval. */
  lemma NonEndEmitsNothing(rows: seq<Row>, row: Row)
    requires ParseAnnotation(row.annotation).None? || ParseAnnotation(row.annotation).value.1 == Begin
    ensures PairAll(rows + [row]).intervals == PairAll(rows).intervals
  {
    assert (rows + [row])[..|rows|] == rows;
  }

  /** The rows are in timestamp order (`df.sort_values("timestamp")`). */
  predicate SortedRows(rows: seq<Row>)
  {
    forall i, j :: 0 <= i < j < |rows| ==> rows[i].timestamp <= rows[j].timestamp
  }

  /** Appending an interval that ends last keeps the ends in order. */
  lemma AppendLatest(before: seq<Interval>, iv: Interval)
    requires forall a, b :: 0 <= a < b < |before| ==> before[a].end <= before[b].end
    requires forall x :: x in before ==> x.end <= iv.end
    ensures forall a, b :: 0 <= a < b < |before + [iv]| ==> (before + [iv])[a].end <= (before + [iv])[b].end
  {
    var after := before + [iv];
    forall a, b | 0 <= a < b < |after| ensures after[a].end <= after[b].end {
      assert after[a] == before[a];
      if b == |before| {
        assert before[a] in before;
      }
    }
  }

  /**
   * On rows sorted by timestamp every interval starts no later than it ends, and the intervals
   * come out in the order of their end rows, so their ends never decrease.
   */
  lemma {:induction false} IntervalsOrdered(rows: seq<Row>)
    requires SortedRows(rows)
    ensures forall iv :: iv in PairAll(rows).intervals ==> iv.start <= iv.end
    ensures forall a, b :: 0 <= a < b < |PairAll(rows).intervals| ==>
      PairAll(rows).intervals[a].end <= PairAll(rows).intervals[b].end
    ensures rows != [] ==> forall iv :: iv in PairAll(rows).intervals ==> iv.end <= rows[|rows| - 1].timestamp
  {
    if rows != [] {
      var init := rows[..|rows| - 1];
      assert SortedRows(init);
      IntervalsOrdered(init);
      IntervalsOrderedStep(init, rows[|rows| - 1]);
      assert init + [rows[|rows| - 1]] == rows;
    }
  }

  /** The step of IntervalsOrdered: one more row, no earlier than every row before it. */
  lemma IntervalsOrderedStep(init: seq<Row>, last: Row)
    requires SortedRows(init)
    requires forall i :: 0 <= i < |init| ==> init[i].timestamp <= last.timestamp
    requires forall iv :: iv in PairAll(init).intervals ==> iv.start <= iv.end
    requires forall a, b :: 0 <= a < b < |PairAll(init).intervals| ==>
      PairAll(init).intervals[a].end <= PairAll(init).intervals[b].end
    requires init != [] ==> forall iv :: iv in PairAll(init).intervals ==> iv.end <= init[|init| - 1].timestamp
    ensures forall iv :: iv in PairAll(init + [last]).intervals ==> iv.start <= iv.end
    ensures forall a, b :: 0 <= a < b < |PairAll(init + [last]).intervals| ==>
      PairAll(init + [last]).intervals[a].end <= PairAll(init + [last]).intervals[b].end
    ensures forall iv :: iv in PairAll(init + [last]).intervals ==> iv.end <= last.timestamp
  {
    var rows := init + [last];
    assert rows[..|rows| - 1] == init;
    var before := PairAll(init).intervals;
    var after := PairAll(rows).intervals;
    if init != [] {
      assert forall iv :: iv in before ==> iv.end <= last.timestamp;
    }
    var parsed := ParseAnnotation(last.annotation);
    if parsed.Some? && parsed.value.1 == End && parsed.value.0 in PairAll(init).open {
      var activity := parsed.value.0;
      OpenIsLastBegin(init, activity);
      var k := LastAnnotating(init, activity);
      var iv := Interval(activity, init[k].timestamp, last.timestamp);
      assert after == before + [iv];
      AppendLatest(before, iv);
    } else {
      assert after == before;
    }
  }
}
