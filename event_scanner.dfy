/**
 * The event criteria and the sliding-window scanner `generate_events` of
 * signal_generation_tools.py. A window's right edge runs over `range(win, len(df), hop)`; at
 * each edge every event definition, in table order, gets the inclusive slice
 * `df.loc[t_idx-win:t_idx, s]` of each channel it lists, and an occurrence is appended when
 * its criterion holds. The criteria backed by foreign numeric code (`np.std`,
 * `scipy.signal.welch`, `scipy.signal.find_peaks`) are opaque predicates here.
 */
module EventScanner {
  import opened Wrappers
  import opened SignalGeneration

  // ---------------------------------------------------------------------------------------------
  // The mean criterion

  /** `np.mean` of a non-empty window. */
  function Mean(s: seq<real>): (mu: real)
    requires |s| > 0
    ensures mu * |s| as real == Sum(s)
  {
    Sum(s) / |s| as real
  }

  /** `event_criteria_mean(sig, thresh, mode)`: the mean above `thresh` for "gt", below otherwise. */
  function MeanCriterion(sig: seq<real>, thresh: real, mode: string): (r: bool)
    requires |sig| > 0
    ensures mode == "gt" ==> (r <==> Sum(sig) > thresh * |sig| as real)
    ensures mode != "gt" ==> (r <==> Sum(sig) < thresh * |sig| as real)
  {
    ScaledCompare(Mean(sig), thresh, |sig| as real);
    if mode == "gt" then Mean(sig) > thresh else Mean(sig) < thresh
  }

  /** Scaling both sides by a positive factor keeps a strict comparison. */
  lemma ScaledCompare(x: real, y: real, n: real)
    requires n > 0.0
    ensures x > y <==> x * n > y * n
    ensures x < y <==> x * n < y * n
  {
    assert x * n - y * n == (x - y) * n;
    if x > y { PositiveProduct(x - y, n); }
    if x < y { PositiveProduct(y - x, n); }
  }

  lemma PositiveProduct(u: real, v: real)
    requires u > 0.0 && v > 0.0
    ensures u * v > 0.0
  {
  }

  /** A window of n copies of c. */
  function Constant(c: real, n: nat): (s: seq<real>)
    ensures |s| == n
  {
    seq(n, _ => c)
  }

  lemma {:induction false} SumOfConstant(c: real, n: nat)
    ensures Sum(Constant(c, n)) == n as real * c
  {
    if n > 0 {
      assert Constant(c, n)[1..] == Constant(c, n - 1);
      SumOfConstant(c, n - 1);
    }
  }

  /** A constant window of value c has mean c. */
  lemma ConstantWindowMean(c: real, n: nat)
    requires n > 0
    ensures Mean(Constant(c, n)) == c
  {
    SumOfConstant(c, n);
  }

  /** On a constant window the mean criterion compares the constant itself with the threshold. */
  lemma MeanCriterionOnConstant(c: real, n: nat, thresh: real, mode: string)
    requires n > 0
    ensures MeanCriterion(Constant(c, n), thresh, mode) <==>
      if mode == "gt" then c > thresh else c < thresh
  {
    ConstantWindowMean(c, n);
  }

  lemma {:induction false} SumBounds(s: seq<real>, b: real)
    ensures (forall i :: 0 <= i < |s| ==> s[i] <= b) ==> Sum(s) <= |s| as real * b
    ensures (forall i :: 0 <= i < |s| ==> s[i] >= b) ==> Sum(s) >= |s| as real * b
  {
    if s != [] {
      SumBounds(s[1..], b);
    }
  }

  /** The mean of a window lies between its smallest and its largest sample. */
  lemma MeanBounds(sig: seq<real>, b: real)
    requires |sig| > 0
    ensures (forall i :: 0 <= i < |sig| ==> sig[i] <= b) ==> Mean(sig) <= b
    ensures (forall i :: 0 <= i < |sig| ==> sig[i] >= b) ==> Mean(sig) >= b
  {
    SumBounds(sig, b);
  }

  /**
   * When "gt" fires some sample exceeds the threshold, and when any other mode fires some sample
   * is below it.
   */
  lemma MeanCriterionWitness(sig: seq<real>, thresh: real, mode: string)
    requires |sig| > 0
    requires MeanCriterion(sig, thresh, mode)
    ensures mode == "gt" ==> exists i :: 0 <= i < |sig| && sig[i] > thresh
    ensures mode != "gt" ==> exists i :: 0 <= i < |sig| && sig[i] < thresh
  {
    MeanBounds(sig, thresh);
  }

  // ---------------------------------------------------------------------------------------------
  // Event definitions and occurrences

  /**
   * The criterion of an event definition, its parameters bound: the mean criterion, or a
   * foreign predicate over the windows of the listed channels (std, band power, peak count).
   */
  datatype Criterion =
    | MeanThreshold(thresh: real, mode: string)
    | Foreign(holds: seq<seq<real>> -> bool)

  /** One entry `eID -> dict(criteria=..., sigs=..., params=...)` of `event_defs`. */
  datatype EventDef = EventDef(id: string, criterion: Criterion, sigs: seq<string>)

  /** One appended `{"time_t": t, "eID": eID}`. */
  datatype Occurrence = Occurrence(time: real, id: string)

  /** What `generate_events` can raise. */
  datatype ScanError =
    | ZeroHop                 // `range` with a zero step: ValueError
    | MissingRow(index: int)  // `.loc[t_idx, "time_s"]` outside the index: KeyError
    | MissingColumn(name: string)  // a listed channel that is not a column: KeyError
    | BadArity(id: string)    // `event_criteria_mean` not given exactly one window: TypeError

  /** A column of the frame by name: the time column or the first channel so named. */
  function ChannelLookup(cs: seq<Column>, name: string): (r: Option<seq<real>>)
    ensures r.None? <==> forall i :: 0 <= i < |cs| ==> cs[i].name != name
    ensures r.Some? ==> exists i :: 0 <= i < |cs| && cs[i].name == name && cs[i].samples == r.value
  {
    if cs == [] then None
    else if cs[0].name == name then Some(cs[0].samples)
    else
      var r := ChannelLookup(cs[1..], name);
      assert r.Some? ==> exists i :: 1 <= i < |cs| && cs[i].name == name && cs[i].samples == r.value
        by { if r.Some? { var i :| 0 <= i < |cs[1..]| && cs[1..][i].name == name && cs[1..][i].samples == r.value; assert cs[i + 1] == cs[1..][i]; } }
      r
  }

  /** `sigs_X_df[name]`: "time_s" or one of the channels. */
  function ColumnOf(m: SignalMatrix, name: string): (r: Option<seq<real>>)
    requires Rectangular(m)
    ensures r.Some? ==> |r.value| == |m.time|
  {
    if name == "time_s" then Some(m.time) else ChannelLookup(m.channels, name)
  }

  /** `.loc[t_idx-win:t_idx]` on a column: a label slice, so both ends are included. */
  function WindowOf(samples: seq<real>, win: nat, t: nat): (w: seq<real>)
    requires win <= t < |samples|
    ensures |w| == win + 1
    ensures forall i :: 0 <= i <= win ==> w[i] == samples[t - win + i]
  {
    samples[t - win .. t + 1]
  }

  /** The list comprehension over `edef["sigs"]`: one window per listed channel, in order. */
  function GatherWindows(m: SignalMatrix, names: seq<string>, win: nat, t: nat)
    : (r: Result<seq<seq<real>>, ScanError>)
    requires Rectangular(m) && win <= t < |m.time|
    ensures r.Err? <==> exists i :: 0 <= i < |names| && ColumnOf(m, names[i]).None?
    ensures r.Ok? ==> |r.value| == |names|
    ensures r.Err? ==> r.error.MissingColumn?
    ensures r.Ok? ==> forall i :: 0 <= i < |names| ==> r.value[i] == WindowOf(ColumnOf(m, names[i]).value, win, t)
  {
    if names == [] then Ok([])
    else
      match ColumnOf(m, names[0])
      case None => Err(MissingColumn(names[0]))
      case Some(column) =>
        var rest := GatherWindows(m, names[1..], win, t);
        assert (exists i :: 0 <= i < |names[1..]| && ColumnOf(m, names[1..][i]).None?) <==>
               (exists i :: 1 <= i < |names| && ColumnOf(m, names[i]).None?) by {
          if exists i :: 0 <= i < |names[1..]| && ColumnOf(m, names[1..][i]).None? {
            var i :| 0 <= i < |names[1..]| && ColumnOf(m, names[1..][i]).None?;
            assert names[i + 1] == names[1..][i];
          }
          if exists i :: 1 <= i < |names| && ColumnOf(m, names[i]).None? {
            var i :| 1 <= i < |names| && ColumnOf(m, names[i]).None?;
            assert names[1..][i - 1] == names[i];
          }
        }
        match rest
        case Err(e) => Err(e)
        case Ok(windows) => Ok([WindowOf(column, win, t)] + windows)
  }

  /** `edef["criteria"](*sig_data, **edef["params"])`. */
  function Evaluate(c: Criterion, windows: seq<seq<real>>, id: string): (r: Result<bool, ScanError>)
    requires forall i :: 0 <= i < |windows| ==> |windows[i]| > 0
    ensures r.Err? <==> c.MeanThreshold? && |windows| != 1
    ensures r.Err? ==> r.error == BadArity(id)
  {
    match c
    case MeanThreshold(thresh, mode) =>
      if |windows| == 1 then Ok(MeanCriterion(windows[0], thresh, mode)) else Err(BadArity(id))
    case Foreign(holds) => Ok(holds(windows))
  }

  /** One definition at the window whose right edge is row t. */
  function EvaluateDef(m: SignalMatrix, d: EventDef, win: nat, t: nat): (r: Result<bool, ScanError>)
    requires Rectangular(m) && win <= t < |m.time|
    ensures r.Err? ==> r.error.MissingColumn? || r.error.BadArity?
  {
    match GatherWindows(m, d.sigs, win, t)
    case Err(e) => Err(e)
    case Ok(windows) => Evaluate(d.criterion, windows, d.id)
  }

  /** The definition fires at the window ending at row t. */
  predicate Fires(m: SignalMatrix, d: EventDef, win: nat, t: nat)
    requires Rectangular(m) && win <= t < |m.time|
  {
    EvaluateDef(m, d, win, t) == Ok(true)
  }

  /** The occurrences `p`, then those of `r`; an error of `r` is the error of the whole. */
  function Prefixed(p: seq<Occurrence>, r: Result<seq<Occurrence>, ScanError>)
    : Result<seq<Occurrence>, ScanError>
  {
    match r
    case Ok(s) => Ok(p + s)
    case Err(e) => Err(e)
  }

  /** `a` then `b`, the first error winning. */
  function Join(a: Result<seq<Occurrence>, ScanError>, b: Result<seq<Occurrence>, ScanError>)
    : Result<seq<Occurrence>, ScanError>
  {
    match a
    case Err(e) => Err(e)
    case Ok(s) => Prefixed(s, b)
  }

  /** The occurrences of definitions j.. at the window ending at row t, in table order. */
  function FireFrom(m: SignalMatrix, defs: seq<EventDef>, win: nat, t: nat, j: nat)
    : (r: Result<seq<Occurrence>, ScanError>)
    requires Rectangular(m) && win <= t < |m.time|
    ensures r.Ok? ==> forall o :: o in r.value ==> o.time == m.time[t]
    ensures r.Ok? && j <= |defs| ==> |r.value| <= |defs| - j
    ensures r.Err? ==> r.error.MissingColumn? || r.error.BadArity?
    decreases |defs| - j
  {
    if j >= |defs| then Ok([])
    else
      match EvaluateDef(m, defs[j], win, t)
      case Err(e) => Err(e)
      case Ok(fired) =>
        Prefixed(if fired then [Occurrence(m.time[t], defs[j].id)] else [],
                 FireFrom(m, defs, win, t, j + 1))
  }

  /** The number of right edges in `range(win, n, hop)` for a positive hop. */
  function EdgeCount(win: nat, n: nat, hop: nat): nat
    requires hop > 0
  {
    if win >= n then 0 else (n - 1 - win) / hop + 1
  }

  /** The k-th right edge `win + k * hop`. */
  function Edge(win: nat, hop: nat, k: nat): (t: nat)
    ensures win <= t
  {
    win + k * hop
  }

  /** The scanned right edges are exactly the `win + k * hop` below the number of rows. */
  lemma EdgesBelowRows(win: nat, n: nat, hop: nat, k: nat)
    requires hop > 0
    ensures k < EdgeCount(win, n, hop) <==> Edge(win, hop, k) < n
  {
    if win < n {
      var span := n - 1 - win;
      var q := span / hop;
      assert span == q * hop + span % hop;
      if k <= q {
        assert k * hop <= q * hop by { MultiplyMonotone(k, q, hop); }
      } else {
        assert (q + 1) * hop <= k * hop by { MultiplyMonotone(q + 1, k, hop); }
      }
    } else {
      assert k * hop >= 0;
    }
  }

  lemma MultiplyMonotone(a: nat, b: nat, c: nat)
    requires a <= b
    ensures a * c <= b * c
  {
  }

  /** The occurrences of the windows from the k-th right edge on. */
  function ScanFrom(m: SignalMatrix, defs: seq<EventDef>, win: nat, hop: nat, k: nat)
    : (r: Result<seq<Occurrence>, ScanError>)
    requires Rectangular(m) && hop > 0
    ensures r.Ok? ==> forall o :: o in r.value ==> o.time in m.time
    ensures r.Err? ==> r.error.MissingColumn? || r.error.BadArity?
    decreases EdgeCount(win, |m.time|, hop) - k
  {
    if k >= EdgeCount(win, |m.time|, hop) then Ok([])
    else
      EdgesBelowRows(win, |m.time|, hop, k);
      Join(FireFrom(m, defs, win, Edge(win, hop, k), 0), ScanFrom(m, defs, win, hop, k + 1))
  }

  /**
   * What `generate_events(df, f_0, window_s, hop_len_s, event_defs)` returns or raises, with
   * `win` and `hop` the sample counts `int(window_s * f_0)` and `int(hop_len_s * f_0)`.
   */
  function Scan(m: SignalMatrix, win: int, hop: int, defs: seq<EventDef>)
    : (r: Result<seq<Occurrence>, ScanError>)
    requires Rectangular(m)
    ensures r == Err(ZeroHop) <==> hop == 0
    ensures (r.Err? && r.error.MissingRow?) <==> (hop < 0 && win > |m.time|) || (hop > 0 && win < 0)
    ensures r.Ok? ==> forall o :: o in r.value ==> o.time in m.time
  {
    if hop == 0 then Err(ZeroHop)
    else if hop < 0 then (if win > |m.time| then Err(MissingRow(win)) else Ok([]))
    else if win < 0 then Err(MissingRow(win))
    else ScanFrom(m, defs, win, hop, 0)
  }

  lemma PrefixedAssociative(p: seq<Occurrence>, q: seq<Occurrence>, r: Result<seq<Occurrence>, ScanError>)
    ensures Prefixed(p, Prefixed(q, r)) == Prefixed(p + q, r)
  {
    if r.Ok? {
      assert p + (q + r.value) == (p + q) + r.value;
    }
  }

  lemma JoinPrefixed(q: seq<Occurrence>, a: Result<seq<Occurrence>, ScanError>, b: Result<seq<Occurrence>, ScanError>)
    ensures Join(Prefixed(q, a), b) == Prefixed(q, Join(a, b))
  {
    if a.Ok? {
      PrefixedAssociative(q, a.value, b);
    }
  }

  /**
   * The inner loop of `generate_events` at the window ending at row t: every definition in table
   * order, stopping at the first error.
   */
  method FireAt(m: SignalMatrix, defs: seq<EventDef>, win: nat, t: nat)
    returns (r: Result<seq<Occurrence>, ScanError>)
    requires Rectangular(m) && win <= t < |m.time|
    ensures r == FireFrom(m, defs, win, t, 0)
  {
    var found: seq<Occurrence> := [];
    var j := 0;
    assert Prefixed(found, FireFrom(m, defs, win, t, 0)) == FireFrom(m, defs, win, t, 0) by {
      if FireFrom(m, defs, win, t, 0).Ok? {
        assert [] + FireFrom(m, defs, win, t, 0).value == FireFrom(m, defs, win, t, 0).value;
      }
    }
    while j < |defs|
      invariant 0 <= j <= |defs|
      invariant FireFrom(m, defs, win, t, 0) == Prefixed(found, FireFrom(m, defs, win, t, j))
    {
      var windows := GatherWindows(m, defs[j].sigs, win, t);
      if windows.Err? {
        return Err(windows.error);
      }
      var fired := Evaluate(defs[j].criterion, windows.value, defs[j].id);
      if fired.Err? {
        return Err(fired.error);
      }
      var occurrences := if fired.value then [Occurrence(m.time[t], defs[j].id)] else [];
      PrefixedAssociative(found, occurrences, FireFrom(m, defs, win, t, j + 1));
      found := found + occurrences;
      j := j + 1;
    }
    assert found + [] == found;
    return Ok(found);
  }

  /** `generate_events`: the nested loops appending to `events`. */
  method GenerateEvents(m: SignalMatrix, win: int, hop: int, defs: seq<EventDef>)
    returns (r: Result<seq<Occurrence>, ScanError>)
    requires Rectangular(m)
    ensures r == Scan(m, win, hop, defs)
  {
    var n := |m.time|;
    if hop == 0 {
      return Err(ZeroHop);
    }
    if hop < 0 {
      if win > n {
        return Err(MissingRow(win));
      }
      return Ok([]);
    }
    if win < 0 {
      return Err(MissingRow(win));
    }
    var events: seq<Occurrence> := [];
    var tIdx := win;
    ghost var k: nat := 0;
    assert Prefixed(events, ScanFrom(m, defs, win, hop, k)) == ScanFrom(m, defs, win, hop, k) by {
      if ScanFrom(m, defs, win, hop, k).Ok? {
        assert [] + ScanFrom(m, defs, win, hop, k).value == ScanFrom(m, defs, win, hop, k).value;
      }
    }
    while tIdx < n
      invariant tIdx == Edge(win, hop, k)
      invariant k <= EdgeCount(win, n, hop)
      invariant Scan(m, win, hop, defs) == Prefixed(events, ScanFrom(m, defs, win, hop, k))
      decreases n - tIdx
    {
      EdgesBelowRows(win, n, hop, k);
      ghost var later := ScanFrom(m, defs, win, hop, k + 1);
      var found := FireAt(m, defs, win, tIdx);
      if found.Err? {
        return Err(found.error);
      }
      PrefixedAssociative(events, found.value, later);
      events := events + found.value;
      tIdx := tIdx + hop;
      k := k + 1;
    }
    EdgesBelowRows(win, n, hop, k);
    assert events + [] == events;
    return Ok(events);
  }

  // ---------------------------------------------------------------------------------------------
  // Properties of the scan

  /** A window length reaching past the last row scans nothing and is not an error. */
  lemma NoWindowWhenTooLong(m: SignalMatrix, win: nat, hop: nat, defs: seq<EventDef>)
    requires Rectangular(m) && hop > 0 && win >= |m.time|
    ensures Scan(m, win, hop, defs) == Ok([])
  {
  }

  /** Every occurrence of definitions j.. at edge t is stamped `time[t]` and was fired. */
  lemma {:induction false} FireFromMembers(
    m: SignalMatrix, defs: seq<EventDef>, win: nat, t: nat, j: nat, evs: seq<Occurrence>, o: Occurrence)
    requires Rectangular(m) && win <= t < |m.time|
    requires FireFrom(m, defs, win, t, j) == Ok(evs)
    ensures forall e :: e in evs ==> e.time == m.time[t]
    ensures o in evs <==> exists i :: j <= i < |defs| && Fires(m, defs[i], win, t) && o == Occurrence(m.time[t], defs[i].id)
    decreases |defs| - j
  {
    if j < |defs| {
      var fired := EvaluateDef(m, defs[j], win, t).value;
      var here := Occurrence(m.time[t], defs[j].id);
      var tail := FireFrom(m, defs, win, t, j + 1).value;
      FireFromMembers(m, defs, win, t, j + 1, tail, o);
      if fired {
        assert evs == [here] + tail;
        assert Fires(m, defs[j], win, t);
      } else {
        assert evs == tail;
        assert !Fires(m, defs[j], win, t);
      }
      if o in evs && (!fired || o != here) {
        assert o in tail;
      }
      if exists i :: j <= i < |defs| && Fires(m, defs[i], win, t) && o == Occurrence(m.time[t], defs[i].id) {
        var i :| j <= i < |defs| && Fires(m, defs[i], win, t) && o == Occurrence(m.time[t], defs[i].id);
        if i == j {
          assert o == here && fired;
        } else {
          assert o in tail;
        }
      }
    }
  }

  /**
   * Within one window the occurrences follow the order of the definition table: the i-th comes
   * from the i-th firing definition.
   */
  lemma {:induction false} FireFromInTableOrder(
    m: SignalMatrix, defs: seq<EventDef>, win: nat, t: nat, j: nat, evs: seq<Occurrence>)
    returns (idx: seq<int>)
    requires Rectangular(m) && win <= t < |m.time|
    requires FireFrom(m, defs, win, t, j) == Ok(evs)
    ensures |idx| == |evs|
    ensures forall q :: 0 <= q < |idx| ==>
      && j <= idx[q] < |defs| && Fires(m, defs[idx[q]], win, t)
      && evs[q] == Occurrence(m.time[t], defs[idx[q]].id)
    ensures forall q, r :: 0 <= q < r < |idx| ==> idx[q] < idx[r]
    decreases |defs| - j
  {
    if j >= |defs| {
      idx := [];
    } else {
      var fired := EvaluateDef(m, defs[j], win, t).value;
      var rest := FireFrom(m, defs, win, t, j + 1).value;
      var restIdx := FireFromInTableOrder(m, defs, win, t, j + 1, rest);
      if fired {
        assert evs == [Occurrence(m.time[t], defs[j].id)] + rest;
        idx := [j] + restIdx;
      } else {
        assert evs == rest;
        idx := restIdx;
      }
    }
  }

  /** Every definition evaluated without error, firing or not. */
  lemma {:induction false} FireFromOk(m: SignalMatrix, defs: seq<EventDef>, win: nat, t: nat, j: nat)
    requires Rectangular(m) && win <= t < |m.time|
    requires FireFrom(m, defs, win, t, j).Ok?
    ensures forall i :: j <= i < |defs| ==> EvaluateDef(m, defs[i], win, t).Ok?
    decreases |defs| - j
  {
    if j < |defs| {
      FireFromOk(m, defs, win, t, j + 1);
    }
  }

  /** Every occurrence of edges k.. was fired by some definition at some scanned edge. */
  lemma {:induction false} ScanFromSound(
    m: SignalMatrix, defs: seq<EventDef>, win: nat, hop: nat, k: nat, evs: seq<Occurrence>, o: Occurrence)
    returns (e: nat, i: nat)
    requires Rectangular(m) && hop > 0
    requires ScanFrom(m, defs, win, hop, k) == Ok(evs)
    requires o in evs
    ensures k <= e < EdgeCount(win, |m.time|, hop) && i < |defs| && Edge(win, hop, e) < |m.time|
    ensures Fires(m, defs[i], win, Edge(win, hop, e))
    ensures o == Occurrence(m.time[Edge(win, hop, e)], defs[i].id)
    decreases EdgeCount(win, |m.time|, hop) - k
  {
    var n := |m.time|;
    if k >= EdgeCount(win, n, hop) {
      assert false;
    }
    EdgesBelowRows(win, n, hop, k);
    var t := Edge(win, hop, k);
    var here := FireFrom(m, defs, win, t, 0).value;
    var rest := ScanFrom(m, defs, win, hop, k + 1).value;
    assert evs == here + rest;
    if o in here {
      FireFromMembers(m, defs, win, t, 0, here, o);
      var j :| 0 <= j < |defs| && Fires(m, defs[j], win, t) && o == Occurrence(m.time[t], defs[j].id);
      e, i := k, j;
    } else {
      e, i := ScanFromSound(m, defs, win, hop, k + 1, rest, o);
    }
  }

  /** A definition that fires at a scanned edge from k on contributes its occurrence. */
  lemma {:induction false} ScanFromComplete(
    m: SignalMatrix, defs: seq<EventDef>, win: nat, hop: nat, k: nat, evs: seq<Occurrence>, e: nat, i: nat)
    requires Rectangular(m) && hop > 0
    requires ScanFrom(m, defs, win, hop, k) == Ok(evs)
    requires k <= e < EdgeCount(win, |m.time|, hop) && i < |defs| && Edge(win, hop, e) < |m.time|
    requires Fires(m, defs[i], win, Edge(win, hop, e))
    ensures Occurrence(m.time[Edge(win, hop, e)], defs[i].id) in evs
    decreases e - k
  {
    var n := |m.time|;
    EdgesBelowRows(win, n, hop, k);
    var t := Edge(win, hop, k);
    var here := FireFrom(m, defs, win, t, 0).value;
    var rest := ScanFrom(m, defs, win, hop, k + 1).value;
    assert evs == here + rest;
    var o := Occurrence(m.time[Edge(win, hop, e)], defs[i].id);
    if e == k {
      FireFromMembers(m, defs, win, t, 0, here, o);
      assert o in here;
    } else {
      ScanFromComplete(m, defs, win, hop, k + 1, rest, e, i);
      assert o in rest;
    }
  }

  /**
   * An occurrence is appended exactly when a definition fires at a scanned right edge, and it
   * carries that edge's time.
   */
  lemma ScanFromMembers(
    m: SignalMatrix, defs: seq<EventDef>, win: nat, hop: nat, k: nat, evs: seq<Occurrence>, o: Occurrence)
    requires Rectangular(m) && hop > 0
    requires ScanFrom(m, defs, win, hop, k) == Ok(evs)
    ensures o in evs <==> exists e, i ::
      && k <= e < EdgeCount(win, |m.time|, hop) && 0 <= i < |defs|
      && Edge(win, hop, e) < |m.time|
      && Fires(m, defs[i], win, Edge(win, hop, e))
      && o == Occurrence(m.time[Edge(win, hop, e)], defs[i].id)
  {
    if o in evs {
      var e, i := ScanFromSound(m, defs, win, hop, k, evs, o);
    }
    if exists e, i ::
      && k <= e < EdgeCount(win, |m.time|, hop) && 0 <= i < |defs|
      && Edge(win, hop, e) < |m.time|
      && Fires(m, defs[i], win, Edge(win, hop, e))
      && o == Occurrence(m.time[Edge(win, hop, e)], defs[i].id)
    {
      var e, i :|
        && k <= e < EdgeCount(win, |m.time|, hop) && 0 <= i < |defs|
        && Edge(win, hop, e) < |m.time|
        && Fires(m, defs[i], win, Edge(win, hop, e))
        && o == Occurrence(m.time[Edge(win, hop, e)], defs[i].id);
      ScanFromComplete(m, defs, win, hop, k, evs, e, i);
    }
  }

  /**
   * `generate_events` appends an occurrence iff some definition's criterion returns true at a
   * right edge `win + k * hop` below the number of rows; the occurrence is that edge's time.
   */
  lemma ScanMembers(m: SignalMatrix, win: nat, hop: nat, defs: seq<EventDef>, evs: seq<Occurrence>, o: Occurrence)
    requires Rectangular(m) && hop > 0
    requires Scan(m, win, hop, defs) == Ok(evs)
    ensures o in evs <==> exists e, i ::
      && 0 <= e < EdgeCount(win, |m.time|, hop) && 0 <= i < |defs|
      && Edge(win, hop, e) < |m.time|
      && Fires(m, defs[i], win, Edge(win, hop, e))
      && o == Occurrence(m.time[Edge(win, hop, e)], defs[i].id)
  {
    ScanFromMembers(m, defs, win, hop, 0, evs, o);
  }

  predicate NondecreasingTimes(time: seq<real>)
  {
    forall i, j :: 0 <= i < j < |time| ==> time[i] <= time[j]
  }

  predicate SortedByTime(evs: seq<Occurrence>)
  {
    forall i, j :: 0 <= i < j < |evs| ==> evs[i].time <= evs[j].time
  }

  /** Occurrences all at time c, followed by sorted ones from c on, are sorted. */
  lemma SortedAfterSameTime(here: seq<Occurrence>, rest: seq<Occurrence>, c: real)
    requires forall o :: o in here ==> o.time == c
    requires SortedByTime(rest) && (rest != [] ==> c <= rest[0].time)
    ensures SortedByTime(here + rest)
  {
    var evs := here + rest;
    forall i, j | 0 <= i < j < |evs| ensures evs[i].time <= evs[j].time {
      if j < |here| {
        assert evs[i] in here && evs[j] in here;
      } else if i < |here| {
        assert evs[i] in here;
        assert rest[0].time <= rest[j - |here|].time;
      } else {
        assert evs[i] == rest[i - |here|] && evs[j] == rest[j - |here|];
      }
    }
  }

  lemma {:induction false} ScanFromSorted(
    m: SignalMatrix, defs: seq<EventDef>, win: nat, hop: nat, k: nat, evs: seq<Occurrence>)
    requires Rectangular(m) && hop > 0 && NondecreasingTimes(m.time)
    requires ScanFrom(m, defs, win, hop, k) == Ok(evs)
    ensures SortedByTime(evs)
    ensures evs != [] ==> Edge(win, hop, k) < |m.time| && m.time[Edge(win, hop, k)] <= evs[0].time
    decreases EdgeCount(win, |m.time|, hop) - k
  {
    var n := |m.time|;
    if k < EdgeCount(win, n, hop) {
      EdgesBelowRows(win, n, hop, k);
      var t := Edge(win, hop, k);
      var here := FireFrom(m, defs, win, t, 0).value;
      var rest := ScanFrom(m, defs, win, hop, k + 1).value;
      assert evs == here + rest;
      forall o | o in here ensures o.time == m.time[t] {
        FireFromMembers(m, defs, win, t, 0, here, o);
      }
      ScanFromSorted(m, defs, win, hop, k + 1, rest);
      if rest != [] {
        assert m.time[t] <= m.time[Edge(win, hop, k + 1)];
      }
      SortedAfterSameTime(here, rest, m.time[t]);
      if evs != [] {
        if here != [] {
          assert evs[0] in here;
        }
      }
    }
  }

  /**
   * Over a nondecreasing time column (as the generators produce) the occurrences come out in
   * nondecreasing time.
   */
  lemma ScanSortedByTime(m: SignalMatrix, win: nat, hop: nat, defs: seq<EventDef>, evs: seq<Occurrence>)
    requires Rectangular(m) && hop > 0 && NondecreasingTimes(m.time)
    requires Scan(m, win, hop, defs) == Ok(evs)
    ensures SortedByTime(evs)
  {
    ScanFromSorted(m, defs, win, hop, 0, evs);
  }

  /** The time column the generators build is nondecreasing. */
  lemma GeneratedTimesNondecreasing(n: nat, f0: real)
    requires f0 > 0.0
    ensures NondecreasingTimes(TimeAxis(n, f0))
  {
    TimeAxisIncreasing(n, f0);
  }
}
