/**
 Frequency windows (`frequencies.txt`): a trip template that departs every
 `headway_secs` seconds from `start_time` while the departure is before `end_time`.
 Both engines of the viewer expand windows the same way and name the k-th run of
 trip T `T_k`; how k is counted is a parameter here, because the viewer restarts
 it for every window.
 */
module Headways {
  import opened JsText
  import opened GtfsTypes
  import opened GtfsTime

  /** A frequency row with its times read. */
  datatype Window = Window(start: int, end: int, headway: int)

  function ReadWindow(f: GtfsFrequency): Window {
    Window(ParseGtfsTime(f.startTime), ParseGtfsTime(f.endTime), f.headwaySecs)
  }

  /** The windows of the rows, in order. */
  function ReadWindows(fs: seq<GtfsFrequency>): (ws: seq<Window>)
    ensures |ws| == |fs| && forall i :: 0 <= i < |fs| ==> ws[i] == ReadWindow(fs[i])
  {
    seq(|fs|, i requires 0 <= i < |fs| => ReadWindow(fs[i]))
  }

  /** A window that yields departures: readable start and end, positive headway. */
  predicate ValidWindow(w: Window) {
    w.start >= 0 && w.end >= 0 && w.headway > 0
  }

  /** The number of departures `dep, dep + h, …` strictly before `end`: the ceiling of (end - dep) / h. */
  function DepartureCount(dep: int, end: int, h: int): nat
    requires h > 0
  {
    if end > dep then (end - dep + h - 1) / h else 0
  }

  /** The k-th departure after `dep`, every `h` seconds. */
  function DepartureAt(dep: int, h: int, k: int): int {
    dep + k * h
  }

  /** `for (let t = dep; t < end; t += h)`: every departure, in order. */
  function Departures(dep: int, end: int, h: int): (r: seq<int>)
    requires h > 0
    ensures forall k :: 0 <= k < |r| ==> r[k] == DepartureAt(dep, h, k) && r[k] < end
    ensures DepartureAt(dep, h, |r|) >= end
    decreases end - dep
  {
    if dep >= end then []
    else
      var rest := Departures(dep + h, end, h);
      ShiftDepartures(dep, end, h, rest);
      [dep] + rest
  }

  /** Putting `dep` in front of the departures from `dep + h` gives the departures from `dep`. */
  lemma ShiftDepartures(dep: int, end: int, h: int, rest: seq<int>)
    requires h > 0 && dep < end
    requires forall k :: 0 <= k < |rest| ==> rest[k] == DepartureAt(dep + h, h, k) && rest[k] < end
    requires DepartureAt(dep + h, h, |rest|) >= end
    ensures var r := [dep] + rest;
      && (forall k :: 0 <= k < |r| ==> r[k] == DepartureAt(dep, h, k) && r[k] < end)
      && DepartureAt(dep, h, |r|) >= end
  {
    var r := [dep] + rest;
    forall k | 0 <= k < |r|
      ensures r[k] == DepartureAt(dep, h, k) && r[k] < end
    {
      if k > 0 {
        assert r[k] == rest[k - 1];
        MulSucc(k - 1, h);
      }
    }
    MulSucc(|rest|, h);
  }

  lemma MulSucc(a: int, h: int)
    ensures (a + 1) * h == a * h + h
  {
  }

  /** The departures are exactly ceil((end - dep) / h) many. */
  lemma {:induction false} DeparturesCount(dep: int, end: int, h: int)
    requires h > 0
    ensures |Departures(dep, end, h)| == DepartureCount(dep, end, h)
    decreases end - dep
  {
    if dep < end {
      DeparturesCount(dep + h, end, h);
      var x := end - dep + h - 1;
      if dep + h < end {
        DivModUnique(x, h, DepartureCount(dep + h, end, h) + 1, (x - h) % h);
      } else {
        DivModUnique(x, h, 1, x - h);
      }
    }
  }

  /** The departures of a valid window. */
  function WindowDepartures(w: Window): seq<int>
    requires ValidWindow(w)
  {
    Departures(w.start, w.end, w.headway)
  }

  /** `${tripId}_${k}`: the trip id, an underscore, then the decimal digits of k. */
  function InstanceId(tripId: string, k: nat): (id: string)
    ensures |id| > |tripId| + 1 && id[..|tripId|] == tripId && id[|tripId|] == '_'
    ensures AllDigits(id[|tripId| + 1..]) && DigitsValue(id[|tripId| + 1..]) == k
  {
    tripId + "_" + NatToString(k)
  }

  /** Two instance ids of one trip are equal exactly when their numbers are. */
  lemma InstanceIdInjective(tripId: string, j: nat, k: nat)
    ensures InstanceId(tripId, j) == InstanceId(tripId, k) <==> j == k
  {
    var a, b := InstanceId(tripId, j), InstanceId(tripId, k);
    if a == b {
      var n := |tripId| + 1;
      assert a[n..] == NatToString(j);
      assert b[n..] == NatToString(k);
    }
  }

  /** One run of a trip: its instance number and its departure time. */
  datatype Run = Run(number: nat, departure: int)

  /** How instance numbers are counted: from 0 in every window, or on across the windows of a trip. */
  datatype Numbering = PerWindow | PerTrip

  /** The departures of a window, none for an invalid one. */
  function WindowDeps(w: Window): seq<int> {
    if ValidWindow(w) then WindowDepartures(w) else []
  }

  /** The departures of each window, in window order. */
  function DepartureLists(ws: seq<Window>): (dss: seq<seq<int>>)
    ensures |dss| == |ws| && forall i :: 0 <= i < |ws| ==> dss[i] == WindowDeps(ws[i])
  {
    seq(|ws|, i requires 0 <= i < |ws| => WindowDeps(ws[i]))
  }

  /** Departures numbered on from `first`. */
  function NumberRuns(deps: seq<int>, first: nat): (r: seq<Run>)
    ensures |r| == |deps|
    ensures forall k :: 0 <= k < |r| ==> r[k] == Run(first + k, deps[k])
  {
    seq(|deps|, k requires 0 <= k < |deps| => Run(first + k, deps[k]))
  }

  /**
   The runs of the windows whose departures are listed, window after window: each
   window's numbers start from 0, or from where the previous window's stopped.
   */
  function NumberWindows(dss: seq<seq<int>>, numbering: Numbering, next: nat): seq<Run>
    decreases |dss|
  {
    if |dss| == 0 then []
    else
      var first := if numbering == PerWindow then 0 else next;
      var here := NumberRuns(dss[0], first);
      here + NumberWindows(dss[1..], numbering, first + |here|)
  }

  /** The runs of all windows of one trip, window after window. */
  function TripRuns(ws: seq<Window>, numbering: Numbering, next: nat): seq<Run> {
    NumberWindows(DepartureLists(ws), numbering, next)
  }

  /** The runs of the first window, followed by those of the others. */
  lemma NumberWindowsSplit(dss: seq<seq<int>>, numbering: Numbering, next: nat) returns (first: nat, here: seq<Run>, rest: seq<Run>)
    requires |dss| > 0
    ensures first == (if numbering == PerWindow then 0 else next)
    ensures here == NumberRuns(dss[0], first)
    ensures rest == NumberWindows(dss[1..], numbering, first + |here|)
    ensures NumberWindows(dss, numbering, next) == here + rest
  {
    first := if numbering == PerWindow then 0 else next;
    here := NumberRuns(dss[0], first);
    rest := NumberWindows(dss[1..], numbering, first + |here|);
  }

  /** The number of departures listed, over all windows. */
  function RunCount(dss: seq<seq<int>>): nat {
    if |dss| == 0 then 0 else |dss[0]| + RunCount(dss[1..])
  }

  /** The number of runs a window yields: none for an invalid one, else the ceiling of its length over the headway. */
  function WindowSize(w: Window): nat {
    if ValidWindow(w) then DepartureCount(w.start, w.end, w.headway) else 0
  }

  function TotalSize(ws: seq<Window>): nat {
    if |ws| == 0 then 0 else WindowSize(ws[0]) + TotalSize(ws[1..])
  }

  /** Numbering keeps every listed departure: one run each. */
  lemma {:induction false} NumberWindowsSize(dss: seq<seq<int>>, numbering: Numbering, next: nat)
    ensures |NumberWindows(dss, numbering, next)| == RunCount(dss)
    decreases |dss|
  {
    if |dss| > 0 {
      var first, here, rest := NumberWindowsSplit(dss, numbering, next);
      NumberWindowsSize(dss[1..], numbering, first + |here|);
    }
  }

  /** Each window lists as many departures as its length over the headway, rounded up. */
  lemma {:induction false} DepartureListsCount(ws: seq<Window>)
    ensures RunCount(DepartureLists(ws)) == TotalSize(ws)
    decreases |ws|
  {
    if |ws| > 0 {
      var dss := DepartureLists(ws);
      assert dss[1..] == DepartureLists(ws[1..]);
      DepartureListsCount(ws[1..]);
      if ValidWindow(ws[0]) {
        DeparturesCount(ws[0].start, ws[0].end, ws[0].headway);
      }
    }
  }

  /** A trip has as many runs as its windows have departures together. */
  lemma TripRunsSize(ws: seq<Window>, numbering: Numbering, next: nat)
    ensures |TripRuns(ws, numbering, next)| == TotalSize(ws)
  {
    NumberWindowsSize(DepartureLists(ws), numbering, next);
    DepartureListsCount(ws);
  }

  /** Numbered per trip, the numbers go on from `next` without a gap, so no two runs share one. */
  lemma {:induction false} NumberedPerTrip(dss: seq<seq<int>>, next: nat)
    ensures forall i :: 0 <= i < |NumberWindows(dss, PerTrip, next)| ==> NumberWindows(dss, PerTrip, next)[i].number == next + i
    decreases |dss|
  {
    if |dss| > 0 {
      var first, here, rest := NumberWindowsSplit(dss, PerTrip, next);
      NumberedPerTrip(dss[1..], next + |here|);
      var r := here + rest;
      forall i | 0 <= i < |r| ensures r[i].number == next + i {
        if i >= |here| {
          assert r[i] == rest[i - |here|];
        }
      }
    }
  }

  lemma TripRunsNumberedPerTrip(ws: seq<Window>, next: nat)
    ensures var r := TripRuns(ws, PerTrip, next);
      forall i :: 0 <= i < |r| ==> r[i].number == next + i
  {
    var dss := DepartureLists(ws);
    NumberedPerTrip(dss, next);
    assert TripRuns(ws, PerTrip, next) == NumberWindows(dss, PerTrip, next);
  }

  /** Every run departs at a departure listed for some window. */
  lemma {:induction false} NumberWindowsListed(dss: seq<seq<int>>, numbering: Numbering, next: nat)
    ensures forall r :: r in NumberWindows(dss, numbering, next) ==> exists j :: 0 <= j < |dss| && r.departure in dss[j]
    decreases |dss|
  {
    if |dss| > 0 {
      var first, here, rest := NumberWindowsSplit(dss, numbering, next);
      NumberWindowsListed(dss[1..], numbering, first + |here|);
      forall r: Run | r in here + rest ensures exists j :: 0 <= j < |dss| && r.departure in dss[j] {
        if r in here {
          var k :| 0 <= k < |here| && here[k] == r;
          assert r.departure == dss[0][k];
        } else {
          var j :| 0 <= j < |dss[1..]| && r.departure in dss[1..][j];
          assert dss[1..][j] == dss[j + 1];
        }
      }
    }
  }

  /** Every run departs from a valid window of the trip, at one of that window's departures. */
  lemma TripRunsFromWindows(ws: seq<Window>, numbering: Numbering, next: nat)
    ensures forall r :: r in TripRuns(ws, numbering, next) ==> FromSomeWindow(ws, r.departure)
  {
    var dss := DepartureLists(ws);
    NumberWindowsListed(dss, numbering, next);
    forall r | r in TripRuns(ws, numbering, next) ensures FromSomeWindow(ws, r.departure) {
      var j :| 0 <= j < |dss| && r.departure in dss[j];
      assert ValidWindow(ws[j]) && r.departure in WindowDepartures(ws[j]);
    }
  }

  /** Every listed departure is run: some run departs at it. */
  lemma {:induction false} NumberWindowsComplete(dss: seq<seq<int>>, numbering: Numbering, next: nat, j: nat, d: int)
    requires j < |dss| && d in dss[j]
    ensures exists r :: r in NumberWindows(dss, numbering, next) && r.departure == d
    decreases |dss|
  {
    var first, here, rest := NumberWindowsSplit(dss, numbering, next);
    if j == 0 {
      var k :| 0 <= k < |dss[0]| && dss[0][k] == d;
      assert here[k] in here + rest;
    } else {
      assert dss[1..][j - 1] == dss[j];
      NumberWindowsComplete(dss[1..], numbering, first + |here|, j - 1, d);
      var r :| r in rest && r.departure == d;
      assert r in here + rest;
    }
  }

  /** Every departure `start + k·headway` before the end of a valid window of a trip is run. */
  lemma TripRunsComplete(ws: seq<Window>, numbering: Numbering, next: nat, j: nat, k: nat)
    requires j < |ws| && ValidWindow(ws[j])
    requires DepartureAt(ws[j].start, ws[j].headway, k) < ws[j].end
    ensures exists r :: r in TripRuns(ws, numbering, next) && r.departure == DepartureAt(ws[j].start, ws[j].headway, k)
  {
    var w := ws[j];
    var deps := WindowDepartures(w);
    DepartureBefore(w.start, w.headway, k, |deps|, w.end);
    assert deps[k] == DepartureAt(w.start, w.headway, k);
    NumberWindowsComplete(DepartureLists(ws), numbering, next, j, deps[k]);
  }

  /** Departures come later and later: one before `end` comes before the first that is not. */
  lemma DepartureBefore(dep: int, h: int, k: nat, n: nat, end: int)
    requires h > 0 && DepartureAt(dep, h, k) < end <= DepartureAt(dep, h, n)
    ensures k < n
  {
    assert (n - k) * h == n * h - k * h > 0;
  }

  ghost predicate FromSomeWindow(ws: seq<Window>, t: int) {
    exists j :: 0 <= j < |ws| && ValidWindow(ws[j]) && t in WindowDepartures(ws[j])
  }
}
