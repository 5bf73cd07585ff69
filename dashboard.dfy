/**
 * `main` of vehicle_dashboard.py: the first load, the route selector built once from it, and
 * the refresh loop that renders the filtered view (or a warning), counts down and replaces the
 * data with the next fetch. Screen updates and log messages are recorded, in order, in `trace`.
 */
module Dashboard {
  import opened Wrappers
  import opened Logs
  import opened Feed
  import opened Routes

  datatype Event =
    | Log(entry: LogEntry)
    | ShowView(rows: seq<VehicleRecord>)   // table, map and speed chart redrawn from these rows
    | ShowNoData                           // the "no data to display" warning
    | ShowCountdown(seconds: nat)          // "refresh in <seconds> seconds"

  /** The speed chart is drawn when some row of the view has a speed that pandas does not
      count as missing: a missing speed and a NaN speed both read as NaN in the column. */
  predicate HasSpeedData(view: seq<VehicleRecord>) {
    if view == [] then false
    else (view[0].speed.Some? && !IsNaN(view[0].speed.value)) || HasSpeedData(view[1..])
  }

  /** `not filtered_data["speed"].isna().all()`: the chart is drawn exactly when some row has a
      speed that is present and not NaN. */
  lemma {:induction false} SpeedDataExists(view: seq<VehicleRecord>)
    ensures HasSpeedData(view) <==>
      exists k :: 0 <= k < |view| && view[k].speed.Some? && !IsNaN(view[k].speed.value)
  {
    if view != [] {
      SpeedDataExists(view[1..]);
      if HasSpeedData(view[1..]) {
        var k :| 0 <= k < |view[1..]| && view[1..][k].speed.Some? && !IsNaN(view[1..][k].speed.value);
        assert view[k + 1] == view[1..][k];
      }
      if exists k :: 0 <= k < |view| && view[k].speed.Some? && !IsNaN(view[k].speed.value) {
        var k :| 0 <= k < |view| && view[k].speed.Some? && !IsNaN(view[k].speed.value);
        if k > 0 {
          assert view[1..][k - 1] == view[k];
        }
      }
    }
  }

  /** What one pass of the loop shows and logs before its countdown. */
  function RenderEvents(data: seq<VehicleRecord>, selected: string): seq<Event> {
    if |data| == 0 then
      [ShowNoData, Log(NoData)]
    else
      var view := FilterRoute(data, selected);
      [Log(if selected != ALL_ROUTES then RouteSelected(selected) else AllRoutesSelected),
       ShowView(view),
       Log(if HasSpeedData(view) then SpeedChartUpdated else NoSpeedData)]
  }

  /** The countdown from `n` seconds: one tick per second, `n` first. */
  function CountdownEvents(n: nat): seq<Event> {
    if n == 0 then [] else [ShowCountdown(n)] + CountdownEvents(n - 1)
  }

  /** A countdown of `n` seconds shows exactly `n` ticks, with values n, n-1, ..., 1. */
  lemma {:induction false} CountdownTicks(n: nat)
    ensures |CountdownEvents(n)| == n
    ensures forall k :: 0 <= k < n ==> CountdownEvents(n)[k] == ShowCountdown(n - k)
  {
    if n > 0 {
      CountdownTicks(n - 1);
    }
  }

  /** `for seconds in range(refresh_rate, 0, -1)`: one countdown display per second. */
  method Countdown(refreshRate: nat) returns (ticks: seq<Event>)
    ensures ticks == CountdownEvents(refreshRate)
  {
    ticks := [];
    var seconds: nat := refreshRate;
    while seconds > 0
      invariant seconds <= refreshRate
      invariant ticks + CountdownEvents(seconds) == CountdownEvents(refreshRate)
    {
      ticks := ticks + [ShowCountdown(seconds)];
      seconds := seconds - 1;
    }
    assert ticks + CountdownEvents(0) == ticks;
  }

  /** The fetch log lines as trace events. */
  function AsEvents(logs: seq<LogEntry>): (evs: seq<Event>)
    ensures |evs| == |logs| && forall k :: 0 <= k < |logs| ==> evs[k] == Log(logs[k])
  {
    if logs == [] then [] else [Log(logs[0])] + AsEvents(logs[1..])
  }

  /** The data after a run of fetches: each success replaces it, the first failure ends the run. */
  ghost function DataAfter(data: seq<VehicleRecord>, fetches: seq<FeedResult>): seq<VehicleRecord>
    decreases |fetches|
  {
    if fetches == [] then data
    else if fetches[0].Failure? then data
    else DataAfter(Decode(fetches[0].value), fetches[1..])
  }

  /** What one pass of the loop shows and logs: the view, the countdown, the fetch's log lines. */
  function PassEvents(data: seq<VehicleRecord>, selected: string, refreshRate: nat, next: FeedResult): seq<Event> {
    RenderEvents(data, selected) + CountdownEvents(refreshRate) + [Log(LoadStarted)]
    + (if next.Success? then [Log(Loaded(|Decode(next.value)|)), Log(DataUpdated)] else [])
  }

  /** What a run of loop passes shows and logs, pass by pass, ending with the first failed fetch. */
  ghost function TraceOf(data: seq<VehicleRecord>, selected: string, refreshRate: nat, fetches: seq<FeedResult>): seq<Event>
    decreases |fetches|
  {
    if fetches == [] then []
    else
      PassEvents(data, selected, refreshRate, fetches[0])
      + (if fetches[0].Failure? then [] else TraceOf(Decode(fetches[0].value), selected, refreshRate, fetches[1..]))
  }

  /** The first fetch of a run decides the first pass: the data it leaves and how many passes follow. */
  lemma RunStep(data: seq<VehicleRecord>, fetches: seq<FeedResult>)
    requires fetches != []
    ensures fetches[0].Success? ==> DataAfter(data, fetches) == DataAfter(Decode(fetches[0].value), fetches[1..])
    ensures fetches[0].Success? ==> PassesOf(fetches) == 1 + PassesOf(fetches[1..])
    ensures fetches[0].Failure? ==> DataAfter(data, fetches) == data && PassesOf(fetches) == 1
  {
  }

  /** The events of one pass, as the loop body emits them, are `PassEvents`. */
  lemma PassEventsOf(shown: seq<Event>, ticks: seq<Event>, logs: seq<LogEntry>,
                     data: seq<VehicleRecord>, selected: string, refreshRate: nat, next: FeedResult)
    requires shown == RenderEvents(data, selected) && ticks == CountdownEvents(refreshRate)
    requires next.Success? ==> logs == [LoadStarted, Loaded(VehicleCount(next.value))]
    requires next.Failure? ==> logs == [LoadStarted]
    ensures shown + ticks + AsEvents(logs) + (if next.Success? then [Log(DataUpdated)] else [])
      == PassEvents(data, selected, refreshRate, next)
  {
    if next.Success? {
      DecodeLength(next.value);
    }
  }

  /** Regrouping a concatenation, stated over plain sequences so that `TraceStep` can use it
      without the solver unfolding the functions that build them. */
  lemma AppendAssoc(a: seq<Event>, b: seq<Event>, c: seq<Event>)
    ensures a + (b + c) == (a + b) + c
  {
  }

  /** A pass whose events are appended to `before` is the first step of `TraceOf`. */
  lemma TraceStep(before: seq<Event>, after: seq<Event>, data: seq<VehicleRecord>, data': seq<VehicleRecord>,
                  selected: string, refreshRate: nat, fetches: seq<FeedResult>)
    requires fetches != []
    requires data' == if fetches[0].Success? then Decode(fetches[0].value) else data
    requires after == before + PassEvents(data, selected, refreshRate, fetches[0])
    ensures fetches[0].Success? ==>
      before + TraceOf(data, selected, refreshRate, fetches) == after + TraceOf(data', selected, refreshRate, fetches[1..])
    ensures fetches[0].Failure? ==> after == before + TraceOf(data, selected, refreshRate, fetches)
  {
    var pass := PassEvents(data, selected, refreshRate, fetches[0]);
    var tail := if fetches[0].Failure? then [] else TraceOf(data', selected, refreshRate, fetches[1..]);
    assert TraceOf(data, selected, refreshRate, fetches) == pass + tail;
    AppendAssoc(before, pass, tail);
    if fetches[0].Failure? {
      assert pass + tail == pass;
    }
  }

  /**
   * Where a run of `fetches` from `data0` and `trace0` stands after `passes` passes that left
   * `data` and `trace`: while running, every pass so far succeeded and the rest of the run
   * accounts for what remains; once stopped, the last pass failed and the run is complete.
   */
  ghost predicate RunSoFar(data0: seq<VehicleRecord>, trace0: seq<Event>, selected: string, refreshRate: nat,
                           fetches: seq<FeedResult>, passes: nat, running: bool,
                           data: seq<VehicleRecord>, trace: seq<Event>)
  {
    && passes <= |fetches|
    && (running ==>
        && (forall k :: 0 <= k < passes ==> fetches[k].Success?)
        && passes + PassesOf(fetches[passes..]) == PassesOf(fetches)
        && DataAfter(data, fetches[passes..]) == DataAfter(data0, fetches)
        && trace0 + TraceOf(data0, selected, refreshRate, fetches)
           == trace + TraceOf(data, selected, refreshRate, fetches[passes..]))
    && (!running ==>
        && 0 < passes && fetches[passes - 1].Failure? && passes == PassesOf(fetches)
        && data == DataAfter(data0, fetches)
        && trace == trace0 + TraceOf(data0, selected, refreshRate, fetches))
  }

  /** A run that has made no pass yet is where it started. */
  lemma RunStarts(data0: seq<VehicleRecord>, trace0: seq<Event>, selected: string, refreshRate: nat,
                  fetches: seq<FeedResult>)
    ensures RunSoFar(data0, trace0, selected, refreshRate, fetches, 0, true, data0, trace0)
  {
    assert fetches[0..] == fetches;
  }

  /** One more pass, with the effect `Monitor.Refresh` promises, keeps `RunSoFar`. */
  lemma RunAdvances(data0: seq<VehicleRecord>, trace0: seq<Event>, selected: string, refreshRate: nat,
                    fetches: seq<FeedResult>, passes: nat,
                    data: seq<VehicleRecord>, trace: seq<Event>,
                    running': bool, data': seq<VehicleRecord>, trace': seq<Event>)
    requires RunSoFar(data0, trace0, selected, refreshRate, fetches, passes, true, data, trace)
    requires passes < |fetches|
    requires running' <==> fetches[passes].Success?
    requires data' == if fetches[passes].Success? then Decode(fetches[passes].value) else data
    requires trace' == trace + PassEvents(data, selected, refreshRate, fetches[passes])
    ensures RunSoFar(data0, trace0, selected, refreshRate, fetches, passes + 1, running', data', trace')
  {
    var rest := fetches[passes..];
    assert rest[0] == fetches[passes] && rest[1..] == fetches[passes + 1..];
    RunStep(data, rest);
    TraceStep(trace, trace', data, data', selected, refreshRate, rest);
  }

  /** A run that has stopped, or used up its fetches, made `PassesOf` passes and left the whole `TraceOf`. */
  lemma RunDone(data0: seq<VehicleRecord>, trace0: seq<Event>, selected: string, refreshRate: nat,
                fetches: seq<FeedResult>, passes: nat, running: bool,
                data: seq<VehicleRecord>, trace: seq<Event>)
    requires RunSoFar(data0, trace0, selected, refreshRate, fetches, passes, running, data, trace)
    requires running ==> passes == |fetches|
    ensures passes == PassesOf(fetches)
    ensures running <==> forall k :: 0 <= k < |fetches| ==> fetches[k].Success?
    ensures data == DataAfter(data0, fetches)
    ensures trace == trace0 + TraceOf(data0, selected, refreshRate, fetches)
  {
    if running {
      assert fetches[passes..] == [];
      assert trace + [] == trace;
    }
  }

  /** The number of loop passes a run of fetches allows: up to and including the first failure. */
  ghost function PassesOf(fetches: seq<FeedResult>): nat {
    if fetches == [] then 0
    else if fetches[0].Failure? then 1
    else 1 + PassesOf(fetches[1..])
  }

  /** After a run of fetches the data is that of one single fetch (or the data before the run):
      snapshots replace each other, they are never merged. */
  lemma {:induction false} DataAfterIsOneFetch(data: seq<VehicleRecord>, fetches: seq<FeedResult>)
    decreases |fetches|
    ensures DataAfter(data, fetches) == data ||
      exists k :: 0 <= k < |fetches| && fetches[k].Success? && DataAfter(data, fetches) == Decode(fetches[k].value)
  {
    if fetches != [] && fetches[0].Success? {
      var next := Decode(fetches[0].value);
      DataAfterIsOneFetch(next, fetches[1..]);
      if DataAfter(next, fetches[1..]) != next {
        var k :| 0 <= k < |fetches[1..]| && fetches[1..][k].Success? && DataAfter(next, fetches[1..]) == Decode(fetches[1..][k].value);
        assert fetches[k + 1] == fetches[1..][k];
      }
    }
  }

  /** When every fetch succeeds, the data is that of the last one. */
  lemma {:induction false} DataAfterLastFetch(data: seq<VehicleRecord>, fetches: seq<FeedResult>)
    requires |fetches| > 0 && forall k :: 0 <= k < |fetches| ==> fetches[k].Success?
    ensures DataAfter(data, fetches) == Decode(fetches[|fetches| - 1].value)
    decreases |fetches|
  {
    assert fetches[0].Success?;
    if |fetches| > 1 {
      assert forall k :: 0 <= k < |fetches[1..]| ==> fetches[1..][k] == fetches[k + 1];
      DataAfterLastFetch(Decode(fetches[0].value), fetches[1..]);
    }
  }

  lemma {:induction false} PassesOfAllSucceed(fetches: seq<FeedResult>)
    ensures PassesOf(fetches) <= |fetches|
    ensures (forall k :: 0 <= k < |fetches| ==> fetches[k].Success?) ==> PassesOf(fetches) == |fetches|
    ensures (exists k :: 0 <= k < |fetches| && fetches[k].Failure?) ==> fetches[PassesOf(fetches) - 1].Failure?
  {
    if fetches != [] {
      PassesOfAllSucceed(fetches[1..]);
      if fetches[0].Success? {
        assert forall k :: 0 <= k < |fetches[1..]| ==> fetches[1..][k] == fetches[k + 1];
        if exists k :: 0 <= k < |fetches| && fetches[k].Failure? {
          var k :| 0 <= k < |fetches| && fetches[k].Failure?;
          assert fetches[1..][k - 1].Failure?;
        }
      }
    }
  }

  /** With the first failed fetch at index `f`, the loop makes `f + 1` passes and is left with
      the data of the fetch just before it (or the data it started with). */
  lemma {:induction false} FirstFailure(data: seq<VehicleRecord>, fetches: seq<FeedResult>, f: nat)
    requires f < |fetches| && fetches[f].Failure?
    requires forall k :: 0 <= k < f ==> fetches[k].Success?
    ensures PassesOf(fetches) == f + 1
    ensures DataAfter(data, fetches) == if f == 0 then data else Decode(fetches[f - 1].value)
    decreases f
  {
    if f > 0 {
      assert forall k :: 0 <= k < f - 1 ==> fetches[1..][k] == fetches[k + 1];
      FirstFailure(Decode(fetches[0].value), fetches[1..], f - 1);
    }
  }

  /** The dashboard's session: the data on screen, the selector and what has been shown and logged. */
  class Monitor {
    const refreshRate: nat
    var data: seq<VehicleRecord>
    var options: Option<seq<string>>     // the selector's options, built once if the first load had rows
    var selectedRoute: string
    var running: bool                    // false once a fetch has raised
    var trace: seq<Event>

    ghost predicate Valid()
      reads this
    {
      && 5 <= refreshRate <= 60
      && (options.Some? ==> |options.value| > 0 && options.value[0] == ALL_ROUTES && selectedRoute in options.value)
    }

    /**
     * The start of `main`: log the start, take the remembered selection (the sentinel if none),
     * load the feed once, and when it has rows build the selector's options and open it at the
     * remembered selection's index. A failed first load raises before the loop starts.
     */
    constructor (refreshRate: nat, stored: Option<string>, first: FeedResult)
      requires 5 <= refreshRate <= 60
      ensures Valid()
      ensures this.refreshRate == refreshRate
      ensures running <==> first.Success?
      ensures data == if first.Success? then Decode(first.value) else []
      ensures |data| > 0 ==> options == Some(RouteOptions(data))
      ensures |data| > 0 ==> selectedRoute == options.value[SelectionIndex(options.value, stored.GetOr(ALL_ROUTES))]
      ensures |data| == 0 ==> options.None? && selectedRoute == stored.GetOr(ALL_ROUTES)
      ensures trace == [Log(AppStarted), Log(LoadStarted)] + (if first.Success? then [Log(Loaded(|data|))] else [])
    {
      var selected := stored.GetOr(ALL_ROUTES);
      var res, logs := GetVehiclePositions(first);
      var loaded := if res.Success? then res.value else [];
      var opts: Option<seq<string>> := None;
      if |loaded| > 0 {
        var unique := RouteOptions(loaded);
        selected := unique[SelectionIndex(unique, selected)];
        opts := Some(unique);
      }
      if first.Success? {
        DecodeLength(first.value);
      }
      this.refreshRate := refreshRate;
      data := loaded;
      options := opts;
      selectedRoute := selected;
      running := res.Success?;
      trace := [Log(AppStarted)] + AsEvents(logs);
    }

    /**
     * One pass of `while True`: render the filtered view of the current data (or warn that
     * there is none), count down `refreshRate` seconds, then replace the data wholesale with the
     * next fetch. A failed fetch raises: the data is not replaced and the loop is over. The
     * selection and its options are never recomputed.
     */
    method Refresh(next: FeedResult)
      requires Valid() && running
      modifies this
      ensures Valid()
      ensures options == old(options) && selectedRoute == old(selectedRoute)
      ensures running <==> next.Success?
      ensures data == if next.Success? then Decode(next.value) else old(data)
      ensures trace == old(trace) + PassEvents(old(data), selectedRoute, refreshRate, next)
    {
      var pass := RenderEvents(data, selectedRoute);
      var ticks := Countdown(refreshRate);
      pass := pass + ticks;
      var res, logs := GetVehiclePositions(next);
      pass := pass + AsEvents(logs);
      if res.Success? {
        data := res.value;
        pass := pass + [Log(DataUpdated)];
      } else {
        running := false;
      }
      PassEventsOf(RenderEvents(old(data), selectedRoute), ticks, logs, old(data), selectedRoute, refreshRate, next);
      trace := trace + pass;
    }

    /**
     * A bounded stretch of the loop, one pass per fetch, ending early at the first failed fetch.
     * Returns the number of passes made.
     */
    method RunPasses(fetches: seq<FeedResult>) returns (passes: nat)
      requires Valid() && running
      modifies this
      ensures Valid()
      ensures options == old(options) && selectedRoute == old(selectedRoute)
      ensures passes == PassesOf(fetches)
      ensures running <==> forall k :: 0 <= k < |fetches| ==> fetches[k].Success?
      ensures data == DataAfter(old(data), fetches)
      ensures trace == old(trace) + TraceOf(old(data), selectedRoute, refreshRate, fetches)
    {
      ghost var selected, rate := selectedRoute, refreshRate;
      ghost var data0, trace0 := data, trace;
      passes := 0;
      RunStarts(data0, trace0, selected, rate, fetches);
      while passes < |fetches| && running
        invariant Valid()
        invariant options == old(options) && selectedRoute == selected && refreshRate == rate
        invariant RunSoFar(data0, trace0, selected, rate, fetches, passes, running, data, trace)
        decreases |fetches| - passes
      {
        ghost var before, traceBefore := data, trace;
        Refresh(fetches[passes]);
        RunAdvances(data0, trace0, selected, rate, fetches, passes, before, traceBefore, running, data, trace);
        passes := passes + 1;
      }
      RunDone(data0, trace0, selected, rate, fetches, passes, running, data, trace);
    }
  }
}
