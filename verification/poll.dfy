/** The decision at the heart of the polling loop (`run` in
    peimar_bridge/peimar.py): publish only a reading newer than the last one
    published, then wait until shortly after the portal's next update. */
module Poll {
  import opened Base
  import opened Telemetry
  import opened Fetch

  /** The portal refreshes its reading about every 315 seconds. */
  const UpdatePeriod := 315
  /** The shortest wait after publishing, in seconds. */
  const MinSleep := 10
  /** The wait before asking again when the reading is stale, in seconds. */
  const RetrySleep := 30

  /** Python's `int(x)` on a float: truncation toward zero. */
  function Trunc(x: real): (r: int)
    ensures x >= 0.0 ==> r as real <= x < r as real + 1.0
    ensures x < 0.0 ==> r as real - 1.0 < x <= r as real
  {
    if x >= 0.0 then x.Floor else -((-x).Floor)
  }

  function Max(a: int, b: int): int {
    if a < b then b else a
  }

  /** The wait after publishing a reading stamped `stampMs` (milliseconds)
      at wall-clock time `now` (seconds): until 315 s after the stamp, and
      never less than ten seconds. */
  function SleepAfterPublish(stampMs: real, now: real): (r: int)
    ensures r >= MinSleep
    ensures r == MinSleep || (r as real <= stampMs / 1000.0 + UpdatePeriod as real - now < r as real + 1.0)
  {
    var s := Trunc(stampMs / 1000.0 + UpdatePeriod as real - now);
    if s < MinSleep then MinSleep else s
  }

  /** Thanks to the clamp, truncation and flooring agree: the wait is the
      floor of the time left to the next update, at least ten seconds. */
  lemma SleepFloorForm(stampMs: real, now: real)
    ensures SleepAfterPublish(stampMs, now) == Max(MinSleep, (stampMs / 1000.0 + UpdatePeriod as real - now).Floor)
  {
  }

  /** The outcome of one pass: whether the reading is published, the
      stamp remembered afterwards and the seconds slept. */
  datatype Decision = Decision(publish: bool, last: real, sleep: int)

  /** The comparison `current_ts > last_processed_ts` and what follows it. */
  function Decide(stamp: real, last: real, now: real): (d: Decision)
    ensures d.publish <==> stamp > last
    ensures d.last >= last && d.last >= stamp
    ensures d.last == stamp || d.last == last
    ensures d.publish ==> d.sleep == SleepAfterPublish(stamp, now)
    ensures !d.publish ==> d.sleep == RetrySleep
  {
    if stamp > last then Decision(true, stamp, SleepAfterPublish(stamp, now))
    else Decision(false, last, RetrySleep)
  }

  /** One pass over the `live` value just fetched. A `live` that is not a
      dict raises AttributeError at `self.live.get`. Otherwise `updateDate`
      (0 when the key is absent) is first turned into the status label,
      then compared with the last stamp published. A stamp that is not a
      number raises TypeError, one the clock rejects raises as the label is
      built. */
  function PollStep(live: JsonValue, last: real, now: real, clock: real -> Option<string>): (r: Result<Decision>)
    ensures !live.JObj? ==> r == Err(AttributeError)
    ensures live.JObj? ==>
      var d := AsDict(live).value;
      var stamp := if "updateDate" in d then d["updateDate"] else JNum(0.0);
      && (r.Err? <==> LastUpdateLabel(stamp, clock).Err? || AsNumber(stamp).None?)
      && (r.Err? ==> r.error != AttributeError)
      && (r.Ok? ==> r.value == Decide(AsNumber(stamp).value, last, now))
  {
    match AsDict(live)
    case None => Err(AttributeError)
    case Some(d) =>
      var stamp := if "updateDate" in d then d["updateDate"] else JNum(0.0);
      match LastUpdateLabel(stamp, clock)
      case Err(e) => Err(e)
      case Ok(_) =>
        match AsNumber(stamp)
        case None => Err(TypeError)
        case Some(ts) => Ok(Decide(ts, last, now))
  }

  /** A power-flow response whose "storeDevicePower" is null leaves `live`
      null, and the next pass raises AttributeError at line 373, which
      nothing in `run` catches. */
  lemma NullLiveStopsRun(held: Held, plant: Body, live: Body, raw: Body, last: real, now: real,
                         clock: real -> Option<string>)
    requires ObjectBody(plant) && ObjectBody(live)
    requires "storeDevicePower" in AsDict(live.value).value
    requires AsDict(live.value).value["storeDevicePower"] == JNull
    ensures PollStep(FetchData(held, plant, live, raw).live, last, now, clock) == Err(AttributeError)
  {
  }

  /** A run of passes over (stamp, wall-clock time) observations, starting
      from the remembered stamp `last`. */
  function Run(trace: seq<(real, real)>, last: real): (ds: seq<Decision>)
    ensures |ds| == |trace|
    ensures forall i :: 0 <= i < |ds| ==>
      ds[i] == Decide(trace[i].0, if i == 0 then last else ds[i - 1].last, trace[i].1)
    decreases |trace|
  {
    if |trace| == 0 then []
    else
      var d := Decide(trace[0].0, last, trace[0].1);
      [d] + Run(trace[1..], d.last)
  }

  /** The largest of `last` and the stamps of `trace`. */
  function Newest(last: real, trace: seq<(real, real)>): real
    decreases |trace|
  {
    if |trace| == 0 then last
    else Newest(if trace[0].0 > last then trace[0].0 else last, trace[1..])
  }

  lemma {:induction false} NewestAtLeast(last: real, trace: seq<(real, real)>)
    ensures Newest(last, trace) >= last
    ensures forall i :: 0 <= i < |trace| ==> Newest(last, trace) >= trace[i].0
    decreases |trace|
  {
    if |trace| > 0 {
      var next := if trace[0].0 > last then trace[0].0 else last;
      NewestAtLeast(next, trace[1..]);
      forall i | 1 <= i < |trace|
        ensures Newest(last, trace) >= trace[i].0
      {
        assert trace[i] == trace[1..][i - 1];
      }
    }
  }

  /** The remembered stamp is always the newest stamp seen so far, and a
      pass publishes exactly when its stamp beats every earlier one (and
      the initial value). */
  lemma {:induction false} RunTracksNewest(trace: seq<(real, real)>, last: real, i: int)
    requires 0 <= i < |trace|
    ensures Run(trace, last)[i].last == Newest(last, trace[..i + 1])
    ensures Run(trace, last)[i].publish <==> trace[i].0 > Newest(last, trace[..i])
    decreases i
  {
    var next := Decide(trace[0].0, last, trace[0].1).last;
    assert trace[..i + 1][0] == trace[0];
    assert trace[..i + 1][1..] == trace[1..][..i];
    if i > 0 {
      RunTracksNewest(trace[1..], next, i - 1);
      assert Run(trace, last)[i] == Run(trace[1..], next)[i - 1];
      assert trace[..i][0] == trace[0];
      assert trace[..i][1..] == trace[1..][..i - 1];
      assert trace[1..][i - 1] == trace[i];
    } else {
      assert trace[..0] == [];
      assert trace[..1][1..] == [];
    }
  }

  /** The remembered stamp never decreases along a run. */
  lemma {:induction false} RunMonotone(trace: seq<(real, real)>, last: real, i: int, j: int)
    requires 0 <= i <= j < |trace|
    ensures last <= Run(trace, last)[i].last <= Run(trace, last)[j].last
  {
    RunTracksNewest(trace, last, i);
    RunTracksNewest(trace, last, j);
    NewestPrefix(last, trace[..j + 1], i + 1);
    assert trace[..j + 1][..i + 1] == trace[..i + 1];
    NewestAtLeast(last, trace[..i + 1]);
  }

  /** Extending the trace never lowers the newest stamp. */
  lemma {:induction false} NewestPrefix(last: real, trace: seq<(real, real)>, k: int)
    requires 0 <= k <= |trace|
    ensures Newest(last, trace[..k]) <= Newest(last, trace)
    decreases |trace|
  {
    if k > 0 {
      var next := if trace[0].0 > last then trace[0].0 else last;
      assert trace[..k][0] == trace[0];
      assert trace[..k][1..] == trace[1..][..k - 1];
      NewestPrefix(next, trace[1..], k - 1);
    } else {
      NewestAtLeast(last, trace);
    }
  }

  /** A reading no newer than one seen earlier in the run is never
      published again: that pass finds it stale and retries in thirty
      seconds. In particular a stamp seen twice in a row is published at
      most once. */
  lemma {:induction false} StaleStampNotRepublished(trace: seq<(real, real)>, last: real, i: int, j: int)
    requires 0 <= i < j < |trace| && trace[j].0 <= trace[i].0
    ensures !Run(trace, last)[j].publish
    ensures Run(trace, last)[j].sleep == RetrySleep
  {
    RunTracksNewest(trace, last, j);
    NewestAtLeast(last, trace[..j]);
    assert trace[..j][i] == trace[i];
    var d := Run(trace, last)[j];
    assert d == Decide(trace[j].0, Run(trace, last)[j - 1].last, trace[j].1);
  }

  /** The worked example: a reading stamped T published five seconds after
      T waits 310 seconds; one published after T + 305 s waits the minimum
      ten seconds. */
  lemma SleepExamples(t: real)
    ensures SleepAfterPublish(t, t / 1000.0 + 5.0) == 310
    ensures SleepAfterPublish(t, t / 1000.0 + 400.0) == MinSleep
  {
  }
}
