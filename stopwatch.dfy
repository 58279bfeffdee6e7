/** A stopwatch: started and stopped by hand, recording laps. The clock is read by
    the caller and passed in as `now`, in milliseconds. */
module Stopwatches {
  import opened Outcomes

  /** The observable state of a stopwatch. `lastLapTime` is the clock reading at the
      end of the last lap, 0 while no lap has been recorded. */
  datatype Watch = Watch(startTime: int, lastLapTime: int, lapTimes: seq<int>, isRunning: bool)

  /** A freshly created or reset stopwatch. */
  const Cleared := Watch(0, 0, [], false)

  /** The length of a lap ending at `now`: measured from the end of the previous lap,
      or from the start when no lap has been recorded (`lastLapTime` is 0). */
  function LapLength(w: Watch, now: int): int {
    if w.lastLapTime == 0 then now - w.startTime else now - w.lastLapTime
  }

  /** Starting: refused while running; otherwise the start time becomes `now` and the
      laps and the end of the last lap are kept. */
  function Started(w: Watch, now: int): (r: Result<Watch>)
    ensures r.Err? <==> w.isRunning
    ensures r.Err? ==> r.error == IllegalState
    ensures r.Ok? ==> r.value.isRunning && r.value.startTime == now
    ensures r.Ok? ==> r.value.lapTimes == w.lapTimes && r.value.lastLapTime == w.lastLapTime
  {
    if w.isRunning then Err(IllegalState) else Ok(w.(startTime := now, isRunning := true))
  }

  /** Recording a lap: refused unless running; otherwise exactly one lap is appended
      and the lap ends at `now`. */
  function Lapped(w: Watch, now: int): (r: Result<Watch>)
    ensures r.Err? <==> !w.isRunning
    ensures r.Err? ==> r.error == IllegalState
    ensures r.Ok? ==> r.value.isRunning && r.value.startTime == w.startTime && r.value.lastLapTime == now
    ensures r.Ok? ==> |r.value.lapTimes| == |w.lapTimes| + 1 && r.value.lapTimes[..|w.lapTimes|] == w.lapTimes
    ensures r.Ok? ==> r.value.lapTimes[|w.lapTimes|] == LapLength(w, now)
  {
    if !w.isRunning then Err(IllegalState)
    else Ok(w.(lapTimes := w.lapTimes + [LapLength(w, now)], lastLapTime := now))
  }

  /** Stopping: a final lap, then not running; refused unless running. */
  function Stopped(w: Watch, now: int): (r: Result<Watch>)
    ensures r.Err? <==> !w.isRunning
    ensures r.Err? ==> r.error == IllegalState
    ensures r.Ok? ==> !r.value.isRunning && r.value.startTime == w.startTime && r.value.lastLapTime == now
    ensures r.Ok? ==> r.value.lapTimes == w.lapTimes + [LapLength(w, now)]
  {
    match Lapped(w, now)
    case Err(e) => Err(e)
    case Ok(v) => Ok(v.(isRunning := false))
  }

  /** How a transition ends for the caller: it returns, or it throws. */
  function OutcomeOf(r: Result<Watch>): (o: Outcome)
    ensures o.Pass? <==> r.Ok?
    ensures r.Err? ==> o.error == r.error
  {
    match r
    case Ok(_) => Pass
    case Err(e) => Fail(e)
  }

  /** The state after a transition: the new one, or the old one when it threw. */
  function After(r: Result<Watch>, w: Watch): (v: Watch)
    ensures r.Ok? ==> v == r.value
    ensures r.Err? ==> v == w
  {
    match r
    case Ok(next) => next
    case Err(_) => w
  }

  /** A new or reset stopwatch cannot lap or stop; it can only be started. */
  lemma ClearedOnlyStarts()
    ensures Lapped(Cleared, 0).Err? && Stopped(Cleared, 0).Err?
    ensures Started(Cleared, 0).Ok?
  {
  }

  /** Records laps at each of the clock readings, in order, on a running stopwatch. */
  function LapAll(w: Watch, times: seq<int>): (v: Watch)
    requires w.isRunning
    ensures v.isRunning && v.startTime == w.startTime
    ensures |v.lapTimes| == |w.lapTimes| + |times|
    ensures times != [] ==> v.lastLapTime == times[|times| - 1]
  {
    if times == [] then w else Lapped(LapAll(w, times[..|times| - 1]), times[|times| - 1]).value
  }

  function Sum(s: seq<int>): int {
    if s == [] then 0 else Sum(s[..|s| - 1]) + s[|s| - 1]
  }

  /** Within one run started from a cleared stopwatch, the laps add up to the time
      from the start to the end of the last lap, provided no lap ends at clock
      reading 0 (that reading is taken to mean "no lap yet"). */
  lemma {:induction false} LapsAddUp(t0: int, times: seq<int>)
    requires forall i :: 0 <= i < |times| ==> times[i] != 0
    ensures var v := LapAll(Started(Cleared, t0).value, times);
      Sum(v.lapTimes) == (if times == [] then 0 else times[|times| - 1] - t0)
  {
    var w := Started(Cleared, t0).value;
    if times != [] {
      var init := times[..|times| - 1];
      LapsAddUp(t0, init);
      var u := LapAll(w, init);
      var v := LapAll(w, times);
      assert v == Lapped(u, times[|times| - 1]).value;
      assert v.lapTimes[..|v.lapTimes| - 1] == u.lapTimes;
      if init == [] {
        assert u == w;
      } else {
        assert u.lastLapTime == init[|init| - 1] != 0;
      }
    }
  }

  /** Starting again after a stop keeps the end of the previous run's last lap, so the
      first lap of the new run is measured from there and includes the pause. */
  lemma RestartMeasuresFromLastLap(w: Watch, stopAt: int, startAt: int, lapAt: int)
    requires w.isRunning && stopAt != 0
    ensures var s := Stopped(w, stopAt).value;
      var r := Started(s, startAt).value;
      var l := Lapped(r, lapAt).value;
      l.lapTimes[|l.lapTimes| - 1] == lapAt - stopAt
  {
  }

  class Stopwatch {
    const id: string
    var startTime: int
    var lapTimes: seq<int>
    var isRunning: bool
    var lastLapTime: int

    /** The fields as one value. */
    function State(): Watch
      reads this
    {
      Watch(startTime, lastLapTime, lapTimes, isRunning)
    }

    /** A new stopwatch with the given id: not running, no laps, both times 0. */
    constructor (id: string)
      ensures this.id == id && State() == Cleared
    {
      this.id := id;
      startTime := 0;
      lapTimes := [];
      isRunning := false;
      lastLapTime := 0;
    }

    method GetId() returns (r: string)
      ensures r == id
    {
      r := id;
    }

    /** Throws IllegalStateException when already running, changing nothing. */
    method Start(now: int) returns (outcome: Outcome)
      modifies this
      ensures outcome == OutcomeOf(Started(old(State()), now))
      ensures State() == After(Started(old(State()), now), old(State()))
    {
      if isRunning {
        return Fail(IllegalState);
      }
      startTime := now;
      isRunning := true;
      return Pass;
    }

    /** Throws IllegalStateException when not running, recording nothing. */
    method Lap(now: int) returns (outcome: Outcome)
      modifies this
      ensures outcome == OutcomeOf(Lapped(old(State()), now))
      ensures State() == After(Lapped(old(State()), now), old(State()))
    {
      if !isRunning {
        return Fail(IllegalState);
      }
      if lastLapTime == 0 {
        lapTimes := lapTimes + [now - startTime];
      } else {
        lapTimes := lapTimes + [now - lastLapTime];
      }
      lastLapTime := now;
      return Pass;
    }

    /** Records a final lap and stops; throws, changing nothing, when not running. */
    method Stop(now: int) returns (outcome: Outcome)
      modifies this
      ensures outcome == OutcomeOf(Stopped(old(State()), now))
      ensures State() == After(Stopped(old(State()), now), old(State()))
    {
      outcome := Lap(now);
      if outcome.Fail? {
        return;
      }
      isRunning := false;
    }

    /** From any state: not running, no laps, both times 0. */
    method Reset()
      modifies this
      ensures State() == Cleared
    {
      isRunning := false;
      startTime := 0;
      lastLapTime := 0;
      lapTimes := [];
    }

    /** A copy of the recorded laps, in order; never throws. */
    method GetLapTimes() returns (laps: seq<int>)
      ensures laps == lapTimes
    {
      laps := lapTimes;
    }

    /** Stopwatches are equal exactly when their ids are; an argument that is null
        or not a stopwatch is passed as `null`. */
    function Equals(obj: Stopwatch?): (r: bool)
      ensures r <==> obj != null && obj.id == id
    {
      obj == this || (obj != null && id == obj.id)
    }
  }
}
