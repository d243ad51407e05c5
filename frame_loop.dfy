// The frame loop of the program: `while (!quit)` drains the pending events,
// reads the clock, lets the scheduler run its ticks, and checks the
// throughput window.  Drawing and presenting the frame are foreign calls and
// are not part of the model.  What the window system reports in each frame
// (its events and the clock reading) is the input sequence; the model runs
// until the quit flag is set or the input is used up.
module FrameLoop {
  import opened Uint32
  import opened Events
  import opened Timestep

  const INITIAL_WIN_W: int := 640
  const INITIAL_WIN_H: int := 480

  /** What one frame observes: the events pending at its start, then the clock. */
  datatype FrameInput = FrameInput(events: seq<Event>, now: u32)

  /** Where a run of the loop ends: state, flags, number of frames run and ticks run. */
  datatype Outcome = Outcome(state: State, quit: bool, viewport: Size, frames: nat, ticks: nat)

  /** The loop from scheduler state `s`, quit flag `quit` and viewport `vp` over `inputs`. */
  function Run(s: State, quit: bool, vp: Size, inputs: seq<FrameInput>): (r: Outcome)
    ensures r.frames <= |inputs|
    ensures quit ==> r.frames == 0
    ensures quit ==> r.quit
    decreases |inputs|
  {
    if quit || inputs == [] then
      Outcome(s, quit, vp, 0, 0)
    else
      var f := inputs[0];
      var r := Run(Frame(s, f.now), QuitAfter(quit, f.events), ViewportAfter(vp, f.events), inputs[1..]);
      r.(frames := r.frames + 1, ticks := r.ticks + TicksDue(s, f.now))
  }

  /** Whether a batch of events holds a request to quit. */
  ghost predicate HasQuit(evs: seq<Event>) {
    exists i :: 0 <= i < |evs| && RequestsQuit(evs[i])
  }

  /** The milliseconds the frames `inputs` measure, starting from the reading `last`. */
  function ElapsedSum(last: u32, inputs: seq<FrameInput>): nat
    decreases |inputs|
  {
    if inputs == [] then 0 else Sub(inputs[0].now, last) + ElapsedSum(inputs[0].now, inputs[1..])
  }

  /**
   * No drift over any number of frames: the ticks run, times MS_PER_TICK, plus
   * the remainder left at the end, is the starting remainder plus all the time
   * the executed frames measured; the scheduler invariant holds throughout.
   */
  lemma {:induction false} RunConserves(s: State, quit: bool, vp: Size, inputs: seq<FrameInput>)
    ensures Run(s, quit, vp, inputs).ticks * MS_PER_TICK + Run(s, quit, vp, inputs).state.updateTimeLeft
         == s.updateTimeLeft + ElapsedSum(s.lastUpdate, inputs[..Run(s, quit, vp, inputs).frames])
    ensures Settled(s) ==> Settled(Run(s, quit, vp, inputs).state)
    ensures Run(s, quit, vp, inputs).frames > 0 ==>
              Run(s, quit, vp, inputs).state.lastUpdate == inputs[Run(s, quit, vp, inputs).frames - 1].now
    decreases |inputs|
  {
    if !quit && inputs != [] {
      var f := inputs[0];
      var s' := Frame(s, f.now);
      var rest := inputs[1..];
      var r := Run(s', QuitAfter(quit, f.events), ViewportAfter(vp, f.events), rest);
      RunConserves(s', QuitAfter(quit, f.events), ViewportAfter(vp, f.events), rest);
      assert inputs[..r.frames + 1] == [f] + rest[..r.frames];
      assert ([f] + rest[..r.frames])[1..] == rest[..r.frames];
    }
  }

  /**
   * The loop stops right after the first frame whose events ask to quit: that
   * frame still runs its ticks and window check, no later frame runs, and
   * without a quit request every frame of the input runs.
   */
  lemma {:induction false} RunStopsAfterQuit(s: State, vp: Size, inputs: seq<FrameInput>)
    ensures Run(s, false, vp, inputs).quit <==> exists k :: 0 <= k < |inputs| && HasQuit(inputs[k].events)
    ensures Run(s, false, vp, inputs).quit ==>
              Run(s, false, vp, inputs).frames > 0 &&
              HasQuit(inputs[Run(s, false, vp, inputs).frames - 1].events)
    ensures !Run(s, false, vp, inputs).quit ==> Run(s, false, vp, inputs).frames == |inputs|
    ensures forall k :: 0 <= k < Run(s, false, vp, inputs).frames - 1 ==> !HasQuit(inputs[k].events)
    decreases |inputs|
  {
    if inputs != [] {
      var f := inputs[0];
      var rest := inputs[1..];
      QuitAfterIff(false, f.events);
      if HasQuit(f.events) {
        assert Run(s, false, vp, inputs).frames == 1;
      } else {
        var vp' := ViewportAfter(vp, f.events);
        var s' := Frame(s, f.now);
        RunStopsAfterQuit(s', vp', rest);
        var r := Run(s', false, vp', rest);
        assert Run(s, false, vp, inputs) == r.(frames := r.frames + 1, ticks := r.ticks + TicksDue(s, f.now));
        forall k | 0 <= k < r.frames ensures !HasQuit(inputs[k].events) {
          if k > 0 {
            assert inputs[k] == rest[k - 1];
          }
        }
        if exists k :: 0 <= k < |inputs| && HasQuit(inputs[k].events) {
          var k :| 0 <= k < |inputs| && HasQuit(inputs[k].events);
          assert k > 0 && rest[k - 1] == inputs[k];
        }
        if r.quit {
          assert inputs[r.frames] == rest[r.frames - 1];
        }
      }
    }
  }

  /**
   * The clock readings of the frames come from a true, unbounded millisecond
   * clock that starts at `t0` and never moves back nor jumps by 2^32 or more
   * between two frames; each reading is the true time truncated to 32 bits.
   */
  ghost predicate ReadsClock(t0: nat, ts: seq<nat>, inputs: seq<FrameInput>)
    decreases |ts|
  {
    |ts| == |inputs| &&
    (ts != [] ==>
      t0 <= ts[0] < t0 + MODULUS && inputs[0].now == ts[0] % MODULUS &&
      ReadsClock(ts[0], ts[1..], inputs[1..]))
  }

  /** The true time at the end of the frames `ts`, having started at `t0`. */
  function LastTime(t0: nat, ts: seq<nat>): nat {
    if ts == [] then t0 else ts[|ts| - 1]
  }

  /** Reading the true clock through the first frames only is still reading it. */
  lemma {:induction false} ReadsClockPrefix(t0: nat, ts: seq<nat>, inputs: seq<FrameInput>, n: nat)
    requires ReadsClock(t0, ts, inputs) && n <= |ts|
    ensures ReadsClock(t0, ts[..n], inputs[..n])
    decreases |ts|
  {
    if n > 0 {
      ReadsClockPrefix(ts[0], ts[1..], inputs[1..], n - 1);
      assert ts[..n][1..] == ts[1..][..n - 1];
      assert inputs[..n][1..] == inputs[1..][..n - 1];
    }
  }

  /**
   * Clock wrap-around is harmless: the 32-bit differences the frames compute
   * add up to the true time that passed, however often the readings wrapped.
   */
  lemma {:induction false} ElapsedSumOfClock(t0: nat, ts: seq<nat>, inputs: seq<FrameInput>)
    requires ReadsClock(t0, ts, inputs)
    ensures ElapsedSum(t0 % MODULUS, inputs) == LastTime(t0, ts) - t0
    decreases |ts|
  {
    if ts != [] {
      SubOfReadings(t0, ts[0]);
      ElapsedSumOfClock(ts[0], ts[1..], inputs[1..]);
      if |ts| > 1 {
        assert ts[1..][|ts[1..]| - 1] == ts[|ts| - 1];
      }
    }
  }

  /**
   * No drift over a whole run from the start: the ticks run are exactly the
   * true elapsed time divided by MS_PER_TICK, rounded down, and the remainder
   * is what is left over.
   */
  lemma TicksMatchTrueTime(t0: nat, vp: Size, ts: seq<nat>, inputs: seq<FrameInput>)
    requires ReadsClock(t0, ts, inputs)
    ensures var r := Run(Start(t0 % MODULUS), false, vp, inputs);
            var elapsed := LastTime(t0, ts[..r.frames]) - t0;
            r.ticks == elapsed / MS_PER_TICK && r.state.updateTimeLeft == elapsed % MS_PER_TICK
  {
    var s := Start(t0 % MODULUS);
    var r := Run(s, false, vp, inputs);
    RunConserves(s, false, vp, inputs);
    ReadsClockPrefix(t0, ts, inputs, r.frames);
    ElapsedSumOfClock(t0, ts[..r.frames], inputs[..r.frames]);
  }

  /**
   * The frame loop of the program, from the clock reading `clock` taken before
   * the first frame, over the frames the window system reports.
   */
  method MainLoop(clock: u32, inputs: seq<FrameInput>) returns (out: Outcome)
    ensures out == Run(Start(clock), false, Size(INITIAL_WIN_W, INITIAL_WIN_H), inputs)
  {
    var sched := new Scheduler(clock);
    var quit := false;
    var vp := Size(INITIAL_WIN_W, INITIAL_WIN_H);
    var i, ticks := 0, 0;
    while !quit && i < |inputs|
      invariant 0 <= i <= |inputs|
      invariant fresh(sched) && sched.Valid()
      invariant var r := Run(sched.Snapshot(), quit, vp, inputs[i..]);
                Run(Start(clock), false, Size(INITIAL_WIN_W, INITIAL_WIN_H), inputs)
                == r.(frames := r.frames + i, ticks := r.ticks + ticks)
    {
      var f := inputs[i];
      assert inputs[i..][1..] == inputs[i + 1..];
      quit, vp := DrainEvents(quit, vp, f.events);
      var n := sched.Step(f.now);
      ticks := ticks + n;
      i := i + 1;
    }
    out := Outcome(sched.Snapshot(), quit, vp, i, ticks);
  }
}
