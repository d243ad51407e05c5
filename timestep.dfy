// The fixed-timestep scheduler of the frame loop.  Every frame the time that
// passed since the previous frame is added to a remainder, whole ticks of
// MS_PER_TICK milliseconds are run while the remainder allows, and once a
// second the tick counter of the throughput window starts again from zero.
//
// The remainder is a C `double` in the program.  Only integers (Uint32
// differences) are ever added to it and only MS_PER_TICK = 8.0 is ever
// subtracted, with every value far below 2^53, so the floating-point
// arithmetic is exact and the model uses natural numbers.
module Timestep {
  import opened Uint32

  const TICKS_PER_SEC: nat := 125

  /** Milliseconds per tick, 1000 / TICKS_PER_SEC (125 divides 1000 exactly). */
  const MS_PER_TICK: nat := 8

  /** Length of the throughput window, in milliseconds. */
  const WINDOW_MS: nat := 1000

  /** The four scheduler variables of the frame loop. */
  datatype State = State(lastUpdate: u32, updateTimeLeft: nat, gameTicks: u32, fpsStart: u32)

  /**
   * The invariant of the scheduler between frames: less than one tick of time
   * is waiting, and the throughput window has not yet run for a full second.
   */
  predicate Settled(s: State) {
    s.updateTimeLeft < MS_PER_TICK && Sub(s.lastUpdate, s.fpsStart) < WINDOW_MS
  }

  /** The state before the first frame, with the clock reading `clock`. */
  function Start(clock: u32): (s: State)
    ensures Settled(s)
    ensures s.lastUpdate == s.fpsStart == clock
  {
    State(clock, 0, 0, clock)
  }

  /** The time available to run ticks in the frame that reads the clock as `now`. */
  function Accumulated(s: State, now: u32): nat {
    s.updateTimeLeft + Sub(now, s.lastUpdate)
  }

  /** The number of ticks the catch-up loop runs in the frame at `now`. */
  function TicksDue(s: State, now: u32): (n: nat)
    ensures n * MS_PER_TICK <= Accumulated(s, now) < (n + 1) * MS_PER_TICK
  {
    Accumulated(s, now) / MS_PER_TICK
  }

  /**
   * The scheduler state after the frame that reads the clock as `now`: the
   * catch-up loop, the throughput-window check and the new timestamp.
   */
  function Frame(s: State, now: u32): (r: State)
    ensures Settled(r)
    ensures r.lastUpdate == now
    ensures TicksDue(s, now) * MS_PER_TICK + r.updateTimeLeft == Accumulated(s, now)
  {
    var left := Accumulated(s, now) % MS_PER_TICK;
    if Sub(now, s.fpsStart) >= WINDOW_MS then
      State(now, left, 0, now)
    else
      State(now, left, Add(s.gameTicks, TicksDue(s, now)), s.fpsStart)
  }

  /**
   * Within a throughput window the counter grows by exactly the ticks run;
   * the frame that finds the window a second old starts a new one at `now`.
   */
  lemma FrameWindow(s: State, now: u32)
    ensures Sub(now, s.fpsStart) >= WINDOW_MS ==>
              Frame(s, now).gameTicks == 0 && Frame(s, now).fpsStart == now
    ensures Sub(now, s.fpsStart) < WINDOW_MS ==>
              Frame(s, now).gameTicks == Add(s.gameTicks, TicksDue(s, now)) &&
              Frame(s, now).fpsStart == s.fpsStart
  {
  }

  /** A frame in which no time has passed runs no tick and changes nothing. */
  lemma ZeroElapsedFrame(s: State)
    requires Settled(s)
    ensures TicksDue(s, s.lastUpdate) == 0
    ensures Frame(s, s.lastUpdate) == s
  {
  }

  /** Two frames at the same clock reading do what the first alone does. */
  lemma FrameIdempotent(s: State, now: u32)
    ensures TicksDue(Frame(s, now), now) == 0
    ensures Frame(Frame(s, now), now) == Frame(s, now)
  {
  }

  /** The scheduler variables of one run of the frame loop. */
  class Scheduler {
    var lastUpdate: u32
    var updateTimeLeft: nat
    var gameTicks: u32
    var fpsStart: u32

    /** Ticks run and milliseconds fed in over the scheduler's lifetime. */
    ghost var ticksRun: nat
    ghost var timeFed: nat

    function Snapshot(): State
      reads this
    {
      State(lastUpdate, updateTimeLeft, gameTicks, fpsStart)
    }

    /**
     * Between frames no time is lost or invented: all the time fed in is
     * either spent by ticks or still waiting in the remainder.
     */
    ghost predicate Valid()
      reads this
    {
      Settled(Snapshot()) && ticksRun * MS_PER_TICK + updateTimeLeft == timeFed
    }

    constructor (clock: u32)
      ensures Valid()
      ensures Snapshot() == Start(clock)
      ensures ticksRun == 0 && timeFed == 0
    {
      lastUpdate := clock;
      updateTimeLeft := 0;
      gameTicks := 0;
      fpsStart := clock;
      ticksRun, timeFed := 0, 0;
    }

    /** Add the time since the last frame and run every tick it pays for. */
    method Advance(now: u32) returns (ticks: nat)
      modifies this`updateTimeLeft, this`gameTicks, this`ticksRun, this`timeFed
      ensures ticks == TicksDue(old(Snapshot()), now)
      ensures ticks * MS_PER_TICK + updateTimeLeft == old(updateTimeLeft) + Sub(now, lastUpdate)
      ensures updateTimeLeft < MS_PER_TICK
      ensures gameTicks == Add(old(gameTicks), ticks)
      ensures ticksRun == old(ticksRun) + ticks
      ensures timeFed == old(timeFed) + Sub(now, lastUpdate)
    {
      var elapsed := Sub(now, lastUpdate);
      updateTimeLeft := updateTimeLeft + elapsed;
      timeFed := timeFed + elapsed;
      ticks := 0;
      while updateTimeLeft >= MS_PER_TICK
        invariant ticks * MS_PER_TICK + updateTimeLeft == old(updateTimeLeft) + elapsed
        invariant gameTicks == Add(old(gameTicks), ticks)
        invariant ticksRun == old(ticksRun) + ticks && timeFed == old(timeFed) + elapsed
        decreases updateTimeLeft
      {
        // One simulation step of MS_PER_TICK milliseconds runs here.
        updateTimeLeft := updateTimeLeft - MS_PER_TICK;
        IncAdd(old(gameTicks), ticks);
        gameTicks := Inc(gameTicks);
        ticks := ticks + 1;
        ticksRun := ticksRun + 1;
      }
      assert old(updateTimeLeft) + elapsed == ticks * MS_PER_TICK + updateTimeLeft;
    }

    /** Start a new throughput window once the current one is a second old. */
    method MaybeResetWindow(now: u32)
      modifies this`gameTicks, this`fpsStart
      ensures Sub(now, old(fpsStart)) >= WINDOW_MS ==> gameTicks == 0 && fpsStart == now
      ensures Sub(now, old(fpsStart)) < WINDOW_MS ==>
                gameTicks == old(gameTicks) && fpsStart == old(fpsStart)
    {
      if Sub(now, fpsStart) >= WINDOW_MS {
        fpsStart := now;
        gameTicks := 0;
      }
    }

    /** The scheduler's part of one frame iteration, at clock reading `now`. */
    method Step(now: u32) returns (ticks: nat)
      requires Valid()
      modifies this
      ensures Valid()
      ensures Snapshot() == Frame(old(Snapshot()), now)
      ensures ticks == TicksDue(old(Snapshot()), now)
      ensures ticksRun == old(ticksRun) + ticks
      ensures timeFed == old(timeFed) + Sub(now, old(lastUpdate))
    {
      ticks := Advance(now);
      MaybeResetWindow(now);
      lastUpdate := now;
    }
  }
}
