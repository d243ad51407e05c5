# Fixed-timestep frame loop of learnopengl, in Dafny

The program opens an SDL window with an OpenGL context and runs a frame loop.
That loop keeps rendering separate from a fixed-rate simulation. Each frame it
drains pending window events. `SDL_QUIT` or the `q` key sets the quit flag, and
a resize event moves the GL viewport. It then feeds the milliseconds since the
last frame into a remainder and runs ticks of `MS_PER_TICK = 1000/125 = 8` ms
while the remainder allows. Once a second it restarts the throughput window,
whose tick counter goes back to zero. Finally it remembers the clock reading.

The model has four modules:

- `Uint32` (`uint32.dfy`): the C program's unsigned 32-bit arithmetic. This
  covers the wrapped difference `now - lastUpdate`, the wrapped `++gameTicks`,
  and the fact that a difference of truncated clock readings is the true
  elapsed time.
- `Events` (`events.dfy`): the per-event dispatch as pure functions
  (`Quit`, `Viewport`) and the event-polling loop as the method `DrainEvents`.
- `Timestep` (`timestep.dfy`): the four scheduler variables as a value
  (`State`) with the specification of one frame (`Frame`, `TicksDue`). The
  `Scheduler` class holds the same four variables as fields. Its methods
  `Advance` (the catch-up `while` loop), `MaybeResetWindow` and `Step` are
  proved against that specification. Two ghost counters record the ticks run
  and the time fed in over the object's lifetime.
- `FrameLoop` (`frame_loop.dfy`): the outer `while (!quit)` loop as the method
  `MainLoop`, its specification `Run`, and lemmas over whole runs. These cover
  conservation, stopping after the quitting frame, and clock wrap-around.

The inputs from outside are parameters. `SDL_GetTicks` is the `now` of each
frame, and `SDL_PollEvent` is a frame's sequence of pending events.

The remainder `updateTimeLeft` is a `double` in the program. Only whole
numbers, which are Uint32 differences, are ever added to it. Only `8.0` is
ever subtracted, and every value stays below 2^33. So the double arithmetic is
exact, and the model uses `nat`.

## Model

| member | source | states |
|---|---|---|
| `Uint32.Sub` | main.c:96-97 | the Uint32 difference is the unique value below 2^32 that takes `b` to `a` modulo 2^32; it equals `a - b` without wrap and `a - b + 2^32` when the clock wrapped |
| `Uint32.SubUnique` | main.c:96-97 | any delta below 2^32 that leads from `b` to `a` modulo 2^32 is the one `Sub` computes |
| `Uint32.SubOfReadings` | main.c:96-97 | if a true unbounded clock moves forward by less than 2^32 ms, the Uint32 difference of its truncated readings is the true elapsed time, also across a wrap |
| `Uint32.Inc` | main.c:102 | `++gameTicks` adds one, and wraps to 0 at 2^32 |
| `Uint32.IncAdd` | main.c:99-103 | counting up one tick at a time from `gameTicks + n` (mod 2^32) is the same as adding `n + 1` (mod 2^32) |
| `Events.Quit` | main.c:76-84 | the flag is never cleared, and it changes exactly when it was clear and the event is `SDL_QUIT` or a key-down of `q` |
| `Events.Viewport` | main.c:85-93 | a `RESIZED` or `SIZE_CHANGED` window event sets the viewport to its `data1` × `data2`; every other event leaves the viewport size unchanged |
| `Events.QuitAfterIff` | main.c:19-84 | after a batch of events the quit flag is set iff it was already set or some event of the batch asks to quit |
| `Events.ViewportAfterNoResize` | main.c:85-93 | a batch without a resize event leaves the viewport as it was |
| `Events.ViewportAfterLastResize` | main.c:85-93 | after a batch the viewport has the size of the last resize event in the batch |
| `Events.DrainEvents` | main.c:76-94 | the polling loop ends with the quit flag and viewport of the whole batch handled in order |
| `Timestep.Start` | main.c:67-70 | the initial state satisfies the between-frames invariant, with `lastUpdate == fpsStart ==` the first clock reading |
| `Timestep.TicksDue` | main.c:99-103 | the tick count of a frame is the floor of (remainder + elapsed) / `MS_PER_TICK` |
| `Timestep.Frame` | main.c:96-121 | after a frame: `lastUpdate == now`; the remainder is below one tick; the window is under a second old; ticks × `MS_PER_TICK` + new remainder = old remainder + elapsed |
| `Timestep.FrameWindow` | main.c:115-119 | once `now - fpsStart >= 1000` (Uint32) the frame resets `gameTicks` to 0 and `fpsStart` to `now`; otherwise `gameTicks` grows by that frame's ticks (mod 2^32) and `fpsStart` is unchanged |
| `Timestep.ZeroElapsedFrame` | main.c:96-103 | from a between-frames state, a frame with no elapsed time runs no tick and leaves the whole state unchanged |
| `Timestep.FrameIdempotent` | main.c:96-121 | a second frame at the same clock reading runs no tick and changes nothing |
| `Timestep.Scheduler.constructor` | main.c:67-70 | the four variables start as `(clock, 0, 0, clock)`, with the lifetime invariant established |
| `Timestep.Scheduler.Advance` | main.c:96-103 | the catch-up loop runs exactly `TicksDue` ticks; it conserves time (ticks × 8 + new remainder = old remainder + Uint32 elapsed); it leaves the remainder below one tick, whatever it was before; `gameTicks` grows by the ticks run, mod 2^32 |
| `Timestep.Scheduler.MaybeResetWindow` | main.c:115-119 | when `now - fpsStart >= 1000` (Uint32), `gameTicks` becomes 0 and `fpsStart` becomes `now`; otherwise both are unchanged |
| `Timestep.Scheduler.Step` | main.c:96-121 | the fields become `Frame(old state, now)`, so `lastUpdate == now` at the end; the lifetime invariant (ticks run × 8 + remainder = time fed) is kept |
| `FrameLoop.Run` | main.c:74-122 | a run never executes more frames than there are inputs, and runs none once the quit flag is set |
| `FrameLoop.RunConserves` | main.c:96-121 | over any number of frames: ticks × 8 + final remainder = initial remainder + the sum of the Uint32 deltas of the executed frames; the between-frames invariant is kept; `lastUpdate` is the last frame's reading |
| `FrameLoop.RunStopsAfterQuit` | main.c:74-94 | the loop quits iff some frame's events ask to; it stops right after the first such frame, which still runs in full; without a quit request every frame runs |
| `FrameLoop.ReadsClockPrefix` | main.c:96 | readings of a true clock, cut down to the first frames, are still readings of that clock |
| `FrameLoop.ElapsedSumOfClock` | main.c:96-121 | the Uint32 deltas of readings of a true clock add up to the true time passed, however often the 32-bit reading wrapped |
| `FrameLoop.TicksMatchTrueTime` | main.c:67-121 | from the start, the total ticks equal floor(true elapsed time / 8) and the remainder is that time mod 8, so there is no drift |
| `FrameLoop.MainLoop` | main.c:67-122 | the imperative loop (event drain, scheduler step, `while (!quit)`) ends in exactly the outcome `Run` specifies from the initial state and a 640×480 viewport |

## Left out

- SDL initialisation, GL attributes, window and context creation, and their error exits (main.c:22-50, 124-126). These are calls into foreign libraries.
- `glViewport`, `glClearColor`, `glClear`, `SDL_GL_SetSwapInterval`, `SDL_GL_SwapWindow` (main.c:53-65, 89, 107, 111). These are foreign rendering calls. The viewport is kept only as the size last requested by a resize event.
- The body of `game_tick` (main.c:12-15). It is a busy-wait delay. A tick is one pass of the catch-up loop, counted by `gameTicks` and the ghost counter `ticksRun`.
- The printed ticks-per-second value (main.c:116) and all other `printf`/`fprintf` output (main.c:72, 90). The value is a floating-point division used only for output; output is I/O.
- `SDL_PollEvent` and `SDL_GetTicks`. The events and clock readings are inputs: a sequence of `FrameInput`s.
- FrameLoop.Run and FrameLoop.MainLoop: the real loop keeps polling for as long as it is not told to quit. The model takes a finite sequence of frames, so it also ends when that input runs out.
- Events: the `SDL_Keycode` of `q` is its character code, 113. Every other event type of SDL is `OtherEvent`.
- Shader loading, compilation and linking, vertex-buffer upload and drawables. main.c has no such code, so they are not part of this model.
