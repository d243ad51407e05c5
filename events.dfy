// The event dispatch at the top of every frame: each pending window-system
// event is looked at once, in order, and may set the quit flag or request a
// new viewport size.  The event source itself is a parameter: the sequence of
// events that polling returns during one frame.
module Events {

  type Keycode = int

  /** The key code of the `q` key (the character code of 'q'). */
  const SDLK_Q: Keycode := 113

  datatype WindowEventKind = Resized | SizeChanged | OtherWindowEvent

  datatype Event =
    | QuitEvent
    | KeyDown(key: Keycode)
    | WindowEvent(kind: WindowEventKind, data1: int, data2: int)
    | OtherEvent

  datatype Size = Size(width: int, height: int)

  /** An event that ends the program: the window system's quit signal or the `q` key. */
  predicate RequestsQuit(ev: Event) {
    ev == QuitEvent || ev == KeyDown(SDLK_Q)
  }

  /** The size a window event asks the viewport to take, if it is a resize. */
  predicate RequestsResize(ev: Event) {
    ev.WindowEvent? && (ev.kind == Resized || ev.kind == SizeChanged)
  }

  /** The quit flag after handling one event. */
  function Quit(quit: bool, ev: Event): (r: bool)
    ensures quit ==> r
    ensures r != quit <==> !quit && RequestsQuit(ev)
  {
    match ev
    case QuitEvent => true
    case KeyDown(key) => if key == SDLK_Q then true else quit
    case _ => quit
  }

  /** The viewport size after handling one event. */
  function Viewport(size: Size, ev: Event): (r: Size)
    ensures RequestsResize(ev) ==> r == Size(ev.data1, ev.data2)
    ensures !RequestsResize(ev) ==> r == size
  {
    match ev
    case WindowEvent(kind, w, h) =>
      if kind == Resized || kind == SizeChanged then Size(w, h) else size
    case _ => size
  }

  /** The quit flag after handling every event of `evs` in order. */
  function QuitAfter(quit: bool, evs: seq<Event>): bool
    decreases |evs|
  {
    if evs == [] then quit else QuitAfter(Quit(quit, evs[0]), evs[1..])
  }

  /** The viewport size after handling every event of `evs` in order. */
  function ViewportAfter(size: Size, evs: seq<Event>): Size
    decreases |evs|
  {
    if evs == [] then size else ViewportAfter(Viewport(size, evs[0]), evs[1..])
  }

  /**
   * The quit flag is monotone: after a batch of events it is set exactly when
   * it was set before or one of the events asked to quit; nothing clears it.
   */
  lemma {:induction false} QuitAfterIff(quit: bool, evs: seq<Event>)
    ensures QuitAfter(quit, evs) <==> quit || exists i :: 0 <= i < |evs| && RequestsQuit(evs[i])
    decreases |evs|
  {
    if evs != [] {
      QuitAfterIff(Quit(quit, evs[0]), evs[1..]);
      if exists i :: 0 <= i < |evs[1..]| && RequestsQuit(evs[1..][i]) {
        var i :| 0 <= i < |evs[1..]| && RequestsQuit(evs[1..][i]);
        assert RequestsQuit(evs[i + 1]);
      }
      if exists i :: 0 <= i < |evs| && RequestsQuit(evs[i]) {
        var i :| 0 <= i < |evs| && RequestsQuit(evs[i]);
        if i > 0 {
          assert RequestsQuit(evs[1..][i - 1]);
        }
      }
    }
  }

  /** A batch without a resize event leaves the viewport size as it was. */
  lemma {:induction false} ViewportAfterNoResize(size: Size, evs: seq<Event>)
    requires forall i :: 0 <= i < |evs| ==> !RequestsResize(evs[i])
    ensures ViewportAfter(size, evs) == size
    decreases |evs|
  {
    if evs != [] {
      assert !RequestsResize(evs[0]);
      var rest := evs[1..];
      assert forall i :: 0 <= i < |rest| ==> !RequestsResize(rest[i]) by {
        forall i | 0 <= i < |rest| ensures !RequestsResize(rest[i]) {
          assert rest[i] == evs[i + 1];
        }
      }
      ViewportAfterNoResize(size, rest);
    }
  }

  /** The viewport takes the size asked for by the last resize event of the batch. */
  lemma {:induction false} ViewportAfterLastResize(size: Size, evs: seq<Event>, k: nat)
    requires k < |evs| && RequestsResize(evs[k])
    requires forall j :: k < j < |evs| ==> !RequestsResize(evs[j])
    ensures ViewportAfter(size, evs) == Size(evs[k].data1, evs[k].data2)
    decreases |evs|
  {
    var rest := evs[1..];
    if k == 0 {
      assert forall i :: 0 <= i < |rest| ==> !RequestsResize(rest[i]) by {
        forall i | 0 <= i < |rest| ensures !RequestsResize(rest[i]) {
          assert rest[i] == evs[i + 1];
        }
      }
      ViewportAfterNoResize(Viewport(size, evs[0]), rest);
    } else {
      assert rest[k - 1] == evs[k];
      assert forall j :: k - 1 < j < |rest| ==> !RequestsResize(rest[j]) by {
        forall j | k - 1 < j < |rest| ensures !RequestsResize(rest[j]) {
          assert rest[j] == evs[j + 1];
        }
      }
      ViewportAfterLastResize(Viewport(size, evs[0]), rest, k - 1);
    }
  }

  /**
   * The event-polling loop of one frame: drain every pending event, updating
   * the quit flag and the viewport size as each one asks.
   */
  method DrainEvents(quit: bool, size: Size, pending: seq<Event>) returns (q: bool, vp: Size)
    ensures q == QuitAfter(quit, pending)
    ensures vp == ViewportAfter(size, pending)
  {
    q, vp := quit, size;
    var i := 0;
    while i < |pending|
      invariant 0 <= i <= |pending|
      invariant QuitAfter(q, pending[i..]) == QuitAfter(quit, pending)
      invariant ViewportAfter(vp, pending[i..]) == ViewportAfter(size, pending)
    {
      var ev := pending[i];
      assert pending[i..][1..] == pending[i + 1..];
      if ev == QuitEvent {
        q := true;
      } else if ev.KeyDown? {
        if ev.key == SDLK_Q {
          q := true;
        }
      } else if ev.WindowEvent? {
        match ev.kind
        case Resized => vp := Size(ev.data1, ev.data2);
        case SizeChanged => vp := Size(ev.data1, ev.data2);
        case OtherWindowEvent =>
      }
      i := i + 1;
    }
  }
}
