/** The Artiste application's per-frame command drain and input routing
    (artiste_application.cpp).

    Before each frame the system command queue is drained: "system.shutdown"
    closes the window and "fullscreen" stops the desktop and is forwarded to
    the engine's inbound queue. Keyboard and mouse events go either to the
    engine (while the preview is full-window and the desktop is not in
    performance mode) or to the desktop widget tree. The application's global
    variables are the fields of one object; the engine, the desktop, the
    profiler and the window are recorded as logs of the calls made to them,
    and the viewport size is a parameter. */
module ArtisteApplication {

  /** A queued command; only its name decides what the drain does. */
  datatype Command = Command(cmd: string, raw: string)

  /** The three modifier keys as the handlers pass them on. */
  datatype Modifiers = Modifiers(alt: bool, ctrl: bool, shift: bool)

  /** The input events the engine is given. */
  datatype EngineEvent =
    | EngineKeyDown(key: int, mods: Modifiers)
    | EngineKeyUp(key: int, mods: Modifiers)
    | EngineMouseMove(x: int, y: int, mods: Modifiers)
    | EngineMouseDown(key: int, x: int, y: int, mods: Modifiers)
    | EngineMouseUp(key: int, x: int, y: int, mods: Modifiers)

  /** The calls made on the desktop widget. */
  datatype DesktopEvent =
    | DesktopStop
    | SetKeyModifiers(mods: Modifiers)
    | DesktopKeyDown(key: int, mods: Modifiers)
    | DesktopKeyUp(key: int, mods: Modifiers)
    | DesktopMouseMove(x: int, y: int)
    | DesktopMouseDown(x: int, y: int, button: nat)
    | DesktopMouseUp(x: int, y: int, button: nat)

  const ShutdownCommand := "system.shutdown"
  const FullscreenCommand := "fullscreen"

  // Key codes the key-down handler tests.
  const KeyF := 70   // 'F'
  const KeyT := 84   // 'T'
  const KeyP := 80
  const Key5 := 53   // '5'
  const Key4 := 52   // '4'

  /** The commands of q named "fullscreen", in queue order. */
  function Fullscreens(q: seq<Command>): seq<Command>
  {
    if q == [] then []
    else (if q[0].cmd == FullscreenCommand then [q[0]] else []) + Fullscreens(q[1..])
  }

  /** The number of "system.shutdown" commands in q. */
  function Shutdowns(q: seq<Command>): nat
  {
    if q == [] then 0
    else (if q[0].cmd == ShutdownCommand then 1 else 0) + Shutdowns(q[1..])
  }

  /** One Stop call on the desktop per forwarded command. */
  function Stops(n: nat): seq<DesktopEvent>
  {
    seq(n, _ => DesktopStop)
  }

  /** Fullscreens keeps exactly the "fullscreen" commands: every command it
      returns is one, and every one of them in the queue is returned. */
  lemma {:induction false} FullscreensMembers(q: seq<Command>)
    ensures forall c :: c in Fullscreens(q) <==> c in q && c.cmd == FullscreenCommand
  {
    if q != [] {
      FullscreensMembers(q[1..]);
      assert q == [q[0]] + q[1..];
    }
  }

  /** Fullscreens keeps arrival order: filtering a queue that grew at the
      back is the old filter followed by the filter of the new part. */
  lemma {:induction false} FullscreensAppend(p: seq<Command>, q: seq<Command>)
    ensures Fullscreens(p + q) == Fullscreens(p) + Fullscreens(q)
  {
    if p == [] {
      assert p + q == q;
    } else {
      var r := p + q;
      assert r[0] == p[0] && r[1..] == p[1..] + q;
      var head := if p[0].cmd == FullscreenCommand then [p[0]] else [];
      assert Fullscreens(p) == head + Fullscreens(p[1..]);
      assert Fullscreens(r) == head + Fullscreens(r[1..]);
      FullscreensAppend(p[1..], q);
      assert Fullscreens(r) == head + (Fullscreens(p[1..]) + Fullscreens(q));
    }
  }

  /** Shutdowns counts over a queue that grew at the back. */
  lemma {:induction false} ShutdownsAppend(p: seq<Command>, q: seq<Command>)
    ensures Shutdowns(p + q) == Shutdowns(p) + Shutdowns(q)
  {
    if p == [] {
      assert p + q == q;
    } else {
      assert (p + q)[1..] == p[1..] + q;
      ShutdownsAppend(p[1..], q);
    }
  }

  /** No command is both forwarded and a shutdown, and together they never
      number more than the queue. */
  lemma {:induction false} DrainCounts(q: seq<Command>)
    ensures forall c :: c in Fullscreens(q) ==> c.cmd != ShutdownCommand
    ensures |Fullscreens(q)| + Shutdowns(q) <= |q|
  {
    FullscreensMembers(q);
    assert FullscreenCommand != ShutdownCommand by { assert FullscreenCommand[0] != ShutdownCommand[0]; }
    if q != [] {
      DrainCounts(q[1..]);
    }
  }

  /** The input guard shared by the handlers: the engine gets input while the
      preview is full-window and the desktop is not in performance mode. */
  predicate EngineHasInput(performanceMode: bool, fullwindow: bool)
  {
    !performanceMode && fullwindow
  }

  /** The key-down guard: as EngineHasInput, except that F and T with alt or
      ctrl held always go to the desktop. */
  predicate KeyDownToEngine(key: int, mods: Modifiers, performanceMode: bool, fullwindow: bool)
  {
    && !(key == KeyF && (mods.alt || mods.ctrl))
    && !(key == KeyT && (mods.alt || mods.ctrl))
    && EngineHasInput(performanceMode, fullwindow)
  }

  /** The key-down guard differs from the shared one only for F and T with
      alt or ctrl. */
  lemma KeyDownToEngineExceptions(key: int, mods: Modifiers, performanceMode: bool, fullwindow: bool)
    ensures KeyDownToEngine(key, mods, performanceMode, fullwindow) != EngineHasInput(performanceMode, fullwindow)
      <==> EngineHasInput(performanceMode, fullwindow) && (key == KeyF || key == KeyT) && (mods.alt || mods.ctrl)
  {
  }

  /** The clamp of app_mouse_move on one axis against a viewport extent. */
  function ClampCoord(v: int, size: int): (c: int)
    // For a viewport of non-negative extent: negative coordinates become 0,
    // ones past the extent become extent - 1, the rest (the extent itself
    // included) pass unchanged ...
    ensures size >= 0 && v < 0 ==> c == 0
    ensures 0 <= v <= size ==> c == v
    ensures size >= 0 && v > size ==> c == size - 1
    // ... so for a non-empty viewport the result lies within 0 .. size.
    ensures size > 0 ==> 0 <= c <= size
  {
    var xx := if v < 0 then 0 else v;
    if xx > size then size - 1 else xx
  }

  /** The application's global state. */
  class Application {
    var systemCommandQueue: seq<Command>
    var internalCmdIn: seq<Command>
    /** A desktop widget exists. */
    var hasDesktop: bool
    /** The desktop's performance_mode. */
    var performanceMode: bool
    /** The flag gui_prod_fullwindow points at. */
    var fullwindow: bool
    /** An engine exists. */
    var hasEngine: bool
    var alt: bool
    var ctrl: bool
    var shift: bool
    var recordMovie: bool
    var takeScreenshot: bool
    var movieFrameCount: int
    var helptext: bool
    var resetTimeMeasurements: bool
    /** Calls of app_close_window. */
    var closeWindowCalls: nat
    /** Profiler switches, true for enable and false for disable. */
    var profilerCalls: seq<bool>
    var engineEvents: seq<EngineEvent>
    var desktopEvents: seq<DesktopEvent>

    /** The modifier keys currently held. */
    function Mods(): Modifiers
      reads this
    {
      Modifiers(alt, ctrl, shift)
    }

    twostate predicate KeepsFlags()
      reads this
    {
      && recordMovie == old(recordMovie) && takeScreenshot == old(takeScreenshot)
      && movieFrameCount == old(movieFrameCount) && helptext == old(helptext)
      && resetTimeMeasurements == old(resetTimeMeasurements)
    }

    /** app_pre_draw: pops every queued command, oldest first. */
    method PreDraw()
      modifies this`systemCommandQueue, this`internalCmdIn, this`closeWindowCalls, this`desktopEvents
      // Nothing is left pending.
      ensures systemCommandQueue == []
      // Exactly the "fullscreen" commands are forwarded, in arrival order,
      // each after a Stop of the desktop if there is one.
      ensures internalCmdIn == old(internalCmdIn) + Fullscreens(old(systemCommandQueue))
      ensures desktopEvents == old(desktopEvents) +
        (if hasDesktop then Stops(|Fullscreens(old(systemCommandQueue))|) else [])
      // Every "system.shutdown" closes the window.
      ensures closeWindowCalls == old(closeWindowCalls) + Shutdowns(old(systemCommandQueue))
    {
      ghost var q := systemCommandQueue;
      ghost var k := 0;
      while systemCommandQueue != []
        invariant 0 <= k <= |q| && systemCommandQueue == q[k..]
        invariant internalCmdIn == old(internalCmdIn) + Fullscreens(q[..k])
        invariant desktopEvents == old(desktopEvents) + (if hasDesktop then Stops(|Fullscreens(q[..k])|) else [])
        invariant closeWindowCalls == old(closeWindowCalls) + Shutdowns(q[..k])
        decreases |systemCommandQueue|
      {
        var c := systemCommandQueue[0];
        systemCommandQueue := systemCommandQueue[1..];
        assert q[..k + 1] == q[..k] + [c];
        FullscreensAppend(q[..k], [c]);
        ShutdownsAppend(q[..k], [c]);
        if c.cmd == ShutdownCommand {
          closeWindowCalls := closeWindowCalls + 1;
        }
        if c.cmd == FullscreenCommand {
          if hasDesktop {
            desktopEvents := desktopEvents + [DesktopStop];
          }
          internalCmdIn := internalCmdIn + [c];
        }
        k := k + 1;
      }
      assert q[..k] == q;
    }

    /** The profiler switches of app_key_down: ctrl+5 enables the profiler
        and ctrl+4 disables it, whether or not there is a desktop. */
    method ProfilerKeys(key: int)
      modifies this`profilerCalls
      ensures profilerCalls == old(profilerCalls)
        + (if ctrl && key == Key5 then [true] else []) + (if ctrl && key == Key4 then [false] else [])
    {
      if ctrl && key == Key5 {
        profilerCalls := profilerCalls + [true];
      }
      if ctrl && key == Key4 {
        profilerCalls := profilerCalls + [false];
      }
    }

    /** The capture keys of app_key_down: ctrl+alt+shift+P toggles movie
        recording, restarting the frame count when recording starts, and
        ctrl+alt+P without shift asks for a screenshot. */
    method CaptureKeys(key: int)
      modifies this`recordMovie, this`takeScreenshot, this`movieFrameCount
      ensures recordMovie == (if alt && ctrl && shift && key == KeyP then !old(recordMovie) else old(recordMovie))
      ensures movieFrameCount == (if alt && ctrl && shift && key == KeyP && !old(recordMovie) then 0 else old(movieFrameCount))
      ensures takeScreenshot == (old(takeScreenshot) || (alt && ctrl && !shift && key == KeyP))
    {
      if alt && ctrl && shift && key == KeyP {
        if recordMovie == false {
          movieFrameCount := 0;
        }
        recordMovie := !recordMovie;
      } else if alt && ctrl && key == KeyP {
        takeScreenshot := true;
      }
    }

    /** The desktop branch of app_key_down: alt+T in full-window toggles the
        help text, ctrl+T in full-window resets the time measurements, and the
        desktop gets the modifiers and the negated key. */
    method DesktopKeys(key: int)
      modifies this`helptext, this`resetTimeMeasurements, this`desktopEvents
      ensures helptext == (if fullwindow && alt && !ctrl && !shift && key == KeyT then !old(helptext) else old(helptext))
      ensures resetTimeMeasurements == (old(resetTimeMeasurements) || (fullwindow && !alt && ctrl && !shift && key == KeyT))
      ensures desktopEvents == old(desktopEvents) + [SetKeyModifiers(Mods()), DesktopKeyDown(-key, Mods())]
    {
      if fullwindow && alt && !ctrl && !shift && key == KeyT {
        helptext := !helptext;
      }
      if fullwindow && !alt && ctrl && !shift && key == KeyT {
        resetTimeMeasurements := true;
      }
      desktopEvents := desktopEvents + [SetKeyModifiers(Modifiers(alt, ctrl, shift))];
      desktopEvents := desktopEvents + [DesktopKeyDown(-key, Modifiers(alt, ctrl, shift))];
    }

    /** The routing of app_key_down once a desktop exists: under the
        key-down guard the engine gets the negated key and the desktop gets
        nothing; otherwise the engine gets nothing and the desktop branch
        runs. */
    method RouteKeyDown(key: int)
      modifies this`helptext, this`resetTimeMeasurements, this`engineEvents, this`desktopEvents
      ensures KeyDownToEngine(key, Mods(), performanceMode, fullwindow) ==>
        && engineEvents == old(engineEvents) + (if hasEngine then [EngineKeyDown(-key, Mods())] else [])
        && desktopEvents == old(desktopEvents)
        && helptext == old(helptext) && resetTimeMeasurements == old(resetTimeMeasurements)
      ensures !KeyDownToEngine(key, Mods(), performanceMode, fullwindow) ==>
        && engineEvents == old(engineEvents)
        && helptext == (if fullwindow && alt && !ctrl && !shift && key == KeyT then !old(helptext) else old(helptext))
        && resetTimeMeasurements == (old(resetTimeMeasurements) || (fullwindow && !alt && ctrl && !shift && key == KeyT))
        && desktopEvents == old(desktopEvents) + [SetKeyModifiers(Mods()), DesktopKeyDown(-key, Mods())]
    {
      if !(key == KeyF && (alt || ctrl)) && !(key == KeyT && (alt || ctrl)) && !performanceMode && fullwindow {
        if hasEngine {
          engineEvents := engineEvents + [EngineKeyDown(-key, Modifiers(alt, ctrl, shift))];
        }
        return;
      }
      DesktopKeys(key);
    }

    /** app_key_down. */
    method KeyDown(key: int)
      modifies this`profilerCalls, this`recordMovie, this`takeScreenshot, this`movieFrameCount
      modifies this`helptext, this`resetTimeMeasurements, this`engineEvents, this`desktopEvents
      ensures profilerCalls == old(profilerCalls)
        + (if ctrl && key == Key5 then [true] else []) + (if ctrl && key == Key4 then [false] else [])
      ensures !hasDesktop ==> KeepsFlags() && engineEvents == old(engineEvents) && desktopEvents == old(desktopEvents)
      ensures hasDesktop ==>
        && recordMovie == (if alt && ctrl && shift && key == KeyP then !old(recordMovie) else old(recordMovie))
        && movieFrameCount == (if alt && ctrl && shift && key == KeyP && !old(recordMovie) then 0 else old(movieFrameCount))
        && takeScreenshot == (old(takeScreenshot) || (alt && ctrl && !shift && key == KeyP))
      ensures hasDesktop && KeyDownToEngine(key, Mods(), performanceMode, fullwindow) ==>
        && engineEvents == old(engineEvents) + (if hasEngine then [EngineKeyDown(-key, Mods())] else [])
        && desktopEvents == old(desktopEvents)
        && helptext == old(helptext) && resetTimeMeasurements == old(resetTimeMeasurements)
      ensures hasDesktop && !KeyDownToEngine(key, Mods(), performanceMode, fullwindow) ==>
        && engineEvents == old(engineEvents)
        && helptext == (if fullwindow && alt && !ctrl && !shift && key == KeyT then !old(helptext) else old(helptext))
        && resetTimeMeasurements == (old(resetTimeMeasurements) || (fullwindow && !alt && ctrl && !shift && key == KeyT))
        && desktopEvents == old(desktopEvents) + [SetKeyModifiers(Mods()), DesktopKeyDown(-key, Mods())]
    {
      ProfilerKeys(key);
      if hasDesktop {
        CaptureKeys(key);
        RouteKeyDown(key);
      }
    }

    /** app_key_up: the key goes, not negated, to the engine under the shared
        guard and to the desktop otherwise. */
    method KeyUp(key: int)
      modifies this`engineEvents, this`desktopEvents
      ensures !hasDesktop ==> engineEvents == old(engineEvents) && desktopEvents == old(desktopEvents)
      ensures hasDesktop && EngineHasInput(performanceMode, fullwindow) ==>
        && engineEvents == old(engineEvents) + (if hasEngine then [EngineKeyUp(key, Mods())] else [])
        && desktopEvents == old(desktopEvents)
      ensures hasDesktop && !EngineHasInput(performanceMode, fullwindow) ==>
        && engineEvents == old(engineEvents)
        && desktopEvents == old(desktopEvents) + [SetKeyModifiers(Mods()), DesktopKeyUp(key, Mods())]
    {
      if hasDesktop {
        if !performanceMode && fullwindow {
          if hasEngine {
            engineEvents := engineEvents + [EngineKeyUp(key, Modifiers(alt, ctrl, shift))];
          }
          return;
        }
        desktopEvents := desktopEvents + [SetKeyModifiers(Modifiers(alt, ctrl, shift)), DesktopKeyUp(key, Modifiers(alt, ctrl, shift))];
      }
    }

    /** app_mouse_move, with the viewport's width and height as parameters.
        The engine gets the coordinates as given; the desktop gets the
        clamped ones. */
    method MouseMove(x: int, y: int, viewportWidth: int, viewportHeight: int)
      modifies this`engineEvents, this`desktopEvents
      ensures !hasDesktop ==> engineEvents == old(engineEvents) && desktopEvents == old(desktopEvents)
      ensures hasDesktop && EngineHasInput(performanceMode, fullwindow) ==>
        && engineEvents == old(engineEvents) + (if hasEngine then [EngineMouseMove(x, y, Mods())] else [])
        && desktopEvents == old(desktopEvents)
      ensures hasDesktop && !EngineHasInput(performanceMode, fullwindow) ==>
        && engineEvents == old(engineEvents)
        && desktopEvents == old(desktopEvents)
             + [SetKeyModifiers(Mods()), DesktopMouseMove(ClampCoord(x, viewportWidth), ClampCoord(y, viewportHeight))]
    {
      var xx := x;
      var yy := y;
      if xx < 0 {
        xx := 0;
      }
      if yy < 0 {
        yy := 0;
      }
      if xx > viewportWidth {
        xx := viewportWidth - 1;
      }
      if yy > viewportHeight {
        yy := viewportHeight - 1;
      }
      if hasDesktop {
        if !performanceMode && fullwindow {
          if hasEngine {
            engineEvents := engineEvents + [EngineMouseMove(x, y, Modifiers(alt, ctrl, shift))];
          }
          return;
        }
        desktopEvents := desktopEvents + [SetKeyModifiers(Modifiers(alt, ctrl, shift)), DesktopMouseMove(xx, yy)];
      }
    }

    /** app_mouse_down: the engine event carries the button as its key. */
    method MouseDown(button: nat, x: int, y: int)
      modifies this`engineEvents, this`desktopEvents
      ensures !hasDesktop ==> engineEvents == old(engineEvents) && desktopEvents == old(desktopEvents)
      ensures hasDesktop && EngineHasInput(performanceMode, fullwindow) ==>
        && engineEvents == old(engineEvents) + (if hasEngine then [EngineMouseDown(button, x, y, Mods())] else [])
        && desktopEvents == old(desktopEvents)
      ensures hasDesktop && !EngineHasInput(performanceMode, fullwindow) ==>
        && engineEvents == old(engineEvents)
        && desktopEvents == old(desktopEvents) + [SetKeyModifiers(Mods()), DesktopMouseDown(x, y, button)]
    {
      if hasDesktop {
        if !performanceMode && fullwindow {
          if hasEngine {
            engineEvents := engineEvents + [EngineMouseDown(button, x, y, Modifiers(alt, ctrl, shift))];
          }
          return;
        }
        desktopEvents := desktopEvents + [SetKeyModifiers(Modifiers(alt, ctrl, shift)), DesktopMouseDown(x, y, button)];
      }
    }

    /** app_mouse_up: as app_mouse_down. */
    method MouseUp(button: nat, x: int, y: int)
      modifies this`engineEvents, this`desktopEvents
      ensures !hasDesktop ==> engineEvents == old(engineEvents) && desktopEvents == old(desktopEvents)
      ensures hasDesktop && EngineHasInput(performanceMode, fullwindow) ==>
        && engineEvents == old(engineEvents) + (if hasEngine then [EngineMouseUp(button, x, y, Mods())] else [])
        && desktopEvents == old(desktopEvents)
      ensures hasDesktop && !EngineHasInput(performanceMode, fullwindow) ==>
        && engineEvents == old(engineEvents)
        && desktopEvents == old(desktopEvents) + [SetKeyModifiers(Mods()), DesktopMouseUp(x, y, button)]
    {
      if hasDesktop {
        if !performanceMode && fullwindow {
          if hasEngine {
            engineEvents := engineEvents + [EngineMouseUp(button, x, y, Modifiers(alt, ctrl, shift))];
          }
          return;
        }
        desktopEvents := desktopEvents + [SetKeyModifiers(Modifiers(alt, ctrl, shift)), DesktopMouseUp(x, y, button)];
      }
    }
  }

  /** The drain of one queue: of a shutdown, a fullscreen and another
      command, only the fullscreen one is forwarded, the window is closed
      once and the desktop is stopped once. */
  method DrainScenario() returns (forwarded: seq<Command>, closes: nat, stops: nat, pending: nat)
    ensures forwarded == [Command(FullscreenCommand, "fullscreen 1")]
    ensures closes == 1 && stops == 1 && pending == 0
  {
    var shutdown, fullscreen, other := Command(ShutdownCommand, ""), Command(FullscreenCommand, "fullscreen 1"), Command("other", "");
    assert shutdown.cmd != FullscreenCommand by { assert shutdown.cmd[0] != FullscreenCommand[0]; }
    assert fullscreen.cmd != ShutdownCommand by { assert fullscreen.cmd[0] != ShutdownCommand[0]; }
    assert other.cmd != FullscreenCommand && other.cmd != ShutdownCommand by {
      assert other.cmd[0] != FullscreenCommand[0] && other.cmd[0] != ShutdownCommand[0];
    }
    assert [shutdown][1..] == [] && [fullscreen][1..] == [] && [other][1..] == [];
    var q := [shutdown] + [fullscreen] + [other];
    FullscreensAppend([shutdown], [fullscreen]);
    FullscreensAppend([shutdown] + [fullscreen], [other]);
    ShutdownsAppend([shutdown], [fullscreen]);
    ShutdownsAppend([shutdown] + [fullscreen], [other]);
    assert Fullscreens(q) == [fullscreen] && Shutdowns(q) == 1;
    var app := new Application;
    app.systemCommandQueue := q;
    app.internalCmdIn := [];
    app.closeWindowCalls := 0;
    app.desktopEvents := [];
    app.hasDesktop := true;
    app.PreDraw();
    forwarded := app.internalCmdIn;
    closes := app.closeWindowCalls;
    stops := |app.desktopEvents|;
    pending := |app.systemCommandQueue|;
  }
}
