/** `Watcher.Watch` as a whole: terminal setup, the initial render, the
    event loop, and the deferred teardown, over a finite, already ordered
    sequence of events. The result is the trace of effects on the terminal
    and the process, and how the call ended. */
module Watch {
  import opened Wrappers
  import Config
  import Terminal
  import Render

  /** What the loop can receive: an interrupt or termination signal, a
      window-size change, or a timer tick. The last two carry what the
      operating system supplies to the render they cause. */
  datatype Event = Interrupt | Terminate | Resize(cycle: Render.Cycle) | Tick(cycle: Render.Cycle)

  /** Events that end the loop. */
  predicate Stops(e: Event) {
    e.Interrupt? || e.Terminate?
  }

  /** Observable effects, in the order they happen. */
  datatype Effect =
    | EnterCBreak(attrs: Terminal.Termios)   // attributes applied at setup
    | Restore(attrs: Terminal.Termios)       // attributes applied at teardown
    | Print(text: string)                    // control sequences written to the terminal
    | Start(argv: seq<string>)               // a process start attempted
    | Write(frame: string)                   // a frame written to the terminal
    | StopTicker

  /** The effects of one render: the command is started unless the pipe
      could not be made, and the frame is written only if it started. */
  function RenderEffects(s: Config.Settings, cmdArgs: seq<string>, c: Render.Cycle): (fx: seq<Effect>)
    requires s.interval > 0 && |cmdArgs| > 0
    ensures RendersOnly(fx)
    ensures c.spawn.PipeFailed? <==> fx == []
    ensures c.spawn.StartFailed? ==> fx == [Start(Render.Argv(s.exec, cmdArgs))]
    ensures c.spawn.Started? ==>
              fx == [Start(Render.Argv(s.exec, cmdArgs)), Write(Render.Frame(s, cmdArgs, c).value)]
  {
    (if c.spawn.PipeFailed? then [] else [Start(Render.Argv(s.exec, cmdArgs))])
    + (match Render.Frame(s, cmdArgs, c)
       case Some(f) => [Write(f)]
       case None => [])
  }

  /** How the loop went: the cycles it rendered, in order, how many events
      it took off the queue, and whether a signal stopped it. */
  datatype LoopResult = LoopResult(rendered: seq<Render.Cycle>, handled: nat, stopped: bool)

  /** The `for { select ... }` loop after the initial render: each resize
      or tick renders once, the first interrupt or termination returns. */
  function Loop(events: seq<Event>): (r: LoopResult)
    ensures r.handled <= |events|
    ensures r.stopped ==> r.handled >= 1 && Stops(events[r.handled - 1])
    ensures !r.stopped ==> r.handled == |events|
    ensures |r.rendered| == if r.stopped then r.handled - 1 else r.handled
    ensures forall i :: 0 <= i < |r.rendered| ==> !Stops(events[i]) && r.rendered[i] == events[i].cycle
    decreases |events|
  {
    if |events| == 0 then LoopResult([], 0, false)
    else if Stops(events[0]) then LoopResult([], 1, true)
    else
      var rest := Loop(events[1..]);
      assert forall i :: 1 <= i <= |rest.rendered| ==> events[i] == events[1..][i - 1];
      LoopResult([events[0].cycle] + rest.rendered, rest.handled + 1, rest.stopped)
  }

  /** The effects of rendering the given cycles one after another. */
  function RenderAll(s: Config.Settings, cmdArgs: seq<string>, cycles: seq<Render.Cycle>): (fx: seq<Effect>)
    requires s.interval > 0 && |cmdArgs| > 0
    ensures RendersOnly(fx)
    decreases |cycles|
  {
    if |cycles| == 0 then []
    else
      var head := RenderEffects(s, cmdArgs, cycles[0]);
      var rest := RenderAll(s, cmdArgs, cycles[1..]);
      RendersOnlyAppend(head, rest);
      head + rest
  }

  /** The frames a sequence of renders writes are exactly those of the
      cycles whose command started, in order, one per such cycle. */
  lemma {:induction false} RenderAllWrites(s: Config.Settings, cmdArgs: seq<string>, cycles: seq<Render.Cycle>)
    requires s.interval > 0 && |cmdArgs| > 0
    ensures Written(RenderAll(s, cmdArgs, cycles)) == StartedFrames(s, cmdArgs, cycles)
    decreases |cycles|
  {
    if |cycles| > 0 {
      RenderAllWrites(s, cmdArgs, cycles[1..]);
      WrittenOne(s, cmdArgs, cycles[0]);
      WrittenAppend(RenderEffects(s, cmdArgs, cycles[0]), RenderAll(s, cmdArgs, cycles[1..]));
    }
  }

  /** The frames among the effects, in order. */
  function Written(fx: seq<Effect>): seq<string>
    decreases |fx|
  {
    if |fx| == 0 then []
    else (if fx[0].Write? then [fx[0].frame] else []) + Written(fx[1..])
  }

  lemma {:induction false} WrittenAppend(a: seq<Effect>, b: seq<Effect>)
    ensures Written(a + b) == Written(a) + Written(b)
    decreases |a|
  {
    if |a| == 0 {
      assert a + b == b;
    } else {
      assert (a + b)[0] == a[0];
      assert (a + b)[1..] == a[1..] + b;
      WrittenAppend(a[1..], b);
    }
  }

  /** One render writes its cycle's frame when there is one, else nothing. */
  lemma WrittenOne(s: Config.Settings, cmdArgs: seq<string>, c: Render.Cycle)
    requires s.interval > 0 && |cmdArgs| > 0
    ensures Written(RenderEffects(s, cmdArgs, c))
            == match Render.Frame(s, cmdArgs, c) case Some(f) => [f] case None => []
  {
    var fx := RenderEffects(s, cmdArgs, c);
    match c.spawn
    case PipeFailed =>
    case StartFailed =>
      assert fx[1..] == [];
    case Started(_) =>
      var w := fx[1];
      assert [w][1..] == [];
      assert Written([w]) == [w.frame];
      assert fx[1..] == [w];
  }

  /** The frame of every cycle whose command started, in order. */
  function StartedFrames(s: Config.Settings, cmdArgs: seq<string>, cycles: seq<Render.Cycle>): seq<string>
    requires s.interval > 0
    decreases |cycles|
  {
    if |cycles| == 0 then []
    else
      (match Render.Frame(s, cmdArgs, cycles[0])
       case Some(f) => [f]
       case None => [])
      + StartedFrames(s, cmdArgs, cycles[1..])
  }

  /** Effects a render can have: starting the command and writing a frame. */
  predicate RendersOnly(fx: seq<Effect>) {
    forall i :: 0 <= i < |fx| ==> fx[i].Start? || fx[i].Write?
  }

  lemma RendersOnlyAppend(a: seq<Effect>, b: seq<Effect>)
    requires RendersOnly(a) && RendersOnly(b)
    ensures RendersOnly(a + b)
  {
    forall i | 0 <= i < |a + b| ensures (a + b)[i].Start? || (a + b)[i].Write? {
      if i >= |a| {
        assert (a + b)[i] == b[i - |a|];
      }
    }
  }

  /** Position of the first stopping event, or the length when there is none. */
  function FirstStop(events: seq<Event>): (k: nat)
    ensures k <= |events|
    ensures forall i :: 0 <= i < k ==> !Stops(events[i])
    ensures k < |events| ==> Stops(events[k])
    decreases |events|
  {
    if |events| == 0 then 0
    else if Stops(events[0]) then 0
    else 1 + FirstStop(events[1..])
  }

  /** The loop renders once per event before the first stop, stops exactly
      when there is a stop, and never looks past it. */
  lemma {:induction false} LoopStopsAtFirstSignal(events: seq<Event>)
    ensures |Loop(events).rendered| == FirstStop(events)
    ensures Loop(events).stopped <==> FirstStop(events) < |events|
    decreases |events|
  {
    if |events| > 0 && !Stops(events[0]) {
      LoopStopsAtFirstSignal(events[1..]);
    }
  }

  /** Events after the first stop change nothing. */
  lemma {:induction false} LoopIgnoresLaterEvents(events: seq<Event>, later: seq<Event>)
    requires FirstStop(events) < |events|
    ensures Loop(events + later) == Loop(events)
    decreases |events|
  {
    assert (events + later)[0] == events[0];
    if !Stops(events[0]) {
      assert (events + later)[1..] == events[1..] + later;
      LoopIgnoresLaterEvents(events[1..], later);
    }
  }

  /** How `Watch` ended: it exited with a status before the loop, the
      ticker could not be created (a panic, which runs the deferred calls),
      a signal made it return, or it is still waiting for events. */
  datatype Status = Exited(code: int) | Panicked | Returned | Waiting

  datatype Session = Session(effects: seq<Effect>, status: Status, renders: nat)

  /** Deferred calls run last-registered first. */
  function Unwind(deferred: seq<Effect>): (fx: seq<Effect>)
    ensures |fx| == |deferred|
    ensures forall i :: 0 <= i < |fx| ==> fx[i] == deferred[|deferred| - 1 - i]
    decreases |deferred|
  {
    if |deferred| == 0 then [] else [deferred[|deferred| - 1]] + Unwind(deferred[..|deferred| - 1])
  }

  /** What setup does once the attribute calls have succeeded. */
  function Setup(saved: Terminal.Termios): seq<Effect> {
    [EnterCBreak(Terminal.CBreak(saved)), Print(Terminal.AltScreenEnter)]
  }

  /** The calls deferred right after setup: restoring the attributes, then
      leaving the alternate screen. */
  function Deferred(saved: Terminal.Termios): seq<Effect> {
    [Restore(saved), Print(Terminal.AltScreenLeave)]
  }

  /** The effects of a call that got past the attribute calls: the setup
      prints, the renders, and the deferred calls that had been registered
      when the call ended. */
  function Trace(saved: Terminal.Termios, renders: seq<Effect>, ending: Status): seq<Effect>
    requires ending.Panicked? || ending.Returned? || ending.Waiting?
  {
    match ending
    case Panicked => Setup(saved) + Unwind(Deferred(saved))
    case Returned => Setup(saved) + renders + Unwind(Deferred(saved) + [StopTicker])
    case Waiting => Setup(saved) + renders
  }

  /** The trace enters cbreak mode with the transformed attributes first
      and then the alternate screen, and does each of the two nowhere else. */
  predicate OpensOnce(saved: Terminal.Termios, fx: seq<Effect>) {
    && |fx| >= 2
    && fx[0] == EnterCBreak(Terminal.CBreak(saved))
    && fx[1] == Print(Terminal.AltScreenEnter)
    && (forall i :: 0 <= i < |fx| ==> (fx[i].EnterCBreak? <==> i == 0))
    && (forall i :: 0 <= i < |fx| ==> (fx[i] == Print(Terminal.AltScreenEnter) <==> i == 1))
  }

  /** The trace leaves the alternate screen and then applies the saved
      attributes, as its last two effects, and does each of the two nowhere
      else. */
  predicate ClosesOnce(saved: Terminal.Termios, fx: seq<Effect>) {
    && |fx| >= 2
    && fx[|fx| - 2] == Print(Terminal.AltScreenLeave)
    && fx[|fx| - 1] == Restore(saved)
    && (forall i :: 0 <= i < |fx| ==> (fx[i].Restore? <==> i == |fx| - 1))
    && (forall i :: 0 <= i < |fx| ==> (fx[i] == Print(Terminal.AltScreenLeave) <==> i == |fx| - 2))
  }

  /** Neither the alternate screen has been left nor the attributes restored. */
  predicate KeepsTerminal(fx: seq<Effect>) {
    forall i :: 0 <= i < |fx| ==> !fx[i].Restore? && fx[i] != Print(Terminal.AltScreenLeave)
  }

  /** A whole `Watch` call. `current` is the result of reading the terminal
      attributes (None on failure), `applied` whether setting them worked,
      `first` what the initial render is given. */
  function Run(w: Config.Watcher, systemHostname: string, cmdArgs: seq<string>,
               current: Option<Terminal.Termios>, applied: bool,
               first: Render.Cycle, events: seq<Event>): (o: Session)
    requires |cmdArgs| > 0
    ensures o.status.Exited? <==> current.None? || !applied
    ensures o.status.Exited? ==> o.status.code == 1 && o.effects == [] && o.renders == 0
    ensures o.status.Panicked? <==> !o.status.Exited? && w.interval < 0
    ensures o.status.Returned? <==> !o.status.Exited? && w.interval >= 0 && FirstStop(events) < |events|
    ensures (o.status.Returned? || o.status.Waiting?) ==> o.renders == 1 + FirstStop(events)
    ensures !o.status.Exited? ==> OpensOnce(current.value, o.effects)
    ensures o.status.Panicked? ==>
              o.effects == [EnterCBreak(Terminal.CBreak(current.value)), Print(Terminal.AltScreenEnter),
                            Print(Terminal.AltScreenLeave), Restore(current.value)]
    ensures o.status.Returned? ==> ClosesOnce(current.value, o.effects) && StopsTickerOnce(o.effects)
    ensures o.status.Waiting? ==> KeepsTerminal(o.effects)
  {
    var s := Config.Resolve(w, systemHostname);
    if current.None? || !applied then Session([], Exited(1), 0)
    else if s.interval <= 0 then
      PanicTeardown(current.value);
      TraceSetup(current.value, [], Panicked);
      Session(Trace(current.value, [], Panicked), Panicked, 0)
    else
      var loop := Loop(events);
      LoopStopsAtFirstSignal(events);
      var renders := RenderAll(s, cmdArgs, [first] + loop.rendered);
      var ending := if loop.stopped then Returned else Waiting;
      TraceSetup(current.value, renders, ending);
      ReturnTeardown(current.value, renders);
      WaitingKeepsTerminal(current.value, renders);
      Session(Trace(current.value, renders, ending), ending, 1 + |loop.rendered|)
  }

  /** How many deferred calls follow the renders in a trace that got past
      the ticker's creation. */
  function Closing(ending: Status): nat {
    if ending.Returned? then 3 else 0
  }

  /** What lies between the two setup effects and the deferred calls of
      the given ending is exactly `renders`. */
  predicate RendersBetween(fx: seq<Effect>, ending: Status, renders: seq<Effect>) {
    && |fx| == 2 + |renders| + Closing(ending)
    && fx[2..|fx| - Closing(ending)] == renders
  }

  /** Between setup and the deferred calls a trace holds exactly the
      renders, and it writes exactly the frames they write. */
  lemma TraceMiddle(saved: Terminal.Termios, renders: seq<Effect>, ending: Status)
    requires ending.Returned? || ending.Waiting?
    ensures RendersBetween(Trace(saved, renders, ending), ending, renders)
    ensures Written(Trace(saved, renders, ending)) == Written(renders)
  {
    UnwindFacts(saved);
    var fx := Trace(saved, renders, ending);
    var down := if ending.Returned? then [StopTicker, Print(Terminal.AltScreenLeave), Restore(saved)] else [];
    assert fx == Setup(saved) + (renders + down);
    WrittenAppend(Setup(saved), renders + down);
    WrittenAppend(renders, down);
    WrittenNone(Setup(saved));
    WrittenNone(down);
  }

  /** Between setup and the deferred calls a returned or waiting call holds
      exactly the initial render and one render per resize or tick before
      the first signal, in order. */
  lemma RunRenders(w: Config.Watcher, systemHostname: string, cmdArgs: seq<string>,
                   current: Option<Terminal.Termios>, applied: bool,
                   first: Render.Cycle, events: seq<Event>)
    requires |cmdArgs| > 0
    ensures var o := Run(w, systemHostname, cmdArgs, current, applied, first, events);
            (o.status.Returned? || o.status.Waiting?) ==>
              RendersBetween(o.effects, o.status,
                             RenderAll(Config.Resolve(w, systemHostname), cmdArgs, [first] + Loop(events).rendered))
  {
    var o := Run(w, systemHostname, cmdArgs, current, applied, first, events);
    if o.status.Returned? || o.status.Waiting? {
      var cycles := [first] + Loop(events).rendered;
      TraceMiddle(current.value, RenderAll(Config.Resolve(w, systemHostname), cmdArgs, cycles), o.status);
    }
  }

  /** The frames a whole call writes are those of the initial render and of
      each resize or tick before the first signal whose command started, in
      order. */
  lemma RunWrites(w: Config.Watcher, systemHostname: string, cmdArgs: seq<string>,
                  current: Option<Terminal.Termios>, applied: bool,
                  first: Render.Cycle, events: seq<Event>)
    requires |cmdArgs| > 0
    ensures var o := Run(w, systemHostname, cmdArgs, current, applied, first, events);
            (o.status.Returned? || o.status.Waiting?) ==>
              Written(o.effects)
              == StartedFrames(Config.Resolve(w, systemHostname), cmdArgs, [first] + Loop(events).rendered)
  {
    var o := Run(w, systemHostname, cmdArgs, current, applied, first, events);
    if o.status.Returned? || o.status.Waiting? {
      var s := Config.Resolve(w, systemHostname);
      var cycles := [first] + Loop(events).rendered;
      var renders := RenderAll(s, cmdArgs, cycles);
      RenderAllWrites(s, cmdArgs, cycles);
      TraceMiddle(current.value, renders, o.status);
    }
  }

  /** Effects that are not writes contribute no frames. */
  lemma {:induction false} WrittenNone(fx: seq<Effect>)
    requires forall i :: 0 <= i < |fx| ==> !fx[i].Write?
    ensures Written(fx) == []
    decreases |fx|
  {
    if |fx| > 0 {
      WrittenNone(fx[1..]);
    }
  }

  /** The ticker is stopped once, just before the screen is left. */
  predicate StopsTickerOnce(fx: seq<Effect>) {
    forall i :: 0 <= i < |fx| ==> (fx[i].StopTicker? <==> i == |fx| - 3)
  }

  /** Every call that got past the attribute calls starts the same way:
      cbreak mode first, then the alternate screen, each only there. */
  lemma TraceSetup(saved: Terminal.Termios, renders: seq<Effect>, ending: Status)
    requires ending.Panicked? || ending.Returned? || ending.Waiting?
    requires RendersOnly(renders)
    ensures OpensOnce(saved, Trace(saved, renders, ending))
  {
    UnwindFacts(saved);
    var rest := match ending
      case Panicked => Unwind(Deferred(saved))
      case Returned => renders + Unwind(Deferred(saved) + [StopTicker])
      case Waiting => renders;
    assert Trace(saved, renders, ending) == Setup(saved) + rest;
    forall i | 0 <= i < |rest| ensures !rest[i].EnterCBreak? && rest[i] != Print(Terminal.AltScreenEnter) {
      if ending.Returned? && i >= |renders| {
        assert rest[i] == Unwind(Deferred(saved) + [StopTicker])[i - |renders|];
      }
    }
    SetupThen(saved, rest);
  }

  /** Setup followed by anything that neither enters cbreak mode nor the
      alternate screen opens the terminal once. */
  lemma SetupThen(saved: Terminal.Termios, rest: seq<Effect>)
    requires forall i :: 0 <= i < |rest| ==> !rest[i].EnterCBreak? && rest[i] != Print(Terminal.AltScreenEnter)
    ensures OpensOnce(saved, Setup(saved) + rest)
  {
    var fx := Setup(saved) + rest;
    assert forall i :: 2 <= i < |fx| ==> fx[i] == rest[i - 2];
  }

  /** The deferred calls as they run, for each way of leaving. */
  lemma UnwindFacts(saved: Terminal.Termios)
    ensures Unwind(Deferred(saved)) == [Print(Terminal.AltScreenLeave), Restore(saved)]
    ensures Unwind(Deferred(saved) + [StopTicker])
            == [StopTicker, Print(Terminal.AltScreenLeave), Restore(saved)]
  {
  }

  /** When the ticker cannot be created the two deferred calls registered
      so far run, screen first, and nothing is rendered. */
  lemma PanicTeardown(saved: Terminal.Termios)
    ensures Trace(saved, [], Panicked)
            == [EnterCBreak(Terminal.CBreak(saved)), Print(Terminal.AltScreenEnter),
                Print(Terminal.AltScreenLeave), Restore(saved)]
  {
    UnwindFacts(saved);
  }

  /** When a signal ends the loop the ticker is stopped, the screen is
      restored and the saved attributes are applied, in that order, and
      each of the three happens nowhere else. */
  lemma ReturnTeardown(saved: Terminal.Termios, renders: seq<Effect>)
    requires RendersOnly(renders)
    ensures var fx := Trace(saved, renders, Returned);
            && |fx| >= 5
            && fx[|fx| - 3..] == [StopTicker, Print(Terminal.AltScreenLeave), Restore(saved)]
            && ClosesOnce(saved, fx)
            && StopsTickerOnce(fx)
  {
    var fx := Trace(saved, renders, Returned);
    var shown := Setup(saved) + renders;
    var down := [StopTicker, Print(Terminal.AltScreenLeave), Restore(saved)];
    UnwindFacts(saved);
    assert fx == shown + down;
    assert forall i :: 2 <= i < |shown| ==> shown[i] == renders[i - 2];
    assert forall i :: |shown| <= i < |fx| ==> fx[i] == down[i - |shown|];
  }

  /** While the loop is still waiting the screen has not been left and
      nothing has been restored. */
  lemma WaitingKeepsTerminal(saved: Terminal.Termios, renders: seq<Effect>)
    requires RendersOnly(renders)
    ensures KeepsTerminal(Trace(saved, renders, Waiting))
  {
    var shown := Setup(saved) + renders;
    assert forall i :: 2 <= i < |shown| ==> shown[i] == renders[i - 2];
  }
}
