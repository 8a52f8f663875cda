/** The joystick control loop: one tick reads the stick, filters it, sends
    one motion command and any gripper commands, and decides whether to go
    on; the manual-move panel starts such loops and sends the arm home. */
module ControlLoop {
  import opened Poses
  import opened Jog
  import opened ArmCommands

  const GRIPPER_CLOSED_BUTTON: nat := 0
  const GRIPPER_OPEN_BUTTON: nat := 1
  const EXIT_BUTTON: nat := 6
  const GRIPPER_CLOSED: int := 270

  /** The first four joystick axes, by index. */
  datatype RawAxes = RawAxes(axis0: real, axis1: real, axis2: real, axis3: real)

  /** Axis 0 is x, axis 1 is y, axis 3 is z and axis 2 is rotation. */
  function Sample(raw: RawAxes): Axes {
    Axes(raw.axis0, raw.axis1, raw.axis3, raw.axis2)
  }

  /** What one tick observes: whether a window-close event was among the
      events drained, the stick, the buttons held down, and the arm's pose
      as reported when a step move reads it. */
  datatype Tick = Tick(quitEvent: bool, raw: RawAxes, pressed: set<nat>, pose: Pose)

  /** The loop ends after this tick. */
  predicate Stops(t: Tick) {
    t.quitEvent || EXIT_BUTTON in t.pressed
  }

  /** The arm mode a loop in `mode` switches to on every tick. */
  function ModeNumber(mode: string): int {
    if mode == "step" then POSITION_MODE else VELOCITY_MODE
  }

  /** The commands a control loop or the panel's Go Home button sends: a
      switch to position or velocity mode, the ready state, an absolute move
      at the usual speed, a velocity, or the gripper opened or closed. */
  predicate LoopCommand(c: Command) {
    || (c.SetMode? && (c.mode == POSITION_MODE || c.mode == VELOCITY_MODE))
    || (c.SetState? && c.state == READY)
    || (c.MoveTo? && c.speed == MOVE_SPEED)
    || c.CartesianVelocity?
    || (c.Gripper? && (c.width == GRIPPER_OPEN || c.width == GRIPPER_CLOSED))
  }

  function Motion(mode: string, increment: real, speed: real, t: Tick): seq<Command> {
    var a := Filter(Sample(t.raw));
    if mode == "step" then
      [SetMode(POSITION_MODE), SetState(READY), MoveTo(StepTarget(t.pose, a, increment), MOVE_SPEED)]
    else
      [SetMode(VELOCITY_MODE), SetState(READY), CartesianVelocity(VelocityCommand(a, speed))]
  }

  function GripperCommands(pressed: set<nat>): seq<Command> {
    (if GRIPPER_OPEN_BUTTON in pressed then [Gripper(GRIPPER_OPEN)] else [])
    + (if GRIPPER_CLOSED_BUTTON in pressed then [Gripper(GRIPPER_CLOSED)] else [])
  }

  /** The commands of one tick: the mode switch (re-sent every tick), exactly
      one motion command, a step for the "step" mode and a velocity for any
      other mode string, computed from the deadzone-filtered stick; then
      open the gripper if its button is held, then close it if that one is. */
  function TickCommands(mode: string, increment: real, speed: real, t: Tick): (cs: seq<Command>)
    ensures |cs| == 3 + (if GRIPPER_OPEN_BUTTON in t.pressed then 1 else 0)
      + (if GRIPPER_CLOSED_BUTTON in t.pressed then 1 else 0)
    ensures IsMotion(cs[2]) && forall k :: 0 <= k < |cs| && k != 2 ==> !IsMotion(cs[k])
    ensures cs[2].MoveTo? <==> mode == "step"
    ensures cs[0] == SetMode(if mode == "step" then POSITION_MODE else VELOCITY_MODE)
    ensures cs[1] == SetState(READY)
    ensures var stick := Filter(Axes(t.raw.axis0, t.raw.axis1, t.raw.axis3, t.raw.axis2));
      && (cs[2].MoveTo? ==> cs[2] == MoveTo(StepTarget(t.pose, stick, increment), MOVE_SPEED))
      && (cs[2].CartesianVelocity? ==> cs[2].velocity == VelocityCommand(stick, speed))
    ensures forall k :: 3 <= k < |cs| ==> cs[k] == Gripper(GRIPPER_OPEN) || cs[k] == Gripper(GRIPPER_CLOSED)
    ensures Gripper(GRIPPER_OPEN) in cs <==> GRIPPER_OPEN_BUTTON in t.pressed
    ensures Gripper(GRIPPER_CLOSED) in cs <==> GRIPPER_CLOSED_BUTTON in t.pressed
    ensures |cs| == 5 ==> cs[3] == Gripper(GRIPPER_OPEN) && cs[4] == Gripper(GRIPPER_CLOSED)
    ensures forall c :: c in cs ==> LoopCommand(c) && Operating(c)
  {
    Motion(mode, increment, speed, t) + GripperCommands(t.pressed)
  }

  /** The commands a loop sent and whether its thread has ended. */
  datatype LoopRun = LoopRun(trace: seq<Command>, stopped: bool)

  /** The control loop over the ticks observed: every tick runs in full,
      and the loop ends after the first tick that stops it; if none does it
      is still running when the observations run out. */
  function Loop(mode: string, increment: real, speed: real, ticks: seq<Tick>): (r: LoopRun)
    ensures r.stopped <==> exists k :: 0 <= k < |ticks| && (ticks[k].quitEvent || EXIT_BUTTON in ticks[k].pressed)
    ensures forall c :: c in r.trace ==> LoopCommand(c) && Operating(c)
  {
    if ticks == [] then LoopRun([], false)
    else
      var now := TickCommands(mode, increment, speed, ticks[0]);
      if Stops(ticks[0]) then LoopRun(now, true)
      else
        var rest := Loop(mode, increment, speed, ticks[1..]);
        assert forall k :: 1 <= k < |ticks| ==> ticks[k] == ticks[1..][k - 1];
        LoopRun(now + rest.trace, rest.stopped)
  }

  /** Every tick's commands in order, as if none stopped the loop. */
  function EachTick(mode: string, increment: real, speed: real, ticks: seq<Tick>): seq<Command> {
    if ticks == [] then []
    else TickCommands(mode, increment, speed, ticks[0]) + EachTick(mode, increment, speed, ticks[1..])
  }

  /** A loop observing a single tick sends that tick's commands and has
      ended exactly when the tick stops it. */
  lemma LoopOne(mode: string, increment: real, speed: real, t: Tick)
    ensures Loop(mode, increment, speed, [t]) == LoopRun(TickCommands(mode, increment, speed, t), Stops(t))
  {
    assert [t][1..] == [];
  }

  /** A loop whose first tick does not stop it sends that tick's commands,
      then whatever a loop over the remaining ticks sends. */
  lemma LoopContinues(mode: string, increment: real, speed: real, ticks: seq<Tick>)
    requires ticks != [] && !Stops(ticks[0])
    ensures var rest := Loop(mode, increment, speed, ticks[1..]);
      Loop(mode, increment, speed, ticks) == LoopRun(TickCommands(mode, increment, speed, ticks[0]) + rest.trace, rest.stopped)
  {
  }

  /** Observing more ticks extends the loop: a loop that has ended ignores
      them, and one still running sends what a fresh loop over them would. */
  lemma {:induction false} LoopConcat(mode: string, increment: real, speed: real, a: seq<Tick>, b: seq<Tick>)
    ensures var ra, rb := Loop(mode, increment, speed, a), Loop(mode, increment, speed, b);
      Loop(mode, increment, speed, a + b) == if ra.stopped then ra else LoopRun(ra.trace + rb.trace, rb.stopped)
  {
    if a == [] {
      assert a + b == b;
    } else if Stops(a[0]) {
      assert (a + b)[0] == a[0];
    } else {
      LoopConcat(mode, increment, speed, a[1..], b);
      var now := TickCommands(mode, increment, speed, a[0]);
      var ra, rab := Loop(mode, increment, speed, a[1..]), Loop(mode, increment, speed, a[1..] + b);
      assert Loop(mode, increment, speed, a) == LoopRun(now + ra.trace, ra.stopped) by {
        LoopContinues(mode, increment, speed, a);
      }
      LoopContinuesInto(mode, increment, speed, a, b);
      PrependCommands(now, ra, Loop(mode, increment, speed, b), rab);
    }
  }

  lemma LoopContinuesInto(mode: string, increment: real, speed: real, a: seq<Tick>, b: seq<Tick>)
    requires a != [] && !Stops(a[0])
    ensures var rab := Loop(mode, increment, speed, a[1..] + b);
      Loop(mode, increment, speed, a + b) == LoopRun(TickCommands(mode, increment, speed, a[0]) + rab.trace, rab.stopped)
  {
    assert (a + b)[0] == a[0];
    assert (a + b)[1..] == a[1..] + b;
    LoopContinues(mode, increment, speed, a + b);
  }

  /** Sending the same commands before two runs keeps them related as a run
      is to its extension. */
  lemma PrependCommands(now: seq<Command>, ra: LoopRun, rb: LoopRun, rab: LoopRun)
    requires rab == if ra.stopped then ra else LoopRun(ra.trace + rb.trace, rb.stopped)
    ensures var x := LoopRun(now + ra.trace, ra.stopped);
      LoopRun(now + rab.trace, rab.stopped) == if x.stopped then x else LoopRun(x.trace + rb.trace, rb.stopped)
  {
    if !ra.stopped {
      ConcatAssoc(now, ra.trace, rb.trace);
    }
  }

  /** The loop sends, in order, the full commands of every tick up to and
      including the first that stops it, and nothing else. */
  lemma {:induction false} LoopSendsEachTick(mode: string, increment: real, speed: real, ticks: seq<Tick>)
    ensures Loop(mode, increment, speed, ticks).trace == EachTick(mode, increment, speed, ticks[..TicksRun(ticks)])
  {
    if ticks != [] {
      if Stops(ticks[0]) {
        assert ticks[..1] == [ticks[0]];
        assert ticks[..1][1..] == [];
      } else {
        LoopSendsEachTick(mode, increment, speed, ticks[1..]);
        LoopSendsEachTickStep(mode, increment, speed, ticks);
      }
    }
  }

  lemma LoopSendsEachTickStep(mode: string, increment: real, speed: real, ticks: seq<Tick>)
    requires ticks != [] && !Stops(ticks[0])
    requires Loop(mode, increment, speed, ticks[1..]).trace == EachTick(mode, increment, speed, ticks[1..][..TicksRun(ticks[1..])])
    ensures Loop(mode, increment, speed, ticks).trace == EachTick(mode, increment, speed, ticks[..TicksRun(ticks)])
  {
    var n := TicksRun(ticks);
    assert ticks[..n][0] == ticks[0];
    assert ticks[..n][1..] == ticks[1..][..n - 1];
    LoopContinues(mode, increment, speed, ticks);
  }

  lemma ConcatAssoc<T>(a: seq<T>, b: seq<T>, c: seq<T>)
    ensures a + (b + c) == (a + b) + c
  {
  }

  /** How many ticks run: up to and including the first that stops the
      loop, or all of them. */
  function TicksRun(ticks: seq<Tick>): (n: nat)
    ensures n <= |ticks| && (ticks != [] ==> n > 0)
    ensures forall k :: 0 <= k < n - 1 ==> !Stops(ticks[k])
    ensures n < |ticks| ==> Stops(ticks[n - 1])
  {
    if ticks == [] then 0
    else if Stops(ticks[0]) then 1
    else
      var n := 1 + TicksRun(ticks[1..]);
      assert forall k :: 1 <= k < |ticks| ==> ticks[k] == ticks[1..][k - 1];
      n
  }

  /** The number of motion commands in a trace. */
  function Motions(cs: seq<Command>): nat {
    if cs == [] then 0 else (if IsMotion(cs[0]) then 1 else 0) + Motions(cs[1..])
  }

  lemma {:induction false} MotionsConcat(a: seq<Command>, b: seq<Command>)
    ensures Motions(a + b) == Motions(a) + Motions(b)
  {
    if a == [] {
      assert a + b == b;
    } else {
      assert (a + b)[1..] == a[1..] + b;
      MotionsConcat(a[1..], b);
    }
  }

  lemma MotionsSingle(c: Command)
    ensures Motions([c]) == if IsMotion(c) then 1 else 0
  {
    assert [c][1..] == [];
  }

  lemma {:induction false} TickHasOneMotion(mode: string, increment: real, speed: real, t: Tick)
    ensures Motions(TickCommands(mode, increment, speed, t)) == 1
  {
    var cs := TickCommands(mode, increment, speed, t);
    var m := Motion(mode, increment, speed, t);
    var g := GripperCommands(t.pressed);
    MotionsConcat(m, g);
    assert m == [m[0]] + [m[1]] + [m[2]];
    MotionsSingle(m[0]);
    MotionsSingle(m[1]);
    MotionsSingle(m[2]);
    MotionsConcat([m[0]], [m[1]]);
    MotionsConcat([m[0]] + [m[1]], [m[2]]);
    var o := if GRIPPER_OPEN_BUTTON in t.pressed then [Gripper(GRIPPER_OPEN)] else [];
    var c := if GRIPPER_CLOSED_BUTTON in t.pressed then [Gripper(GRIPPER_CLOSED)] else [];
    MotionsConcat(o, c);
    MotionsSingle(Gripper(GRIPPER_OPEN));
    MotionsSingle(Gripper(GRIPPER_CLOSED));
  }

  /** Exactly one motion command is sent per tick that runs. */
  lemma {:induction false} OneMotionPerTick(mode: string, increment: real, speed: real, ticks: seq<Tick>)
    ensures Motions(Loop(mode, increment, speed, ticks).trace) == TicksRun(ticks)
  {
    if ticks != [] {
      TickHasOneMotion(mode, increment, speed, ticks[0]);
      if !Stops(ticks[0]) {
        OneMotionPerTick(mode, increment, speed, ticks[1..]);
        MotionsConcat(TickCommands(mode, increment, speed, ticks[0]),
                      Loop(mode, increment, speed, ticks[1..]).trace);
      }
    }
  }

  /** Nothing observed after the stopping tick has any effect. */
  lemma {:induction false} LoopEndsAtFirstStop(mode: string, increment: real, speed: real, ticks: seq<Tick>)
    ensures Loop(mode, increment, speed, ticks) == Loop(mode, increment, speed, ticks[..TicksRun(ticks)])
  {
    if ticks != [] && !Stops(ticks[0]) {
      var n := TicksRun(ticks);
      assert ticks[..n][1..] == ticks[1..][..n - 1];
      LoopEndsAtFirstStop(mode, increment, speed, ticks[1..]);
    }
  }

  /** A panel text field as Python's `float` reads it: a finite number, an
      infinity or not-a-number ("inf", "nan", "1e999"), or text that is not
      a number at all. */
  datatype Parsed = Finite(value: real) | NonFinite | Unparsable

  /** Parameters the panel uses when a text field does not parse. */
  const DEFAULT_INCREMENT: real := 5.0
  const DEFAULT_SPEED: real := 100.0

  /** What the panel passes on for a field: the default in place of text
      that is not a number. */
  function Resolve(p: Parsed, default: real): (q: Parsed)
    ensures !q.Unparsable?
    ensures p.Unparsable? ==> q == Finite(default)
    ensures !p.Unparsable? ==> q == p
  {
    if p.Unparsable? then Finite(default) else p
  }

  /** A real to hand to the loop for a field; a field that is not finite
      never reaches a computation, so its stand-in is never used. */
  function FiniteOr(p: Parsed): real {
    if p.Finite? then p.value else 0.0
  }

  /** A loop started from the panel with the two fields as parsed. The mode
      computes with the increment for "step" and with the speed otherwise.
      If that field is not finite, the first tick switches the mode and then
      fails converting it to an integer; the failure ends the loop's thread
      without a word. */
  function StartLoop(mode: string, increment: Parsed, speed: Parsed, ticks: seq<Tick>): (r: LoopRun)
    ensures forall c :: c in r.trace ==> LoopCommand(c) && Operating(c)
  {
    var inc, spd := Resolve(increment, DEFAULT_INCREMENT), Resolve(speed, DEFAULT_SPEED);
    var used := if mode == "step" then inc else spd;
    if used.NonFinite? then
      if ticks == [] then LoopRun([], false)
      else LoopRun([SetMode(ModeNumber(mode)), SetState(READY)], true)
    else Loop(mode, FiniteOr(inc), FiniteOr(spd), ticks)
  }

  /** A step loop never reads the speed and a velocity loop never reads the
      increment. */
  lemma {:induction false} LoopIgnoresUnusedField(mode: string, i1: real, i2: real, s1: real, s2: real, ticks: seq<Tick>)
    requires mode == "step" ==> i1 == i2
    requires mode != "step" ==> s1 == s2
    ensures Loop(mode, i1, s1, ticks) == Loop(mode, i2, s2, ticks)
  {
    if ticks != [] {
      assert TickCommands(mode, i1, s1, ticks[0]) == TickCommands(mode, i2, s2, ticks[0]);
      LoopIgnoresUnusedField(mode, i1, i2, s1, s2, ticks[1..]);
    }
  }

  /** Only the field the mode uses matters; the other may hold anything,
      even text that is not a number or an infinity. */
  lemma UnusedFieldIgnored(mode: string, increment: Parsed, speed: Parsed, other: Parsed, ticks: seq<Tick>)
    ensures mode == "step" ==> StartLoop(mode, increment, speed, ticks) == StartLoop(mode, increment, other, ticks)
    ensures mode != "step" ==> StartLoop(mode, increment, speed, ticks) == StartLoop(mode, other, speed, ticks)
  {
    var inc, spd := Resolve(increment, DEFAULT_INCREMENT), Resolve(speed, DEFAULT_SPEED);
    var inc', spd' := Resolve(other, DEFAULT_INCREMENT), Resolve(other, DEFAULT_SPEED);
    if mode == "step" {
      LoopIgnoresUnusedField(mode, FiniteOr(inc), FiniteOr(inc), FiniteOr(spd), FiniteOr(spd'), ticks);
    } else {
      LoopIgnoresUnusedField(mode, FiniteOr(inc), FiniteOr(inc'), FiniteOr(spd), FiniteOr(spd), ticks);
    }
  }

  /** A non-finite value in the field the mode uses ends the loop on its
      first tick, after the mode switch and before any motion: the thread
      ends and nothing moves. */
  lemma NonFiniteFieldEndsLoop(mode: string, increment: Parsed, speed: Parsed, ticks: seq<Tick>, i: real, v: real)
    requires ticks != []
    requires (if mode == "step" then increment else speed).NonFinite?
    ensures var r := StartLoop(mode, increment, speed, ticks);
      && r.stopped && r.trace == TickCommands(mode, i, v, ticks[0])[..2]
      && forall c :: c in r.trace ==> !IsMotion(c)
  {
  }

  /** What the operator does on the manual-move panel, in order, before
      closing it: press Start with the mode chosen and the two fields as
      parsed, followed by the ticks its loop observes, or press Go Home. */
  datatype PanelEvent =
    | StartPressed(mode: string, increment: Parsed, speed: Parsed, ticks: seq<Tick>)
    | HomePressed

  /** The commands a panel visit sent and whether the Start button is
      enabled at its end, that is, no loop it started is still running. */
  datatype PanelRun = PanelRun(trace: seq<Command>, idle: bool)

  /** The panel from a point where the Start button is enabled (`idle`) or
      disabled because a loop started from it is still running. Start
      disables the button until its loop's thread ends, so a press while it
      is disabled does nothing; Go Home always sends the arm home. */
  function PanelFrom(idle: bool, events: seq<PanelEvent>): (r: PanelRun)
    ensures forall c :: c in r.trace ==> LoopCommand(c) && Operating(c)
    ensures !idle ==> !r.idle && forall c :: c in r.trace ==> c in GO_HOME
  {
    if events == [] then PanelRun([], idle)
    else
      match events[0]
      case StartPressed(mode, increment, speed, ticks) =>
        if idle then
          var run := StartLoop(mode, increment, speed, ticks);
          var rest := PanelFrom(run.stopped, events[1..]);
          PanelRun(run.trace + rest.trace, rest.idle)
        else PanelFrom(false, events[1..])
      case HomePressed =>
        var rest := PanelFrom(idle, events[1..]);
        PanelRun(GO_HOME + rest.trace, rest.idle)
  }

  /** One visit to the manual-move panel, which opens with Start enabled.
      It only switches modes, moves the arm and works the gripper: it never
      persists anything or releases the controller or the arm. */
  function Panel(events: seq<PanelEvent>): (cs: seq<Command>)
    ensures forall c :: c in cs ==> LoopCommand(c) && Operating(c)
  {
    PanelFrom(true, events).trace
  }

  /** No loop started from the panel is still running when it closes. */
  predicate Settles(events: seq<PanelEvent>) {
    PanelFrom(true, events).idle
  }

  /** The Go Home presses among the events, in order. */
  function HomePresses(events: seq<PanelEvent>): (hs: seq<PanelEvent>)
    ensures forall e :: e in hs ==> e == HomePressed
    ensures |hs| <= |events|
  {
    if events == [] then []
    else (if events[0].HomePressed? then [HomePressed] else []) + HomePresses(events[1..])
  }

  lemma {:induction false} DisabledStartIgnored(events: seq<PanelEvent>)
    ensures PanelFrom(false, events) == PanelFrom(false, HomePresses(events))
  {
    if events != [] {
      DisabledStartIgnored(events[1..]);
      var hs := HomePresses(events[1..]);
      if events[0].HomePressed? {
        assert HomePresses(events) == [HomePressed] + hs;
        assert ([HomePressed] + hs)[1..] == hs;
      } else {
        assert HomePresses(events) == hs;
      }
    }
  }

  /** While a loop started from the panel is still running, further Start
      presses have no effect: only the Go Home presses after it count. */
  lemma StartDisabledWhileRunning(first: PanelEvent, rest: seq<PanelEvent>)
    requires first.StartPressed?
    requires !StartLoop(first.mode, first.increment, first.speed, first.ticks).stopped
    ensures Panel([first] + rest) == Panel([first] + HomePresses(rest))
  {
    assert ([first] + rest)[1..] == rest;
    assert ([first] + HomePresses(rest))[1..] == HomePresses(rest);
    DisabledStartIgnored(rest);
  }

  /** A field that does not parse behaves as if the default had been typed. */
  lemma UnparsedFieldsUseDefaults(mode: string, ticks: seq<Tick>, increment: Parsed, speed: Parsed)
    ensures StartLoop(mode, Unparsable, speed, ticks) == StartLoop(mode, Finite(DEFAULT_INCREMENT), speed, ticks)
    ensures StartLoop(mode, increment, Unparsable, ticks) == StartLoop(mode, increment, Finite(DEFAULT_SPEED), ticks)
  {
  }
}
