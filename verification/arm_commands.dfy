/** The commands the controller sends to the arm and the other collaborators,
    as abstract values: a run of the controller is a trace of these. */
module ArmCommands {
  import opened Poses
  import opened Optional
  import opened Jog
  import opened Waypoints

  /** Arm control modes. */
  const POSITION_MODE: int := 0
  const VELOCITY_MODE: int := 5
  /** The arm's ready state. */
  const READY: int := 0
  /** Speed of absolute moves, mm/s. */
  const MOVE_SPEED: int := 400
  const GRIPPER_SPEED: int := 1000
  /** Gripper width for "open". */
  const GRIPPER_OPEN: int := 850

  datatype Command =
    /** Open the connection to the arm. */
    | Connect
    | EnableMotion
    | SetMode(mode: int)
    | SetState(state: int)
    | SetGripperMode(gripperMode: int)
    | EnableGripper
    | SetGripperSpeed(gripperSpeed: int)
    /** Move the gripper to a width and wait for it. */
    | Gripper(width: int)
    /** Absolute move to a pose at a speed, waiting for it to finish. */
    | MoveTo(target: Pose, speed: int)
    /** Keep moving at a cartesian velocity until told otherwise. */
    | CartesianVelocity(velocity: Velocity)
    /** Blended move through the poses in order, waiting for it to finish. */
    | ArcLines(path: seq<Pose>, speed: int)
    /** Write the waypoint table back to the spreadsheet. */
    | SaveWaypoints(table: Table)
    /** Release the game controller. */
    | ReleasePad
    | Disconnect

  /** Connecting: open the connection, enable motion, position mode, set the
      gripper up and open it, then move home. */
  const CONNECT: seq<Command> := [
    Connect, EnableMotion, SetMode(POSITION_MODE), SetState(READY),
    SetGripperMode(0), EnableGripper, SetGripperSpeed(GRIPPER_SPEED), Gripper(GRIPPER_OPEN),
    MoveTo(Home, MOVE_SPEED)
  ]

  /** Connecting neither releases the controller nor disconnects. */
  lemma ConnectReleasesNothing()
    ensures Disconnect !in CONNECT && ReleasePad !in CONNECT
  {
    assert forall c :: c in CONNECT ==> !c.Disconnect? && !c.ReleasePad?;
  }

  /** Going home re-enters position mode before the move. */
  const GO_HOME: seq<Command> := [SetMode(POSITION_MODE), SetState(READY), MoveTo(Home, MOVE_SPEED)]

  /** Leaving the program: home, then release the controller, then the arm. */
  const SHUTDOWN: seq<Command> := GO_HOME + [ReleasePad, Disconnect]

  /** A command that moves or configures the arm while both sessions stay
      open, and persists nothing. */
  predicate Operating(c: Command) {
    !(c.SaveWaypoints? || c.ReleasePad? || c.Disconnect?)
  }

  /** A command that sets the arm moving. */
  predicate IsMotion(c: Command) {
    c.MoveTo? || c.CartesianVelocity?
  }

  /** What the commands leave behind, as far as later commands depend on it:
      whether the arm is connected and the controller held, the arm's mode
      and state, the gripper width last commanded, and the pose the arm was
      last sent to and reached (`None` while it moves at a velocity). */
  datatype Devices = Devices(connected: bool, padHeld: bool, mode: int, state: int,
                             gripper: Option<int>, at: Option<Pose>)

  /** The effect of one command. */
  function Apply(d: Devices, c: Command): Devices {
    match c
    case Connect => d.(connected := true)
    case SetMode(m) => d.(mode := m)
    case SetState(st) => d.(state := st)
    case Gripper(w) => d.(gripper := Some(w))
    case MoveTo(target, _) => d.(at := Some(target))
    case CartesianVelocity(_) => d.(at := None)
    case ArcLines(path, _) => if path == [] then d else d.(at := Some(path[|path| - 1]))
    case ReleasePad => d.(padHeld := false)
    case Disconnect => d.(connected := false)
    case _ => d
  }

  /** The effect of a trace, command by command. */
  function Replay(d: Devices, cs: seq<Command>): Devices
    decreases |cs|
  {
    if cs == [] then d else Replay(Apply(d, cs[0]), cs[1..])
  }

  /** Whatever the state before, connecting leaves the arm connected, in
      position mode and ready, with the gripper open and the arm at home. */
  lemma ConnectReadiesArm(d: Devices)
    ensures var r := Replay(d, CONNECT);
      && r.connected && r.mode == POSITION_MODE && r.state == READY
      && r.gripper == Some(GRIPPER_OPEN) && r.at == Some(Home) && r.padHeld == d.padHeld
  {
    var setup := [Connect, EnableMotion, SetMode(POSITION_MODE), SetState(READY)];
    var gripper := [SetGripperMode(0), EnableGripper, SetGripperSpeed(GRIPPER_SPEED), Gripper(GRIPPER_OPEN)];
    assert CONNECT == setup + gripper + [MoveTo(Home, MOVE_SPEED)];
    ReplayConcat(d, setup + gripper, [MoveTo(Home, MOVE_SPEED)]);
    ReplayConcat(d, setup, gripper);
    var d1 := Replay(d, setup);
    assert d1 == d.(connected := true, mode := POSITION_MODE, state := READY) by {
      ReplayUnfold(d, setup);
      ReplayUnfold(Apply(d, Connect), setup[1..]);
      ReplayUnfold(Apply(Apply(d, Connect), EnableMotion), setup[2..]);
      ReplayUnfold(Apply(Apply(Apply(d, Connect), EnableMotion), SetMode(POSITION_MODE)), setup[3..]);
    }
    assert Replay(d1, gripper) == d1.(gripper := Some(GRIPPER_OPEN)) by {
      ReplayUnfold(d1, gripper);
      ReplayUnfold(d1, gripper[1..]);
      ReplayUnfold(d1, gripper[2..]);
      ReplayUnfold(d1, gripper[3..]);
    }
    ReplayUnfold(Replay(d, setup + gripper), [MoveTo(Home, MOVE_SPEED)]);
  }

  lemma ReplayUnfold(d: Devices, cs: seq<Command>)
    requires cs != []
    ensures Replay(d, cs) == Replay(Apply(d, cs[0]), cs[1..])
    ensures |cs| == 1 ==> Replay(d, cs) == Apply(d, cs[0])
  {
  }

  lemma {:induction false} ReplayConcat(d: Devices, a: seq<Command>, b: seq<Command>)
    ensures Replay(d, a + b) == Replay(Replay(d, a), b)
    decreases |a|
  {
    if a != [] {
      assert (a + b)[1..] == a[1..] + b;
      assert (a + b)[0] == a[0];
      ReplayConcat(Apply(d, a[0]), a[1..], b);
    } else {
      assert a + b == b;
    }
  }

  /** Going home from any state puts the arm in position mode, ready, at
      home, and changes nothing else. */
  lemma GoHomeFromAnywhere(d: Devices)
    ensures Replay(d, GO_HOME) == d.(mode := POSITION_MODE, state := READY, at := Some(Home))
  {
    var d1 := Apply(d, SetMode(POSITION_MODE));
    var d2 := Apply(d1, SetState(READY));
    ReplayUnfold(d, GO_HOME);
    ReplayUnfold(d1, GO_HOME[1..]);
    ReplayUnfold(d2, GO_HOME[2..]);
  }

  /** Shutting down leaves the arm at home, the controller released and the
      arm disconnected, the gripper as it was. */
  lemma ShutdownParks(d: Devices)
    ensures var r := Replay(d, SHUTDOWN);
      && !r.connected && !r.padHeld && r.at == Some(Home) && r.mode == POSITION_MODE && r.gripper == d.gripper
  {
    var home := Replay(d, GO_HOME);
    ReplayConcat(d, GO_HOME, [ReleasePad, Disconnect]);
    GoHomeFromAnywhere(d);
    ReplayUnfold(home, [ReleasePad, Disconnect]);
    ReplayUnfold(Apply(home, ReleasePad), [Disconnect]);
  }
}
