/** GOTO mode: replaying a taught sequence out to a location and back,
    closing or opening the gripper at the far end. */
module GotoMode {
  import opened Poses
  import opened Waypoints
  import opened ArmCommands

  /** Gripper width for holding a picked-up part. */
  const PICKUP_WIDTH: int := 800
  /** Gripper width for releasing a part. */
  const DROPOFF_WIDTH: int := GRIPPER_OPEN
  /** Speed of blended moves through a sequence, mm/s. */
  const ARC_SPEED: int := 300

  /** The commands the GOTO window's buttons send: a blended move at the arc
      speed, the gripper to the pickup or dropoff width, or the go-home
      sequence (position mode, ready, the move home). */
  predicate GotoCommand(c: Command) {
    || (c.ArcLines? && c.speed == ARC_SPEED)
    || (c.Gripper? && (c.width == PICKUP_WIDTH || c.width == DROPOFF_WIDTH))
    || (c.SetMode? && c.mode == POSITION_MODE)
    || (c.SetState? && c.state == READY)
    || (c.MoveTo? && c.target == Home && c.speed == MOVE_SPEED)
  }

  /** The commands one pickup or dropoff sent, and whether it got through
      without a lookup failing. */
  datatype TransferRun = TransferRun(trace: seq<Command>, completed: bool)

  /** Out through the sequence named `location`, set the gripper to `width`,
      and back through the sequence under its reverse key. A missing key
      aborts the action at the point it is looked up: a missing location
      sends nothing, a missing reverse key sends the outward move and the
      gripper command only. */
  function Transfer(index: Index, location: string, width: int): (r: TransferRun)
    ensures r.completed <==> location in index && ReverseKey(location) in index
    ensures location !in index ==> r.trace == []
    ensures location in index ==>
      |r.trace| >= 2 && r.trace[0] == ArcLines(index[location], ARC_SPEED) && r.trace[1] == Gripper(width)
    ensures r.completed ==> |r.trace| == 3 && r.trace[2] == ArcLines(index[ReverseKey(location)], ARC_SPEED)
    ensures !r.completed ==> |r.trace| <= 2
    ensures (width == PICKUP_WIDTH || width == DROPOFF_WIDTH) ==> forall c :: c in r.trace ==> GotoCommand(c)
  {
    if location !in index then TransferRun([], false)
    else
      var outward := [ArcLines(index[location], ARC_SPEED), Gripper(width)];
      if ReverseKey(location) !in index then TransferRun(outward, false)
      else TransferRun(outward + [ArcLines(index[ReverseKey(location)], ARC_SPEED)], true)
  }

  function Pickup(index: Index, location: string): TransferRun {
    Transfer(index, location, PICKUP_WIDTH)
  }

  function Dropoff(index: Index, location: string): TransferRun {
    Transfer(index, location, DROPOFF_WIDTH)
  }

  /** Pickup and dropoff differ only in the gripper width at the far end,
      800 to hold a part and 850 to let it go: the same moves are sent and
      the same lookups fail. */
  lemma PickupAndDropoffDifferInGrip(index: Index, location: string)
    ensures var p, d := Pickup(index, location), Dropoff(index, location);
      && p.completed == d.completed && |p.trace| == |d.trace|
      && (forall k :: 0 <= k < |p.trace| && k != 1 ==> p.trace[k] == d.trace[k])
      && (|p.trace| > 1 ==> p.trace[1] == Gripper(800) && d.trace[1] == Gripper(850))
  {
  }

  /** A transfer looks up only the location and its reverse key. */
  lemma TransferReadsTwoKeys(index: Index, other: Index, location: string, width: int)
    requires location in index <==> location in other
    requires location in index ==> index[location] == other[location]
    requires ReverseKey(location) in index <==> ReverseKey(location) in other
    requires ReverseKey(location) in index ==> index[ReverseKey(location)] == other[ReverseKey(location)]
    ensures Transfer(index, location, width) == Transfer(other, location, width)
  {
  }

  lemma TransferThereAndBack(index: Index, location: string, width: int)
    requires location in index && ReverseKey(location) in index
    ensures Transfer(index, location, width) == TransferRun([ArcLines(index[location], ARC_SPEED),
      Gripper(width), ArcLines(index[ReverseKey(location)], ARC_SPEED)], true)
  {
  }

  /** Picking up (width 800) or dropping off (width 850) at a column of a
      table without clashing names moves through the column's poses, sets
      the gripper, and comes back through the same poses in reverse order. */
  lemma TransferRetracesColumn(table: Table, i: int, width: int)
    requires Unambiguous(table) && 0 <= i < |table|
    ensures var path := Present(table[i].cells);
      Transfer(BuildIndex(table), table[i].name, width)
        == TransferRun([ArcLines(path, ARC_SPEED), Gripper(width), ArcLines(Reverse(path), ARC_SPEED)], true)
  {
    IndexOfUnambiguous(table, i);
    TransferThereAndBack(BuildIndex(table), table[i].name, width);
  }

  /** The buttons pressed in the GOTO window, in order, before closing it.
      The location is whatever the selection box holds. */
  datatype GotoAction = PickupPressed(location: string) | DropoffPressed(location: string) | GotoHomePressed

  function ActionCommands(index: Index, a: GotoAction): seq<Command> {
    match a
    case PickupPressed(location) => Pickup(index, location).trace
    case DropoffPressed(location) => Dropoff(index, location).trace
    case GotoHomePressed => GO_HOME
  }

  /** The actions' commands in order; an action whose lookup failed is
      reported and the window carries on with the next one. */
  function Actions(index: Index, actions: seq<GotoAction>): (cs: seq<Command>)
    ensures forall c :: c in cs ==> GotoCommand(c) && Operating(c)
  {
    if actions == [] then []
    else ActionCommands(index, actions[0]) + Actions(index, actions[1..])
  }

  /** One visit to GOTO mode: the table as read from the spreadsheet and the
      buttons pressed. */
  datatype GotoInput = GotoInput(table: Table, actions: seq<GotoAction>)

  datatype GotoRun = GotoRun(trace: seq<Command>, crashed: bool)

  /** GOTO mode builds the index from the table and runs the actions. With
      no columns, selecting the first entry of the empty selection box fails
      and the failure ends the program before anything is sent. The mode
      never writes the table. */
  function Goto(g: GotoInput): (r: GotoRun)
    ensures r.crashed <==> g.table == []
    ensures r.crashed ==> r.trace == []
    ensures forall c :: c in r.trace ==> GotoCommand(c) && Operating(c)
  {
    if g.table == [] then GotoRun([], true)
    else GotoRun(Actions(BuildIndex(g.table), g.actions), false)
  }
}
