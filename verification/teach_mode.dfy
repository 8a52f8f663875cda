/** Teach mode: record the arm's pose after homing and after each manual
    move the operator adds, then save the recording as a new column. */
module TeachMode {
  import opened Poses
  import opened Waypoints
  import opened ArmCommands
  import opened ControlLoop
  import GotoMode

  /** One "add" answer: the manual-move panel visit that follows it and the
      pose the arm reports afterwards. */
  datatype TeachRound = TeachRound(panel: seq<PanelEvent>, pose: Pose)

  /** One visit to teach mode: the table as read from the spreadsheet, the
      pose reported after homing, the name entered, and one round per "add"
      answer before the first answer that is not "add". */
  datatype TeachInput = TeachInput(existing: Table, homed: Pose, name: string, rounds: seq<TeachRound>)

  /** The recorded list: the pose after homing, then one pose appended per
      round. */
  function Recorded(homed: Pose, rounds: seq<TeachRound>): (ps: seq<Pose>)
    ensures |ps| == |rounds| + 1 && ps[0] == homed
    ensures forall k :: 0 <= k < |rounds| ==> ps[k + 1] == rounds[k].pose
  {
    if rounds == [] then [homed]
    else Recorded(homed, rounds[..|rounds| - 1]) + [rounds[|rounds| - 1].pose]
  }

  function RoundsCommands(rounds: seq<TeachRound>): (cs: seq<Command>)
    ensures forall c :: c in cs ==> Operating(c)
  {
    if rounds == [] then [] else Panel(rounds[0].panel) + RoundsCommands(rounds[1..])
  }

  /** The table teach mode writes back. */
  function Saved(t: TeachInput): Table {
    Merge(t.existing, t.name, Recorded(t.homed, t.rounds))
  }

  /** Teach mode goes home, runs the manual moves, and saves once, as its
      last command; a visit cut short before then writes nothing. */
  function Teach(t: TeachInput): (cs: seq<Command>)
    ensures |cs| >= 4 && cs[..3] == GO_HOME
    ensures cs[|cs| - 1] == SaveWaypoints(Saved(t))
    ensures forall k :: 0 <= k < |cs| - 1 ==> Operating(cs[k])
  {
    var body := GO_HOME + RoundsCommands(t.rounds);
    assert forall k :: 0 <= k < |body| ==> body[k] in body;
    body + [SaveWaypoints(Saved(t))]
  }

  /** The saved table keeps every existing column, in order and with the
      same poses, and adds the recording as the last column. */
  lemma SavedKeepsColumns(t: TeachInput)
    ensures var saved := Saved(t);
      && |saved| == |t.existing| + 1
      && (forall i :: 0 <= i < |t.existing| ==>
            saved[i].name == t.existing[i].name && Present(saved[i].cells) == Present(t.existing[i].cells))
      && saved[|t.existing|].name == t.name
      && Present(saved[|t.existing|].cells) == Recorded(t.homed, t.rounds)
  {
    var saved := Saved(t);
    var ps := Recorded(t.homed, t.rounds);
    forall i | 0 <= i < |t.existing|
      ensures Present(saved[i].cells) == Present(t.existing[i].cells)
    {
      PaddedPresent(saved[i], t.existing[i]);
    }
    PaddedPresent(saved[|t.existing|], Column(t.name, Cells(ps)));
    PresentCells(ps);
  }

  /** Picking up at a newly taught name from the saved table replays the
      recording out and back. The name must be new and not empty: the saved
      table reaches GOTO mode through the spreadsheet, which gives a repeated
      header back renamed (so the old column keeps the name) and an empty
      header back as a generated one (so the name is not found at all). */
  lemma TaughtThenPickedUp(t: TeachInput)
    requires t.name != ""
    requires forall c :: c in t.existing ==> c.name != t.name
    ensures var ps := Recorded(t.homed, t.rounds);
      GotoMode.Goto(GotoMode.GotoInput(Saved(t), [GotoMode.PickupPressed(t.name)]))
        == GotoMode.GotoRun([ArcLines(ps, GotoMode.ARC_SPEED), Gripper(GotoMode.PICKUP_WIDTH),
                             ArcLines(Reverse(ps), GotoMode.ARC_SPEED)], false)
  {
    var ps, saved := Recorded(t.homed, t.rounds), Saved(t);
    var index := BuildIndex(saved);
    MergeThenLoad(t.existing, t.name, ps);
    assert index[t.name] == ps && index[ReverseKey(t.name)] == Reverse(ps);
    GotoMode.TransferThereAndBack(index, t.name, GotoMode.PICKUP_WIDTH);
    var actions := [GotoMode.PickupPressed(t.name)];
    assert GotoMode.Actions(index, actions) == GotoMode.Pickup(index, t.name).trace + GotoMode.Actions(index, []);
  }
}
