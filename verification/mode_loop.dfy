/** The top-level loop: connect, then ask for a mode and run it until the
    operator quits, then go home and release the controller and the arm. */
module ModeLoop {
  import opened ArmCommands
  import opened ControlLoop
  import opened GotoMode
  import opened TeachMode

  /** One answer to the mode-selection window together with what the
      operator then does in that mode. The window's answers are "move",
      "teach", "GOTO" and "quit"; closing it without choosing answers the
      empty string, which matches no mode (`Dismissed`). */
  datatype Answer =
    | MoveAnswer(panel: seq<PanelEvent>)
    | TeachAnswer(teach: TeachInput)
    | GotoAnswer(goto: GotoInput)
    | QuitAnswer
    | Dismissed

  /** How a run ended: by quitting, by an unhandled failure, still waiting
      for an answer when the answers ran out, or at start-up for lack of a
      game controller. */
  datatype Status = Exited | Crashed | Waiting | NoController

  datatype RunResult = RunResult(trace: seq<Command>, status: Status)

  /** The answer ends the program with an unhandled failure. */
  predicate Crashes(a: Answer) {
    a.GotoAnswer? && a.goto.table == []
  }

  /** The commands a visit to a mode sends; quitting is handled by the loop. */
  function AnswerCommands(a: Answer): (cs: seq<Command>)
    ensures forall c :: c in cs ==> !c.ReleasePad? && !c.Disconnect?
  {
    match a
    case MoveAnswer(panel) => Panel(panel)
    case TeachAnswer(t) => Teach(t)
    case GotoAnswer(g) => Goto(g).trace
    case QuitAnswer => []
    case Dismissed => []
  }

  /** The commands of several visits in order. */
  function Visits(answers: seq<Answer>): (cs: seq<Command>)
    ensures Disconnect !in cs && ReleasePad !in cs
  {
    if answers == [] then [] else AnswerCommands(answers[0]) + Visits(answers[1..])
  }

  /** Some answer quits before any answer crashes the program. */
  predicate QuitsCleanly(answers: seq<Answer>) {
    exists q :: 0 <= q < |answers| && answers[q].QuitAnswer?
      && forall k :: 0 <= k < q ==> !Crashes(answers[k])
  }

  /** The loop over the answers, after connecting: dispatch each answer to
      its mode until the first "quit", then shut down; a crash ends the run
      where it happens. The controller and the arm are released only on
      quitting. */
  function Dispatch(answers: seq<Answer>): (r: RunResult)
    ensures r.status != NoController
    ensures r.status != Exited ==> Disconnect !in r.trace && ReleasePad !in r.trace
  {
    if answers == [] then RunResult([], Waiting)
    else
      var first := answers[0];
      if first.QuitAnswer? then RunResult(SHUTDOWN, Exited)
      else if Crashes(first) then RunResult(AnswerCommands(first), Crashed)
      else
        var rest := Dispatch(answers[1..]);
        RunResult(AnswerCommands(first) + rest.trace, rest.status)
  }

  /** The run ends by quitting exactly when some answer quits before any
      answer crashes the program. */
  lemma {:induction false} ExitsIffQuitsCleanly(answers: seq<Answer>)
    ensures Dispatch(answers).status == Exited <==> QuitsCleanly(answers)
  {
    if answers != [] {
      var first := answers[0];
      if first.QuitAnswer? {
        assert answers[0].QuitAnswer?;
      } else if Crashes(first) {
        CrashFirstNotClean(answers);
      } else {
        ExitsIffQuitsCleanly(answers[1..]);
        QuitsCleanlyShift(answers);
      }
    }
  }

  lemma CrashFirstNotClean(answers: seq<Answer>)
    requires answers != [] && Crashes(answers[0])
    ensures !QuitsCleanly(answers)
  {
  }

  lemma QuitsCleanlyShift(answers: seq<Answer>)
    requires answers != [] && !answers[0].QuitAnswer? && !Crashes(answers[0])
    ensures QuitsCleanly(answers) <==> QuitsCleanly(answers[1..])
  {
    var tail := answers[1..];
    if QuitsCleanly(answers) {
      var q :| 0 <= q < |answers| && answers[q].QuitAnswer?
        && forall k :: 0 <= k < q ==> !Crashes(answers[k]);
      assert tail[q - 1].QuitAnswer?;
      assert forall k :: 0 <= k < q - 1 ==> tail[k] == answers[k + 1];
    }
    if QuitsCleanly(tail) {
      var q :| 0 <= q < |tail| && tail[q].QuitAnswer?
        && forall k :: 0 <= k < q ==> !Crashes(tail[k]);
      assert answers[q + 1].QuitAnswer?;
      assert forall k :: 1 <= k < q + 1 ==> answers[k] == tail[k - 1];
    }
  }

  /** The whole program: connect to the arm, then look for a game controller
      (without one the program ends there), then the mode loop. */
  function Run(controllerFound: bool, answers: seq<Answer>): (r: RunResult)
    ensures |r.trace| >= |CONNECT| && r.trace[..|CONNECT|] == CONNECT
    ensures !controllerFound ==> r == RunResult(CONNECT, NoController)
    ensures r.status == Exited <==> controllerFound && QuitsCleanly(answers)
  {
    if !controllerFound then RunResult(CONNECT, NoController)
    else
      var r := Dispatch(answers);
      ExitsIffQuitsCleanly(answers);
      RunResult(CONNECT + r.trace, r.status)
  }

  lemma DispatchStep(answers: seq<Answer>)
    requires answers != [] && !answers[0].QuitAnswer? && !Crashes(answers[0])
    ensures var rest := Dispatch(answers[1..]);
      Dispatch(answers) == RunResult(AnswerCommands(answers[0]) + rest.trace, rest.status)
  {
  }

  lemma VisitsStep(answers: seq<Answer>, q: int)
    requires 0 < q <= |answers|
    ensures Visits(answers[..q]) == AnswerCommands(answers[0]) + Visits(answers[1..][..q - 1])
  {
    assert answers[..q][1..] == answers[1..][..q - 1];
  }

  /** Dispatching stops at the first "quit": every answer before it is
      dispatched in order, then the arm goes home and the controller and
      then the arm are released. */
  lemma {:induction false} DispatchUntilQuit(answers: seq<Answer>, q: int)
    requires 0 <= q < |answers| && answers[q].QuitAnswer?
    requires forall k :: 0 <= k < q ==> !answers[k].QuitAnswer? && !Crashes(answers[k])
    ensures Dispatch(answers) == RunResult(Visits(answers[..q]) + SHUTDOWN, Exited)
  {
    if q == 0 {
      assert answers[..0] == [];
    } else {
      TailBeforeQuit(answers, q);
      DispatchUntilQuit(answers[1..], q - 1);
      DispatchBeforeQuit(answers, q);
    }
  }

  lemma TailBeforeQuit(answers: seq<Answer>, q: int)
    requires 0 < q < |answers| && answers[q].QuitAnswer?
    requires forall k :: 0 <= k < q ==> !answers[k].QuitAnswer? && !Crashes(answers[k])
    ensures var tail := answers[1..];
      && tail[q - 1].QuitAnswer?
      && forall k :: 0 <= k < q - 1 ==> !tail[k].QuitAnswer? && !Crashes(tail[k])
  {
    assert forall k :: 0 <= k < q - 1 ==> answers[1..][k] == answers[k + 1];
  }

  lemma DispatchBeforeQuit(answers: seq<Answer>, q: int)
    requires 0 < q <= |answers| && !answers[0].QuitAnswer? && !Crashes(answers[0])
    requires Dispatch(answers[1..]) == RunResult(Visits(answers[1..][..q - 1]) + SHUTDOWN, Exited)
    ensures Dispatch(answers) == RunResult(Visits(answers[..q]) + SHUTDOWN, Exited)
  {
    DispatchStep(answers);
    VisitsStep(answers, q);
    ConcatAssoc(AnswerCommands(answers[0]), Visits(answers[1..][..q - 1]), SHUTDOWN);
  }

  lemma ShutdownReleasesOnce(before: seq<Command>)
    requires Disconnect !in before && ReleasePad !in before
    ensures var t := before + SHUTDOWN;
      multiset(t)[Disconnect] == 1 && multiset(t)[ReleasePad] == 1 && t[|t| - 1] == Disconnect
  {
    var t := before + SHUTDOWN;
    assert multiset(t) == multiset(before) + multiset(SHUTDOWN);
    assert multiset(before)[Disconnect] == 0 && multiset(before)[ReleasePad] == 0;
    assert SHUTDOWN == [GO_HOME[0], GO_HOME[1], GO_HOME[2], ReleasePad, Disconnect];
  }

  /** The whole run when the operator quits before any crash. */
  lemma RunUntilQuit(answers: seq<Answer>, q: int)
    requires 0 <= q < |answers| && answers[q].QuitAnswer?
    requires forall k :: 0 <= k < q ==> !answers[k].QuitAnswer? && !Crashes(answers[k])
    ensures Run(true, answers) == RunResult(CONNECT + Visits(answers[..q]) + SHUTDOWN, Exited)
  {
    DispatchUntilQuit(answers, q);
    ConcatAssoc(CONNECT, Visits(answers[..q]), SHUTDOWN);
  }

  /** The visit leaves no control loop running behind it: every manual-move
      panel it opens, including those teach mode opens per "add", closes
      with its loops stopped. */
  predicate LeavesNoLoopRunning(a: Answer) {
    && (a.MoveAnswer? ==> Settles(a.panel))
    && (a.TeachAnswer? ==> forall r :: r in a.teach.rounds ==> Settles(r.panel))
  }

  /** Quitting: the whole run is the connection, the visits before the first
      "quit" in order, and the shutdown; the controller and the arm are each
      released once, the arm last, and answers after the "quit" are never
      asked for. A loop left running would go on sending from its own
      thread, so every visit before the "quit" is taken to stop its loops. */
  lemma QuitShutsDown(answers: seq<Answer>, q: int)
    requires 0 <= q < |answers| && answers[q].QuitAnswer?
    requires forall k :: 0 <= k < q ==> !answers[k].QuitAnswer? && !Crashes(answers[k])
    requires forall k :: 0 <= k < q ==> LeavesNoLoopRunning(answers[k])
    ensures var r := Run(true, answers);
      && r == RunResult(CONNECT + Visits(answers[..q]) + SHUTDOWN, Exited)
      && multiset(r.trace)[Disconnect] == 1 && multiset(r.trace)[ReleasePad] == 1
      && r.trace[|r.trace| - 1] == Disconnect
      && r == Run(true, answers[..q + 1])
  {
    var prefix := answers[..q + 1];
    assert forall k :: 0 <= k <= q ==> prefix[k] == answers[k];
    assert prefix[..q] == answers[..q];
    RunUntilQuit(answers, q);
    RunUntilQuit(prefix, q);
    var visits := Visits(answers[..q]);
    ConnectReleasesNothing();
    ShutdownReleasesOnce(CONNECT + visits);
  }
}
