# xArm teleoperation controller — Dafny model

This project models the logic inside `XArmController`. That class drives an
xArm robot arm from a game controller and offers three modes:

- **manual move**: jog the arm from the stick, either by discrete steps or by continuous velocity;
- **teach**: record a named sequence of poses into a spreadsheet;
- **GOTO**: replay a named sequence out to a location and back, picking up or dropping off with the gripper.

The arm, the game controller, the windows and the spreadsheet are outside the
model. Every call into them becomes a value of the `ArmCommands.Command`
datatype, and a run of the program is the trace of commands it sends. What the
operator does, and what the arm and controller report, are inputs:

- stick and button readings and window-close events per loop tick;
- the pose the arm reports;
- panel button presses and field text (already parsed);
- menu answers;
- the spreadsheet table (cells already decoded).

Floating-point values are modelled as exact `real`s. Python's `int()` on a
float is `Jog.Trunc`, which truncates toward zero.

Modules, one per file:

| file | module | what it holds |
|---|---|---|
| optional.dfy | Optional | `Option`, for empty cells |
| poses.dfy | Poses | `Pose`, the default home pose |
| jog.dfy | Jog | truncation, the deadzone filter, the step target, the velocity vector |
| waypoints.dfy | Waypoints | the table, the forward/reverse index built from it, the teach-mode merge |
| arm_commands.dfy | ArmCommands | the `Command` vocabulary, the connect, go-home and shutdown sequences, and what a trace leaves the devices in |
| control_loop.dfy | ControlLoop | one tick, the control loop, the manual-move panel |
| goto_mode.dfy | GotoMode | pickup, dropoff and the GOTO window |
| teach_mode.dfy | TeachMode | recording and saving a taught sequence |
| mode_loop.dfy | ModeLoop | the top-level mode loop from connection to disconnection |

Behaviour of the code worth noting, all of it modelled as written:

- **Truncation.** Step and velocity values are truncated toward zero by `int()`, not rounded.
- **Mode switches.** The arm's mode and state are re-sent on every tick (lines 50-51, 68-69), not only when the mode changes.
- **Overwriting keys.** Building the index overwrites: a later column replaces what an earlier one stored under the same key, including a column literally named `reverse_<x>` (`Waypoints.LaterColumnOverwrites`).
- **Non-finite fields.** If the field the mode uses (the increment for "step", the speed otherwise) reads "inf", "nan" or "1e999", it parses, but the first tick then fails converting it to an integer. The `finally` clause ends the loop's thread without a word (`ControlLoop.NonFiniteFieldEndsLoop`). The other field is never read (`ControlLoop.UnusedFieldIgnored`).

## Model

| member | source | states |
|---|---|---|
| Jog.Trunc | src/XArm_move_teach/xarm_controller.py:59-62 | the result is the integer between zero and the argument that is less than one away from it (toward zero, unlike `Floor`) |
| Jog.TruncOdd | src/XArm_move_teach/xarm_controller.py:70-73 | truncation commutes with negation, so `int(-v) == -int(v)` |
| Jog.Deadzone | src/XArm_move_teach/xarm_controller.py:100-107 | a filtered axis is 0.0 exactly when its magnitude is below 0.2, and is otherwise unchanged |
| Jog.DeadzoneIdempotentAndOdd | src/XArm_move_teach/xarm_controller.py:85-107 | filtering twice equals filtering once; the filter is symmetric about zero; a non-zero filtered value is never inside the dead band |
| Jog.Filter | src/XArm_move_teach/xarm_controller.py:100-107 | each of the four axes is zeroed exactly when its magnitude is below 0.2, and passes unchanged otherwise |
| Jog.StepMovesWhole | src/XArm_move_teach/xarm_controller.py:49-64 | `Jog.StepTarget`, the pose a step move sends: x and yaw move with the scaled deflection and y and z against it, each by that amount truncated to whole units; roll is 180 and pitch is 0 |
| Jog.StepCentredStaysPut | src/XArm_move_teach/xarm_controller.py:59-63 | with all axes at zero the target keeps x, y, z and yaw |
| Jog.StepReversible | src/XArm_move_teach/xarm_controller.py:59-62 | a step followed by the opposite deflection at the same increment restores x, y, z and yaw exactly |
| Jog.VelocityTruncates | src/XArm_move_teach/xarm_controller.py:67-75 | `Jog.VelocityCommand`, the vector a velocity move sends: its components are the truncations of speed·x, −speed·y, −speed·z and speed·r/2; roll and pitch rates are 0 |
| Jog.VelocityBounded | src/XArm_move_teach/xarm_controller.py:70-73 | for axes in [−1, 1], every linear rate is at most the speed in magnitude and the rotation rate at most half of it |
| Jog.VelocitySigns | src/XArm_move_teach/xarm_controller.py:70-73 | full y or z gives the negated truncated speed; full rotation gives the truncated half speed |
| Jog.VelocityOdd | src/XArm_move_teach/xarm_controller.py:70-74 | opposite deflections give exactly opposite velocity vectors |
| ControlLoop.TickCommands | src/XArm_move_teach/xarm_controller.py:77-120 | a tick reads x from axis 0, y from axis 1, z from axis 3 and rotation from axis 2, and filters them. It sends the mode switch, then exactly one motion command: a step target for mode "step", a velocity for any other string. Then gripper 850 if button 1 is held, then gripper 270 if button 0 is held, and nothing else |
| ControlLoop.Loop | src/XArm_move_teach/xarm_controller.py:88-126 | the loop reports having stopped exactly when some observed tick had a window-close event or button 6 held (`Stops`); it only switches modes, moves and works the gripper |
| ControlLoop.TicksRun | src/XArm_move_teach/xarm_controller.py:90-124 | the ticks that run are those up to and including the first stopping tick, or all of them |
| ControlLoop.OneMotionPerTick | src/XArm_move_teach/xarm_controller.py:90-124 | the loop's trace holds exactly one motion command per tick that runs |
| ControlLoop.LoopSendsEachTick | src/XArm_move_teach/xarm_controller.py:90-124 | the loop's trace is, in order, the full commands of each tick up to and including the first stopping tick (mode switch, the step or velocity from that tick's own stick, that tick's gripper commands), and nothing else |
| ControlLoop.LoopOne | src/XArm_move_teach/xarm_controller.py:90-124 | a loop over one tick sends exactly that tick's commands and has ended exactly when that tick stops it |
| ControlLoop.LoopConcat | src/XArm_move_teach/xarm_controller.py:90-124 | observing more ticks only extends the loop: an ended loop ignores them, a running one goes on to send what a loop over them alone would |
| ControlLoop.LoopEndsAtFirstStop | src/XArm_move_teach/xarm_controller.py:122-124 | ticks observed after the first stopping tick have no effect |
| ControlLoop.Panel | src/XArm_move_teach/xarm_controller.py:133-197 | every command a manual-move visit sends is a switch to mode 0 or 5, the ready state, a move at 400, a velocity, or the gripper to 850 or 270; it never saves the table or releases the controller or arm |
| ControlLoop.PanelFrom | src/XArm_move_teach/xarm_controller.py:144-161 | while a loop started from the panel runs, Start is disabled: from then on only Go Home presses send anything, the home sequence, and the button stays disabled |
| ControlLoop.StartDisabledWhileRunning | src/XArm_move_teach/xarm_controller.py:144-159 | after a Start whose loop has not ended, later Start presses have no effect: the visit sends what it would with only the Go Home presses left |
| ControlLoop.StartLoop | src/XArm_move_teach/xarm_controller.py:133-152 | a started loop only switches modes, moves and works the gripper, whatever the fields hold |
| ControlLoop.Resolve | src/XArm_move_teach/xarm_controller.py:135-142 | a field that is not a number is replaced by the default, and any other reading (finite or not) is passed on unchanged |
| ControlLoop.NonFiniteFieldEndsLoop | src/XArm_move_teach/xarm_controller.py:49-73 | when the field the mode uses is infinite or not a number, the loop sends only the first tick's mode switch, no motion, and its thread ends |
| ControlLoop.UnusedFieldIgnored | src/XArm_move_teach/xarm_controller.py:109-112 | a step loop does not depend on the speed field and a velocity loop does not depend on the increment field, whatever they hold |
| ControlLoop.LoopIgnoresUnusedField | src/XArm_move_teach/xarm_controller.py:109-112 | the loop's trace in step mode is the same for any speed, and in any other mode for any increment |
| ControlLoop.UnparsedFieldsUseDefaults | src/XArm_move_teach/xarm_controller.py:135-142 | a started loop with an increment field that does not parse acts as if 5 were typed, and with a speed field that does not parse as if 100 were typed |
| Waypoints.Present | src/XArm_move_teach/xarm_controller.py:264-266 | a column's poses are exactly the poses in its non-empty cells, never more than it has cells (order and multiplicity: `Waypoints.PresentInRowOrder`) |
| Waypoints.PresentRows | src/XArm_move_teach/xarm_controller.py:264-266 | the rows that hold a pose, strictly increasing, each holding a pose, and every row holding a pose among them |
| Waypoints.PresentInRowOrder | src/XArm_move_teach/xarm_controller.py:264-266 | a column's poses are its non-empty cells each taken once in row order: the k-th pose is the content of the k-th row holding a pose |
| Waypoints.Reverse | src/XArm_move_teach/xarm_controller.py:268 | same length, element k is element n−1−k of the input |
| Waypoints.IndexKeys | src/XArm_move_teach/xarm_controller.py:260-269 | `Waypoints.BuildIndex`, the dictionary GOTO mode builds: its keys are every column name and every `reverse_`-prefixed column name, even for columns with no cells, and nothing else |
| Waypoints.LastWriterWins | src/XArm_move_teach/xarm_controller.py:260-269 | in `Waypoints.BuildIndex`, a key holds what the last column writing it stored: its non-empty cells in order, or their reversal for the reverse key |
| Waypoints.IndexOfUnambiguous | src/XArm_move_teach/xarm_controller.py:263-269 | with no clashing names, each column's entry is its non-empty cells in order and the reverse entry is exactly its reversal |
| Waypoints.LaterColumnOverwrites | src/XArm_move_teach/xarm_controller.py:267-268 | a column named `reverse_a` is overwritten by the reversal of a later column `a` |
| Waypoints.Merge | src/XArm_move_teach/xarm_controller.py:373-375 | the new column comes last and existing columns keep their order and cells; every column is padded with empty cells to the length of the longest column, the recording included (`Height` is the longest existing column, 0 for none) |
| Waypoints.MergeThenLoad | src/XArm_move_teach/xarm_controller.py:373-375 | indexing the merged table as held in memory equals indexing the old table and then storing the recording and its reversal under the new name; padding changes nothing else |
| GotoMode.Transfer | src/XArm_move_teach/xarm_controller.py:281-297 | out through the location's sequence, gripper, back through the reverse key's sequence. A missing location sends nothing; a missing reverse key sends only the outward move and the gripper |
| GotoMode.TransferReadsTwoKeys | src/XArm_move_teach/xarm_controller.py:282-288 | a pickup or dropoff depends only on the entries under the location and its reverse key |
| GotoMode.TransferRetracesColumn | src/XArm_move_teach/xarm_controller.py:281-297 | for a column of a clash-free table: move through its poses, gripper to the given width (800 pickup, 850 dropoff), then the same poses reversed |
| GotoMode.PickupAndDropoffDifferInGrip | src/XArm_move_teach/xarm_controller.py:281-297 | `GotoMode.Pickup` and `GotoMode.Dropoff` send the same moves and fail the same way; they differ only in the gripper width, 800 for pickup and 850 for dropoff |
| GotoMode.Goto | src/XArm_move_teach/xarm_controller.py:256-317 | GOTO mode crashes exactly when the table has no columns, sending nothing; otherwise it sends only arc moves at 300, the pickup and dropoff grips, and the go-home sequence |
| GotoMode.Actions | src/XArm_move_teach/xarm_controller.py:299-317 | every command the GOTO window's buttons send is a blended move at 300, the gripper to 800 or 850, or part of the go-home sequence (position mode, ready, the move home at 400) |
| TeachMode.Recorded | src/XArm_move_teach/xarm_controller.py:364-372 | the recording starts with the pose read after homing and has exactly one more pose per "add" answer, in order |
| TeachMode.Teach | src/XArm_move_teach/xarm_controller.py:360-376 | teach mode starts by going home, and its only write of the table is its last command |
| TeachMode.SavedKeepsColumns | src/XArm_move_teach/xarm_controller.py:373-376 | the saved table keeps every existing column in order with the same poses, and adds the recording as the last column |
| TeachMode.TaughtThenPickedUp | src/XArm_move_teach/xarm_controller.py:364-376 | for a non-empty taught name that no existing column has, a pickup at that name from the saved table moves through the recording, grips at 800, and moves back through its reversal |
| ModeLoop.AnswerCommands | src/XArm_move_teach/xarm_controller.py:357-378 | no mode visit releases the controller or disconnects the arm |
| ModeLoop.Dispatch | src/XArm_move_teach/xarm_controller.py:356-385 | the loop never reports a missing controller, and disconnects or releases only when it ends by quitting |
| ModeLoop.ExitsIffQuitsCleanly | src/XArm_move_teach/xarm_controller.py:356-380 | the loop ends by quitting exactly when some answer is "quit" and no earlier answer crashes the program |
| ModeLoop.Run | src/XArm_move_teach/xarm_controller.py:352-385 | every run starts with the connect sequence; without a controller it stops there; it exits cleanly exactly when the operator quits before any crash |
| ArmCommands.ConnectReadiesArm | src/XArm_move_teach/xarm_controller.py:19-30 | `ArmCommands.CONNECT` from any state leaves the arm connected, in position mode and ready, with the gripper open at 850 and the arm at home |
| ArmCommands.ConnectReleasesNothing | src/XArm_move_teach/xarm_controller.py:19-30 | connecting neither releases the controller nor disconnects the arm |
| ArmCommands.GoHomeFromAnywhere | src/XArm_move_teach/xarm_controller.py:32-36 | `ArmCommands.GO_HOME` from any state leaves position mode, the ready state and the arm at home, and changes nothing else |
| ArmCommands.ShutdownParks | src/XArm_move_teach/xarm_controller.py:382-385 | `ArmCommands.SHUTDOWN` leaves the arm at home in position mode, the controller released and the arm disconnected, the gripper as it was |
| ModeLoop.DispatchUntilQuit | src/XArm_move_teach/xarm_controller.py:356-385 | the answers before the first "quit" are dispatched in order, then go home, release the controller, disconnect |
| ModeLoop.QuitShutsDown | src/XArm_move_teach/xarm_controller.py:380-385 | if no visit before the quit leaves a control loop running, the trace ends with home, then release, then disconnect after "quit"; each release happens exactly once, disconnect is last, and later answers have no effect |
| ModeLoop.RunUntilQuit | src/XArm_move_teach/xarm_controller.py:352-385 | when some answer quits before any crash, the run is the connect sequence, the visits before the first quit, and the shutdown sequence |

## Left out

- Arm and controller behaviour: motion, blocking, settling and faults are outside the model. Commands are values, and `ArmCommands.Devices` records what the commands ask for, not whether the arm achieves it.
- Device discovery: finding the game controller is reduced to one boolean, `controllerFound`. The `sys.exit` after the loop (line 130) is modelled as the loop ending, since it only ends the loop's thread.
- Keyboard interrupt: the `KeyboardInterrupt` handler in the loop (lines 127-128) is not modelled. Only the main thread receives that signal.
- Concurrency: the loop's background thread runs alongside the windows; this interleaving and the 100 ms completion polling are not modelled. Panel events are taken one after another, with Start disabled while a loop has not ended. So neither of these is modelled: Go Home pressed while a loop runs, or a loop left running after its panel is closed with Done. Such a loop keeps sending into later modes, into the pose teach mode records, and into the shutdown.
- Windows: the tkinter windows are not modelled. Their answers are inputs: menu choices, field text, the selection box's content, the name entered. Window-closing without a choice is `Dismissed`.
- Spreadsheet I/O: reading and writing the spreadsheet and decoding cells with `eval` are not modelled. Cells arrive already decoded as `Option<Pose>`.
- File paths: teach mode reads `../../xArm positions.xlsx` but writes and GOTO reads `xArm positions.xlsx`. No file round-trip is claimed. The table each mode reads is an input.
- Column headers: only string headers are modelled. A non-string header would make `'reverse_' + name` fail.
- Float parsing: a field is modelled by the outcome of `float` (`ControlLoop.Parsed`: a finite number, an infinity or not-a-number, or not a number at all). Which strings give which outcome is not modelled.
- Floating point: rounding is not modelled, since reals are exact. So `speed * axis_y * -1` is exactly `-(speed * axis_y)`.
- Home pose: only the default home pose is modelled; a caller-supplied one is not.
- `main.py`: pure wiring, and it imports a module that does not exist.
- ControlLoop.Loop: a run is a finite list of ticks. When no tick stops the loop, the trace is the prefix observed so far, where the source would go on polling.
- ModeLoop.Dispatch: a run is a finite list of answers. When they run out before "quit", the result is `Waiting`, where the source would keep asking.
- TeachMode.Recorded: the add/done answers are given as one round per "add". The answer that ends the loop ("done", or the empty answer of a closed window) is implicit.
- ModeLoop.QuitShutsDown: it promises nothing about runs in which a visit leaves a control loop running. That loop's thread would keep sending commands during and after the shutdown, which the model does not interleave.
- TeachMode.TaughtThenPickedUp: it promises nothing for a taught name that the spreadsheet does not give back verbatim. The saved table reaches GOTO mode only through the spreadsheet. Reading it back renames a repeated header (`<name>.1`), so a pickup replays the older column. It gives an empty header (the name window closed without a name) back as `Unnamed: <k>`, so a pickup at the empty name finds nothing and sends nothing. The lemma assumes a new, non-empty name; the header renaming is not modelled.
