# Toy robot simulator, modelled in Dafny

`robo-challenge.js` simulates toy robots on an n by n grid (n is 5 in the source). It reads a
list of instruction lines and runs them one after another:

- `PLACE x,y,DIR` creates a new robot, named "Robot k" after its position in creation order.
  The first robot created becomes the active one.
- `LEFT` and `RIGHT` turn the active robot a quarter turn. `MOVE` moves it one unit along its
  heading, and it stays put at the edge of the grid.
- `ROBOT k` makes the k-th robot active.
- `REPORT` prints one line per robot and then a line with the robot count and the active
  robot's name.
- Until the first robot has been placed, every instruction other than `PLACE` is ignored.

The model follows the code's branches, constants and error conditions. Numbers are the one
narrowing: number text is restricted to optionally signed decimal digit strings (see
"## Left out"). The modules, and the functions in them that define each operation:

- `Directions`: the four headings and their table (`robo-challenge.js:11-16`). `Find` looks
  up a heading by its name (`:43`). `Left` and `Right` are the turn table, index + 3 or
  index + 1 modulo 4 (`:59`, `:63`).
- `Text`: the parts of JavaScript's string and number handling that the program depends on.
  Numbers are integers or NaN (`Text.Num`).
  - `Split` and `Field` are `split` on a one-character separator and array destructuring, where
    a missing field is `undefined` (`:82`, `:92`).
  - `ParseInt` is `parseInt` (`:85`, `:99`).
  - `NumberBelow` is `Number(y) < n`, the only part of the bounds check at `:84` that has an
    effect.
  - `Format` and `NatToString` print a number inside a template literal (`:40`, `:55`, `:76`).
- `Robots`: a robot as a value, and the registry (all robots plus the active one) as a value.
  `TurnedLeft`, `TurnedRight` and `Moved` return `None` where the source throws a `TypeError`.
  That happens when no robot is active, or when the active robot has no heading because its
  `PLACE` named an unknown direction. `ReportAll` marks a throw by setting `complete` to false
  in its `Output`, in two cases:
  - at the first robot without a heading, active or not, because the `forEach` at `:54` throws
    there;
  - at the summary line when no robot is active (`:55`).
  - `Added` is the `Robot` constructor (`:39-46`), and `Selected` is `setActive` (`:49-51`).
  - `TurnedLeft` and `TurnedRight` (through `Turned`) are `left` and `right` (`:58-64`).
  - `Moved` (through `Stepped`) is `move` (`:66-73`).
  - `Report` is the instance `report` (`:75-77`).
  - `ReportAll` (through `RobotLines`, `Line` and `Summary`) is the static `report`
    (`:53-56`).
- `RobotRegistry`: class `Registry`, the imperative registry. Its sequence of robots and its
  active index are fields that its methods update. Each method is proved against the
  corresponding function in `Robots`.
- `Interpretation`: the parsing of one line and the effect of commands.
  - `ParseLine` and `CommandOf` split a line into a keyword and an argument and pick the
    command (`:92`, `:95-102`).
  - `PlaceRobot` is `placeRobot` (`:81-88`).
  - `Execute` is the `forEach` callback, including the gate on the `placed` flag
    (`:94-108`).
  - `RunCommands` and `Run` are the whole `forEach` (`:91-109`). A run stops at the first line
    that throws, because the exception leaves the `forEach` loop. The run reports the index of
    that line.
- `Simulator`: class `Interpreter`. It holds the registry and the `placed` flag. Its
  `ProcessInstructions` loop is proved equal to the pure run.
- `Scenarios`: whole runs over general coordinates. These include PLACE, MOVE, REPORT and
  PLACE, LEFT, REPORT, a PLACE line without a position, and `ROBOT 0` followed by REPORT.

## Where the checks are narrower than they look

The model follows the code in each of these cases:

- Bounds check: the comment at `robo-challenge.js:83` says the check keeps a robot from
  being placed outside the grid. The check at `:84`, `if (x, y >= 0 && x, y < n)`, uses the
  comma operator, so it evaluates only `y < n`. The model therefore accepts any x and any y
  below n, negative y included (`Interpretation.PlaceAcceptance`,
  `Interpretation.PlaceWellFormed`). A missing y is rejected, and an empty y counts as 0.
- Robot selection: `setActive` (`robo-challenge.js:49-51`) checks only the upper bound. So
  `ROBOT 0`, or a negative index, leaves no robot active, and the next `LEFT`, `RIGHT`, `MOVE`
  or `REPORT` throws (`Robots.SelectedActive`, `Scenarios.DeselectThenReport`). `ROBOT` with
  no number or a non-number changes nothing.
- Unknown heading or malformed position: a `PLACE` whose heading is unknown still creates a
  robot, with an undefined direction. `LEFT`, `RIGHT` and `MOVE` throw while that robot is the
  active one. Every `REPORT` throws when it reaches that robot, whichever robot is active. `PLACE` with no position throws right away
  (`Scenarios.PlaceAloneStops`).
- Non-numeric coordinates: a non-numeric x becomes a NaN coordinate. A non-numeric y fails
  `Number(y) < n`, so no robot is created, except for an empty y, which passes as 0 and then
  gives a NaN y. `MOVE` never changes a NaN coordinate.

## Model

| member | source | states |
|---|---|---|
| Directions.Find | robo-challenge.js:43 | a found heading is the one whose name is exactly the given text; no heading found means the text (or a missing field) names none of the four |
| Directions.FindName | robo-challenge.js:11-16 | looking up a heading's own name finds that heading |
| Directions.Left | robo-challenge.js:58-60 | turning left moves the table index by 3, modulo 4 |
| Directions.Right | robo-challenge.js:62-64 | turning right moves the table index by 1, modulo 4 |
| Directions.Clockwise | robo-challenge.js:62-64 | right turns go NORTH, EAST, SOUTH, WEST and back to NORTH |
| Directions.Anticlockwise | robo-challenge.js:58-60 | left turns go NORTH, WEST, SOUTH, EAST and back to NORTH |
| Directions.TurnsCancel | robo-challenge.js:58-64 | a left turn and a right turn undo each other, in either order |
| Directions.FullCircleRight | robo-challenge.js:62-64 | four right turns give back the heading |
| Directions.FullCircleLeft | robo-challenge.js:58-60 | four left turns give back the heading |
| Text.NatToString | robo-challenge.js:40 | a printed count is a non-empty string of decimal digits, one digit long exactly when the count is below 10, and starting with '0' only for 0 itself |
| Text.DigitsRoundTrip | robo-challenge.js:40 | the decimal text of a count reads back as that count |
| Text.ParseFormat | robo-challenge.js:76 | parseInt of a printed coordinate (negative or NaN included) gives back the coordinate |
| Text.FormatHasNoSeparator | robo-challenge.js:76 | a printed coordinate contains no comma and no space |
| Text.Split | robo-challenge.js:82 | splitting yields at least one piece, so the first field of a line always exists |
| Text.Field | robo-challenge.js:82 | a destructured field is present exactly when the split produced that many pieces |
| Text.JoinSplit | robo-challenge.js:82 | joining the pieces of a split with the separator restores the text |
| Text.SplitJoin | robo-challenge.js:92 | splitting separator-free tokens joined by the separator gives back the tokens |
| Robots.ReportReadsBack | robo-challenge.js:75-77 | a robot with a heading reports a text that splits on commas into three fields, which read back as its x, its y and its heading |
| Robots.RobotLines | robo-challenge.js:54 | at most one line per robot, and exactly one per robot when printing finishes |
| Robots.RobotLinesInOrder | robo-challenge.js:54 | line i is robot i's name and report, in creation order; printing finishes exactly when every robot has a heading, and otherwise stops at the first robot without one |
| Robots.ReportAllLines | robo-challenge.js:53-56 | a report finishes exactly when a robot is active and every robot has a heading; it then has one line per robot and a last line with the count and the active robot's name; a report that throws has printed the robot lines up to the first robot without a heading, or all robot lines when the summary throws |
| Robots.AddedKeepsOthers | robo-challenge.js:39-46 | creating a robot appends exactly one robot named "Robot k" (k the new count) with the given position and heading; earlier robots are unchanged; the first robot becomes active and otherwise the active robot stays |
| Robots.AddedReports | robo-challenge.js:39-43 | a new robot with a known heading reports the position and heading it was created with |
| Robots.SelectedActive | robo-challenge.js:49-51 | an index from 1 to the count activates that robot; NaN or a larger index changes nothing; an index below 1 leaves no active robot; the robots are unchanged |
| Robots.SelectedNamedInSummary | robo-challenge.js:49-55 | after selecting robot k, the report's last line names "Robot k" |
| Robots.TurnChangesHeadingOnly | robo-challenge.js:58-64 | a turn throws exactly when no robot is active or the active robot has no heading; otherwise it changes only the active robot's heading, by one table step |
| Robots.TurnedBack | robo-challenge.js:58-64 | turning one robot left then right, or right then left, gives back the same robot |
| Robots.TurnsCancelOut | robo-challenge.js:58-64 | on a registry that can turn, LEFT then RIGHT and RIGHT then LEFT both restore the registry |
| Robots.RightTurnsHeading | robo-challenge.js:62-64 | k right turns in a row never throw, and change only the active robot's heading, to the heading turned right k times |
| Robots.LeftTurnsHeading | robo-challenge.js:58-60 | k left turns in a row never throw, and change only the active robot's heading, to the heading turned left k times |
| Robots.FourRightTurnsRestore | robo-challenge.js:62-64 | four right turns restore the registry |
| Robots.FourLeftTurnsRestore | robo-challenge.js:58-60 | four left turns restore the registry |
| Robots.MoveOneStep | robo-challenge.js:66-73 | a move throws exactly when a turn would; otherwise it changes only the coordinate along the heading: by one unit when that coordinate is a number short of the edge (below n - 1 going NORTH or EAST, above 0 going SOUTH or WEST, off-grid values included), else not at all; an on-grid robot stays on the grid; every other robot is unchanged |
| RobotRegistry.Registry.constructor | robo-challenge.js:36-37 | a new registry has no robots and no active robot |
| RobotRegistry.Registry.Add | robo-challenge.js:39-46 | the new state is the pure registry with the robot added, heading looked up by name |
| RobotRegistry.Registry.SetActive | robo-challenge.js:49-51 | the new state is the pure selection by that index |
| RobotRegistry.Registry.Left | robo-challenge.js:58-60 | reports failure exactly where the source throws, leaving the state unchanged; otherwise the new state is the pure left turn |
| RobotRegistry.Registry.Right | robo-challenge.js:62-64 | reports failure exactly where the source throws, leaving the state unchanged; otherwise the new state is the pure right turn |
| RobotRegistry.Registry.Move | robo-challenge.js:66-73 | reports failure exactly where the source throws, leaving the state unchanged; otherwise the new state is the pure move on the n by n grid |
| RobotRegistry.Registry.Report | robo-challenge.js:53-56 | the printed lines, and whether the report finished without throwing, are those of the pure report |
| Interpretation.ParseTokens | robo-challenge.js:92 | a line made of space-free tokens is the command named by its first token, with the second token (or none) as argument |
| Interpretation.ParseKeywordLine | robo-challenge.js:92 | "KEYWORD ARG" is that keyword's command with argument ARG |
| Interpretation.ParseKeywordAlone | robo-challenge.js:92 | a lone keyword is its command with a missing argument |
| Interpretation.PlaceAcceptance | robo-challenge.js:81-88 | a placement with a position never throws; it either creates exactly one robot from parseInt of x and y and the named heading and sets placed, or changes nothing, and which one is decided by Number(y) < n alone |
| Interpretation.PlaceWellFormed | robo-challenge.js:81-88 | "x,y,DIR" is accepted exactly when y < n, whatever x is; the new robot then reports exactly that position |
| Interpretation.Execute | robo-challenge.js:94-108 | one command keeps the state well formed, changes nothing when it throws, and never clears placed |
| Interpretation.RunCommands | robo-challenge.js:91-109 | a run keeps the state well formed, stops at a line inside the list when it stops early, and never clears placed |
| Interpretation.GatedStep | robo-challenge.js:104-108 | before the first placement, every command but PLACE is ignored without output or exception, and only a PLACE that creates the first robot can set placed |
| Interpretation.GatedRunCommands | robo-challenge.js:91-109 | before the first placement, commands none of which is PLACE leave the state as it was and print nothing |
| Interpretation.GatedRun | robo-challenge.js:91-109 | the same for instruction lines none of which reads as PLACE |
| Interpretation.ExecuteKeepsRobots | robo-challenge.js:94-108 | one command never removes or renames a robot |
| Interpretation.PlacedPersists | robo-challenge.js:91-109 | over a run, robots are only added, each keeps its name, and placed stays set once set |
| Interpretation.ReportAndUnknownLeaveState | robo-challenge.js:95-102 | once placed, REPORT prints the registry's report and changes nothing, and an unrecognised keyword does nothing |
| Interpretation.PlaceAfterPlaced | robo-challenge.js:101 | once placed, PLACE with a position is still dispatched without throwing or printing: when y < n it appends "Robot k+1" after the k existing robots, which stay as they were, and keeps the active robot; otherwise nothing changes |
| Interpretation.RunAppend | robo-challenge.js:91-109 | running two lists one after the other is running the first and then, unless it threw, the second from where the first ended, with the second's crash index shifted |
| Simulator.Interpreter.constructor | robo-challenge.js:9 | a new interpreter has an empty registry and placed unset |
| Simulator.Interpreter.PlaceRobot | robo-challenge.js:81-88 | throws exactly when the position is missing, leaving the state unchanged; otherwise the new state is the pure placement |
| Simulator.Interpreter.ProcessLine | robo-challenge.js:91-108 | the new state, the printed lines and whether the line threw are the pure effect of the parsed line |
| Simulator.Interpreter.ProcessInstructions | robo-challenge.js:90-110 | the new state, everything printed and the index of the line that threw (if any) are the pure run over the lines |
| Scenarios.PlaceFirst | robo-challenge.js:81-88 | a well-formed PLACE with y < n on an empty grid creates "Robot 1" there and makes it active |
| Scenarios.ReportFirst | robo-challenge.js:53-56 | with one robot, REPORT prints "Robot 1: x,y,DIR" and "No of robots: 1, Active robot: Robot 1" |
| Scenarios.PlaceMoveReport | robo-challenge.js:90-110 | PLACE x,y,NORTH; MOVE; REPORT with room to the north ends one unit further north and prints the two report lines |
| Scenarios.PlaceLeftReport | robo-challenge.js:90-110 | PLACE x,y,DIR; LEFT; REPORT ends at the same cell facing one quarter turn anticlockwise and prints the two report lines |
| Scenarios.PlaceAloneStops | robo-challenge.js:81-82 | a PLACE line without a position throws at once, from any state; the run stops there and nothing changes |
| Scenarios.DeselectThenReport | robo-challenge.js:49-55 | after ROBOT 0, REPORT prints the robot lines and then throws at the summary line |

## Left out

- Reading the instruction file, splitting it on "\r\n", printing to the console and printing the caught error message (`robo-challenge.js:112-122`) are I/O. A run's printed lines are returned as a sequence. An exception becomes a crash index, which stops the run as the `catch` in `readFile` does; the error message is not modelled.
- Class `Grid` (`robo-challenge.js:19-32`) is never called, so occupancy is not modelled. Its initialiser `[n - 1][n - 1]` evaluates to `undefined`.
- Robots are values in a sequence, and the active robot is an index into it. The source holds the active robot as a shared object reference, and updating the entry at the active index has the same effect. No other aliasing exists in the source.
- The grid size is a constructor parameter `n` instead of the constant 5. The module-level `placed` flag and the static registry are fields of one `Interpreter` object, so separate interpreters do not share them as the source's globals would.
- Text.ParseInt: reads only optionally signed decimal digit strings. JavaScript's `parseInt` also skips leading whitespace, reads the digit prefix of longer text ("3x" and "1.5" give 3 and 1) and accepts hexadecimal "0x". Here those texts read as NaN.
- Text.NumberBelow: `Number(y)` is restricted in the same way. JavaScript converts several y fields to a number that the model counts as NaN (not below n): fields with surrounding whitespace, a decimal point or an exponent; hexadecimal "0x", binary "0b" and octal "0o" prefixes; and "Infinity" and "-Infinity". For example, `PLACE 1,-Infinity,NORTH` passes `y < n` in the source and creates a robot whose y is NaN, but the model rejects the line.
- Integers are unbounded. JavaScript numbers are doubles, so coordinates beyond 2^53, where doubles lose precision, are not modelled.
- Text.Split: its contract states only that there is at least one piece. That no piece contains the separator is used only through `Text.SplitJoin`.
