/** Whole runs of robo-challenge.js over instruction lists with general coordinates: placing,
    moving, turning and reporting, and the inputs on which its checks are narrower than its
    comments say. Each run is taken apart into the reading of its lines and the effect of
    each command. */
module Scenarios {
  import opened Wrappers
  import opened Directions
  import opened Text
  import opened Robots
  import opened Interpretation

  /** The first robot, as placed at (x, y) facing d. */
  function First(x: int, y: int, d: Dir): Roster
  {
    Roster([Robot("Robot 1", Int(x), Int(y), Some(d))], Some(0))
  }

  lemma NameOfFirst()
    ensures NameOf(1) == "Robot 1"
  {
    assert DigitChar(1) == '1';
  }

  /** A PLACE at a well-formed position with y below n on an empty grid creates "Robot 1" there
      and makes it active. */
  lemma PlaceFirst(n: int, x: int, y: int, d: Dir)
    requires y < n
    ensures Execute(n, Initial, PlaceAt(Some(Position(x, y, d)))) == Effect(Config(First(x, y, d), true), [], true)
  {
    PlaceWellFormed(n, Initial, x, y, d);
    NameOfFirst();
  }

  /** A one-robot report: its line, then the count and its name. */
  lemma ReportFirst(n: int, x: int, y: int, d: Dir)
    ensures Execute(n, Config(First(x, y, d), true), ReportState) ==
      Effect(Config(First(x, y, d), true),
             ["Robot 1: " + Position(x, y, d), "No of robots: 1, Active robot: Robot 1"], true)
  {
    var ro := First(x, y, d);
    assert RobotLines(ro.robots[1..]) == Output([], true);
    assert Report(ro.robots[0]) == Some(Position(x, y, d));
    assert "Robot 1" + ": " + Position(x, y, d) == "Robot 1: " + Position(x, y, d);
    assert Line(ro.robots[0]) == "Robot 1: " + Position(x, y, d);
    assert RobotLines(ro.robots) == Output(["Robot 1: " + Position(x, y, d)], true);
    assert NatToString(1) == "1" by { assert DigitChar(1) == '1'; }
    assert Summary(ro) == "No of robots: 1, Active robot: Robot 1";
    assert ReportAll(ro) == Output(["Robot 1: " + Position(x, y, d), "No of robots: 1, Active robot: Robot 1"], true);
  }

  /** Running a command that does not throw, then the rest. */
  lemma RunCons(n: int, c: Config, command: Command, rest: seq<Command>)
    requires ConfigValid(c) && Execute(n, c, command).ok
    ensures var e := Execute(n, c, command);
      var t := RunCommands(n, e.config, rest);
      RunCommands(n, c, [command] + rest) == Trace(t.config, e.out + t.out, Later(t.crashedAt))
  {
    assert ([command] + rest)[0] == command && ([command] + rest)[1..] == rest;
  }

  /** Reading three lines. */
  lemma ReadThree(a: string, b: string, c: string)
    ensures Commands([a, b, c]) == [ParseLine(a)] + ([ParseLine(b)] + [ParseLine(c)])
  {
  }

  /** A position never contains a space, so it stays one token of its line. */
  lemma PositionHasNoSpace(x: int, y: int, d: Dir)
    ensures ' ' !in Position(x, y, d)
  {
    FormatHasNoSeparator(Int(x), ' ');
    FormatHasNoSeparator(Int(y), ' ');
    assert ' ' !in Name(d);
  }

  /** "PLACE " followed by a space-free argument reads as a placement at that argument. */
  lemma ReadPlaceArgument(argument: string)
    requires ' ' !in argument
    ensures ParseLine("PLACE " + argument) == PlaceAt(Some(argument))
  {
    assert "PLACE" + " " + argument == "PLACE " + argument;
    ParseKeywordLine("PLACE", argument);
  }

  lemma ReadPlace(x: int, y: int, d: Dir)
    ensures ParseLine("PLACE " + Position(x, y, d)) == PlaceAt(Some(Position(x, y, d)))
  {
    PositionHasNoSpace(x, y, d);
    ReadPlaceArgument(Position(x, y, d));
  }

  lemma ReadMove()
    ensures ParseLine("MOVE") == Forward
  {
    ParseKeywordAlone("MOVE");
  }

  lemma ReadReport()
    ensures ParseLine("REPORT") == ReportState
  {
    ParseKeywordAlone("REPORT");
  }

  /** A command that leaves a single robot at (x, y) facing d, followed by REPORT, prints that
      robot's line and the summary. */
  lemma StepThenReport(n: int, c: Config, command: Command, x: int, y: int, d: Dir)
    requires ConfigValid(c) && Execute(n, c, command) == Effect(Config(First(x, y, d), true), [], true)
    ensures RunCommands(n, c, [command] + [ReportState]) ==
      Trace(Config(First(x, y, d), true),
            ["Robot 1: " + Position(x, y, d), "No of robots: 1, Active robot: Robot 1"], None)
  {
    var c2 := Config(First(x, y, d), true);
    ReportFirst(n, x, y, d);
    RunCons(n, c2, ReportState, []);
    RunCons(n, c, command, [ReportState]);
  }

  /** MOVE of a lone robot facing NORTH below the top row. */
  lemma MoveNorthFirst(n: int, x: int, y: int)
    requires y < n - 1
    ensures Execute(n, Config(First(x, y, North), true), Forward) ==
      Effect(Config(First(x, y + 1, North), true), [], true)
  {
  }

  /** PLACE x,y,NORTH; MOVE; REPORT with room to the north (a negative y included): one robot,
      one step further north, reported with the count and the active robot. */
  lemma PlaceMoveReport(n: int, x: int, y: int)
    requires y < n - 1
    ensures Run(n, Initial, ["PLACE " + Position(x, y, North), "MOVE", "REPORT"]) ==
      Trace(Config(First(x, y + 1, North), true),
            ["Robot 1: " + Position(x, y + 1, North), "No of robots: 1, Active robot: Robot 1"], None)
  {
    ReadThree("PLACE " + Position(x, y, North), "MOVE", "REPORT");
    ReadPlace(x, y, North);
    ReadMove();
    ReadReport();
    PlaceFirst(n, x, y, North);
    MoveNorthFirst(n, x, y);
    StepThenReport(n, Config(First(x, y, North), true), Forward, x, y + 1, North);
    RunCons(n, Initial, PlaceAt(Some(Position(x, y, North))), [Forward] + [ReportState]);
  }

  lemma ReadLeft()
    ensures ParseLine("LEFT") == TurnLeft
  {
    ParseKeywordAlone("LEFT");
  }

  /** PLACE x,y,d; LEFT; REPORT with y below n: the robot stays where it is, a quarter turn
      anticlockwise. */
  lemma PlaceLeftReport(n: int, x: int, y: int, d: Dir)
    requires y < n
    ensures Run(n, Initial, ["PLACE " + Position(x, y, d), "LEFT", "REPORT"]) ==
      Trace(Config(First(x, y, Left(d)), true),
            ["Robot 1: " + Position(x, y, Left(d)), "No of robots: 1, Active robot: Robot 1"], None)
  {
    ReadThree("PLACE " + Position(x, y, d), "LEFT", "REPORT");
    ReadPlace(x, y, d);
    ReadLeft();
    ReadReport();
    PlaceFirst(n, x, y, d);
    assert Execute(n, Config(First(x, y, d), true), TurnLeft) == Effect(Config(First(x, y, Left(d)), true), [], true);
    StepThenReport(n, Config(First(x, y, d), true), TurnLeft, x, y, Left(d));
    RunCons(n, Initial, PlaceAt(Some(Position(x, y, d))), [TurnLeft] + [ReportState]);
  }

  /** A PLACE line without a position throws once the grid has a robot, or at the very first
      PLACE: the run stops there and nothing changes. */
  lemma PlaceAloneStops(n: int, c: Config, rest: seq<string>)
    requires ConfigValid(c)
    ensures Run(n, c, ["PLACE"] + rest) == Trace(c, [], Some(0))
  {
    ParseKeywordAlone("PLACE");
    assert Commands(["PLACE"] + rest)[0] == PlaceAt(None);
  }

  lemma ReadSelectZero()
    ensures ParseLine("ROBOT 0") == SelectRobot(Some("0"))
  {
    assert "ROBOT" + " " + "0" == "ROBOT 0";
    ParseKeywordLine("ROBOT", "0");
  }

  lemma SelectZeroFirst(n: int, x: int, y: int, d: Dir)
    ensures Execute(n, Config(First(x, y, d), true), SelectRobot(Some("0"))) ==
      Effect(Config(First(x, y, d).(active := None), true), [], true)
  {
    assert ParseInt("0") == Int(0) by { assert IsDigits("0"); assert DigitValue('0') == 0; }
  }

  lemma ReportWithoutActive(n: int, x: int, y: int, d: Dir)
    ensures var c := Config(First(x, y, d).(active := None), true);
      Execute(n, c, ReportState) == Effect(c, ["Robot 1: " + Position(x, y, d)], false)
  {
    var ro := First(x, y, d).(active := None);
    assert RobotLines(ro.robots[1..]) == Output([], true);
    assert Report(ro.robots[0]) == Some(Position(x, y, d));
    assert Line(ro.robots[0]) == "Robot 1: " + Position(x, y, d);
  }

  /** ROBOT 0 passes the upper-bound check and leaves no active robot; the next REPORT prints
      every robot and then throws at the summary line. */
  lemma DeselectThenReport(n: int, x: int, y: int, d: Dir)
    requires y < n
    ensures Run(n, Initial, ["PLACE " + Position(x, y, d), "ROBOT 0", "REPORT"]) ==
      Trace(Config(First(x, y, d).(active := None), true), ["Robot 1: " + Position(x, y, d)], Some(2))
  {
    ReadThree("PLACE " + Position(x, y, d), "ROBOT 0", "REPORT");
    ReadPlace(x, y, d);
    ReadSelectZero();
    ReadReport();
    var c1 := Config(First(x, y, d), true);
    var c2 := Config(First(x, y, d).(active := None), true);
    PlaceFirst(n, x, y, d);
    SelectZeroFirst(n, x, y, d);
    ReportWithoutActive(n, x, y, d);
    assert RunCommands(n, c2, [ReportState]) == Trace(c2, ["Robot 1: " + Position(x, y, d)], Some(0));
    RunCons(n, c1, SelectRobot(Some("0")), [ReportState]);
    RunCons(n, Initial, PlaceAt(Some(Position(x, y, d))), [SelectRobot(Some("0"))] + [ReportState]);
  }
}
