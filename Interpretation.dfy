/** What `Main.processInstructions` and `Main.placeRobot` of robo-challenge.js do, as values:
    the reading of one instruction line, the effect of one line on the registry and the
    `placed` flag, and the effect of a whole list of lines. A line that throws ends the run,
    since the exception leaves the `forEach`. */
module Interpretation {
  import opened Wrappers
  import opened Directions
  import opened Text
  import opened Robots

  /** The switch's case labels; every other keyword falls through. */
  datatype Command =
    | PlaceAt(position: Option<string>)
    | TurnLeft
    | TurnRight
    | Forward
    | SelectRobot(argument: Option<string>)
    | ReportState
    | Unrecognised

  /** The command a keyword and its (possibly missing) argument stand for. */
  function CommandOf(keyword: string, argument: Option<string>): Command
  {
    if keyword == "LEFT" then TurnLeft
    else if keyword == "RIGHT" then TurnRight
    else if keyword == "MOVE" then Forward
    else if keyword == "ROBOT" then SelectRobot(argument)
    else if keyword == "REPORT" then ReportState
    else if keyword == "PLACE" then PlaceAt(argument)
    else Unrecognised
  }

  /** `const [command, position] = ins.split(' ')`: the first two space-separated tokens. */
  function ParseLine(line: string): Command
  {
    var parts := Split(line, ' ');
    CommandOf(parts[0], Field(parts, 1))
  }

  /** Only the first two tokens of a line count: anything after a second space is dropped. */
  lemma ParseTokens(tokens: seq<string>)
    requires |tokens| > 0
    requires forall i :: 0 <= i < |tokens| ==> ' ' !in tokens[i]
    ensures ParseLine(Join(tokens, ' ')) == CommandOf(tokens[0], Field(tokens, 1))
  {
    SplitJoin(tokens, ' ');
  }

  /** A keyword, one space and an argument without spaces is that keyword's command with
      that argument. */
  lemma ParseKeywordLine(keyword: string, argument: string)
    requires ' ' !in keyword && ' ' !in argument
    ensures ParseLine(keyword + " " + argument) == CommandOf(keyword, Some(argument))
  {
    assert Join([keyword, argument], ' ') == keyword + " " + argument;
    ParseTokens([keyword, argument]);
  }

  /** A lone keyword is its command with a missing argument. */
  lemma ParseKeywordAlone(keyword: string)
    requires ' ' !in keyword
    ensures ParseLine(keyword) == CommandOf(keyword, None)
  {
    assert Join([keyword], ' ') == keyword;
    ParseTokens([keyword]);
  }

  /** `parseInt(position)` for ROBOT; a missing argument is `parseInt(undefined)`, NaN. */
  function ParseArgument(argument: Option<string>): Num
  {
    match argument
    case None => NaN
    case Some(s) => ParseInt(s)
  }

  /** The registry together with the module-level `placed` flag. */
  datatype Config = Config(roster: Roster, placed: bool)

  const Initial := Config(Empty, false)

  /** The registry is valid, and `placed` holds exactly when some robot exists: the flag is
      set in the same branch that creates a robot, and robots are never removed. */
  predicate ConfigValid(c: Config)
  {
    Valid(c.roster) && c.placed == (|c.roster.robots| > 0)
  }

  /** `Main.placeRobot(position)`. The guard `x, y >= 0 && x, y < n` is a comma expression
      whose value is its last operand, `Number(y) < n`; x is never range-checked. None where
      the source throws: a PLACE without an argument has no `split`. */
  function PlaceRobot(n: int, c: Config, position: Option<string>): Option<Config>
  {
    match position
    case None => None
    case Some(p) =>
      var fields := Split(p, ',');
      if NumberBelow(Field(fields, 1), n) then
        Some(Config(Added(c.roster, ParseInt(fields[0]), ParseInt(fields[1]), Find(Field(fields, 2))), true))
      else Some(c)
  }

  /** A placement either creates exactly one robot and sets `placed`, or changes nothing; which
      one depends on the y field alone. */
  lemma PlaceAcceptance(n: int, c: Config, p: string)
    requires ConfigValid(c)
    ensures PlaceRobot(n, c, Some(p)).Some?
    ensures var c' := PlaceRobot(n, c, Some(p)).value;
      var fields := Split(p, ',');
      ConfigValid(c') &&
      (NumberBelow(Field(fields, 1), n) ==>
        c'.placed && c'.roster == Added(c.roster, ParseInt(fields[0]), ParseInt(fields[1]), Find(Field(fields, 2)))) &&
      (!NumberBelow(Field(fields, 1), n) ==> c' == c)
  {
    var fields := Split(p, ',');
    if NumberBelow(Field(fields, 1), n) {
      AddedKeepsOthers(c.roster, ParseInt(fields[0]), ParseInt(fields[1]), Find(Field(fields, 2)));
    }
  }

  /** The text of a placement: "<x>,<y>,<DIR>". */
  function Position(x: int, y: int, d: Dir): string
  {
    Format(Int(x)) + "," + Format(Int(y)) + "," + Name(d)
  }

  /** Placing at a well-formed position creates a robot there, facing that way, exactly when
      y is below n, whatever x is; the new robot then reports the very position text it was
      placed with. */
  lemma PlaceWellFormed(n: int, c: Config, x: int, y: int, d: Dir)
    requires ConfigValid(c)
    ensures var r := PlaceRobot(n, c, Some(Position(x, y, d)));
      r.Some? &&
      (y < n ==> r.value == Config(Added(c.roster, Int(x), Int(y), Some(d)), true) &&
                 Report(r.value.roster.robots[|c.roster.robots|]) == Some(Position(x, y, d))) &&
      (y >= n ==> r.value == c)
  {
    var probe := Robot("", Int(x), Int(y), Some(d));
    ReportReadsBack(probe);
    assert Report(probe) == Some(Position(x, y, d));
    var fields := Split(Position(x, y, d), ',');
    assert Format(Int(y)) != "";
    assert NumberBelow(Field(fields, 1), n) == (y < n);
    AddedReports(c.roster, Int(x), Int(y), d);
  }

  /** What one line does: the new state, the lines printed, and false where it throws. */
  datatype Effect = Effect(config: Config, out: seq<string>, ok: bool)

  /** The effect of a registry operation that throws (None) or returns a new registry. */
  function Steer(c: Config, r: Option<Roster>): Effect
  {
    match r
    case None => Effect(c, [], false)
    case Some(ro) => Effect(c.(roster := ro), [], true)
  }

  /** One call of the `forEach` callback, once its line has been read as `command`: before
      the first placement only PLACE is dispatched. */
  function Execute(n: int, c: Config, command: Command): (e: Effect)
    requires ConfigValid(c)
    ensures ConfigValid(e.config)
    ensures !e.ok ==> e.config == c
    ensures c.placed ==> e.config.placed
  {
    if !c.placed && !command.PlaceAt? then Effect(c, [], true)
    else
      match command
      case PlaceAt(position) =>
        if position.None? then Effect(c, [], false)
        else
          PlaceAcceptance(n, c, position.value);
          Effect(PlaceRobot(n, c, position).value, [], true)
      case TurnLeft =>
        TurnChangesHeadingOnly(c.roster, false);
        Steer(c, TurnedLeft(c.roster))
      case TurnRight =>
        TurnChangesHeadingOnly(c.roster, true);
        Steer(c, TurnedRight(c.roster))
      case Forward =>
        MoveOneStep(c.roster, n);
        Steer(c, Moved(c.roster, n))
      case SelectRobot(argument) =>
        SelectedActive(c.roster, ParseArgument(argument));
        Effect(c.(roster := Selected(c.roster, ParseArgument(argument))), [], true)
      case ReportState =>
        var o := ReportAll(c.roster);
        Effect(c, o.lines, o.complete)
      case Unrecognised => Effect(c, [], true)
  }

  /** The commands of a list of lines, line by line. */
  function Commands(lines: seq<string>): seq<Command>
  {
    seq(|lines|, i requires 0 <= i < |lines| => ParseLine(lines[i]))
  }

  /** The outcome of a run: the final state, everything printed, and the index of the line
      that threw, if one did. */
  datatype Trace = Trace(config: Config, out: seq<string>, crashedAt: Option<nat>)

  function Later(k: Option<nat>): Option<nat>
  {
    match k
    case None => None
    case Some(i) => Some(i + 1)
  }

  /** The commands in order, stopping at the first that throws. */
  function RunCommands(n: int, c: Config, commands: seq<Command>): (t: Trace)
    requires ConfigValid(c)
    ensures ConfigValid(t.config)
    ensures t.crashedAt.Some? ==> t.crashedAt.value < |commands|
    ensures c.placed ==> t.config.placed
    decreases |commands|
  {
    if commands == [] then Trace(c, [], None)
    else
      var e := Execute(n, c, commands[0]);
      if !e.ok then Trace(e.config, e.out, Some(0))
      else
        var t := RunCommands(n, e.config, commands[1..]);
        Trace(t.config, e.out + t.out, Later(t.crashedAt))
  }

  /** `instructions.forEach(...)` over the instruction lines. */
  function Run(n: int, c: Config, lines: seq<string>): Trace
    requires ConfigValid(c)
  {
    RunCommands(n, c, Commands(lines))
  }

  /** Before the first placement, a command other than PLACE is ignored: no change, no output,
      no exception, even for a command that would throw with no robot active; and only a
      PLACE can set `placed`, by creating the first robot. */
  lemma GatedStep(n: int, c: Config, command: Command)
    requires ConfigValid(c) && !c.placed
    ensures !command.PlaceAt? ==> Execute(n, c, command) == Effect(c, [], true)
    ensures Execute(n, c, command).config.placed ==>
      command.PlaceAt? && |Execute(n, c, command).config.roster.robots| == 1
  {
  }

  /** Commands none of which is PLACE leave an unplaced state exactly as it was and print
      nothing. */
  lemma {:induction false} GatedRunCommands(n: int, c: Config, commands: seq<Command>)
    requires ConfigValid(c) && !c.placed
    requires forall i :: 0 <= i < |commands| ==> !commands[i].PlaceAt?
    ensures RunCommands(n, c, commands) == Trace(c, [], None)
    decreases |commands|
  {
    if commands != [] {
      GatedStep(n, c, commands[0]);
      GatedRunCommands(n, c, commands[1..]);
    }
  }

  /** Lines none of which is a PLACE line leave an unplaced state exactly as it was and print
      nothing. */
  lemma GatedRun(n: int, c: Config, lines: seq<string>)
    requires ConfigValid(c) && !c.placed
    requires forall i :: 0 <= i < |lines| ==> !ParseLine(lines[i]).PlaceAt?
    ensures Run(n, c, lines) == Trace(c, [], None)
  {
    GatedRunCommands(n, c, Commands(lines));
  }

  /** One command never removes or renames a robot. */
  lemma ExecuteKeepsRobots(n: int, c: Config, command: Command)
    requires ConfigValid(c)
    ensures |Execute(n, c, command).config.roster.robots| >= |c.roster.robots|
    ensures forall i :: 0 <= i < |c.roster.robots| ==>
      Execute(n, c, command).config.roster.robots[i].name == c.roster.robots[i].name
  {
    if c.placed || command.PlaceAt? {
      match command
      case PlaceAt(position) =>
        if position.Some? {
          PlaceAcceptance(n, c, position.value);
        }
      case TurnLeft => TurnChangesHeadingOnly(c.roster, false);
      case TurnRight => TurnChangesHeadingOnly(c.roster, true);
      case Forward => MoveOneStep(c.roster, n);
      case SelectRobot(argument) => SelectedActive(c.roster, ParseArgument(argument));
      case ReportState =>
      case Unrecognised =>
    }
  }

  /** Over a run, robots are only ever added, each keeps its name, and once set `placed`
      stays set. */
  lemma {:induction false} PlacedPersists(n: int, c: Config, commands: seq<Command>)
    requires ConfigValid(c)
    ensures |RunCommands(n, c, commands).config.roster.robots| >= |c.roster.robots|
    ensures c.placed ==> RunCommands(n, c, commands).config.placed
    ensures forall i :: 0 <= i < |c.roster.robots| ==>
      RunCommands(n, c, commands).config.roster.robots[i].name == c.roster.robots[i].name
    decreases |commands|
  {
    if commands != [] {
      var e := Execute(n, c, commands[0]);
      if e.ok {
        ExecuteKeepsRobots(n, c, commands[0]);
        PlacedPersists(n, e.config, commands[1..]);
      }
    }
  }

  /** Once placed, REPORT prints the registry's report and changes nothing; an unrecognised
      keyword does nothing at all. */
  lemma ReportAndUnknownLeaveState(n: int, c: Config, command: Command)
    requires ConfigValid(c) && c.placed
    ensures command.ReportState? ==>
      Execute(n, c, command) == Effect(c, ReportAll(c.roster).lines, ReportAll(c.roster).complete)
    ensures command.Unrecognised? ==> Execute(n, c, command) == Effect(c, [], true)
  {
  }

  /** Once placed, PLACE with a position is still dispatched: it never throws or prints, and it
      either appends the next robot, "Robot k+1" after k robots, keeping the robots and the
      active robot as they were, or changes nothing; which one depends on the y field alone. */
  lemma PlaceAfterPlaced(n: int, c: Config, p: string)
    requires ConfigValid(c) && c.placed
    ensures var e := Execute(n, c, PlaceAt(Some(p)));
      var fields := Split(p, ',');
      e.ok && e.out == [] && e.config.placed &&
      (NumberBelow(Field(fields, 1), n) ==>
        |e.config.roster.robots| == |c.roster.robots| + 1 &&
        e.config.roster.robots[..|c.roster.robots|] == c.roster.robots &&
        e.config.roster.robots[|c.roster.robots|].name == NameOf(|c.roster.robots| + 1) &&
        e.config.roster.active == c.roster.active) &&
      (!NumberBelow(Field(fields, 1), n) ==> e.config == c)
  {
    PlaceAcceptance(n, c, p);
    var fields := Split(p, ',');
    if NumberBelow(Field(fields, 1), n) {
      AddedKeepsOthers(c.roster, ParseInt(fields[0]), ParseInt(fields[1]), Find(Field(fields, 2)));
    }
  }

  /** A crash index counted from `m` lines further on. */
  function Offset(k: Option<nat>, m: nat): Option<nat>
  {
    match k
    case None => None
    case Some(i) => Some(m + i)
  }

  /** The outcome of running `first` and then `second` from where `first` left off. */
  function Then(n: int, t: Trace, first: seq<Command>, second: seq<Command>): Trace
    requires ConfigValid(t.config)
  {
    if t.crashedAt.Some? then t
    else
      var u := RunCommands(n, t.config, second);
      Trace(u.config, t.out + u.out, Offset(u.crashedAt, |first|))
  }

  /** Running two lists one after the other is running their concatenation, unless the first
      throws, which ends the run. */
  lemma {:induction false} RunAppend(n: int, c: Config, first: seq<Command>, second: seq<Command>)
    requires ConfigValid(c)
    ensures RunCommands(n, c, first + second) == Then(n, RunCommands(n, c, first), first, second)
    decreases |first|, 1
  {
    if first == [] {
      assert first + second == second;
      var u := RunCommands(n, c, second);
      assert [] + u.out == u.out;
      assert Offset(u.crashedAt, 0) == u.crashedAt;
    } else {
      RunAppendStep(n, c, first, second);
    }
  }

  lemma {:induction false} RunAppendStep(n: int, c: Config, first: seq<Command>, second: seq<Command>)
    requires ConfigValid(c) && first != []
    ensures RunCommands(n, c, first + second) == Then(n, RunCommands(n, c, first), first, second)
    decreases |first|, 0
  {
    var all := first + second;
    assert all[0] == first[0] && all[1..] == first[1..] + second;
    var e := Execute(n, c, first[0]);
    if e.ok {
      RunAppend(n, e.config, first[1..], second);
      RunAppendAfterOk(n, c, first, second);
    }
  }

  /** The step of RunAppend where the first command does not throw, given the claim for the
      rest of the first list. */
  lemma RunAppendAfterOk(n: int, c: Config, first: seq<Command>, second: seq<Command>)
    requires ConfigValid(c) && first != [] && Execute(n, c, first[0]).ok
    requires (first + second)[1..] == first[1..] + second
    requires var e := Execute(n, c, first[0]);
      RunCommands(n, e.config, first[1..] + second) == Then(n, RunCommands(n, e.config, first[1..]), first[1..], second)
    ensures RunCommands(n, c, first + second) == Then(n, RunCommands(n, c, first), first, second)
  {
    var e := Execute(n, c, first[0]);
    var t := RunCommands(n, e.config, first[1..]);
    assert (first + second)[0] == first[0];
    if t.crashedAt.None? {
      var u := RunCommands(n, t.config, second);
      assert e.out + (t.out + u.out) == (e.out + t.out) + u.out;
      assert Later(Offset(u.crashedAt, |first| - 1)) == Offset(u.crashedAt, |first|);
    }
  }

  /** A run resumed at command i, after `out` has been printed by the commands before it. */
  function Resumed(n: int, c: Config, commands: seq<Command>, i: nat, out: seq<string>): Trace
    requires ConfigValid(c) && i <= |commands|
  {
    var rest := RunCommands(n, c, commands[i..]);
    Trace(rest.config, out + rest.out, Offset(rest.crashedAt, i))
  }

  /** Resuming at command i is executing that command and then, unless it throws, resuming at
      the next one. */
  lemma ResumeStep(n: int, c: Config, commands: seq<Command>, i: nat, out: seq<string>)
    requires ConfigValid(c) && i < |commands|
    ensures var e := Execute(n, c, commands[i]);
      Resumed(n, c, commands, i, out) ==
        if e.ok then Resumed(n, e.config, commands, i + 1, out + e.out) else Trace(c, out + e.out, Some(i))
  {
    var e := Execute(n, c, commands[i]);
    if e.ok {
      ResumeAfterOk(n, c, commands, i, out, e);
    } else {
      assert commands[i..][0] == commands[i];
    }
  }

  lemma ResumeAfterOk(n: int, c: Config, commands: seq<Command>, i: nat, out: seq<string>, e: Effect)
    requires ConfigValid(c) && i < |commands| && e == Execute(n, c, commands[i]) && e.ok
    ensures Resumed(n, c, commands, i, out) == Resumed(n, e.config, commands, i + 1, out + e.out)
  {
    assert commands[i..][0] == commands[i];
    assert commands[i..][1..] == commands[i + 1..];
    var rest := RunCommands(n, e.config, commands[i + 1..]);
    assert RunCommands(n, c, commands[i..]) == Trace(rest.config, e.out + rest.out, Later(rest.crashedAt));
    assert out + (e.out + rest.out) == (out + e.out) + rest.out;
    assert Offset(Later(rest.crashedAt), i) == Offset(rest.crashedAt, i + 1);
  }

  /** A run is its own resumption at the start, and a resumption at the end is finished. */
  lemma ResumeEnds(n: int, c: Config, commands: seq<Command>, out: seq<string>)
    requires ConfigValid(c)
    ensures Resumed(n, c, commands, 0, []) == RunCommands(n, c, commands)
    ensures Resumed(n, c, commands, |commands|, out) == Trace(c, out, None)
  {
    assert commands[0..] == commands;
    assert commands[|commands|..] == [];
    assert out + [] == out;
    var t := RunCommands(n, c, commands);
    assert [] + t.out == t.out;
    assert Offset(t.crashedAt, 0) == t.crashedAt;
  }
}
