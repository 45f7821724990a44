/** Class `Main` of robo-challenge.js with the module-level `placed` flag: it reads each
    instruction line and dispatches it to the registry, in order, and collects what REPORT
    prints. */
module Simulator {
  import opened Wrappers
  import opened Text
  import opened Robots
  import opened RobotRegistry
  import opened Interpretation

  class Interpreter {
    /** The registry the static side of class `Robot` stands for. */
    const registry: Registry
    /** Whether a robot has been placed yet; until then, only PLACE is dispatched. */
    var placed: bool

    function Model(): Config
      reads this, registry
    {
      Config(registry.Model(), placed)
    }

    ghost predicate Valid()
      reads this, registry
    {
      registry.Valid() && ConfigValid(Model())
    }

    /** A fresh simulator on an n by n grid: no robots, nothing placed. */
    constructor (n: int)
      requires n > 0
      ensures Valid() && fresh(registry) && registry.n == n && Model() == Initial
    {
      registry := new Registry(n);
      placed := false;
    }

    /** `Main.placeRobot(position)`; `ok` is false where the source throws (no argument). */
    method PlaceRobot(position: Option<string>) returns (ok: bool)
      requires Valid()
      modifies this, registry
      ensures Valid()
      ensures ok == position.Some?
      ensures if ok then Some(Model()) == Interpretation.PlaceRobot(registry.n, old(Model()), position)
              else Model() == old(Model())
    {
      if position.None? {
        return false;
      }
      var fields := Split(position.value, ',');
      var y := Field(fields, 1);
      if NumberBelow(y, registry.n) {
        registry.Add(ParseInt(fields[0]), ParseInt(y.value), Field(fields, 2));
        placed := true;
      }
      PlaceAcceptance(registry.n, old(Model()), position.value);
      ok := true;
    }

    /** The `forEach` callback on one line: the lines it prints, and false where it throws. */
    method ProcessLine(line: string) returns (out: seq<string>, ok: bool)
      requires Valid()
      modifies this, registry
      ensures Valid()
      ensures Effect(Model(), out, ok) == Execute(registry.n, old(Model()), ParseLine(line))
    {
      var command := ParseLine(line);
      out, ok := [], true;
      if placed {
        match command {
          case TurnLeft => ok := registry.Left();
          case TurnRight => ok := registry.Right();
          case Forward => ok := registry.Move();
          case SelectRobot(argument) => registry.SetActive(ParseArgument(argument));
          case ReportState => out, ok := registry.Report();
          case PlaceAt(position) => ok := PlaceRobot(position);
          case Unrecognised =>
        }
      } else if command.PlaceAt? {
        ok := PlaceRobot(command.position);
      }
    }

    /** `Main.processInstructions(instructions)`: every line in order until one throws.
        Returns what REPORT printed and the index of the line that threw, if any. */
    method ProcessInstructions(instructions: seq<string>) returns (out: seq<string>, crashedAt: Option<nat>)
      requires Valid()
      modifies this, registry
      ensures Valid()
      ensures Run(registry.n, old(Model()), instructions) == Trace(Model(), out, crashedAt)
    {
      ghost var commands := Commands(instructions);
      ghost var start := Model();
      ResumeEnds(registry.n, start, commands, []);
      out, crashedAt := [], None;
      var i := 0;
      while i < |instructions|
        invariant 0 <= i <= |instructions|
        invariant Valid()
        invariant RunCommands(registry.n, start, commands) == Resumed(registry.n, Model(), commands, i, out)
      {
        ResumeStep(registry.n, Model(), commands, i, out);
        var printed, ok := ProcessLine(instructions[i]);
        if !ok {
          return out + printed, Some(i);
        }
        out := out + printed;
        i := i + 1;
      }
      ResumeEnds(registry.n, Model(), commands, out);
    }
  }
}
