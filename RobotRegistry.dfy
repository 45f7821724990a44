/** The static side of class `Robot` in robo-challenge.js: one registry object whose collection
    of robots is appended to and whose active robot is reassigned and updated in place. */
module RobotRegistry {
  import opened Wrappers
  import opened Directions
  import opened Text
  import opened Robots

  class Registry {
    /** The grid is n by n. */
    const n: int
    /** `#all`: every robot created so far, in creation order. */
    var robots: seq<Robot>
    /** `#active`, as an index into `robots`. */
    var active: Option<nat>

    function Model(): Roster
      reads this
    {
      Roster(robots, active)
    }

    ghost predicate Valid()
      reads this
    {
      n > 0 && Robots.Valid(Model())
    }

    constructor (n: int)
      requires n > 0
      ensures Valid() && this.n == n && Model() == Empty
    {
      this.n := n;
      robots := [];
      active := None;
    }

    /** `new Robot(x, y, direction)`. */
    method Add(x: Num, y: Num, direction: Option<string>)
      requires Valid()
      modifies this
      ensures Valid()
      ensures Model() == Added(old(Model()), x, y, Find(direction))
    {
      var robot := Robot(NameOf(|robots| + 1), x, y, Find(direction));
      robots := robots + [robot];
      active := if |robots| == 1 then Some(0) else active;
      AddedKeepsOthers(old(Model()), x, y, Find(direction));
    }

    /** Static `setActive(index)`. */
    method SetActive(index: Num)
      requires Valid()
      modifies this
      ensures Valid()
      ensures Model() == Selected(old(Model()), index)
    {
      if index.Int? && index.v <= |robots| {
        active := if index.v >= 1 then Some(index.v - 1) else None;
      }
    }

    /** Static `left()`; `ok` is false where the source throws, and then nothing changes. */
    method Left() returns (ok: bool)
      requires Valid()
      modifies this
      ensures Valid()
      ensures ok == CanSteer(old(Model()))
      ensures if ok then Some(Model()) == TurnedLeft(old(Model())) else Model() == old(Model())
    {
      ok := CanSteer(Model());
      if ok {
        var a := active.value;
        robots := robots[a := Turned(robots[a], false)];
        TurnChangesHeadingOnly(old(Model()), false);
      }
    }

    /** Static `right()`; `ok` is false where the source throws, and then nothing changes. */
    method Right() returns (ok: bool)
      requires Valid()
      modifies this
      ensures Valid()
      ensures ok == CanSteer(old(Model()))
      ensures if ok then Some(Model()) == TurnedRight(old(Model())) else Model() == old(Model())
    {
      ok := CanSteer(Model());
      if ok {
        var a := active.value;
        robots := robots[a := Turned(robots[a], true)];
        TurnChangesHeadingOnly(old(Model()), true);
      }
    }

    /** Static `move()`; `ok` is false where the source throws, and then nothing changes. */
    method Move() returns (ok: bool)
      requires Valid()
      modifies this
      ensures Valid()
      ensures ok == CanSteer(old(Model()))
      ensures if ok then Some(Model()) == Moved(old(Model()), n) else Model() == old(Model())
    {
      ok := CanSteer(Model());
      if ok {
        var a := active.value;
        robots := robots[a := Stepped(robots[a], n)];
        MoveOneStep(old(Model()), n);
      }
    }

    /** Static `report()`: the lines it prints, and whether it got to the end without throwing.
        It changes nothing. */
    method Report() returns (lines: seq<string>, complete: bool)
      requires Valid()
      ensures Output(lines, complete) == ReportAll(Model())
    {
      lines := [];
      var i := 0;
      while i < |robots|
        invariant 0 <= i <= |robots|
        invariant var rest := RobotLines(robots[i..]);
          RobotLines(robots) == Output(lines + rest.lines, rest.complete)
      {
        var robot := robots[i];
        assert robots[i..][1..] == robots[i + 1..];
        match Robots.Report(robot) {
          case None =>
            return lines, false;
          case Some(_) =>
            lines := lines + [Line(robot)];
        }
        i := i + 1;
      }
      assert lines + [] == lines;
      if active.None? {
        return lines, false;
      }
      lines := lines + [Summary(Model())];
      complete := true;
    }
  }
}
