/** The robots of robo-challenge.js and the registry the static side of class `Robot` keeps,
    as values: a robot's state, the ordered collection with its active index, and what each
    registry operation makes of it. `None` from an operation means the source would throw a
    TypeError at that point. */
module Robots {
  import opened Wrappers
  import opened Directions
  import opened Text

  /** One robot. `dir` is None when the placement named no known heading. */
  datatype Robot = Robot(name: string, x: Num, y: Num, dir: Option<Dir>)

  /** The name the constructor gives the k-th robot created. */
  function NameOf(k: nat): string
  {
    "Robot " + NatToString(k)
  }

  /** Instance `report()`: "<x>,<y>,<DIR>"; None when the direction is undefined. */
  function Report(r: Robot): Option<string>
  {
    match r.dir
    case None => None
    case Some(d) => Some(Format(r.x) + "," + Format(r.y) + "," + Name(d))
  }

  /** A robot's report reads back, field by field, as its position and heading. */
  lemma ReportReadsBack(r: Robot)
    requires r.dir.Some?
    ensures Report(r).Some?
    ensures var f := Split(Report(r).value, ',');
      |f| == 3 && ParseInt(f[0]) == r.x && ParseInt(f[1]) == r.y && Find(Some(f[2])) == r.dir
  {
    var d := r.dir.value;
    FormatHasNoSeparator(r.x, ',');
    FormatHasNoSeparator(r.y, ',');
    var parts := [Format(r.x), Format(r.y), Name(d)];
    assert Join(parts[2..], ',') == Name(d);
    assert Join(parts[1..], ',') == Format(r.y) + [','] + Name(d);
    assert Join(parts, ',') == Format(r.x) + [','] + (Format(r.y) + [','] + Name(d));
    assert Join(parts, ',') == Report(r).value;
    SplitJoin(parts, ',');
    ParseFormat(r.x);
    ParseFormat(r.y);
    FindName(d);
  }

  /** A quarter turn of one robot (left: anticlockwise). */
  function Turned(r: Robot, clockwise: bool): Robot
    requires r.dir.Some?
  {
    r.(dir := Some(if clockwise then Right(r.dir.value) else Left(r.dir.value)))
  }

  /** One step of a robot along its heading on an n by n grid; a coordinate at the edge
      (or NaN) stays where it is. */
  function Stepped(r: Robot, n: int): Robot
    requires r.dir.Some?
  {
    match r.dir.value
    case North => r.(y := if r.y.Int? && r.y.v < n - 1 then Int(r.y.v + 1) else r.y)
    case West => r.(x := if r.x.Int? && r.x.v > 0 then Int(r.x.v - 1) else r.x)
    case East => r.(x := if r.x.Int? && r.x.v < n - 1 then Int(r.x.v + 1) else r.x)
    case South => r.(y := if r.y.Int? && r.y.v > 0 then Int(r.y.v - 1) else r.y)
  }

  /** The registry: robots in creation order and the index of the active one
      (None for `null` before the first robot, or `undefined` after a selection below 1). */
  datatype Roster = Roster(robots: seq<Robot>, active: Option<nat>)

  const Empty := Roster([], None)

  /** What every reachable registry satisfies: the active index names a robot, and the k-th
      robot is called "Robot k". */
  predicate Valid(ro: Roster)
  {
    (ro.active.Some? ==> ro.active.value < |ro.robots|) &&
    forall i :: 0 <= i < |ro.robots| ==> ro.robots[i].name == NameOf(i + 1)
  }

  /** The constructor `new Robot(x, y, dir)`: append a robot named after the new count; it
      becomes active only when it is the first. */
  function Added(ro: Roster, x: Num, y: Num, dir: Option<Dir>): Roster
  {
    var robots := ro.robots + [Robot(NameOf(|ro.robots| + 1), x, y, dir)];
    Roster(robots, if |robots| == 1 then Some(0) else ro.active)
  }

  /** `setActive(index)`: `index <= count` selects robot index - 1, which is undefined for an
      index below 1; a larger index or NaN leaves the active robot alone. */
  function Selected(ro: Roster, index: Num): Roster
  {
    match index
    case NaN => ro
    case Int(i) =>
      if i <= |ro.robots| then ro.(active := if i >= 1 then Some(i - 1) else None) else ro
  }

  /** The active robot exists and has a direction, so `left`, `right` and `move` do not throw. */
  predicate CanSteer(ro: Roster)
  {
    ro.active.Some? && ro.active.value < |ro.robots| && ro.robots[ro.active.value].dir.Some?
  }

  /** Static `left()`. */
  function TurnedLeft(ro: Roster): Option<Roster>
  {
    if CanSteer(ro) then
      var a := ro.active.value;
      Some(ro.(robots := ro.robots[a := Turned(ro.robots[a], false)]))
    else None
  }

  /** Static `right()`. */
  function TurnedRight(ro: Roster): Option<Roster>
  {
    if CanSteer(ro) then
      var a := ro.active.value;
      Some(ro.(robots := ro.robots[a := Turned(ro.robots[a], true)]))
    else None
  }

  /** Static `move()` on an n by n grid. */
  function Moved(ro: Roster, n: int): Option<Roster>
  {
    if CanSteer(ro) then
      var a := ro.active.value;
      Some(ro.(robots := ro.robots[a := Stepped(ro.robots[a], n)]))
    else None
  }

  /** Lines printed, and whether printing finished without throwing. */
  datatype Output = Output(lines: seq<string>, complete: bool)

  /** "<name>: <report>" for a robot with a direction. */
  function Line(r: Robot): string
    requires r.dir.Some?
  {
    r.name + ": " + Report(r).value
  }

  /** The `forEach` of static `report()`: one line per robot, stopping at the first robot
      whose instance report throws. */
  function RobotLines(rs: seq<Robot>): (o: Output)
    ensures |o.lines| <= |rs|
    ensures o.complete ==> |o.lines| == |rs|
  {
    if rs == [] then Output([], true)
    else if rs[0].dir.None? then Output([], false)
    else
      var rest := RobotLines(rs[1..]);
      Output([Line(rs[0])] + rest.lines, rest.complete)
  }

  /** The closing line of static `report()`. */
  function Summary(ro: Roster): string
    requires ro.active.Some? && ro.active.value < |ro.robots|
  {
    "No of robots: " + NatToString(|ro.robots|) + ", Active robot: " + ro.robots[ro.active.value].name
  }

  /** Static `report()`: the robot lines, then the summary, which throws when there is no
      active robot. */
  function ReportAll(ro: Roster): Output
    requires Valid(ro)
  {
    var o := RobotLines(ro.robots);
    if !o.complete then o
    else if ro.active.None? then Output(o.lines, false)
    else Output(o.lines + [Summary(ro)], true)
  }

  /** The robot lines are the lines of the robots in creation order, up to the first robot
      without a direction, which is where printing stops. */
  lemma {:induction false} RobotLinesInOrder(rs: seq<Robot>)
    ensures var o := RobotLines(rs);
      (o.complete <==> forall i :: 0 <= i < |rs| ==> rs[i].dir.Some?) &&
      (forall i :: 0 <= i < |o.lines| ==> rs[i].dir.Some? && o.lines[i] == Line(rs[i])) &&
      (!o.complete ==> |o.lines| < |rs| && rs[|o.lines|].dir.None?)
  {
    if rs != [] && rs[0].dir.Some? {
      RobotLinesInOrder(rs[1..]);
      var o := RobotLines(rs);
      var rest := RobotLines(rs[1..]);
      assert forall i :: 1 <= i < |o.lines| ==> o.lines[i] == rest.lines[i - 1];
      if rest.complete {
        assert forall i :: 1 <= i < |rs| ==> rs[i] == rs[1..][i - 1];
      }
    }
  }

  /** Reporting all: exactly one line per robot in creation order and then the count and the
      active robot's name, when every robot has a direction and a robot is active; otherwise
      it throws, after the lines printed up to that point. */
  lemma ReportAllLines(ro: Roster)
    requires Valid(ro)
    ensures var o := ReportAll(ro);
      (o.complete <==> ro.active.Some? && forall i :: 0 <= i < |ro.robots| ==> ro.robots[i].dir.Some?) &&
      (forall i :: 0 <= i < |o.lines| && i < |ro.robots| ==> ro.robots[i].dir.Some? && o.lines[i] == Line(ro.robots[i])) &&
      (!o.complete ==>
         |o.lines| <= |ro.robots| &&
         (|o.lines| < |ro.robots| ==> ro.robots[|o.lines|].dir.None?)) &&
      (o.complete ==>
         |o.lines| == |ro.robots| + 1 &&
         o.lines[|ro.robots|] == "No of robots: " + NatToString(|ro.robots|) + ", Active robot: " + NameOf(ro.active.value + 1))
  {
    RobotLinesInOrder(ro.robots);
  }

  /** Creating a robot keeps the registry valid, extends the collection by exactly that robot
      and leaves the others untouched. */
  lemma AddedKeepsOthers(ro: Roster, x: Num, y: Num, dir: Option<Dir>)
    requires Valid(ro)
    ensures var ro' := Added(ro, x, y, dir);
      Valid(ro') && |ro'.robots| == |ro.robots| + 1 && ro'.robots[..|ro.robots|] == ro.robots &&
      ro'.robots[|ro.robots|] == Robot(NameOf(|ro'.robots|), x, y, dir) &&
      (ro'.active == if ro.robots == [] then Some(0) else ro.active)
  {
  }

  /** A newly created robot with a known heading reports the position and heading it was
      created with. */
  lemma AddedReports(ro: Roster, x: Num, y: Num, d: Dir)
    ensures var ro' := Added(ro, x, y, Some(d));
      Report(ro'.robots[|ro.robots|]) == Some(Format(x) + "," + Format(y) + "," + Name(d))
  {
  }

  /** Selecting a robot keeps the registry valid and the robots as they were; an index from 1
      to the count makes that robot active, NaN or a larger index changes nothing, and an
      index below 1 leaves no active robot. */
  lemma SelectedActive(ro: Roster, index: Num)
    requires Valid(ro)
    ensures var ro' := Selected(ro, index);
      Valid(ro') && ro'.robots == ro.robots &&
      (index.Int? && 1 <= index.v <= |ro.robots| ==> ro'.active == Some(index.v - 1)) &&
      (index.NaN? || index.v > |ro.robots| ==> ro' == ro) &&
      (index.Int? && index.v < 1 ==> ro'.active.None?)
  {
  }

  /** After selecting robot k, the summary line of a report names "Robot k". */
  lemma SelectedNamedInSummary(ro: Roster, k: int)
    requires Valid(ro) && 1 <= k <= |ro.robots|
    ensures var ro' := Selected(ro, Int(k));
      Valid(ro') && ro'.active.Some? &&
      Summary(ro') == "No of robots: " + NatToString(|ro.robots|) + ", Active robot: " + NameOf(k)
  {
  }

  /** Turning changes only the active robot's heading, by one step of the table: clockwise
      is index + 1 and anticlockwise index + 3, modulo 4. It throws exactly when there is no
      active robot or it has no direction. */
  lemma TurnChangesHeadingOnly(ro: Roster, clockwise: bool)
    requires Valid(ro)
    ensures var r := if clockwise then TurnedRight(ro) else TurnedLeft(ro);
      (r.Some? <==> CanSteer(ro)) &&
      (r.Some? ==>
        var a := ro.active.value;
        var old_ := ro.robots[a];
        var new_ := r.value.robots[a];
        Valid(r.value) && r.value.active == ro.active && |r.value.robots| == |ro.robots| &&
        (forall i :: 0 <= i < |ro.robots| && i != a ==> r.value.robots[i] == ro.robots[i]) &&
        new_.name == old_.name && new_.x == old_.x && new_.y == old_.y && new_.dir.Some? &&
        Index(new_.dir.value) == (Index(old_.dir.value) + (if clockwise then 1 else 3)) % 4)
  {
  }

  /** Turning one robot one way and then the other gives back the same robot. */
  lemma TurnedBack(r: Robot)
    requires r.dir.Some?
    ensures Turned(Turned(r, false), true) == r && Turned(Turned(r, true), false) == r
  {
    TurnsCancel(r.dir.value);
  }

  /** A left turn followed by a right turn, or the other way round, restores the registry. */
  lemma TurnsCancelOut(ro: Roster)
    requires CanSteer(ro)
    ensures TurnedLeft(ro).Some? && TurnedRight(TurnedLeft(ro).value) == Some(ro)
    ensures TurnedRight(ro).Some? && TurnedLeft(TurnedRight(ro).value) == Some(ro)
  {
    var a := ro.active.value;
    var r := ro.robots[a];
    TurnedBack(r);
    var left := ro.(robots := ro.robots[a := Turned(r, false)]);
    assert TurnedLeft(ro) == Some(left);
    assert left.robots[a] == Turned(r, false) && CanSteer(left);
    assert Turned(left.robots[a], true) == r;
    assert left.robots[a := r] == ro.robots;
    assert TurnedRight(left) == Some(left.(robots := left.robots[a := r]));
    var right := ro.(robots := ro.robots[a := Turned(r, true)]);
    assert TurnedRight(ro) == Some(right);
    assert right.robots[a] == Turned(r, true) && CanSteer(right);
    assert Turned(right.robots[a], false) == r;
    assert right.robots[a := r] == ro.robots;
    assert TurnedLeft(right) == Some(right.(robots := right.robots[a := r]));
  }

  /** k right turns in a row; None if one of them throws. */
  function RightTurns(ro: Roster, k: nat): Option<Roster>
  {
    if k == 0 then Some(ro)
    else match RightTurns(ro, k - 1)
      case None => None
      case Some(r) => TurnedRight(r)
  }

  /** k left turns in a row; None if one of them throws. */
  function LeftTurns(ro: Roster, k: nat): Option<Roster>
  {
    if k == 0 then Some(ro)
    else match LeftTurns(ro, k - 1)
      case None => None
      case Some(r) => TurnedLeft(r)
  }

  /** The registry with the active robot facing `d` and nothing else changed. */
  function Reheaded(ro: Roster, d: Dir): (ro': Roster)
    requires CanSteer(ro)
    ensures CanSteer(ro')
  {
    var a := ro.active.value;
    ro.(robots := ro.robots[a := ro.robots[a].(dir := Some(d))])
  }

  /** Turning k times keeps everything but the active robot's heading, which is the heading
      turned k times. */
  lemma {:induction false} RightTurnsHeading(ro: Roster, k: nat)
    requires CanSteer(ro)
    ensures RightTurns(ro, k) == Some(Reheaded(ro, RightN(ro.robots[ro.active.value].dir.value, k)))
  {
    var a := ro.active.value;
    var d := ro.robots[a].dir.value;
    if k > 0 {
      RightTurnsHeading(ro, k - 1);
      var prev := Reheaded(ro, RightN(d, k - 1));
      var next := Reheaded(ro, RightN(d, k));
      assert Turned(prev.robots[a], true) == next.robots[a];
      assert prev.robots[a := next.robots[a]] == next.robots;
    } else {
      assert ro.robots[a := ro.robots[a]] == ro.robots;
    }
  }

  lemma {:induction false} LeftTurnsHeading(ro: Roster, k: nat)
    requires CanSteer(ro)
    ensures LeftTurns(ro, k) == Some(Reheaded(ro, LeftN(ro.robots[ro.active.value].dir.value, k)))
  {
    var a := ro.active.value;
    var d := ro.robots[a].dir.value;
    if k > 0 {
      LeftTurnsHeading(ro, k - 1);
      var prev := Reheaded(ro, LeftN(d, k - 1));
      var next := Reheaded(ro, LeftN(d, k));
      assert Turned(prev.robots[a], false) == next.robots[a];
      assert prev.robots[a := next.robots[a]] == next.robots;
    } else {
      assert ro.robots[a := ro.robots[a]] == ro.robots;
    }
  }

  function RightN(d: Dir, k: nat): Dir
  {
    if k == 0 then d else Right(RightN(d, k - 1))
  }

  function LeftN(d: Dir, k: nat): Dir
  {
    if k == 0 then d else Left(LeftN(d, k - 1))
  }

  lemma RightNFour(d: Dir)
    ensures RightN(d, 4) == d
  {
    FullCircleRight(d);
  }

  lemma LeftNFour(d: Dir)
    ensures LeftN(d, 4) == d
  {
    FullCircleLeft(d);
  }

  /** Reheading the active robot to the heading it already has changes nothing. */
  lemma ReheadedSame(ro: Roster)
    requires CanSteer(ro)
    ensures Reheaded(ro, ro.robots[ro.active.value].dir.value) == ro
  {
    var a := ro.active.value;
    assert ro.robots[a := ro.robots[a]] == ro.robots;
  }

  /** Four right turns are the identity on the registry. */
  lemma FourRightTurnsRestore(ro: Roster)
    requires CanSteer(ro)
    ensures RightTurns(ro, 4) == Some(ro)
  {
    RightTurnsHeading(ro, 4);
    RightNFour(ro.robots[ro.active.value].dir.value);
    ReheadedSame(ro);
  }

  /** Four left turns are the identity on the registry. */
  lemma FourLeftTurnsRestore(ro: Roster)
    requires CanSteer(ro)
    ensures LeftTurns(ro, 4) == Some(ro)
  {
    LeftTurnsHeading(ro, 4);
    LeftNFour(ro.robots[ro.active.value].dir.value);
    ReheadedSame(ro);
  }

  /** A coordinate inside [0, n - 1]. */
  predicate OnGrid(c: Num, n: int)
  {
    c.Int? && 0 <= c.v < n
  }

  /** Whether a coordinate still lies short of `edge` when moving by `delta` (+1 or -1):
      below it moving up, above it moving down. NaN is never short of anything. */
  predicate ShortOf(c: Num, delta: int, edge: int)
  {
    c.Int? && (if delta > 0 then c.v < edge else c.v > edge)
  }

  /** How one coordinate changes in a move towards `edge` by `delta` (+1 or -1): it moves by
      exactly delta when it is short of the edge, wherever it is (off the grid included), and
      otherwise stays; a coordinate on the grid stays on the grid. */
  predicate SteppedToward(before: Num, after: Num, delta: int, edge: int, n: int)
  {
    (ShortOf(before, delta, edge) ==> after == Int(before.v + delta)) &&
    (!ShortOf(before, delta, edge) ==> after == before) &&
    (OnGrid(before, n) ==> OnGrid(after, n))
  }

  /** A move changes one coordinate of the active robot, the one its heading points along,
      one unit towards that edge and not past it; it keeps the robot's heading, its name and
      every other robot. It throws exactly when turning would. */
  lemma MoveOneStep(ro: Roster, n: int)
    requires Valid(ro)
    ensures Moved(ro, n).Some? <==> CanSteer(ro)
    ensures Moved(ro, n).Some? ==>
      var a := ro.active.value;
      var old_ := ro.robots[a];
      var new_ := Moved(ro, n).value.robots[a];
      var d := old_.dir.value;
      Valid(Moved(ro, n).value) && Moved(ro, n).value.active == ro.active &&
      |Moved(ro, n).value.robots| == |ro.robots| &&
      (forall i :: 0 <= i < |ro.robots| && i != a ==> Moved(ro, n).value.robots[i] == ro.robots[i]) &&
      new_.name == old_.name && new_.dir == old_.dir &&
      (d == North ==> new_.x == old_.x && SteppedToward(old_.y, new_.y, 1, n - 1, n)) &&
      (d == South ==> new_.x == old_.x && SteppedToward(old_.y, new_.y, -1, 0, n)) &&
      (d == East ==> new_.y == old_.y && SteppedToward(old_.x, new_.x, 1, n - 1, n)) &&
      (d == West ==> new_.y == old_.y && SteppedToward(old_.x, new_.x, -1, 0, n))
  {
  }
}
