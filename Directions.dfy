/** The direction table of robo-challenge.js: four headings in a fixed cyclic order. */
module Directions {
  import opened Wrappers

  datatype Dir = North | East | South | West

  /** The `index` of a heading's entry in the table. */
  function Index(d: Dir): (i: nat)
    ensures i < 4
  {
    match d
    case North => 0
    case East => 1
    case South => 2
    case West => 3
  }

  /** The `value` of a heading's entry, as it appears in instructions and reports. */
  function Name(d: Dir): string
  {
    match d
    case North => "NORTH"
    case East => "EAST"
    case South => "SOUTH"
    case West => "WEST"
  }

  /** `directions.find(d => d.value === s)`: the heading named exactly `s`, if there is one;
      a missing field never matches. */
  function Find(s: Option<string>): (r: Option<Dir>)
    ensures r.Some? ==> s == Some(Name(r.value))
    ensures r.None? ==> forall d: Dir :: s != Some(Name(d))
  {
    match s
    case None => None
    case Some(t) =>
      if t == "NORTH" then Some(North)
      else if t == "EAST" then Some(East)
      else if t == "SOUTH" then Some(South)
      else if t == "WEST" then Some(West)
      else None
  }

  /** A quarter turn anticlockwise: the table entry at index + 3 modulo 4. */
  function Left(d: Dir): (r: Dir)
    ensures Index(r) == (Index(d) + 3) % 4
  {
    match d
    case North => West
    case East => North
    case South => East
    case West => South
  }

  /** A quarter turn clockwise: the table entry at index + 1 modulo 4. */
  function Right(d: Dir): (r: Dir)
    ensures Index(r) == (Index(d) + 1) % 4
  {
    match d
    case North => East
    case East => South
    case South => West
    case West => North
  }

  /** Each heading is found again from its own name, so names are a faithful encoding. */
  lemma FindName(d: Dir)
    ensures Find(Some(Name(d))) == Some(d)
  {
  }

  /** The clockwise order the table encodes: NORTH, EAST, SOUTH, WEST and round again. */
  lemma Clockwise()
    ensures Right(North) == East && Right(East) == South && Right(South) == West && Right(West) == North
  {
  }

  /** The same order read anticlockwise. */
  lemma Anticlockwise()
    ensures Left(North) == West && Left(West) == South && Left(South) == East && Left(East) == North
  {
  }

  /** Left and right undo each other. */
  lemma TurnsCancel(d: Dir)
    ensures Right(Left(d)) == d && Left(Right(d)) == d
  {
    match d
    case North =>
    case East =>
    case South =>
    case West =>
  }

  /** Four quarter turns clockwise bring a heading back. */
  lemma FullCircleRight(d: Dir)
    ensures Right(Right(Right(Right(d)))) == d
  {
    Clockwise();
    match d
    case North =>
    case East =>
    case South =>
    case West =>
  }

  /** Four quarter turns anticlockwise bring a heading back. */
  lemma FullCircleLeft(d: Dir)
    ensures Left(Left(Left(Left(d)))) == d
  {
    Anticlockwise();
    match d
    case North =>
    case East =>
    case South =>
    case West =>
  }
}
