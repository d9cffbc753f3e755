/**
 The record a team refers to: a named, health-bearing unit with a position.
 `Warrior` is the only concrete kind; it adds no state of its own.
 */
module Units {

  /** The values of a C++ `int`. */
  predicate InInt32(x: int) {
    -0x8000_0000 <= x < 0x8000_0000
  }

  type Int32 = x: int | InInt32(x)

  /** Coordinate storage; `getX`/`setX` and `getY`/`setY` read and write these fields. */
  datatype Position = Position(x: Int32, y: Int32)

  datatype Kind = Warrior

  /** A unit; the getters of the source are the destructors `name`, `health` and `position`. */
  datatype Unit = Unit(kind: Kind, name: string, health: Int32, position: Position)

  /** Constructs a warrior; the getters then return exactly the constructor's arguments. */
  function NewWarrior(name: string, health: Int32, x: Int32, y: Int32): (u: Unit)
    ensures u.kind == Warrior
    ensures u.name == name && u.health == health
    ensures u.position.x == x && u.position.y == y
  {
    Unit(Warrior, name, health, Position(x, y))
  }

  /** Stores any name, the empty one included, and leaves every other field alone. */
  function SetName(u: Unit, name: string): (r: Unit)
    ensures r.name == name
    ensures r.kind == u.kind && r.health == u.health && r.position == u.position
  {
    u.(name := name)
  }

  /** Stores any health, zero and negative values included, and leaves every other field alone. */
  function SetHealth(u: Unit, health: Int32): (r: Unit)
    ensures r.health == health
    ensures r.kind == u.kind && r.name == u.name && r.position == u.position
  {
    u.(health := health)
  }

  /** Overwrites both coordinates, whatever they were, and leaves every other field alone. */
  function SetPosition(u: Unit, x: Int32, y: Int32): (r: Unit)
    ensures r.position.x == x && r.position.y == y
    ensures r.kind == u.kind && r.name == u.name && r.health == u.health
  {
    u.(position := Position(x, y))
  }

  /** Moving is defined only when neither new coordinate overflows an `int`. */
  predicate CanMove(u: Unit, dx: Int32, dy: Int32) {
    InInt32(u.position.x + dx) && InInt32(u.position.y + dy)
  }

  /** Relative movement: the deltas are added to the current coordinates. */
  function Move(u: Unit, dx: Int32, dy: Int32): (r: Unit)
    requires CanMove(u, dx, dy)
    ensures r.position.x - u.position.x == dx
    ensures r.position.y - u.position.y == dy
    ensures r.kind == u.kind && r.name == u.name && r.health == u.health
  {
    u.(position := Position(u.position.x + dx, u.position.y + dy))
  }

  /** Moving is setting the position to the displaced coordinates. */
  lemma MoveIsDisplacedSetPosition(u: Unit, dx: Int32, dy: Int32)
    requires CanMove(u, dx, dy)
    ensures Move(u, dx, dy) == SetPosition(u, u.position.x + dx, u.position.y + dy)
  {
  }

  /** Two moves compose into one move by the summed deltas. */
  lemma MoveCompose(u: Unit, dx1: Int32, dy1: Int32, dx2: Int32, dy2: Int32)
    requires CanMove(u, dx1, dy1)
    requires CanMove(Move(u, dx1, dy1), dx2, dy2)
    requires InInt32(dx1 + dx2) && InInt32(dy1 + dy2)
    ensures CanMove(u, dx1 + dx2, dy1 + dy2)
    ensures Move(Move(u, dx1, dy1), dx2, dy2) == Move(u, dx1 + dx2, dy1 + dy2)
  {
  }

  /** Moving back by the opposite deltas restores the unit. */
  lemma MoveThenBack(u: Unit, dx: Int32, dy: Int32)
    requires CanMove(u, dx, dy)
    requires InInt32(-(dx as int)) && InInt32(-(dy as int))
    ensures CanMove(Move(u, dx, dy), -dx, -dy)
    ensures Move(Move(u, dx, dy), -dx, -dy) == u
  {
  }

  /** A later `setPosition` erases any earlier movement or position. */
  lemma SetPositionOverwrites(u: Unit, dx: Int32, dy: Int32, x0: Int32, y0: Int32, x: Int32, y: Int32)
    requires CanMove(u, dx, dy)
    ensures SetPosition(Move(u, dx, dy), x, y) == SetPosition(u, x, y)
    ensures SetPosition(SetPosition(u, x0, y0), x, y) == SetPosition(u, x, y)
  {
  }

  /** The setters write independent fields, so they commute, and the last write of a field wins. */
  lemma SettersIndependent(u: Unit, name: string, health: Int32, x: Int32, y: Int32,
                           name0: string, health0: Int32)
    ensures SetHealth(SetName(u, name), health) == SetName(SetHealth(u, health), name)
    ensures SetPosition(SetName(u, name), x, y) == SetName(SetPosition(u, x, y), name)
    ensures SetPosition(SetHealth(u, health), x, y) == SetHealth(SetPosition(u, x, y), health)
    ensures SetName(SetName(u, name0), name) == SetName(u, name)
    ensures SetHealth(SetHealth(u, health0), health) == SetHealth(u, health)
    ensures SetName(u, u.name) == u && SetHealth(u, u.health) == u
    ensures SetPosition(u, u.position.x, u.position.y) == u
  {
  }
}
