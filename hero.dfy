/**
 * The hero sprite and the part of a tick that turns the held keys into its
 * movement intent and its animation. Velocity, position and ground contact
 * are produced by the physics engine between ticks; here they are read.
 */
module Hero {
  import opened Wrappers
  import opened Tiles

  const GroundAcceleration: int := 600
  const AirAcceleration: int := 200
  const JumpVelocity: int := -500

  datatype Anim = Idle | Run

  /** The arcade-physics body: velocity, the acceleration the scene asks for, and ground contact. */
  datatype Body = Body(velocityX: int, velocityY: int, accelerationX: int, blockedDown: bool)

  /** The hero: centre position, its body when it has one, facing, and the animation playing. */
  datatype Sprite = Sprite(x: int, y: int, body: Option<Body>, flipX: bool, anim: Option<Anim>)

  /** The movement keys held during a tick. */
  datatype Keys = Keys(a: bool, d: bool, space: bool)

  /** The hero as placed by `create` over the spawn cell: centred horizontally, 4 units above the cell's centre. */
  function Spawned(cellX: int, cellY: int): (s: Sprite)
    ensures WorldToTile(s.x) == cellX && WorldToTile(s.y) == cellY
    ensures s.body == Some(Body(0, 0, 0, false)) && !s.flipX && s.anim.None?
  {
    CellInteriorMapsBack(cellX, TileSize / 2);
    CellInteriorMapsBack(cellY, TileSize / 2 - 4);
    Sprite(TileToWorld(cellX) + TileSize / 2, TileToWorld(cellY) + TileSize / 2 - 4,
           Some(Body(0, 0, 0, false)), false, None)
  }

  function Acceleration(grounded: bool): int
  {
    if grounded then GroundAcceleration else AirAcceleration
  }

  function Abs(n: int): nat
  {
    if n < 0 then -n else n
  }

  /** The movement part of a tick for a hero that has a body. */
  function Steer(s: Sprite, keys: Keys): (r: Sprite)
    requires s.body.Some?
    ensures r.x == s.x && r.y == s.y && r.body.Some?
    ensures var b, b' := s.body.value, r.body.value;
      // what the physics engine owns is left as it is
      b'.velocityX == b.velocityX && b'.blockedDown == b.blockedDown
      // traction: stronger on the ground than in the air, nothing without a key
      && Abs(b'.accelerationX) == (if keys.a || keys.d then Acceleration(b.blockedDown) else 0)
      // A wins over D
      && (b'.accelerationX < 0 <==> keys.a)
      && (b'.accelerationX > 0 <==> !keys.a && keys.d)
      // facing follows the key that accelerates, and is kept without one
      && (b'.accelerationX != 0 ==> r.flipX == (b'.accelerationX < 0))
      && (b'.accelerationX == 0 ==> r.flipX == s.flipX)
      // a jump only from the ground
      && (b'.velocityY != b.velocityY ==> b.blockedDown && keys.space)
      && (b.blockedDown && keys.space ==> b'.velocityY == JumpVelocity)
      // running exactly while moving sideways
      && r.anim.Some? && (r.anim.value == Run <==> b.velocityX != 0)
  {
    var b := s.body.value;
    var acceleration := Acceleration(b.blockedDown);
    var (accelerationX, flipX) :=
      if keys.a then (-acceleration, true)
      else if keys.d then (acceleration, false)
      else (0, s.flipX);
    var velocityY := if b.blockedDown && keys.space then JumpVelocity else b.velocityY;
    var anim := if b.velocityX != 0 then Run else Idle;
    s.(body := Some(b.(accelerationX := accelerationX, velocityY := velocityY)), flipX := flipX, anim := Some(anim))
  }
}
