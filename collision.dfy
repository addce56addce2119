/**
 * The wall-collision rule that the tick loop applies to every particle right
 * after integrating it (fluid_sim.c, lines 163-182): an `if / else if` chain
 * over the four walls of the square [-50, 50] x [-50, 50], tried in the
 * order floor, ceiling, left, right. The chain is modelled exactly as
 * written, including the x-wall branches that compute the new horizontal
 * velocity from the vertical one; `WallCollisionIntended` is the rule those
 * branches evidently meant.
 */
module Collision {
  import opened Vectors

  /** BOUNCE_DAMPING */
  const BounceDamping: real := 0.75
  /** A particle at or beyond this distance from the origin on one axis hits a wall. */
  const WallLimit: real := 50.0
  /** Where a particle that hit a wall is put back, just inside the wall. */
  const WallClamp: real := 49.9

  /** The part of a particle that the collision rule reads and writes. */
  datatype Motion = Motion(position: Vector2, velocity: Vector2)

  /** Strictly between the walls on both axes: no branch of the chain fires. */
  predicate InsideWalls(p: Vector2) {
    -WallLimit < p.x < WallLimit && -WallLimit < p.y < WallLimit
  }

  /** The y-axis component is strictly between the walls. */
  predicate InsideWallsY(p: Vector2) {
    -WallLimit < p.y < WallLimit
  }

  /**
   * The chain as written. At most one axis is touched, and the position
   * stays put exactly when the particle is strictly between the walls.
   */
  function WallCollision(m: Motion): (r: Motion)
    ensures (r.position.x == m.position.x && r.velocity.x == m.velocity.x)
         || (r.position.y == m.position.y && r.velocity.y == m.velocity.y)
    ensures r.position == m.position <==> InsideWalls(m.position)
    ensures InsideWalls(m.position) ==> r == m
  {
    var p, v := m.position, m.velocity;
    if p.y <= -WallLimit then
      Motion(p.(y := -WallClamp), v.(y := -(v.y * BounceDamping)))
    else if p.y >= WallLimit then
      Motion(p.(y := WallClamp), v.(y := -(v.y * BounceDamping)))
    else if p.x <= -WallLimit then
      Motion(p.(x := -WallClamp), v.(x := -(v.y * BounceDamping)))
    else if p.x >= WallLimit then
      Motion(p.(x := WallClamp), v.(x := -(v.y * BounceDamping)))
    else
      m
  }

  /**
   * The chain with the reflection the x-wall branches evidently meant: each
   * branch reverses and damps the velocity component of its own axis.
   */
  function WallCollisionIntended(m: Motion): (r: Motion)
    ensures r.position == WallCollision(m).position
  {
    var p, v := m.position, m.velocity;
    if p.y <= -WallLimit then
      Motion(p.(y := -WallClamp), v.(y := -(v.y * BounceDamping)))
    else if p.y >= WallLimit then
      Motion(p.(y := WallClamp), v.(y := -(v.y * BounceDamping)))
    else if p.x <= -WallLimit then
      Motion(p.(x := -WallClamp), v.(x := -(v.x * BounceDamping)))
    else if p.x >= WallLimit then
      Motion(p.(x := WallClamp), v.(x := -(v.x * BounceDamping)))
    else
      m
  }

  /**
   * Floor and ceiling, which take precedence over the side walls: the y
   * coordinate is put back just inside the wall that was hit, the vertical
   * velocity is reversed and damped, and x and the horizontal velocity are
   * kept even when the particle is also beyond a side wall.
   */
  lemma FloorAndCeilingBounce(m: Motion)
    requires !InsideWallsY(m.position)
    ensures var r := WallCollision(m);
      && r.position.x == m.position.x && r.velocity.x == m.velocity.x
      && r.position.y == (if m.position.y <= -WallLimit then -WallClamp else WallClamp)
      && r.velocity.y == -(m.velocity.y * BounceDamping)
      && Abs(r.velocity.y) <= Abs(m.velocity.y)
  {
  }

  /**
   * Side walls, reached only when y is strictly between the walls: x is put
   * back just inside the wall that was hit, and the new horizontal velocity
   * is minus the damped VERTICAL velocity, as the source computes it; y and
   * the vertical velocity are kept.
   */
  lemma SideWallBounceAsWritten(m: Motion)
    requires InsideWallsY(m.position) && !InsideWalls(m.position)
    ensures var r := WallCollision(m);
      && r.position.y == m.position.y && r.velocity.y == m.velocity.y
      && r.position.x == (if m.position.x <= -WallLimit then -WallClamp else WallClamp)
      && r.velocity.x == -(m.velocity.y * BounceDamping)
  {
  }

  /**
   * The handled coordinate ends strictly between the walls, so a particle
   * beyond at most one wall is strictly inside after one step.
   */
  lemma OneWallEndsInside(m: Motion)
    requires InsideWallsY(m.position) || -WallLimit < m.position.x < WallLimit
    ensures InsideWalls(WallCollision(m).position)
  {
  }

  /**
   * Only one wall is handled per step: a particle beyond a corner has its y
   * put back, while its x is kept and stays outside the walls.
   */
  lemma CornerHandlesOneWall(m: Motion)
    requires !InsideWallsY(m.position) && !(-WallLimit < m.position.x < WallLimit)
    ensures WallCollision(m).position.x == m.position.x
    ensures !InsideWalls(WallCollision(m).position)
  {
  }

  /**
   * As written, a side-wall hit sets the horizontal velocity without looking
   * at the old one: two particles that differ only in it leave with the same.
   */
  lemma SideWallIgnoresHorizontalVelocity(m: Motion, vx: real)
    requires InsideWallsY(m.position) && !InsideWalls(m.position)
    ensures WallCollision(m).velocity.x
         == WallCollision(m.(velocity := m.velocity.(x := vx))).velocity.x
  {
  }

  /**
   * A particle hitting the right wall while moving right at 1 and up at 4
   * leaves moving left at 3: faster than it came, instead of at 0.75.
   */
  lemma SideWallGainsSpeed()
    ensures var m := Motion(Vector2(50.0, 0.0), Vector2(1.0, 4.0));
      && WallCollision(m).velocity.x == -3.0
      && Abs(WallCollision(m).velocity.x) > Abs(m.velocity.x)
      && WallCollisionIntended(m).velocity.x == -0.75
  {
  }

  /**
   * The intended rule reflects on every wall: the velocity component of the
   * axis whose wall was hit is reversed and damped by BOUNCE_DAMPING, so its
   * magnitude never grows, and the other component is kept.
   */
  lemma IntendedReflectsAndDamps(m: Motion)
    requires !InsideWalls(m.position)
    ensures var r := WallCollisionIntended(m);
      if !InsideWallsY(m.position) then
        r.velocity == m.velocity.(y := -(m.velocity.y * BounceDamping))
        && Abs(r.velocity.y) <= Abs(m.velocity.y)
      else
        r.velocity == m.velocity.(x := -(m.velocity.x * BounceDamping))
        && Abs(r.velocity.x) <= Abs(m.velocity.x)
  {
  }
}
