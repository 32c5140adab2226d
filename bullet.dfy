/** The player's projectile (entities/bullet.py): it flies horizontally at
    a fixed speed and expires when its lifetime runs out. */
module Bullets {
  import opened Config
  import opened Rects

  class Bullet {
    var rect: Rect
    const direction: int
    const speed: int := BULLET_SPEED
    const damage: int := BULLET_DAMAGE
    var lifetime: real

    /** Bullet(x, y, direction): centred on (x, y), with the configured
        speed, damage and lifetime. */
    constructor (x: int, y: int, direction: int)
      ensures rect == CenteredAt(x, y, BULLET_SPRITE_SIZE, BULLET_SPRITE_SIZE)
      ensures this.direction == direction
      ensures speed == BULLET_SPEED && damage == BULLET_DAMAGE && lifetime == BULLET_LIFETIME
    {
      rect := CenteredAt(x, y, BULLET_SPRITE_SIZE, BULLET_SPRITE_SIZE);
      this.direction := direction;
      lifetime := BULLET_LIFETIME;
    }

    /** update(dt): move by speed * direction * dt (truncated into the
        integer x), never vertically; lose dt of lifetime; report kill()
        exactly when the lifetime left is no longer positive. */
    method Update(dt: real) returns (killed: bool)
      modifies this`rect, this`lifetime
      ensures Flew(old(rect), rect, speed * direction, dt)
      ensures rect.y == old(rect).y && rect.w == old(rect).w && rect.h == old(rect).h
      ensures lifetime == old(lifetime) - dt
      ensures killed <==> !Survives(old(lifetime), [dt])
    {
      rect := rect.(x := Trunc(rect.x as real + (speed * direction) as real * dt));
      lifetime := lifetime - dt;
      killed := lifetime <= 0.0;
    }
  }

  /** One update's motion at `velocity` pixels per second: x advances by
      velocity * dt, truncated to an integer, and nothing else changes. */
  predicate Flew(before: Rect, after: Rect, velocity: int, dt: real)
  {
    after == before.(x := Trunc(before.x as real + velocity as real * dt))
  }

  function Sum(dts: seq<real>): real
  {
    if dts == [] then 0.0 else dts[0] + Sum(dts[1..])
  }

  /** Whether a bullet with the given lifetime is still alive after
      successive updates by dts: each update must leave lifetime > 0, since
      the first one that does not kills it. */
  predicate Survives(lifetime: real, dts: seq<real>)
    decreases |dts|
  {
    dts == [] || (lifetime - dts[0] > 0.0 && Survives(lifetime - dts[0], dts[1..]))
  }

  /** One update by dt leaves the bullet alive exactly when more than dt
      of its lifetime was left. */
  lemma SurvivesOnce(lifetime: real, dt: real)
    ensures Survives(lifetime, [dt]) <==> lifetime - dt > 0.0
  {
    assert [dt][1..] == [];
  }

  /** For non-negative time steps, a bullet survives exactly when the steps
      add up to less than its lifetime: summed dt >= lifetime means it was
      removed, less means it is alive. */
  lemma {:induction false} SurvivesIffShort(lifetime: real, dts: seq<real>)
    requires lifetime > 0.0
    requires forall i :: 0 <= i < |dts| ==> dts[i] >= 0.0
    ensures Survives(lifetime, dts) <==> Sum(dts) < lifetime
    decreases |dts|
  {
    if dts != [] {
      var rest := lifetime - dts[0];
      if rest > 0.0 {
        SurvivesIffShort(rest, dts[1..]);
      } else {
        SumNonNegative(dts[1..]);
      }
    }
  }

  lemma {:induction false} SumNonNegative(dts: seq<real>)
    requires forall i :: 0 <= i < |dts| ==> dts[i] >= 0.0
    ensures Sum(dts) >= 0.0
  {
    if dts != [] {
      SumNonNegative(dts[1..]);
    }
  }

  /** A fresh bullet lives for BULLET_LIFETIME of accumulated time. */
  lemma FreshBulletLifetime(dts: seq<real>)
    requires forall i :: 0 <= i < |dts| ==> dts[i] >= 0.0
    ensures Sum(dts) >= BULLET_LIFETIME ==> !Survives(BULLET_LIFETIME, dts)
    ensures Sum(dts) < BULLET_LIFETIME ==> Survives(BULLET_LIFETIME, dts)
  {
    SurvivesIffShort(BULLET_LIFETIME, dts);
  }
}
