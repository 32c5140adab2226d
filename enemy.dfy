/** The flying enemy (entities/enemy.py): it heads for the player and dies
    when its health runs out. */
module Enemies {
  import opened Config
  import opened Rects
  import opened Events
  import opened Players

  function Sign(v: real): int
  {
    if v > 0.0 then 1 else if v < 0.0 then -1 else 0
  }

  function SignOf(v: int): int
  {
    if v > 0 then 1 else if v < 0 then -1 else 0
  }

  /** What the model keeps of (dx, dy) / distance: each component has the
      sign of the corresponding offset and magnitude at most 1, and a zero
      offset gives no direction at all. */
  predicate Heading(dx: int, dy: int, ux: real, uy: real)
  {
    Sign(ux) == SignOf(dx) && Sign(uy) == SignOf(dy) &&
    -1.0 <= ux <= 1.0 && -1.0 <= uy <= 1.0
  }

  lemma ScaledSign(u: real, speed: real, dt: real)
    requires speed >= 0.0 && dt >= 0.0
    ensures u >= 0.0 ==> u * speed * dt >= 0.0
    ensures u <= 0.0 ==> u * speed * dt <= 0.0
  {
    assert speed * dt >= 0.0;
    assert u * speed * dt == u * (speed * dt);
  }

  /** One step of the chase from `before` to `after` toward target's
      centre: facing right exactly when the target's centre was to the
      right, the size kept, no motion along an axis where the centres
      already agree, and (for a non-negative step) motion only toward the
      target on each axis. */
  predicate Chase(before: Rect, after: Rect, facingRight: bool, target: Rect, dt: real)
  {
    var dx := target.CenterX() - before.CenterX();
    var dy := target.CenterY() - before.CenterY();
    && (facingRight <==> dx > 0)
    && after.w == before.w && after.h == before.h
    && (dx == 0 ==> after.x == before.x)
    && (dy == 0 ==> after.y == before.y)
    && (dt >= 0.0 && dx > 0 ==> after.x >= before.x)
    && (dt >= 0.0 && dx < 0 ==> after.x <= before.x)
    && (dt >= 0.0 && dy > 0 ==> after.y >= before.y)
    && (dt >= 0.0 && dy < 0 ==> after.y <= before.y)
  }

  class FlyingEnemy {
    var rect: Rect
    const player: Player?
    const speed: int := ENEMY_SPEED
    var health: int
    const damage: int := ENEMY_DAMAGE
    var facingRight: bool

    /** FlyingEnemy(x, y, player): centred on (x, y), configured speed,
        health and contact damage, facing left. */
    constructor (x: int, y: int, player: Player?)
      ensures rect == CenteredAt(x, y, ENEMY_SPRITE_SIZE, ENEMY_SPRITE_SIZE)
      ensures this.player == player
      ensures health == ENEMY_HEALTH && damage == ENEMY_DAMAGE && speed == ENEMY_SPEED
      ensures !facingRight
    {
      rect := CenteredAt(x, y, ENEMY_SPRITE_SIZE, ENEMY_SPRITE_SIZE);
      this.player := player;
      health := ENEMY_HEALTH;
      facingRight := false;
    }

    /** update(dt), without the animation: nothing while there is no
        living player; otherwise a step toward the player's centre, after
        which the enemy faces right exactly when the player's centre was to
        its right. At zero distance it stays put. */
    method Update(dt: real)
      modifies this`rect, this`facingRight
      ensures player == null || !player.alive ==> rect == old(rect) && facingRight == old(facingRight)
      ensures player != null && player.alive ==> Chase(old(rect), rect, facingRight, player.rect, dt)
    {
      if player == null || !player.alive {
        return;
      }
      var dx := player.rect.CenterX() - rect.CenterX();
      var dy := player.rect.CenterY() - rect.CenterY();
      // The normalisation by the Euclidean distance is a square root; the
      // model chooses any direction with the properties it keeps of it.
      assert Heading(dx, dy, SignOf(dx) as real, SignOf(dy) as real);
      var ux: real, uy: real :| Heading(dx, dy, ux, uy);
      assert Heading(dx, dy, ux, uy);
      ghost var x0, y0 := rect.x, rect.y;
      var stepX := ux * speed as real * dt;
      var stepY := uy * speed as real * dt;
      rect := rect.(x := Trunc(rect.x as real + stepX));
      rect := rect.(y := Trunc(rect.y as real + stepY));
      TruncOfInt(x0);
      TruncOfInt(y0);
      if dt >= 0.0 {
        ScaledSign(ux, speed as real, dt);
        ScaledSign(uy, speed as real, dt);
        if ux >= 0.0 { TruncMonotone(x0 as real, x0 as real + stepX); }
        if ux <= 0.0 { TruncMonotone(x0 as real + stepX, x0 as real); }
        if uy >= 0.0 { TruncMonotone(y0 as real, y0 as real + stepY); }
        if uy <= 0.0 { TruncMonotone(y0 as real + stepY, y0 as real); }
      }
      facingRight := ux > 0.0;
    }

    /** take_damage(amount): health drops by exactly amount, with no floor
        and no invincibility; whenever the result is <= 0 the enemy reports
        ENEMY_KILLED with its centre and is killed, on every such call. */
    method TakeDamage(amount: int) returns (killed: bool, emitted: seq<Emission>)
      modifies this`health
      ensures health == old(health) - amount
      ensures killed <==> health <= 0
      ensures emitted == if killed then [Emission(EnemyKilled, Position(rect.CenterX(), rect.CenterY()))] else []
    {
      health := health - amount;
      killed := health <= 0;
      emitted := if killed then [Emission(EnemyKilled, Position(rect.CenterX(), rect.CenterY()))] else [];
    }
  }

  /** A new enemy takes two bullets: the first leaves 25 health and the
      enemy alive, the second leaves 0, reports the kill once and kills it. */
  method TwoBulletsKill(x: int, y: int) returns (first: bool, second: bool, health: int, reports: seq<Emission>)
    ensures !first && second && health == 0
    ensures reports == [Emission(EnemyKilled, Position(x, y))]
  {
    var enemy := new FlyingEnemy(x, y, null);
    var e1, e2;
    first, e1 := enemy.TakeDamage(BULLET_DAMAGE);
    assert enemy.health == 25;
    second, e2 := enemy.TakeDamage(BULLET_DAMAGE);
    health := enemy.health;
    reports := e1 + e2;
  }
}
