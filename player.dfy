/** The player character (entities/player.py): keyboard-driven horizontal
    motion and jumping, gravity up to a terminal fall speed, the level's
    horizontal bounds, a shot cooldown and a damage/invincibility timer. */
module Players {
  import opened Config
  import opened Rects
  import opened Events
  import opened Sprites
  import opened Bullets

  /** The keys handle_input looks at. */
  datatype Keys = Keys(leftArrow: bool, a: bool, rightArrow: bool, d: bool, space: bool, w: bool) {
    predicate MoveLeft() { leftArrow || a }
    predicate MoveRight() { rightArrow || d }
    predicate Jump() { space || w }
  }

  /** The motion state handle_input reads and writes. */
  datatype Motion = Motion(vx: real, vy: real, onGround: bool, facingRight: bool)

  /** The health state take_damage and the invincibility timer work on. */
  datatype Vitals = Vitals(health: int, invincible: bool, timer: real)

  /** handle_input(keys): horizontal speed is reset and then set from the
      keys, right overriding left; a jump needs the ground. */
  function AfterInput(m: Motion, k: Keys): (r: Motion)
    ensures r.vx == -PLAYER_SPEED || r.vx == 0.0 || r.vx == PLAYER_SPEED
    ensures k.MoveRight() ==> r.vx == PLAYER_SPEED && r.facingRight
    ensures k.MoveLeft() && !k.MoveRight() ==> r.vx == -PLAYER_SPEED && !r.facingRight
    ensures !k.MoveLeft() && !k.MoveRight() ==> r.vx == 0.0 && r.facingRight == m.facingRight
    ensures k.Jump() && m.onGround ==> r.vy == JUMP_VELOCITY && !r.onGround
    ensures !(k.Jump() && m.onGround) ==> r.vy == m.vy && r.onGround == m.onGround
  {
    var r := m.(vx := 0.0);
    var r := if k.MoveLeft() then r.(vx := -PLAYER_SPEED, facingRight := false) else r;
    var r := if k.MoveRight() then r.(vx := PLAYER_SPEED, facingRight := true) else r;
    if k.Jump() && r.onGround then r.(vy := JUMP_VELOCITY, onGround := false) else r
  }

  /** The gravity step of update: accelerate, then cap at terminal velocity. */
  function Fall(vy: real, dt: real): (r: real)
    ensures r <= TERMINAL_VELOCITY
    ensures vy + GRAVITY * dt <= TERMINAL_VELOCITY ==> r == vy + GRAVITY * dt
    ensures vy + GRAVITY * dt > TERMINAL_VELOCITY ==> r == TERMINAL_VELOCITY
  {
    var v := vy + GRAVITY * dt;
    if v > TERMINAL_VELOCITY then TERMINAL_VELOCITY else v
  }

  /** From rest, one frame at 60 frames per second reaches 25 pixels per
      second downward. */
  lemma FallFromRest()
    ensures Fall(0.0, 1.0 / 60.0) == 25.0
  {
  }

  /** rect.x += vx * dt; rect.y += vy * dt, each truncated into the integer
      coordinate. */
  function Moved(r: Rect, vx: real, vy: real, dt: real): (m: Rect)
    ensures m.w == r.w && m.h == r.h
    ensures m.x == Trunc(r.x as real + vx * dt) && m.y == Trunc(r.y as real + vy * dt)
  {
    r.(x := Trunc(r.x as real + vx * dt)).(y := Trunc(r.y as real + vy * dt))
  }

  /** The level-bounds step of update: push back from the left edge, then
      from the right edge. A rectangle already inside is left alone. */
  function ClampToLevel(r: Rect): (c: Rect)
    ensures c.y == r.y && c.w == r.w && c.h == r.h
    ensures r.w <= LEVEL_WIDTH ==> 0 <= c.Left() && c.Right() <= LEVEL_WIDTH
    ensures 0 <= r.Left() && r.Right() <= LEVEL_WIDTH ==> c == r
  {
    var c := if r.Left() < 0 then r.WithLeft(0) else r;
    if c.Right() > LEVEL_WIDTH then c.WithRight(LEVEL_WIDTH) else c
  }

  /** The cooldown step of update: it runs down only while positive. */
  function Cooled(cooldown: real, dt: real): (c: real)
    ensures cooldown > 0.0 ==> c == cooldown - dt
    ensures cooldown <= 0.0 ==> c == cooldown
  {
    if cooldown > 0.0 then cooldown - dt else cooldown
  }

  /** The invincibility step of update: the timer runs down while
      invincible, and invincibility ends exactly when the decremented timer
      is no longer positive. */
  function Recover(v: Vitals, dt: real): (r: Vitals)
    ensures r.health == v.health
    ensures !v.invincible ==> r == v
    ensures v.invincible ==> r.timer == v.timer - dt && (r.invincible <==> v.timer - dt > 0.0)
  {
    if v.invincible then
      var t := v.timer - dt;
      Vitals(v.health, t > 0.0, t)
    else v
  }

  /** take_damage(amount). While invincible nothing happens. Otherwise the
      health drops by amount and is floored at 0, invincibility starts with
      a full timer, PLAYER_DAMAGED is emitted carrying the unfloored health,
      and PLAYER_DIED follows whenever that health is <= 0. */
  function Hurt(v: Vitals, amount: int): (r: (Vitals, seq<Emission>))
    ensures v.invincible ==> r == (v, [])
    ensures !v.invincible ==> r.0.invincible && r.0.timer == PLAYER_INVINCIBILITY_TIME
    ensures !v.invincible && v.health - amount > 0 ==> r.0.health == v.health - amount
    ensures !v.invincible && v.health - amount <= 0 ==> r.0.health == 0
    ensures !v.invincible ==> |r.1| >= 1 && r.1[0] == Emission(PlayerDamaged, Health(v.health - amount))
    ensures !v.invincible ==> (r.1 == [Emission(PlayerDamaged, Health(v.health - amount)), Emission(PlayerDied, NoData)]
                               <==> v.health - amount <= 0)
    ensures !v.invincible ==> (r.1 == [Emission(PlayerDamaged, Health(v.health - amount))] <==> v.health - amount > 0)
  {
    if v.invincible then (v, [])
    else
      var h := v.health - amount;
      var damaged := [Emission(PlayerDamaged, Health(h))];
      if h <= 0 then (Vitals(0, true, PLAYER_INVINCIBILITY_TIME), damaged + [Emission(PlayerDied, NoData)])
      else (Vitals(h, true, PLAYER_INVINCIBILITY_TIME), damaged)
  }

  /** There is no terminal dead state: once invincibility has expired, a
      player at 0 health who is hit again reports PLAYER_DIED again. */
  lemma DeathRepeats(timer: real, amount: int)
    requires amount >= 0
    ensures Emission(PlayerDied, NoData) in Hurt(Vitals(0, false, timer), amount).1
  {
  }

  /** 100 health, hit for 15 at t = 0: 85 and invincible; a contact 0.5 s
      later is ignored; one 0.6 s after that (t = 1.1) applies. */
  lemma InvincibilityWindow()
    ensures Hurt(Vitals(100, false, 0.0), 15).0 == Vitals(85, true, 1.0)
    ensures Hurt(Recover(Vitals(85, true, 1.0), 0.5), 15).0 == Vitals(85, true, 0.5)
    ensures Hurt(Recover(Vitals(85, true, 0.5), 0.6), 15).0.health == 70
  {
  }

  /** Contacts with damages amounts handled one after another in one tick
      (no timer update in between): the vitals and everything emitted. */
  function HurtAll(v: Vitals, amounts: seq<int>): (r: (Vitals, seq<Emission>))
    decreases |amounts|
  {
    if amounts == [] then (v, [])
    else
      var first := Hurt(v, amounts[0]);
      var rest := HurtAll(first.0, amounts[1..]);
      (rest.0, first.1 + rest.1)
  }

  /** While invincible, any number of contacts changes nothing. */
  lemma {:induction false} HurtAllInvincible(v: Vitals, amounts: seq<int>)
    requires v.invincible
    ensures HurtAll(v, amounts) == (v, [])
    decreases |amounts|
  {
    if amounts != [] {
      var none: seq<Emission> := [];
      assert Hurt(v, amounts[0]) == (v, none);
      HurtAllInvincible(v, amounts[1..]);
      assert HurtAll(v, amounts[1..]) == (v, none);
      assert none + none == none;
      assert HurtAll(v, amounts) == (v, none + none);
    }
  }

  /** Simultaneous contacts in one tick: the first one that lands makes the
      player invincible, so every later one in that tick is ignored. */
  lemma FirstContactOnly(v: Vitals, amounts: seq<int>)
    requires amounts != []
    ensures !v.invincible ==> HurtAll(v, amounts) == Hurt(v, amounts[0])
  {
    if !v.invincible {
      var first := Hurt(v, amounts[0]);
      HurtAllInvincible(first.0, amounts[1..]);
      assert HurtAll(v, amounts) == (first.0, first.1 + []);
      assert first.1 + [] == first.1;
    }
  }

  class Player {
    var rect: Rect
    var vx: real
    var vy: real
    var onGround: bool
    var facingRight: bool
    const maxHealth: int
    var health: int
    var invincible: bool
    var invincibleTimer: real
    var shootCooldown: real
    var bulletGroup: Group?<Bullet>
    /** pygame's alive(): the sprite belongs to at least one group. */
    var alive: bool

    function MotionState(): Motion
      reads this
    {
      Motion(vx, vy, onGround, facingRight)
    }

    function VitalsState(): Vitals
      reads this
    {
      Vitals(health, invincible, invincibleTimer)
    }

    /** Player(x, y): at rest, facing right, full health, not invincible,
        free to shoot, no bullet group yet and in no sprite group. */
    constructor (x: int, y: int)
      ensures rect == Rect(x, y, PLAYER_SPRITE_SIZE, PLAYER_SPRITE_SIZE)
      ensures vx == 0.0 && vy == 0.0 && !onGround && facingRight
      ensures maxHealth == PLAYER_MAX_HEALTH && health == PLAYER_MAX_HEALTH
      ensures !invincible && invincibleTimer == 0.0 && shootCooldown == 0.0
      ensures bulletGroup == null && !alive
    {
      rect := Rect(x, y, PLAYER_SPRITE_SIZE, PLAYER_SPRITE_SIZE);
      vx, vy := 0.0, 0.0;
      onGround := false;
      facingRight := true;
      maxHealth := PLAYER_MAX_HEALTH;
      health := PLAYER_MAX_HEALTH;
      invincible := false;
      invincibleTimer := 0.0;
      shootCooldown := 0.0;
      bulletGroup := null;
      alive := false;
    }

    method HandleInput(keys: Keys)
      modifies this`vx, this`vy, this`onGround, this`facingRight
      ensures MotionState() == AfterInput(old(MotionState()), keys)
    {
      vx := 0.0;
      if keys.MoveLeft() {
        vx := -PLAYER_SPEED;
        facingRight := false;
      }
      if keys.MoveRight() {
        vx := PLAYER_SPEED;
        facingRight := true;
      }
      if keys.Jump() && onGround {
        vy := JUMP_VELOCITY;
        onGround := false;
      }
    }

    /** shoot(): nothing while the cooldown runs or without a bullet group;
        otherwise one new bullet, travelling the way the player faces, from
        the front edge at mid height, the cooldown restarted and one
        BULLET_FIRED emitted. */
    method Shoot() returns (fired: Bullet?, emitted: seq<Emission>)
      modifies this`shootCooldown, bulletGroup
      ensures old(shootCooldown > 0.0 || bulletGroup == null) ==>
                fired == null && emitted == [] && shootCooldown == old(shootCooldown)
                && (bulletGroup != null ==> bulletGroup.sprites == old(bulletGroup.sprites))
      ensures old(shootCooldown <= 0.0 && bulletGroup != null) ==>
                fired != null && fresh(fired)
                && bulletGroup.sprites == old(bulletGroup.sprites) + [fired]
                && fired.direction == (if facingRight then 1 else -1)
                && fired.rect == CenteredAt(if facingRight then rect.Right() else rect.Left(), rect.CenterY(),
                                            BULLET_SPRITE_SIZE, BULLET_SPRITE_SIZE)
                && fired.lifetime == BULLET_LIFETIME && fired.damage == BULLET_DAMAGE
                && shootCooldown == SHOOT_COOLDOWN
                && emitted == [Emission(BulletFired, NoData)]
    {
      if shootCooldown > 0.0 || bulletGroup == null {
        return null, [];
      }
      var direction := if facingRight then 1 else -1;
      var bulletX := if facingRight then rect.Right() else rect.Left();
      var bulletY := rect.CenterY();
      var bullet := new Bullet(bulletX, bulletY, direction);
      bulletGroup.Add(bullet);
      shootCooldown := SHOOT_COOLDOWN;
      fired, emitted := bullet, [Emission(BulletFired, NoData)];
    }

    method TakeDamage(amount: int) returns (emitted: seq<Emission>)
      modifies this`health, this`invincible, this`invincibleTimer
      ensures (VitalsState(), emitted) == Hurt(old(VitalsState()), amount)
    {
      if invincible {
        return [];
      }
      health := health - amount;
      invincible := true;
      invincibleTimer := PLAYER_INVINCIBILITY_TIME;
      emitted := [Emission(PlayerDamaged, Health(health))];
      if health <= 0 {
        health := 0;
        emitted := emitted + [Emission(PlayerDied, NoData)];
      }
    }

    /** The motion steps of update: move by the velocity over dt, each
        coordinate truncated to an integer, then push back inside the
        level's horizontal bounds. */
    method ApplyVelocity(dt: real)
      modifies this`rect
      ensures rect == ClampToLevel(Moved(old(rect), vx, vy, dt))
    {
      ghost var moved := Moved(rect, vx, vy, dt);
      rect := rect.(x := Trunc(rect.x as real + vx * dt));
      rect := rect.(y := Trunc(rect.y as real + vy * dt));
      assert rect == moved;
      rect := if rect.Left() < 0 then rect.WithLeft(0) else rect;
      rect := if rect.Right() > LEVEL_WIDTH then rect.WithRight(LEVEL_WIDTH) else rect;
    }

    /** update(dt), without the animation and the flashing: gravity, motion,
        level bounds, shot cooldown, invincibility timer, in that order. */
    method Update(dt: real)
      modifies this`vy, this`rect, this`shootCooldown, this`invincible, this`invincibleTimer
      ensures vy == Fall(old(vy), dt)
      ensures rect == ClampToLevel(Moved(old(rect), vx, vy, dt))
      ensures shootCooldown == Cooled(old(shootCooldown), dt)
      ensures VitalsState() == Recover(old(VitalsState()), dt)
    {
      vy := vy + GRAVITY * dt;
      vy := if vy > TERMINAL_VELOCITY then TERMINAL_VELOCITY else vy;
      assert vy == Fall(old(vy), dt);
      ApplyVelocity(dt);
      shootCooldown := if shootCooldown > 0.0 then shootCooldown - dt else shootCooldown;
      if invincible {
        invincibleTimer := invincibleTimer - dt;
        if invincibleTimer <= 0.0 {
          invincible := false;
        }
      }
    }
  }
}
