/** The gameplay state (states/playing_state.py): it owns the player, the
    level, the enemy and bullet groups and the camera, and runs one tick of
    the simulation per frame. */
module PlayingStates {
  import opened Config
  import opened Rects
  import opened Events
  import opened Sprites
  import opened Platforms
  import opened Bullets
  import opened Players
  import opened Enemies
  import opened CameraView
  import opened CollisionSystem
  import opened Levels

  // ---------------------------------------------------------------------
  // Spawning

  /** _update_spawning on the timer: add dt; once the interval is reached,
      spawn and restart from zero, discarding the overshoot. */
  function SpawnTick(timer: real, dt: real, interval: real): (r: (real, bool))
    ensures r.1 <==> timer + dt >= interval
    ensures r.1 ==> r.0 == 0.0
    ensures !r.1 ==> r.0 == timer + dt
  {
    var t := timer + dt;
    if t >= interval then (0.0, true) else (t, false)
  }

  /** With non-negative steps the timer stays in [0, interval). */
  lemma SpawnTimerBounded(timer: real, dt: real, interval: real)
    requires 0.0 <= timer < interval && dt >= 0.0
    ensures 0.0 <= SpawnTick(timer, dt, interval).0 < interval
  {
  }

  /** n ticks of the same dt: the timer afterwards and how many enemies
      spawned. */
  function SpawnRun(timer: real, dt: real, interval: real, n: nat): (r: (real, nat))
    ensures r.1 <= n
  {
    if n == 0 then (timer, 0)
    else
      var before := SpawnRun(timer, dt, interval, n - 1);
      var step := SpawnTick(before.0, dt, interval);
      (step.0, before.1 + if step.1 then 1 else 0)
  }

  /** The time n ticks of dt add up to. */
  function Elapsed(dt: real, n: nat): real
  {
    if n == 0 then 0.0 else Elapsed(dt, n - 1) + dt
  }

  /** Elapsed time is the number of ticks times dt. */
  lemma {:induction false} ElapsedProduct(dt: real, n: nat)
    ensures Elapsed(dt, n) == n as real * dt
  {
    if n > 0 {
      ElapsedProduct(dt, n - 1);
      assert (n - 1) as real * dt + dt == n as real * dt by {
        assert (n - 1) as real + 1.0 == n as real;
      }
    }
  }

  /** From a reset timer nothing spawns while the accumulated time is
      below the interval. */
  lemma {:induction false} QuietBeforeInterval(dt: real, interval: real, n: nat)
    requires dt >= 0.0 && Elapsed(dt, n) < interval
    ensures SpawnRun(0.0, dt, interval, n) == (Elapsed(dt, n), 0)
  {
    if n > 0 {
      QuietBeforeInterval(dt, interval, n - 1);
    }
  }

  /** The first tick at which the accumulated time reaches the interval
      spawns exactly one enemy and resets the timer, so spawning repeats
      every n ticks. */
  lemma EveryNthTick(dt: real, interval: real, n: nat)
    requires dt >= 0.0 && n >= 1 && Elapsed(dt, n - 1) < interval <= Elapsed(dt, n)
    ensures SpawnRun(0.0, dt, interval, n) == (0.0, 1)
  {
    QuietBeforeInterval(dt, interval, n - 1);
  }

  /** At 60 frames per second an enemy appears on every 150th frame. */
  lemma SpawnCadence()
    ensures SpawnRun(0.0, 1.0 / 60.0, SPAWN_INTERVAL, 149).1 == 0
    ensures SpawnRun(0.0, 1.0 / 60.0, SPAWN_INTERVAL, 150) == (0.0, 1)
  {
    ElapsedProduct(1.0 / 60.0, 149);
    ElapsedProduct(1.0 / 60.0, 150);
    QuietBeforeInterval(1.0 / 60.0, SPAWN_INTERVAL, 149);
    EveryNthTick(1.0 / 60.0, SPAWN_INTERVAL, 150);
  }

  // ---------------------------------------------------------------------
  // Off-screen bullets

  /** _cleanup_bullets' test: entirely more than 100 pixels left of the
      view, or starting more than 100 pixels right of it. */
  predicate FarOff(r: Rect, viewLeft: int, viewRight: int)
  {
    r.Right() < viewLeft - 100 || r.Left() > viewRight + 100
  }

  // ---------------------------------------------------------------------
  // Score

  function Count(s: seq<Callback>, c: Callback): nat
  {
    if s == [] then 0 else Count(s[..|s| - 1], c) + if s[|s| - 1] == c then 1 else 0
  }

  /** How many times delivering the emissions through the table invokes
      callback c. */
  function Invocations(t: Table, emitted: seq<Emission>, c: Callback): nat
  {
    if emitted == [] then 0
    else Invocations(t, emitted[..|emitted| - 1], c) + Count(ListenersOf(t, emitted[|emitted| - 1].event), c)
  }

  /** How many of the emissions are of event ev. */
  function Occurrences(emitted: seq<Emission>, ev: GameEvent): nat
  {
    if emitted == [] then 0
    else Occurrences(emitted[..|emitted| - 1], ev) + if emitted[|emitted| - 1].event == ev then 1 else 0
  }

  /** c is registered exactly once, for ev, and for no other event. */
  predicate HandlesOnly(t: Table, c: Callback, ev: GameEvent)
  {
    Count(ListenersOf(t, ev), c) == 1 && forall e :: e != ev ==> Count(ListenersOf(t, e), c) == 0
  }

  predicate Unregistered(t: Table, c: Callback)
  {
    forall e :: Count(ListenersOf(t, e), c) == 0
  }

  /** A handler registered once for ev and for nothing else runs exactly
      once per emission of ev. */
  lemma {:induction false} OncePerEvent(t: Table, emitted: seq<Emission>, c: Callback, ev: GameEvent)
    requires HandlesOnly(t, c, ev)
    ensures Invocations(t, emitted, c) == Occurrences(emitted, ev)
  {
    if emitted != [] {
      OncePerEvent(t, emitted[..|emitted| - 1], c, ev);
    }
  }

  /** The two subscriptions of the constructor, made on a table that knows
      neither handler, leave each registered once for its own event. */
  lemma SubscriptionsHandle(t: Table, onPlayerDied: Callback, onEnemyKilled: Callback)
    requires Unregistered(t, onPlayerDied) && Unregistered(t, onEnemyKilled)
    requires onPlayerDied != onEnemyKilled
    ensures var t' := Subscribed(Subscribed(t, PlayerDied, onPlayerDied), EnemyKilled, onEnemyKilled);
            HandlesOnly(t', onPlayerDied, PlayerDied) && HandlesOnly(t', onEnemyKilled, EnemyKilled)
  {
    var t1 := Subscribed(t, PlayerDied, onPlayerDied);
    var t2 := Subscribed(t1, EnemyKilled, onEnemyKilled);
    assert ListenersOf(t2, PlayerDied) == ListenersOf(t, PlayerDied) + [onPlayerDied];
    assert ListenersOf(t2, PlayerDied)[..|ListenersOf(t2, PlayerDied)| - 1] == ListenersOf(t, PlayerDied);
    assert ListenersOf(t2, EnemyKilled) == ListenersOf(t, EnemyKilled) + [onEnemyKilled];
    assert ListenersOf(t2, EnemyKilled)[..|ListenersOf(t2, EnemyKilled)| - 1] == ListenersOf(t, EnemyKilled);
    forall e ensures Count(ListenersOf(t2, e), onPlayerDied) == if e == PlayerDied then 1 else 0 {
      if e != PlayerDied && e != EnemyKilled {
        assert ListenersOf(t2, e) == ListenersOf(t, e);
      }
    }
    forall e ensures Count(ListenersOf(t2, e), onEnemyKilled) == if e == EnemyKilled then 1 else 0 {
      if e != PlayerDied && e != EnemyKilled {
        assert ListenersOf(t2, e) == ListenersOf(t, e);
      }
    }
  }

  /** exit() after the constructor's subscriptions gives every event back
      the listeners it had before the state was created. */
  lemma ExitRestoresListeners(t: Table, onPlayerDied: Callback, onEnemyKilled: Callback)
    requires onPlayerDied !in ListenersOf(t, PlayerDied) && onEnemyKilled !in ListenersOf(t, EnemyKilled)
    ensures var entered := Subscribed(Subscribed(t, PlayerDied, onPlayerDied), EnemyKilled, onEnemyKilled);
            var exited := Unsubscribed(Unsubscribed(entered, PlayerDied, onPlayerDied), EnemyKilled, onEnemyKilled);
            forall e :: ListenersOf(exited, e) == ListenersOf(t, e)
  {
    RemoveFirstAfterAppend(ListenersOf(t, PlayerDied), onPlayerDied);
    RemoveFirstAfterAppend(ListenersOf(t, EnemyKilled), onEnemyKilled);
  }

  // ---------------------------------------------------------------------
  // Per-sprite marks for the group passes

  /** Which bullets _cleanup_bullets kills for the view [left, right]. */
  ghost function FarMarks(bs: seq<Bullet>, left: int, right: int): (m: seq<bool>)
    reads bs
    ensures |m| == |bs|
  {
    if bs == [] then [] else FarMarks(bs[..|bs| - 1], left, right) + [FarOff(bs[|bs| - 1].rect, left, right)]
  }

  lemma {:induction false} FarMarksAt(bs: seq<Bullet>, left: int, right: int, k: nat)
    requires k < |bs|
    ensures FarMarks(bs, left, right)[k] == FarOff(bs[k].rect, left, right)
  {
    if k < |bs| - 1 {
      FarMarksAt(bs[..|bs| - 1], left, right, k);
    }
  }

  /** No bullet that _cleanup_bullets keeps lies far outside the view. */
  lemma NoneFarOff(bs: seq<Bullet>, left: int, right: int)
    ensures var kept := Excluding(bs, Marked(bs, FarMarks(bs, left, right)));
            forall i :: 0 <= i < |kept| ==> !FarOff(kept[i].rect, left, right)
  {
    var marks := FarMarks(bs, left, right);
    var kept := Excluding(bs, Marked(bs, marks));
    forall i | 0 <= i < |kept| ensures !FarOff(kept[i].rect, left, right) {
      MarkedSurvivor(bs, marks, i);
      ExcludingMember(bs, Marked(bs, marks), kept[i]);
      var k :| 0 <= k < |bs| && bs[k] == kept[i];
      FarMarksAt(bs, left, right, k);
    }
  }

  /** One bullet's update(dt), with the kill() it may call on itself, as
      the bullet at position |done| of the snapshot s that Group.update
      walks; done records which earlier bullets were killed. */
  method UpdateOne(bullets: Group<Bullet>, ghost s: seq<Bullet>, ghost done: seq<bool>, b: Bullet, dt: real)
    returns (killed: bool)
    requires |done| < |s| && b == s[|done|]
    requires bullets.Valid() && bullets.sprites == Excluding(s, Marked(s, done))
    modifies bullets`sprites, b`rect, b`lifetime
    ensures bullets.Valid() && bullets.sprites == Excluding(s, Marked(s, done + [killed]))
    ensures b.lifetime == old(b.lifetime) - dt
    ensures Flew(old(b.rect), b.rect, b.speed * b.direction, dt)
    ensures killed <==> old(b.lifetime) - dt <= 0.0
  {
    ghost var before := bullets.sprites;
    killed := b.Update(dt);
    if killed {
      bullets.Remove(b);
    }
    KillStep(s, done, killed, before, bullets.sprites);
  }

  /** Group.update(dt) from position i of the snapshot s on: every bullet
      from there moves and ages by dt, and is killed when its lifetime runs
      out. The result extends done with the kill of every later bullet. */
  method UpdateRest(bullets: Group<Bullet>, s: seq<Bullet>, i: nat, ghost done: seq<bool>, dt: real)
    returns (ghost spent: seq<bool>)
    requires i == |done| <= |s| && Distinct(s)
    requires bullets.Valid() && bullets.sprites == Excluding(s, Marked(s, done))
    modifies bullets`sprites, (set k | i <= k < |s| :: s[k])`rect, (set k | i <= k < |s| :: s[k])`lifetime
    ensures |spent| == |s| && spent[..i] == done
    ensures bullets.Valid() && bullets.sprites == Excluding(s, Marked(s, spent))
    ensures forall k :: i <= k < |s| ==>
              && s[k].lifetime == old(s[k].lifetime) - dt
              && Flew(old(s[k].rect), s[k].rect, s[k].speed * s[k].direction, dt)
              && (spent[k] <==> old(s[k].lifetime) - dt <= 0.0)
    decreases |s| - i
  {
    if i == |s| {
      return done;
    }
    DistinctAt(s, i);
    var b := s[i];
    var killed := UpdateOne(bullets, s, done, b, dt);
    ghost var rect, lifetime := b.rect, b.lifetime;
    assert b !in set k | i + 1 <= k < |s| :: s[k];
    spent := UpdateRest(bullets, s, i + 1, done + [killed], dt);
    assert b.rect == rect && b.lifetime == lifetime;
    assert spent[..i + 1][..i] == spent[..i];
  }

  /** The bullets that one update(dt) leaves alive all have lifetime left. */
  lemma SurvivorsAlive(s: seq<Bullet>, spent: seq<bool>, kept: seq<Bullet>)
    requires |spent| == |s| && kept == Excluding(s, Marked(s, spent))
    requires forall k :: 0 <= k < |s| ==> (spent[k] <==> s[k].lifetime <= 0.0)
    ensures forall b :: b in kept ==> b.lifetime > 0.0
  {
    forall b | b in kept ensures b.lifetime > 0.0 {
      var j :| 0 <= j < |kept| && kept[j] == b;
      MarkedSurvivor(s, spent, j);
      ExcludingMember(s, Marked(s, spent), b);
      var k :| 0 <= k < |s| && s[k] == b;
    }
  }

  /** self.bullets.update(dt): every bullet moves and ages by dt, and the
      ones whose lifetime ran out (spent) are killed as they are reached;
      the survivors keep their order and all have lifetime left. */
  method UpdateBullets(bullets: Group<Bullet>, dt: real) returns (ghost spent: seq<bool>)
    requires bullets.Valid()
    modifies bullets`sprites, (set b | b in bullets.sprites)`rect, (set b | b in bullets.sprites)`lifetime
    ensures bullets.Valid()
    ensures |spent| == |old(bullets.sprites)|
    ensures forall k :: 0 <= k < |old(bullets.sprites)| ==>
              var b := old(bullets.sprites)[k];
              && b.lifetime == old(b.lifetime) - dt
              && Flew(old(b.rect), b.rect, b.speed * b.direction, dt)
              && (spent[k] <==> !Survives(old(b.lifetime), [dt]))
    ensures var s := old(bullets.sprites); bullets.sprites == Excluding(s, Marked(s, spent))
    ensures forall b :: b in bullets.sprites ==> b in old(bullets.sprites) && b.lifetime > 0.0
  {
    var s := bullets.sprites;
    ExcludingNothing(s);
    spent := UpdateRest(bullets, s, 0, [], dt);
    forall k | 0 <= k < |s| ensures spent[k] <==> !Survives(old(s[k].lifetime), [dt]) {
      SurvivesOnce(old(s[k].lifetime), dt);
    }
    SurvivorsAlive(s, spent, bullets.sprites);
    forall b | b in bullets.sprites ensures b in s {
      ExcludingMember(s, Marked(s, spent), b);
    }
  }

  // ---------------------------------------------------------------------
  // The state

  class PlayingState {
    const player: Player
    const platforms: Group<Platform>
    const enemies: Group<FlyingEnemy>
    const bullets: Group<Bullet>
    const camera: Camera
    const events: EventManager
    /** The identities under which _on_player_died and _on_enemy_killed
        are registered. */
    const onPlayerDied: Callback
    const onEnemyKilled: Callback
    const spawnInterval: real := SPAWN_INTERVAL
    /** The platforms _create_level put in the level group. */
    ghost const level: seq<Platform>
    var spawnTimer: real
    var score: int

    ghost predicate Valid()
      reads player, platforms, enemies, bullets, camera
    {
      && player.bulletGroup == bullets
      && platforms.sprites == level
      && enemies.Valid() && bullets.Valid()
      && (forall k :: 0 <= k < |enemies.sprites| ==> enemies.sprites[k].player == player)
      && camera.Valid() && camera.levelWidth == LEVEL_WIDTH && camera.levelHeight == LEVEL_HEIGHT
      && onPlayerDied != onEnemyKilled
    }

    /** PlayingState(game): the player at (100, SCREEN_HEIGHT - 150) firing
        into the state's bullet group, the fourteen platforms, no enemies or
        bullets, the camera on the top-left corner, timer and score at zero,
        and the two handlers subscribed. */
    constructor (events: EventManager, onPlayerDied: Callback, onEnemyKilled: Callback)
      requires onPlayerDied != onEnemyKilled
      modifies events`listeners
      ensures Valid() && level == Level(LEVEL_WIDTH)
      ensures fresh(player) && fresh(platforms) && fresh(enemies) && fresh(bullets) && fresh(camera)
      ensures player.rect == Rect(100, SCREEN_HEIGHT - 150, PLAYER_SPRITE_SIZE, PLAYER_SPRITE_SIZE)
      ensures player.alive && player.health == PLAYER_MAX_HEALTH
      ensures enemies.sprites == [] && bullets.sprites == []
      ensures camera.rect == Rect(0, 0, SCREEN_WIDTH, SCREEN_HEIGHT)
      ensures spawnTimer == 0.0 && score == 0
      ensures this.events == events && this.onPlayerDied == onPlayerDied && this.onEnemyKilled == onEnemyKilled
      ensures events.listeners ==
                Subscribed(Subscribed(old(events.listeners), PlayerDied, onPlayerDied), EnemyKilled, onEnemyKilled)
    {
      var bs := new Group<Bullet>();
      var p := new Player(100, SCREEN_HEIGHT - 150);
      p.bulletGroup := bs;
      p.alive := true;
      player := p;
      bullets := bs;
      enemies := new Group<FlyingEnemy>();
      platforms := new Group<Platform>();
      camera := new Camera(LEVEL_WIDTH, LEVEL_HEIGHT);
      this.events := events;
      this.onPlayerDied := onPlayerDied;
      this.onEnemyKilled := onEnemyKilled;
      spawnTimer := 0.0;
      score := 0;
      level := Level(LEVEL_WIDTH);
      new;
      CreateLevel(platforms);
      assert Valid();
      assert player.rect == Rect(100, SCREEN_HEIGHT - 150, PLAYER_SPRITE_SIZE, PLAYER_SPRITE_SIZE);
      assert player.alive && player.health == PLAYER_MAX_HEALTH;
      assert enemies.sprites == [] && bullets.sprites == [];
      assert camera.rect == Rect(0, 0, SCREEN_WIDTH, SCREEN_HEIGHT);
      events.Subscribe(PlayerDied, onPlayerDied);
      events.Subscribe(EnemyKilled, onEnemyKilled);
    }

    /** _on_enemy_killed: one point per kill. */
    method OnEnemyKilled()
      modifies this`score
      ensures score == old(score) + 1
    {
      score := score + 1;
    }

    /** exit(): both handlers unsubscribed. */
    method Exit()
      modifies events`listeners
      ensures events.listeners ==
                Unsubscribed(Unsubscribed(old(events.listeners), PlayerDied, onPlayerDied), EnemyKilled, onEnemyKilled)
    {
      events.Unsubscribe(PlayerDied, onPlayerDied);
      events.Unsubscribe(EnemyKilled, onEnemyKilled);
    }

    /** Hands each emission to emit in order and runs this state's
        handlers among the callbacks it invokes: a point per
        _on_enemy_killed call, and a report when _on_player_died ran. */
    method Deliver(emitted: seq<Emission>) returns (playerDied: bool)
      modifies this`score
      ensures score == old(score) + Invocations(events.listeners, emitted, onEnemyKilled)
      ensures playerDied <==> Invocations(events.listeners, emitted, onPlayerDied) > 0
    {
      playerDied := false;
      for i := 0 to |emitted|
        invariant score == old(score) + Invocations(events.listeners, emitted[..i], onEnemyKilled)
        invariant playerDied <==> Invocations(events.listeners, emitted[..i], onPlayerDied) > 0
      {
        assert emitted[..i + 1][..i] == emitted[..i];
        var invoked := events.Emit(emitted[i].event);
        for j := 0 to |invoked|
          invariant score == old(score) + Invocations(events.listeners, emitted[..i], onEnemyKilled)
                             + Count(invoked[..j], onEnemyKilled)
          invariant playerDied <==>
                      Invocations(events.listeners, emitted[..i], onPlayerDied) + Count(invoked[..j], onPlayerDied) > 0
        {
          assert invoked[..j + 1][..j] == invoked[..j];
          if invoked[j] == onEnemyKilled {
            OnEnemyKilled();
          }
          if invoked[j] == onPlayerDied {
            playerDied := true;
          }
        }
        assert invoked[..|invoked|] == invoked;
      }
      assert emitted[..|emitted|] == emitted;
    }

    /** _spawn_enemy(): a new enemy chasing the player, centred SPAWN_MARGIN
        right of the view at a height drawn from [100, SCREEN_HEIGHT - 150]. */
    method SpawnEnemy() returns (spawned: FlyingEnemy)
      requires Valid()
      modifies enemies`sprites
      ensures Valid()
      ensures fresh(spawned) && enemies.sprites == old(enemies.sprites) + [spawned]
      ensures spawned.player == player && spawned.health == ENEMY_HEALTH && !spawned.facingRight
      ensures spawned.rect.CenterX() == camera.Right() + SPAWN_MARGIN
      ensures 100 <= spawned.rect.CenterY() <= SCREEN_HEIGHT - 150
      ensures spawned.rect.w == ENEMY_SPRITE_SIZE && spawned.rect.h == ENEMY_SPRITE_SIZE
    {
      var x := camera.Right() + SPAWN_MARGIN;
      // random.randint(100, SCREEN_HEIGHT - 150): any height in the range.
      var y :| 100 <= y <= SCREEN_HEIGHT - 150;
      spawned := new FlyingEnemy(x, y, player);
      enemies.Add(spawned);
    }

    /** _update_spawning(dt): the timer advances by dt and, once it reaches
        the interval, restarts at zero as one enemy spawns. */
    method UpdateSpawning(dt: real) returns (spawned: FlyingEnemy?)
      requires Valid()
      modifies this`spawnTimer, enemies`sprites
      ensures Valid()
      ensures (spawnTimer, spawned != null) == SpawnTick(old(spawnTimer), dt, spawnInterval)
      ensures spawned == null ==> enemies.sprites == old(enemies.sprites)
      ensures spawned != null ==>
                && fresh(spawned) && enemies.sprites == old(enemies.sprites) + [spawned]
                && spawned.player == player && spawned.health == ENEMY_HEALTH
                && spawned.rect.CenterX() == camera.Right() + SPAWN_MARGIN
                && 100 <= spawned.rect.CenterY() <= SCREEN_HEIGHT - 150
    {
      spawnTimer := spawnTimer + dt;
      spawned := null;
      if spawnTimer >= spawnInterval {
        spawnTimer := 0.0;
        spawned := SpawnEnemy();
      }
    }

    /** _cleanup_bullets(): every bullet lying more than 100 pixels outside
        the view horizontally is killed, the rest stay in order. */
    method CleanupBullets()
      requires Valid()
      modifies bullets`sprites
      ensures Valid()
      ensures var s := old(bullets.sprites);
              bullets.sprites == Excluding(s, Marked(s, FarMarks(s, camera.Left(), camera.Right())))
      ensures forall i :: 0 <= i < |bullets.sprites| ==> !FarOff(bullets.sprites[i].rect, camera.Left(), camera.Right())
      ensures forall b :: b in bullets.sprites ==> !FarOff(b.rect, camera.Left(), camera.Right())
    {
      var s := bullets.sprites;
      var left, right := camera.Left(), camera.Right();
      ghost var marks := FarMarks(s, left, right);
      ExcludingNothing(s);
      for i := 0 to |s|
        invariant bullets.Valid()
        invariant marks == FarMarks(s, left, right)
        invariant bullets.sprites == Excluding(s, Marked(s, marks[..i]))
      {
        ghost var before := bullets.sprites;
        FarMarksAt(s, left, right, i);
        if s[i].rect.Right() < left - 100 || s[i].rect.Left() > right + 100 {
          bullets.Remove(s[i]);
        }
        assert marks[..i] + [marks[i]] == marks[..i + 1];
        KillStep(s, marks[..i], marks[i], before, bullets.sprites);
      }
      assert marks[..|s|] == marks;
      NoneFarOff(s, left, right);
    }

    /** self.enemies.update(dt): every enemy takes one step of the chase;
        while the player's alive() is false (it belongs to no group, which
        the gameplay state never brings about) none of them moves or
        turns. */
    method UpdateEnemies(dt: real)
      requires Valid()
      modifies (set e | e in enemies.sprites)`rect, (set e | e in enemies.sprites)`facingRight
      ensures Valid()
      ensures forall k :: 0 <= k < |enemies.sprites| ==>
                var e := enemies.sprites[k];
                && (!player.alive ==> e.rect == old(e.rect) && e.facingRight == old(e.facingRight))
                && (player.alive ==> Chase(old(e.rect), e.rect, e.facingRight, player.rect, dt))
    {
      var s := enemies.sprites;
      for i := 0 to |s|
        invariant Distinct(s)
        invariant forall k :: 0 <= k < i ==>
                    && (!player.alive ==> s[k].rect == old(s[k].rect) && s[k].facingRight == old(s[k].facingRight))
                    && (player.alive ==> Chase(old(s[k].rect), s[k].rect, s[k].facingRight, player.rect, dt))
        invariant forall k :: i <= k < |s| ==> s[k].rect == old(s[k].rect) && s[k].facingRight == old(s[k].facingRight)
      {
        DistinctAt(s, i);
        s[i].Update(dt);
      }
    }

    // -------------------------------------------------------------------
    // One frame

    /** handle_input(keys) followed by player.update(dt). */
    method MovePlayer(dt: real, keys: Keys)
      requires Valid()
      modifies player`vx, player`vy, player`onGround, player`facingRight, player`rect
      modifies player`shootCooldown, player`invincible, player`invincibleTimer
      ensures Valid()
      ensures var m := AfterInput(old(player.MotionState()), keys);
              && player.MotionState() == m.(vy := Fall(m.vy, dt))
              && player.rect == ClampToLevel(Moved(old(player.rect), m.vx, player.vy, dt))
      ensures player.shootCooldown == Cooled(old(player.shootCooldown), dt)
      ensures player.VitalsState() == Recover(old(player.VitalsState()), dt)
    {
      player.HandleInput(keys);
      player.Update(dt);
    }

    /** The movement half of update(dt): input, then the player, the
        enemies and the bullets each by dt. Every bullet moves and ages by
        dt, the ones it leaves without lifetime (spent) are gone, and the
        rest keep their order. moved is the player's body after its update. */
    method Advance(dt: real, keys: Keys) returns (ghost moved: Body, ghost spent: seq<bool>)
      requires Valid()
      modifies player`vx, player`vy, player`onGround, player`facingRight, player`rect
      modifies player`shootCooldown, player`invincible, player`invincibleTimer
      modifies (set e | e in enemies.sprites)`rect, (set e | e in enemies.sprites)`facingRight
      modifies bullets`sprites, (set b | b in bullets.sprites)`rect, (set b | b in bullets.sprites)`lifetime
      ensures Valid()
      ensures var m := AfterInput(old(player.MotionState()), keys);
              && player.MotionState() == m.(vy := Fall(m.vy, dt))
              && player.rect == ClampToLevel(Moved(old(player.rect), m.vx, player.vy, dt))
      ensures player.shootCooldown == Cooled(old(player.shootCooldown), dt)
      ensures player.VitalsState() == Recover(old(player.VitalsState()), dt)
      ensures var m := AfterInput(old(player.MotionState()), keys);
              moved == BodyOf(player) == Body(ClampToLevel(Moved(old(player.rect), m.vx, Fall(m.vy, dt), dt)), m.vx, Fall(m.vy, dt), m.onGround)
      ensures forall k :: 0 <= k < |enemies.sprites| ==>
                var e := enemies.sprites[k];
                && (!player.alive ==> e.rect == old(e.rect) && e.facingRight == old(e.facingRight))
                && (player.alive ==> Chase(old(e.rect), e.rect, e.facingRight, player.rect, dt))
      ensures |spent| == |old(bullets.sprites)|
      ensures forall k :: 0 <= k < |old(bullets.sprites)| ==>
                var b := old(bullets.sprites)[k];
                && b.lifetime == old(b.lifetime) - dt
                && Flew(old(b.rect), b.rect, b.speed * b.direction, dt)
                && (spent[k] <==> !Survives(old(b.lifetime), [dt]))
      ensures var s := old(bullets.sprites); bullets.sprites == Excluding(s, Marked(s, spent))
      ensures forall b :: b in bullets.sprites ==> b in old(bullets.sprites) && b.lifetime > 0.0
    {
      MovePlayer(dt, keys);
      ghost var before := (player.MotionState(), player.rect, player.shootCooldown, player.VitalsState());
      UpdateEnemies(dt);
      assert before == (player.MotionState(), player.rect, player.shootCooldown, player.VitalsState());
      ghost var chased := enemies.sprites;
      spent := UpdateBullets(bullets, dt);
      assert before == (player.MotionState(), player.rect, player.shootCooldown, player.VitalsState());
      moved := BodyOf(player);
      assert enemies.sprites == chased;
    }

    /** collision_system.update: the player is resolved against the level
        and takes the contact damage of the enemies touching it, the struck
        bullets of the entries (crashes) leave their group, and the enemies
        are Shot as the tally says, the killed ones leaving their group. */
    method Collisions()
      returns (emitted: seq<Emission>, ghost crashes: seq<Crash>, ghost tally: Tally, ghost touching: seq<FlyingEnemy>)
      requires Valid()
      modifies player`rect, player`vy, player`onGround, player`health, player`invincible, player`invincibleTimer
      modifies bullets`sprites, enemies`sprites, set e | e in enemies.sprites :: e`health
      ensures Valid()
      ensures BodyOf(player) == Resolve(old(BodyOf(player)), level)
      ensures crashes == old(Crashes(bullets.sprites, enemies.sprites))
      ensures bullets.sprites == Excluding(old(bullets.sprites), Struck(crashes))
      ensures tally == old(BulletTally(bullets.sprites, enemies.sprites))
      ensures Shot(old(enemies.sprites), old(Healths(enemies.sprites)), old(OverlapCounts(bullets.sprites, enemies.sprites)), tally)
      ensures Tracks(old(enemies.sprites), enemies, tally)
      ensures touching == Colliding(player.rect, enemies.sprites)
      ensures var touch := Contact(old(player.VitalsState()), player.alive, touching);
              player.VitalsState() == touch.0 && emitted == tally.events + touch.1
    {
      ghost var es, bs := enemies.sprites, bullets.sprites;
      crashes, tally := Crashes(bs, es), BulletTally(bs, es);
      TallyShot(bs, es);
      emitted := CollisionSystem.Update(player, enemies, bullets, platforms.sprites);
      ExcludingKeepsDistinct(es, tally.killed);
      forall k | 0 <= k < |enemies.sprites| ensures enemies.sprites[k].player == player {
        ExcludingMember(es, tally.killed, enemies.sprites[k]);
      }
      touching := Colliding(player.rect, enemies.sprites);
    }

    /** collision_system.update and the handlers its emissions reach: the
        score grows by one per ENEMY_KILLED delivered to _on_enemy_killed,
        and playerDied reports that _on_player_died ran. */
    method Collide()
      returns (emitted: seq<Emission>, playerDied: bool,
               ghost crashes: seq<Crash>, ghost tally: Tally, ghost touching: seq<FlyingEnemy>)
      requires Valid()
      modifies player`rect, player`vy, player`onGround, player`health, player`invincible, player`invincibleTimer
      modifies bullets`sprites, enemies`sprites, set e | e in enemies.sprites :: e`health
      modifies this`score
      ensures Valid()
      ensures BodyOf(player) == Resolve(old(BodyOf(player)), level)
      ensures crashes == old(Crashes(bullets.sprites, enemies.sprites))
      ensures bullets.sprites == Excluding(old(bullets.sprites), Struck(crashes))
      ensures tally == old(BulletTally(bullets.sprites, enemies.sprites))
      ensures Shot(old(enemies.sprites), old(Healths(enemies.sprites)), old(OverlapCounts(bullets.sprites, enemies.sprites)), tally)
      ensures Tracks(old(enemies.sprites), enemies, tally)
      ensures touching == Colliding(player.rect, enemies.sprites)
      ensures var touch := Contact(old(player.VitalsState()), player.alive, touching);
              player.VitalsState() == touch.0 && emitted == tally.events + touch.1
      ensures score == old(score) + Invocations(events.listeners, emitted, onEnemyKilled)
      ensures playerDied <==> Invocations(events.listeners, emitted, onPlayerDied) > 0
      ensures forall e :: e in enemies.sprites ==> e in old(enemies.sprites)
      ensures forall b :: b in bullets.sprites ==> b in old(bullets.sprites)
    {
      ghost var es, bs := enemies.sprites, bullets.sprites;
      emitted, crashes, tally, touching := Collisions();
      playerDied := Deliver(emitted);
      forall e | e in enemies.sprites ensures e in es {
        ExcludingMember(es, tally.killed, e);
      }
      forall b | b in bullets.sprites ensures b in bs {
        ExcludingMember(bs, Struck(crashes), b);
      }
    }

    /** The rest of update(dt): the camera follows the player, spawning
        advances (adding the spawned enemy, if any, at the end of the
        group), and the bullets far outside the view are cleaned up. */
    method Tidy(dt: real) returns (spawned: FlyingEnemy?)
      requires Valid()
      modifies camera`rect, this`spawnTimer, enemies`sprites, bullets`sprites
      ensures Valid()
      ensures camera.rect == ViewFor(player.rect, LEVEL_WIDTH, LEVEL_HEIGHT)
      ensures (spawnTimer, spawned != null) == SpawnTick(old(spawnTimer), dt, spawnInterval)
      ensures spawned == null ==> enemies.sprites == old(enemies.sprites)
      ensures spawned != null ==>
                && fresh(spawned) && enemies.sprites == old(enemies.sprites) + [spawned]
                && spawned.player == player && spawned.health == ENEMY_HEALTH
                && spawned.rect.CenterX() == camera.Right() + SPAWN_MARGIN
                && 100 <= spawned.rect.CenterY() <= SCREEN_HEIGHT - 150
      ensures var s := old(bullets.sprites);
              bullets.sprites == Excluding(s, Marked(s, FarMarks(s, camera.Left(), camera.Right())))
      ensures forall b :: b in bullets.sprites ==> b in old(bullets.sprites)
      ensures forall i :: 0 <= i < |bullets.sprites| ==> !FarOff(bullets.sprites[i].rect, camera.Left(), camera.Right())
      ensures forall b :: b in bullets.sprites ==> !FarOff(b.rect, camera.Left(), camera.Right())
    {
      camera.Update(player.rect);
      spawned := UpdateSpawning(dt);
      ghost var s := bullets.sprites;
      CleanupBullets();
      forall b | b in bullets.sprites ensures b in s {
        ExcludingMember(s, Marked(s, FarMarks(s, camera.Left(), camera.Right())), b);
      }
    }

    /** The part of update(dt) after the movement: collisions and their
        handlers, then the camera, spawning and the cleanup. tally and
        touching are the collisions' as in Collide, survivors is the enemy
        group between the two halves, and spawned is the enemy spawning
        added, if any. Which bullets the hits and the cleanup take out is
        stated by Collide and Tidy. */
    method Settle(dt: real)
      returns (emitted: seq<Emission>, playerDied: bool,
               ghost tally: Tally, ghost touching: seq<FlyingEnemy>,
               ghost survivors: seq<FlyingEnemy>, ghost spawned: FlyingEnemy?)
      requires Valid()
      modifies player`rect, player`vy, player`onGround, player`health, player`invincible, player`invincibleTimer
      modifies bullets`sprites, enemies`sprites, set e | e in enemies.sprites :: e`health
      modifies camera`rect, this`spawnTimer, this`score
      ensures Valid()
      ensures BodyOf(player) == Resolve(old(BodyOf(player)), level)
      ensures touching == Colliding(player.rect, survivors)
      ensures var touch := Contact(old(player.VitalsState()), player.alive, touching);
              player.VitalsState() == touch.0 && emitted == tally.events + touch.1
      ensures tally == old(BulletTally(bullets.sprites, enemies.sprites))
      ensures survivors == Excluding(old(enemies.sprites), tally.killed)
      ensures forall e :: e in survivors ==> e in old(enemies.sprites)
      ensures spawned == null ==> enemies.sprites == survivors
      ensures spawned != null ==>
                && fresh(spawned) && enemies.sprites == survivors + [spawned]
                && spawned.player == player && spawned.health == ENEMY_HEALTH
                && spawned.rect.CenterX() == camera.Right() + SPAWN_MARGIN
                && 100 <= spawned.rect.CenterY() <= SCREEN_HEIGHT - 150
      ensures (spawnTimer, spawned != null) == SpawnTick(old(spawnTimer), dt, spawnInterval)
      ensures forall b :: b in bullets.sprites ==> b in old(bullets.sprites) && b.lifetime == old(b.lifetime)
      ensures forall b :: b in bullets.sprites ==> !FarOff(b.rect, camera.Left(), camera.Right())
      ensures camera.rect == ViewFor(player.rect, LEVEL_WIDTH, LEVEL_HEIGHT)
      ensures score == old(score) + Invocations(events.listeners, emitted, onEnemyKilled)
      ensures playerDied <==> Invocations(events.listeners, emitted, onPlayerDied) > 0
    {
      ghost var crashes;
      emitted, playerDied, crashes, tally, touching := Collide();
      survivors := enemies.sprites;
      spawned := Tidy(dt);
    }

    /** update(dt) with the keys held this frame, in the source's order.
        The ghost results name the state between the phases: moved is the
        player's body after input and physics, touching the enemies touching
        it after the collisions, survivors the enemy group after the
        collisions, and spawned the enemy spawning added, if any. The
        enemies' chase steps, damage and kills, the events emitted and the
        bullets each phase takes out are stated by Advance, Collide and
        Tidy. */
    method Update(dt: real, keys: Keys)
      returns (emitted: seq<Emission>, playerDied: bool,
               ghost moved: Body, ghost touching: seq<FlyingEnemy>,
               ghost survivors: seq<FlyingEnemy>, ghost spawned: FlyingEnemy?)
      requires Valid()
      modifies player`vx, player`vy, player`onGround, player`facingRight, player`rect
      modifies player`shootCooldown, player`invincible, player`invincibleTimer, player`health
      modifies (set e | e in enemies.sprites)`rect, (set e | e in enemies.sprites)`facingRight
      modifies (set e | e in enemies.sprites)`health
      modifies bullets`sprites, (set b | b in bullets.sprites)`rect, (set b | b in bullets.sprites)`lifetime
      modifies enemies`sprites, camera`rect, this`spawnTimer, this`score
      ensures Valid()
      // The player: input and physics, then the platforms and the contacts.
      ensures var m := AfterInput(old(player.MotionState()), keys);
              && moved == Body(ClampToLevel(Moved(old(player.rect), m.vx, Fall(m.vy, dt), dt)), m.vx, Fall(m.vy, dt), m.onGround)
              && player.facingRight == m.facingRight
      ensures BodyOf(player) == Resolve(moved, level)
      ensures touching == Colliding(player.rect, survivors)
      ensures player.VitalsState() == Contact(Recover(old(player.VitalsState()), dt), player.alive, touching).0
      // The enemies: the survivors of the collisions, then the spawn.
      ensures forall e :: e in survivors ==> e in old(enemies.sprites)
      ensures spawned == null ==> enemies.sprites == survivors
      ensures spawned != null ==>
                && fresh(spawned) && enemies.sprites == survivors + [spawned]
                && spawned.player == player && spawned.health == ENEMY_HEALTH
                && spawned.rect.CenterX() == camera.Right() + SPAWN_MARGIN
                && 100 <= spawned.rect.CenterY() <= SCREEN_HEIGHT - 150
      ensures (spawnTimer, spawned != null) == SpawnTick(old(spawnTimer), dt, spawnInterval)
      // The bullets: only ever removed; every one left has lifetime and lies near the view.
      ensures forall b :: b in bullets.sprites ==>
                && b in old(bullets.sprites) && b.lifetime > 0.0
                && !FarOff(b.rect, camera.Left(), camera.Right())
      ensures camera.rect == ViewFor(player.rect, LEVEL_WIDTH, LEVEL_HEIGHT)
      // The handlers: the score and the death report.
      ensures score == old(score) + Invocations(events.listeners, emitted, onEnemyKilled)
      ensures playerDied <==> Invocations(events.listeners, emitted, onPlayerDied) > 0
    {
      ghost var spent;
      moved, spent := Advance(dt, keys);
      ghost var tally;
      emitted, playerDied, tally, touching, survivors, spawned := Settle(dt);
    }
  }
}
