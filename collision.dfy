/** The collision system (systems/collision.py): once per tick it resolves
    the player against the platforms, then bullets against enemies, then
    enemies against the player. */
module CollisionSystem {
  import opened Config
  import opened Rects
  import opened Events
  import opened Sprites
  import opened Platforms
  import opened Bullets
  import opened Players
  import opened Enemies

  /** The part of the player the platform passes read and write. */
  datatype Body = Body(rect: Rect, vx: real, vy: real, onGround: bool)

  function BodyOf(p: Player): Body
    reads p
  {
    Body(p.rect, p.vx, p.vy, p.onGround)
  }

  // ---------------------------------------------------------------------
  // Player against platforms: the vertical pass

  /** The landing test of the vertical pass: falling, and the feet at the
      position captured before the pass, originalY + height, no lower than
      the platform top plus a tenth of the fall speed. */
  predicate LandingTest(b: Body, originalY: int, p: Rect)
  {
    b.vy > 0.0 && (originalY + b.rect.h) as real <= p.Top() as real + b.vy * 0.1
  }

  /** One platform of the vertical loop. */
  function VerticalStep(b: Body, originalY: int, p: Rect): (r: Body)
    ensures !Collides(b.rect, p) ==> r == b
    ensures r.rect.x == b.rect.x && r.rect.w == b.rect.w && r.rect.h == b.rect.h && r.vx == b.vx
    ensures r != b ==> r.vy == 0.0 && (r.rect.Bottom() == p.Top() || r.rect.Top() == p.Bottom())
  {
    if !Collides(b.rect, p) then b
    else if b.vy > 0.0 then
      if LandingTest(b, originalY, p) then Body(b.rect.WithBottom(p.Top()), b.vx, 0.0, true) else b
    else if b.vy < 0.0 then
      if b.rect.Top() < p.Bottom() then b.(rect := b.rect.WithTop(p.Bottom()), vy := 0.0) else b
    else b
  }

  /** The vertical loop over the platforms, in order. */
  function VerticalPass(b: Body, originalY: int, ps: seq<Platform>): Body
  {
    if ps == [] then b
    else VerticalStep(VerticalPass(b, originalY, ps[..|ps| - 1]), originalY, ps[|ps| - 1].rect)
  }

  /** A platform that changes the body when the pass reaches it with the
      body still as it was at the start: it overlaps, and either the body is
      falling and passes the landing test, or the body is rising. */
  predicate Acts(b: Body, p: Rect)
  {
    Collides(b.rect, p) && (LandingTest(b, b.rect.y, p) || b.vy < 0.0)
  }

  /** What the acting platform does: a landing snaps the feet to its top,
      stops the fall and sets on_ground; a head bump snaps the head to its
      bottom and stops the rise. */
  function Snap(b: Body, p: Rect): (r: Body)
    ensures b.vy > 0.0 ==> r.rect.Bottom() == p.Top() && r.vy == 0.0 && r.onGround
    ensures b.vy <= 0.0 ==> r.rect.Top() == p.Bottom() && r.vy == 0.0 && r.onGround == b.onGround
    ensures r.rect.x == b.rect.x && r.rect.w == b.rect.w && r.rect.h == b.rect.h && r.vx == b.vx
  {
    if b.vy > 0.0 then Body(b.rect.WithBottom(p.Top()), b.vx, 0.0, true)
    else b.(rect := b.rect.WithTop(p.Bottom()), vy := 0.0)
  }

  /** Once the vertical speed is zero no platform changes the body. */
  lemma {:induction false} VerticalPassAtRest(b: Body, originalY: int, ps: seq<Platform>)
    requires b.vy == 0.0
    ensures VerticalPass(b, originalY, ps) == b
  {
    if ps != [] {
      VerticalPassAtRest(b, originalY, ps[..|ps| - 1]);
    }
  }

  /** The vertical pass in closed form, when no platform acts: the body is
      left as it was (only on_ground, reset before the pass, stays false). */
  lemma {:induction false} VerticalPassNoneActs(b: Body, ps: seq<Platform>)
    requires forall j :: 0 <= j < |ps| ==> !Acts(b, ps[j].rect)
    ensures VerticalPass(b, b.rect.y, ps) == b
  {
    if ps != [] {
      VerticalPassNoneActs(b, ps[..|ps| - 1]);
    }
  }

  /** The vertical pass in closed form: the first acting platform decides,
      and every platform after it finds the body at rest vertically. */
  lemma {:induction false} VerticalPassFirstActs(b: Body, ps: seq<Platform>, k: nat)
    requires k < |ps| && Acts(b, ps[k].rect)
    requires forall j :: 0 <= j < k ==> !Acts(b, ps[j].rect)
    ensures VerticalPass(b, b.rect.y, ps) == Snap(b, ps[k].rect)
  {
    var n := |ps|;
    var init := ps[..n - 1];
    if k == n - 1 {
      VerticalPassNoneActs(b, init);
    } else {
      VerticalPassFirstActs(b, init, k);
      VerticalPassAtRest(Snap(b, ps[k].rect), b.rect.y, [ps[n - 1]]);
      assert [ps[n - 1]][..0] == [];
    }
  }

  /** If some platform acts, there is a first one that does. */
  lemma {:induction false} FirstActing(b: Body, ps: seq<Platform>, k: nat) returns (f: nat)
    requires k < |ps| && Acts(b, ps[k].rect)
    ensures f <= k && Acts(b, ps[f].rect)
    ensures forall j :: 0 <= j < f ==> !Acts(b, ps[j].rect)
  {
    if exists j :: 0 <= j < k && Acts(b, ps[j].rect) {
      var j :| 0 <= j < k && Acts(b, ps[j].rect);
      f := FirstActing(b, ps, j);
    } else {
      f := k;
    }
  }

  /** The vertical pass as the collision system runs it: on_ground reset,
      originalY taken from the moved rectangle. */
  function VerticalResolve(b: Body, ps: seq<Platform>): Body
  {
    VerticalPass(b.(onGround := false), b.rect.y, ps)
  }

  /** on_ground ends true exactly when some platform overlapping the moved
      player passes the landing test. */
  lemma GroundedIffLanding(b: Body, ps: seq<Platform>)
    ensures VerticalResolve(b, ps).onGround <==>
              exists k :: 0 <= k < |ps| && Collides(b.rect, ps[k].rect) && LandingTest(b, b.rect.y, ps[k].rect)
  {
    var b0 := b.(onGround := false);
    if k :| 0 <= k < |ps| && Acts(b0, ps[k].rect) {
      var f := FirstActing(b0, ps, k);
      VerticalPassFirstActs(b0, ps, f);
      if b.vy > 0.0 {
        assert Collides(b.rect, ps[f].rect) && LandingTest(b, b.rect.y, ps[f].rect);
      } else {
        forall j | 0 <= j < |ps| ensures !LandingTest(b, b.rect.y, ps[j].rect) {}
      }
    } else {
      VerticalPassNoneActs(b0, ps);
      forall j | 0 <= j < |ps| ensures !(Collides(b.rect, ps[j].rect) && LandingTest(b, b.rect.y, ps[j].rect)) {
        assert !Acts(b0, ps[j].rect);
      }
    }
  }

  /** Landing: when the first platform that acts is reached while falling,
      the player ends with its feet on that platform's top, at rest and on
      the ground. */
  lemma Landing(b: Body, ps: seq<Platform>, k: nat)
    requires k < |ps| && b.vy > 0.0
    requires Collides(b.rect, ps[k].rect) && LandingTest(b, b.rect.y, ps[k].rect)
    requires forall j :: 0 <= j < k ==> !Acts(b, ps[j].rect)
    ensures VerticalResolve(b, ps).rect.Bottom() == ps[k].rect.Top()
    ensures VerticalResolve(b, ps).vy == 0.0 && VerticalResolve(b, ps).onGround
  {
    VerticalPassFirstActs(b.(onGround := false), ps, k);
  }

  /** Head bump: rising into an overlapping platform puts the head at that
      platform's bottom and stops the rise, and never grounds the player. */
  lemma HeadBump(b: Body, ps: seq<Platform>, k: nat)
    requires k < |ps| && b.vy < 0.0 && Collides(b.rect, ps[k].rect)
    requires forall j :: 0 <= j < k ==> !Collides(b.rect, ps[j].rect)
    ensures VerticalResolve(b, ps).rect.Top() == ps[k].rect.Bottom()
    ensures VerticalResolve(b, ps).vy == 0.0 && !VerticalResolve(b, ps).onGround
  {
    VerticalPassFirstActs(b.(onGround := false), ps, k);
  }

  /** The vertical pass never moves the player sideways nor touches its
      horizontal speed or size. */
  lemma {:induction false} VerticalPassKeepsX(b: Body, originalY: int, ps: seq<Platform>)
    ensures VerticalPass(b, originalY, ps).rect.x == b.rect.x
    ensures VerticalPass(b, originalY, ps).rect.w == b.rect.w
    ensures VerticalPass(b, originalY, ps).rect.h == b.rect.h
    ensures VerticalPass(b, originalY, ps).vx == b.vx
  {
    if ps != [] {
      VerticalPassKeepsX(b, originalY, ps[..|ps| - 1]);
    }
  }

  // ---------------------------------------------------------------------
  // Player against platforms: the horizontal pass

  /** One platform of the horizontal loop: an overlapping platform pushes
      the player back against its direction of travel. */
  function HorizontalStep(b: Body, p: Rect): (r: Body)
    ensures r.vx == b.vx && r.vy == b.vy && r.onGround == b.onGround
    ensures r.rect.y == b.rect.y && r.rect.w == b.rect.w && r.rect.h == b.rect.h
    ensures Collides(b.rect, p) && b.vx > 0.0 ==> r.rect.Right() == p.Left() && !Collides(r.rect, p)
    ensures Collides(b.rect, p) && b.vx < 0.0 ==> r.rect.Left() == p.Right() && !Collides(r.rect, p)
  {
    if !Collides(b.rect, p) then b
    else if b.vx > 0.0 then b.(rect := b.rect.WithRight(p.Left()))
    else if b.vx < 0.0 then b.(rect := b.rect.WithLeft(p.Right()))
    else b
  }

  /** The horizontal loop over the platforms, in order. */
  function HorizontalPass(b: Body, ps: seq<Platform>): Body
  {
    if ps == [] then b
    else HorizontalStep(HorizontalPass(b, ps[..|ps| - 1]), ps[|ps| - 1].rect)
  }

  /** The horizontal pass changes only x: never y, size, velocity or
      on_ground. Standing still horizontally it changes nothing. A player
      moving right is only ever pushed left, and one moving left only
      pushed right. */
  lemma {:induction false} HorizontalPassOnlyX(b: Body, ps: seq<Platform>)
    ensures HorizontalPass(b, ps).vx == b.vx && HorizontalPass(b, ps).vy == b.vy
    ensures HorizontalPass(b, ps).onGround == b.onGround
    ensures HorizontalPass(b, ps).rect.y == b.rect.y
    ensures HorizontalPass(b, ps).rect.w == b.rect.w && HorizontalPass(b, ps).rect.h == b.rect.h
    ensures b.vx == 0.0 ==> HorizontalPass(b, ps) == b
    ensures b.vx > 0.0 ==> HorizontalPass(b, ps).rect.x <= b.rect.x
    ensures b.vx < 0.0 ==> HorizontalPass(b, ps).rect.x >= b.rect.x
  {
    if ps != [] {
      HorizontalPassOnlyX(b, ps[..|ps| - 1]);
    }
  }

  /** Both passes, as _handle_player_platform_collision runs them. */
  function Resolve(b: Body, ps: seq<Platform>): Body
  {
    HorizontalPass(VerticalResolve(b, ps), ps)
  }

  /** The player-platform resolution ends grounded exactly when a landing
      happened, and keeps the vertical outcome of the first pass. */
  lemma ResolveGroundedIffLanding(b: Body, ps: seq<Platform>)
    ensures Resolve(b, ps).onGround <==>
              exists k :: 0 <= k < |ps| && Collides(b.rect, ps[k].rect) && LandingTest(b, b.rect.y, ps[k].rect)
    ensures Resolve(b, ps).rect.y == VerticalResolve(b, ps).rect.y
    ensures Resolve(b, ps).vy == VerticalResolve(b, ps).vy
    ensures Resolve(b, ps).vx == b.vx
  {
    GroundedIffLanding(b, ps);
    HorizontalPassOnlyX(VerticalResolve(b, ps), ps);
    VerticalPassKeepsX(b.(onGround := false), b.rect.y, ps);
  }

  method ResolvePlatforms(player: Player, platforms: seq<Platform>)
    modifies player`rect, player`vy, player`onGround
    ensures BodyOf(player) == Resolve(old(BodyOf(player)), platforms)
  {
    VerticalLoop(player, platforms);
    HorizontalLoop(player, platforms);
  }

  /** The first loop of _handle_player_platform_collision. */
  method VerticalLoop(player: Player, platforms: seq<Platform>)
    modifies player`rect, player`vy, player`onGround
    ensures BodyOf(player) == VerticalResolve(old(BodyOf(player)), platforms)
  {
    var originalY := player.rect.y;
    player.onGround := false;
    ghost var start := BodyOf(player);
    for i := 0 to |platforms|
      invariant BodyOf(player) == VerticalPass(start, originalY, platforms[..i])
    {
      assert platforms[..i + 1][..i] == platforms[..i];
      var p := platforms[i].rect;
      if !Collides(player.rect, p) {
        continue;
      }
      if player.vy > 0.0 {
        if (originalY + player.rect.h) as real <= p.Top() as real + player.vy * 0.1 {
          player.rect := player.rect.WithBottom(p.Top());
          player.vy := 0.0;
          player.onGround := true;
        }
      } else if player.vy < 0.0 {
        if player.rect.Top() < p.Bottom() {
          player.rect := player.rect.WithTop(p.Bottom());
          player.vy := 0.0;
        }
      }
    }
    assert platforms[..|platforms|] == platforms;
  }

  /** The second loop of _handle_player_platform_collision. */
  method HorizontalLoop(player: Player, platforms: seq<Platform>)
    modifies player`rect
    ensures BodyOf(player) == HorizontalPass(old(BodyOf(player)), platforms)
  {
    ghost var start := BodyOf(player);
    for i := 0 to |platforms|
      invariant BodyOf(player) == HorizontalPass(start, platforms[..i])
    {
      assert platforms[..i + 1][..i] == platforms[..i];
      var p := platforms[i].rect;
      if !Collides(player.rect, p) {
        continue;
      }
      if player.vx > 0.0 {
        player.rect := player.rect.WithRight(p.Left());
      } else if player.vx < 0.0 {
        player.rect := player.rect.WithLeft(p.Right());
      }
    }
    assert platforms[..|platforms|] == platforms;
  }

  // ---------------------------------------------------------------------
  // Bullets against enemies

  /** spritecollide(sprite, group, False): the group's sprites whose
      rectangles overlap r, in group order. */
  function Colliding(r: Rect, es: seq<FlyingEnemy>): (hits: seq<FlyingEnemy>)
    reads (set e | e in es)`rect
    ensures forall k :: 0 <= k < |hits| ==> hits[k] in es && Collides(r, hits[k].rect)
  {
    if es == [] then []
    else (if Collides(r, es[0].rect) then [es[0]] else []) + Colliding(r, es[1..])
  }

  /** An enemy is listed at most once when the group holds it once. */
  lemma {:induction false} CollidingDistinct(r: Rect, es: seq<FlyingEnemy>)
    requires Distinct(es)
    ensures Distinct(Colliding(r, es))
  {
    if es != [] {
      DistinctCons(es);
      CollidingDistinct(r, es[1..]);
      var rest := Colliding(r, es[1..]);
      if Collides(r, es[0].rect) {
        var hits := Colliding(r, es);
        assert hits == [es[0]] + rest;
        assert hits[1..] == rest;
        DistinctCons(hits);
      } else {
        assert Colliding(r, es) == rest;
      }
    }
  }

  /** Every enemy the rectangle overlaps is listed. */
  lemma {:induction false} CollidingFinds(r: Rect, es: seq<FlyingEnemy>, k: nat)
    requires k < |es| && Collides(r, es[k].rect)
    ensures es[k] in Colliding(r, es)
  {
    if k > 0 {
      CollidingFinds(r, es[1..], k - 1);
    }
  }

  /** One entry of groupcollide's result: a bullet and the enemies it hit. */
  datatype Crash = Crash(bullet: Bullet, enemies: seq<FlyingEnemy>)

  /** groupcollide(bullets, enemies, ...): one entry per bullet, in group
      order, for each bullet that overlaps at least one enemy. */
  function Crashes(bs: seq<Bullet>, es: seq<FlyingEnemy>): (cs: seq<Crash>)
    reads (set b | b in bs)`rect, (set e | e in es)`rect
    ensures |cs| <= |bs|
  {
    if bs == [] then []
    else
      var b := bs[|bs| - 1];
      var hit := Colliding(b.rect, es);
      Crashes(bs[..|bs| - 1], es) + (if hit == [] then [] else [Crash(b, hit)])
  }

  /** Each entry pairs a bullet of the group with the non-empty list of
      enemies it overlaps. */
  lemma {:induction false} CrashesEntries(bs: seq<Bullet>, es: seq<FlyingEnemy>)
    ensures forall i :: 0 <= i < |Crashes(bs, es)| ==>
              Crashes(bs, es)[i].bullet in bs && Crashes(bs, es)[i].enemies != []
              && Crashes(bs, es)[i].enemies == Colliding(Crashes(bs, es)[i].bullet.rect, es)
  {
    if bs != [] {
      var n := |bs| - 1;
      CrashesEntries(bs[..n], es);
      var cs0 := Crashes(bs[..n], es);
      forall i | 0 <= i < |cs0| ensures cs0[i].bullet in bs {
        assert cs0[i].bullet in bs[..n];
      }
    }
  }

  /** A bullet that overlaps no enemy. */
  predicate Missed(b: Bullet, es: seq<FlyingEnemy>)
    reads b, es
  {
    Colliding(b.rect, es) == []
  }

  /** The bullets of the entries, which dokilla=True kills. */
  function Struck(cs: seq<Crash>): set<Bullet>
  {
    set i | 0 <= i < |cs| :: cs[i].bullet
  }

  /** One more entry adds its bullet to the struck ones. */
  lemma StruckSnoc(cs: seq<Crash>, c: Crash)
    ensures Struck(cs + [c]) == Struck(cs) + {c.bullet}
  {
    var cs' := cs + [c];
    forall x | x in Struck(cs') ensures x in Struck(cs) || x == c.bullet {
      var i :| 0 <= i < |cs'| && cs'[i].bullet == x;
      if i < |cs| { assert cs[i] == cs'[i]; }
    }
    forall x | x in Struck(cs) ensures x in Struck(cs') {
      var i :| 0 <= i < |cs| && cs[i].bullet == x;
      assert cs'[i] == cs[i];
    }
    assert cs'[|cs|].bullet == c.bullet;
  }

  /** groupcollide kills exactly the bullets that overlap some enemy, so
      the ones left in the group are those that hit nothing. */
  lemma {:induction false} StruckIffHit(bs: seq<Bullet>, es: seq<FlyingEnemy>, b: Bullet)
    ensures b in Struck(Crashes(bs, es)) <==> b in bs && !Missed(b, es)
  {
    if bs != [] {
      var n := |bs| - 1;
      StruckIffHit(bs[..n], es, b);
      var cs0 := Crashes(bs[..n], es);
      var cs := Crashes(bs, es);
      if Missed(bs[n], es) {
        assert cs == cs0;
      } else {
        assert cs == cs0 + [Crash(bs[n], Colliding(bs[n].rect, es))];
        StruckSnoc(cs0, Crash(bs[n], Colliding(bs[n].rect, es)));
      }
      assert bs == bs[..n] + [bs[n]];
    }
  }

  /** One take_damage call of the damage loop. */
  datatype Hit = Hit(target: FlyingEnemy, amount: int)

  /** The hits of one entry: every enemy it lists takes the bullet's damage. */
  function CrashHits(c: Crash): (hs: seq<Hit>)
    ensures |hs| == |c.enemies|
    ensures forall k :: 0 <= k < |hs| ==> hs[k] == Hit(c.enemies[k], c.bullet.damage)
  {
    seq(|c.enemies|, k requires 0 <= k < |c.enemies| => Hit(c.enemies[k], c.bullet.damage))
  }

  /** The damage loop flattened: entries in order, each entry's enemies in
      order. */
  function Hits(cs: seq<Crash>): (hs: seq<Hit>)
    ensures forall k :: 0 <= k < |hs| ==> hs[k].amount == BULLET_DAMAGE
  {
    if cs == [] then []
    else Hits(cs[..|cs| - 1]) + CrashHits(cs[|cs| - 1])
  }

  /** The enemies' health, their centres and the kills so far. */
  datatype Tally = Tally(health: map<FlyingEnemy, int>, events: seq<Emission>, killed: set<FlyingEnemy>)

  function Healths(es: seq<FlyingEnemy>): map<FlyingEnemy, int>
    reads (set e | e in es)`health
  {
    map e | e in es :: e.health
  }

  function Centers(es: seq<FlyingEnemy>): map<FlyingEnemy, (int, int)>
    reads es
  {
    map e | e in es :: (e.rect.CenterX(), e.rect.CenterY())
  }

  predicate Aimed(hs: seq<Hit>, t: Tally, centers: map<FlyingEnemy, (int, int)>)
  {
    forall k :: 0 <= k < |hs| ==> hs[k].target in t.health && hs[k].target in centers
  }

  /** take_damage on one enemy: health drops; at or below zero the enemy
      reports ENEMY_KILLED at its centre and leaves the group. */
  function ApplyHit(t: Tally, h: Hit, centers: map<FlyingEnemy, (int, int)>): (r: Tally)
    requires h.target in t.health && h.target in centers
    ensures r.health == t.health[h.target := t.health[h.target] - h.amount]
    ensures t.health[h.target] - h.amount <= 0 ==>
              r.killed == t.killed + {h.target}
              && r.events == t.events + [Emission(EnemyKilled, Position(centers[h.target].0, centers[h.target].1))]
    ensures t.health[h.target] - h.amount > 0 ==> r.killed == t.killed && r.events == t.events
  {
    var hp := t.health[h.target] - h.amount;
    if hp <= 0 then
      Tally(t.health[h.target := hp],
            t.events + [Emission(EnemyKilled, Position(centers[h.target].0, centers[h.target].1))],
            t.killed + {h.target})
    else Tally(t.health[h.target := hp], t.events, t.killed)
  }

  /** All the hits of a tick, in order (a hit on an enemy the tally does
      not track changes nothing). */
  function ApplyHits(t: Tally, hs: seq<Hit>, centers: map<FlyingEnemy, (int, int)>): (r: Tally)
    ensures r.health.Keys == t.health.Keys
    ensures t.killed <= r.killed
    decreases |hs|
  {
    if hs == [] then t
    else
      var before := ApplyHits(t, hs[..|hs| - 1], centers);
      var h := hs[|hs| - 1];
      if h.target in before.health && h.target in centers then ApplyHit(before, h, centers) else before
  }

  /** The hits of groupcollide's entries are all aimed at enemies of the
      group. */
  lemma {:induction false} HitsAimed(cs: seq<Crash>, es: seq<FlyingEnemy>)
    requires forall i, k :: 0 <= i < |cs| && 0 <= k < |cs[i].enemies| ==> cs[i].enemies[k] in es
    ensures forall k :: 0 <= k < |Hits(cs)| ==> Hits(cs)[k].target in es
  {
    if cs != [] {
      HitsAimed(cs[..|cs| - 1], es);
    }
  }

  /** Total damage the hits deal to e. */
  function DamageTo(hs: seq<Hit>, e: FlyingEnemy): int
  {
    if hs == [] then 0
    else DamageTo(hs[..|hs| - 1], e) + (if hs[|hs| - 1].target == e then hs[|hs| - 1].amount else 0)
  }

  /** After the damage loop every enemy has lost exactly the damage of the
      hits aimed at it. */
  lemma {:induction false} ApplyHitsHealth(t: Tally, hs: seq<Hit>, centers: map<FlyingEnemy, (int, int)>, e: FlyingEnemy)
    requires Aimed(hs, t, centers) && e in t.health
    ensures ApplyHits(t, hs, centers).health[e] == t.health[e] - DamageTo(hs, e)
    decreases |hs|
  {
    if hs != [] {
      ApplyHitsHealth(t, hs[..|hs| - 1], centers, e);
    }
  }

  /** An enemy is killed in the tick exactly when some hit aimed at it
      leaves its health at or below zero. */
  lemma {:induction false} ApplyHitsKilled(t: Tally, hs: seq<Hit>, centers: map<FlyingEnemy, (int, int)>, e: FlyingEnemy)
    requires Aimed(hs, t, centers) && e in t.health
    ensures e in ApplyHits(t, hs, centers).killed <==>
              e in t.killed
              || exists k :: 0 <= k < |hs| && hs[k].target == e && t.health[e] - DamageTo(hs[..k + 1], e) <= 0
    decreases |hs|
  {
    if hs != [] {
      var n := |hs| - 1;
      var init := hs[..n];
      assert Aimed(init, t, centers);
      ApplyHitsKilled(t, init, centers, e);
      ApplyHitsHealth(t, init, centers, e);
      assert hs[..n + 1] == hs;
      forall k | 0 <= k < n
        ensures init[k] == hs[k] && init[..k + 1] == hs[..k + 1]
      {}
    }
  }

  /** Every report the damage loop adds is an ENEMY_KILLED at the centre
      of an enemy that was hit. */
  lemma {:induction false} ApplyHitsReports(t: Tally, hs: seq<Hit>, centers: map<FlyingEnemy, (int, int)>)
    requires Aimed(hs, t, centers)
    ensures |t.events| <= |ApplyHits(t, hs, centers).events| <= |t.events| + |hs|
    ensures ApplyHits(t, hs, centers).events[..|t.events|] == t.events
    ensures forall i :: |t.events| <= i < |ApplyHits(t, hs, centers).events| ==>
              exists k :: 0 <= k < |hs| && ApplyHits(t, hs, centers).events[i] ==
                Emission(EnemyKilled, Position(centers[hs[k].target].0, centers[hs[k].target].1))
    decreases |hs|
  {
    if hs != [] {
      var n := |hs| - 1;
      var init := hs[..n];
      assert Aimed(init, t, centers);
      ApplyHitsReports(t, init, centers);
      var before := ApplyHits(t, init, centers);
      var after := ApplyHits(t, hs, centers);
      assert after == ApplyHit(before, hs[n], centers);
      forall i | |t.events| <= i < |after.events|
        ensures exists k :: 0 <= k < |hs| && after.events[i] ==
                  Emission(EnemyKilled, Position(centers[hs[k].target].0, centers[hs[k].target].1))
      {
        if i < |before.events| {
          var k :| 0 <= k < |init| && before.events[i] ==
                     Emission(EnemyKilled, Position(centers[init[k].target].0, centers[init[k].target].1));
          assert after.events[i] == before.events[i] && init[k] == hs[k];
        } else {
          assert after.events[i] ==
                   Emission(EnemyKilled, Position(centers[hs[n].target].0, centers[hs[n].target].1));
        }
      }
    }
  }

  /** Two bullets arriving in the same tick at a 25-health enemy both
      damage it, and because take_damage does not check whether the enemy
      is already dead, it is reported killed twice; at full health the same
      two bullets kill it with a single report. */
  lemma SameEnemyReportedTwice(e: FlyingEnemy, c: (int, int))
    ensures var hs := [Hit(e, BULLET_DAMAGE), Hit(e, BULLET_DAMAGE)];
            var report := Emission(EnemyKilled, Position(c.0, c.1));
            ApplyHits(Tally(map[e := 25], [], {}), hs, map[e := c]) == Tally(map[e := -25], [report, report], {e})
            && ApplyHits(Tally(map[e := ENEMY_HEALTH], [], {}), hs, map[e := c]) == Tally(map[e := 0], [report], {e})
  {
    var h := Hit(e, BULLET_DAMAGE);
    var hs := [h, h];
    var centers := map[e := c];
    var report := Emission(EnemyKilled, Position(c.0, c.1));
    assert hs[..1] == [h] && [h][..0] == [];
    var wounded := Tally(map[e := 25], [], {});
    assert ApplyHits(wounded, [h], centers) == Tally(map[e := 0], [report], {e}) by {
      assert map[e := 25][e := 0] == map[e := 0];
    }
    assert ApplyHits(wounded, hs, centers) == ApplyHit(Tally(map[e := 0], [report], {e}), h, centers);
    assert map[e := 0][e := -25] == map[e := -25];
    var unhurt := Tally(map[e := ENEMY_HEALTH], [], {});
    assert ApplyHits(unhurt, [h], centers) == Tally(map[e := 25], [], {}) by {
      assert map[e := ENEMY_HEALTH][e := 25] == map[e := 25];
    }
    assert ApplyHits(unhurt, hs, centers) == ApplyHit(Tally(map[e := 25], [], {}), h, centers);
    assert map[e := 25][e := 0] == map[e := 0];
  }

  /** groupcollide with dokilla=True: computes the entries and takes every
      bullet that hit something out of the bullet group. */
  method GroupCollide(bullets: Group<Bullet>, enemies: Group<FlyingEnemy>) returns (crashes: seq<Crash>)
    requires bullets.Valid()
    modifies bullets`sprites
    ensures crashes == old(Crashes(bullets.sprites, enemies.sprites))
    ensures bullets.sprites == Excluding(old(bullets.sprites), Struck(crashes))
    ensures bullets.Valid()
  {
    var snapshot := bullets.sprites;
    crashes := [];
    for i := 0 to |snapshot|
      invariant crashes == Crashes(snapshot[..i], enemies.sprites)
    {
      assert snapshot[..i + 1][..i] == snapshot[..i];
      var b := snapshot[i];
      var hit := Colliding(b.rect, enemies.sprites);
      if hit != [] {
        crashes := crashes + [Crash(b, hit)];
      }
    }
    assert snapshot[..|snapshot|] == snapshot;
    KillStruck(bullets, crashes);
  }

  /** kill() on the bullet of every entry, in order. */
  method KillStruck(bullets: Group<Bullet>, crashes: seq<Crash>)
    requires bullets.Valid()
    modifies bullets`sprites
    ensures bullets.sprites == Excluding(old(bullets.sprites), Struck(crashes))
    ensures bullets.Valid()
  {
    ghost var snapshot := bullets.sprites;
    ExcludingNothing(snapshot);
    assert Struck(crashes[..0]) == {};
    for j := 0 to |crashes|
      invariant bullets.sprites == Excluding(snapshot, Struck(crashes[..j]))
      invariant bullets.Valid()
    {
      var b := crashes[j].bullet;
      assert Struck(crashes[..j + 1]) == Struck(crashes[..j]) + {b} by {
        assert crashes[..j + 1] == crashes[..j] + [crashes[j]];
      }
      WithoutExcluding(snapshot, Struck(crashes[..j]), b);
      bullets.Remove(b);
    }
    assert crashes[..|crashes|] == crashes;
  }

  /** Hits applied in two batches give the same tally as applied at once. */
  lemma {:induction false} ApplyHitsConcat(t: Tally, a: seq<Hit>, b: seq<Hit>, centers: map<FlyingEnemy, (int, int)>)
    ensures ApplyHits(t, a + b, centers) == ApplyHits(ApplyHits(t, a, centers), b, centers)
    decreases |b|
  {
    if b == [] {
      assert a + b == a;
    } else {
      var n := |b| - 1;
      ApplyHitsConcat(t, a, b[..n], centers);
      assert (a + b)[..|a + b| - 1] == a + b[..n];
      assert (a + b)[|a + b| - 1] == b[n];
    }
  }

  /** The enemies' health and the enemy group agree with a tally over the
      enemies es that were in the group when the tick began. */
  ghost predicate Tracks(es: seq<FlyingEnemy>, enemies: Group<FlyingEnemy>, t: Tally)
    reads es, enemies
  {
    (forall e :: e in es ==> e in t.health && e.health == t.health[e])
    && enemies.sprites == Excluding(es, t.killed)
  }

  /** centers holds the centre of every enemy of es. */
  ghost predicate Locates(es: seq<FlyingEnemy>, centers: map<FlyingEnemy, (int, int)>)
    reads (set e | e in es)`rect
  {
    forall e :: e in es ==> e in centers && centers[e] == (e.rect.CenterX(), e.rect.CenterY())
  }

  /** One take_damage call of the damage loop, with kill() taking a dead
      enemy out of the group. */
  method DamageOne(e: FlyingEnemy, amount: int, enemies: Group<FlyingEnemy>, ghost es: seq<FlyingEnemy>,
                   ghost before: Tally, ghost centers: map<FlyingEnemy, (int, int)>)
    returns (emitted: seq<Emission>)
    requires e in es && Tracks(es, enemies, before) && Locates(es, centers)
    modifies enemies`sprites, e`health
    ensures Locates(es, centers)
    ensures Tracks(es, enemies, ApplyHit(before, Hit(e, amount), centers))
    ensures before.events + emitted == ApplyHit(before, Hit(e, amount), centers).events
  {
    ghost var after := ApplyHit(before, Hit(e, amount), centers);
    var killed;
    killed, emitted := e.TakeDamage(amount);
    if killed {
      WithoutExcluding(es, before.killed, e);
      enemies.Remove(e);
    }
    assert forall x :: x in es ==> x in after.health && x.health == after.health[x];
  }

  /** The inner damage loop: the bullet of one entry damages each enemy it
      hit, in order. */
  method DamageFromCrash(c: Crash, enemies: Group<FlyingEnemy>, ghost es: seq<FlyingEnemy>,
                         ghost t: Tally, ghost centers: map<FlyingEnemy, (int, int)>)
    returns (emitted: seq<Emission>)
    requires forall k :: 0 <= k < |c.enemies| ==> c.enemies[k] in es
    requires Tracks(es, enemies, t) && Locates(es, centers)
    modifies enemies`sprites, set e | e in es :: e`health
    ensures Locates(es, centers)
    ensures Tracks(es, enemies, ApplyHits(t, CrashHits(c), centers))
    ensures t.events + emitted == ApplyHits(t, CrashHits(c), centers).events
  {
    emitted := [];
    for j := 0 to |c.enemies|
      invariant Locates(es, centers)
      invariant Tracks(es, enemies, ApplyHits(t, CrashHits(c)[..j], centers))
      invariant t.events + emitted == ApplyHits(t, CrashHits(c)[..j], centers).events
    {
      var e := c.enemies[j];
      ghost var before := ApplyHits(t, CrashHits(c)[..j], centers);
      assert CrashHits(c)[..j + 1][..j] == CrashHits(c)[..j];
      assert CrashHits(c)[..j + 1][j] == Hit(e, c.bullet.damage);
      assert e in before.health && e in centers;
      var ev := DamageOne(e, c.bullet.damage, enemies, es, before, centers);
      emitted := emitted + ev;
    }
    assert CrashHits(c)[..|c.enemies|] == CrashHits(c);
  }

  /** The damage loop: each entry's bullet damages each enemy it hit; an
      enemy whose health reaches zero reports its death and leaves the
      group, yet still takes the later hits of the same tick. */
  method DamageEnemies(crashes: seq<Crash>, enemies: Group<FlyingEnemy>) returns (emitted: seq<Emission>)
    requires forall i, k :: 0 <= i < |crashes| && 0 <= k < |crashes[i].enemies| ==> crashes[i].enemies[k] in enemies.sprites
    modifies enemies`sprites, set e | e in enemies.sprites :: e`health
    ensures var t := ApplyHits(old(Tally(Healths(enemies.sprites), [], {})), Hits(crashes), old(Centers(enemies.sprites)));
            Tracks(old(enemies.sprites), enemies, t) && emitted == t.events
  {
    ghost var es := enemies.sprites;
    ghost var t0 := Tally(Healths(es), [], {});
    ghost var centers := Centers(es);
    ExcludingNothing(es);
    emitted := [];
    for i := 0 to |crashes|
      invariant Locates(es, centers)
      invariant Tracks(es, enemies, ApplyHits(t0, Hits(crashes[..i]), centers))
      invariant emitted == ApplyHits(t0, Hits(crashes[..i]), centers).events
    {
      ghost var t := ApplyHits(t0, Hits(crashes[..i]), centers);
      var ev := DamageFromCrash(crashes[i], enemies, es, t, centers);
      ApplyHitsConcat(t0, Hits(crashes[..i]), CrashHits(crashes[i]), centers);
      assert crashes[..i + 1][..i] == crashes[..i];
      emitted := emitted + ev;
    }
    assert crashes[..|crashes|] == crashes;
  }

  /** The tally of a whole bullet pass over the groups as they are. */
  ghost function BulletTally(bs: seq<Bullet>, es: seq<FlyingEnemy>): Tally
    reads bs, es
  {
    ApplyHits(Tally(Healths(es), [], {}), Hits(Crashes(bs, es)), Centers(es))
  }

  /** groupcollide has at most one entry per bullet of a group without
      duplicates. */
  lemma {:induction false} CrashesOnePerBullet(bs: seq<Bullet>, es: seq<FlyingEnemy>)
    requires Distinct(bs)
    ensures forall i, j :: 0 <= i < j < |Crashes(bs, es)| ==> Crashes(bs, es)[i].bullet != Crashes(bs, es)[j].bullet
  {
    if bs != [] {
      var n := |bs| - 1;
      var cs0 := Crashes(bs[..n], es);
      DistinctPrefix(bs, n);
      CrashesOnePerBullet(bs[..n], es);
      CrashesEntries(bs[..n], es);
      var hit := Colliding(bs[n].rect, es);
      if hit != [] {
        var cs := Crashes(bs, es);
        assert cs == cs0 + [Crash(bs[n], hit)];
        forall i | 0 <= i < |cs0| ensures cs0[i].bullet != bs[n] {
          var k :| 0 <= k < n && bs[..n][k] == cs0[i].bullet;
          assert Apart(bs, k, n);
        }
      }
    }
  }

  /** How many bullets of bs overlap e. */
  function Overlapping(bs: seq<Bullet>, e: FlyingEnemy): nat
    reads (set b | b in bs)`rect, e`rect
  {
    if bs == [] then 0
    else Overlapping(bs[..|bs| - 1], e) + (if Collides(bs[|bs| - 1].rect, e.rect) then 1 else 0)
  }

  /** Damage adds up over consecutive runs of hits. */
  lemma {:induction false} DamageToConcat(a: seq<Hit>, b: seq<Hit>, e: FlyingEnemy)
    ensures DamageTo(a + b, e) == DamageTo(a, e) + DamageTo(b, e)
    decreases |b|
  {
    if b == [] {
      assert a + b == a;
    } else {
      var n := |b| - 1;
      assert (a + b)[..|a + b| - 1] == a + b[..n];
      assert (a + b)[|a + b| - 1] == b[n];
      DamageToConcat(a, b[..n], e);
    }
  }

  /** An entry listing each enemy once damages e by the bullet's damage if
      it lists e, and not at all otherwise. */
  lemma {:induction false} DamageToCrash(b: Bullet, xs: seq<FlyingEnemy>, e: FlyingEnemy)
    requires Distinct(xs)
    ensures DamageTo(CrashHits(Crash(b, xs)), e) == if e in xs then b.damage else 0
    decreases |xs|
  {
    if xs != [] {
      var n := |xs| - 1;
      var hs := CrashHits(Crash(b, xs));
      assert hs[..n] == CrashHits(Crash(b, xs[..n]));
      DistinctPrefix(xs, n);
      DamageToCrash(b, xs[..n], e);
      assert xs == xs[..n] + [xs[n]];
      if xs[n] == e {
        forall k | 0 <= k < n ensures xs[k] != e {
          assert Apart(xs, k, n);
        }
      }
    }
  }

  /** Over the whole damage loop an enemy of the group takes BULLET_DAMAGE
      once for every bullet overlapping it: each (bullet, enemy) overlap is
      one take_damage call. */
  lemma {:induction false} DamagePerOverlap(bs: seq<Bullet>, es: seq<FlyingEnemy>, e: FlyingEnemy)
    requires Distinct(es) && e in es
    ensures DamageTo(Hits(Crashes(bs, es)), e) == BULLET_DAMAGE * Overlapping(bs, e)
  {
    if bs != [] {
      var n := |bs| - 1;
      DamagePerOverlap(bs[..n], es, e);
      LastBulletDamage(bs, es, e);
    }
  }

  /** The last bullet of the group adds BULLET_DAMAGE to e's damage exactly
      when it overlaps e. */
  lemma LastBulletDamage(bs: seq<Bullet>, es: seq<FlyingEnemy>, e: FlyingEnemy)
    requires bs != [] && Distinct(es) && e in es
    ensures var n := |bs| - 1;
            DamageTo(Hits(Crashes(bs, es)), e)
            == DamageTo(Hits(Crashes(bs[..n], es)), e) + (if Collides(bs[n].rect, e.rect) then BULLET_DAMAGE else 0)
  {
    var n := |bs| - 1;
    var b := bs[n];
    var hit := Colliding(b.rect, es);
    var cs0 := Crashes(bs[..n], es);
    var k :| 0 <= k < |es| && es[k] == e;
    if Collides(b.rect, e.rect) {
      CollidingFinds(b.rect, es, k);
    }
    if hit == [] {
      assert Crashes(bs, es) == cs0;
    } else {
      assert Crashes(bs, es) == cs0 + [Crash(b, hit)];
      CollidingDistinct(b.rect, es);
      EntryDamage(cs0, b, hit, e);
    }
  }

  /** One more entry adds its damage to e on top of the earlier entries'. */
  lemma EntryDamage(cs: seq<Crash>, b: Bullet, hit: seq<FlyingEnemy>, e: FlyingEnemy)
    requires Distinct(hit)
    ensures DamageTo(Hits(cs + [Crash(b, hit)]), e) == DamageTo(Hits(cs), e) + (if e in hit then b.damage else 0)
  {
    var c := Crash(b, hit);
    assert (cs + [c])[..|cs|] == cs;
    assert Hits(cs + [c]) == Hits(cs) + CrashHits(c);
    DamageToConcat(Hits(cs), CrashHits(c), e);
    DamageToCrash(b, hit, e);
  }

  /** After the bullet pass each enemy's health is its health before less
      BULLET_DAMAGE per bullet overlapping it. */
  lemma EnemyHealthAfterBullets(bs: seq<Bullet>, es: seq<FlyingEnemy>, e: FlyingEnemy)
    requires Distinct(es) && e in es
    ensures BulletTally(bs, es).health[e] == e.health - BULLET_DAMAGE * Overlapping(bs, e)
  {
    var cs := Crashes(bs, es);
    var t := Tally(Healths(es), [], {});
    CrashesAimed(bs, es);
    ApplyHitsHealth(t, Hits(cs), Centers(es), e);
    DamagePerOverlap(bs, es, e);
  }

  /** The damage loop over groupcollide's entries only hits enemies of the
      group, whose health and centre the tally starts from. */
  lemma CrashesAimed(bs: seq<Bullet>, es: seq<FlyingEnemy>)
    ensures Aimed(Hits(Crashes(bs, es)), Tally(Healths(es), [], {}), Centers(es))
  {
    var cs := Crashes(bs, es);
    CrashesEntries(bs, es);
    forall i, k | 0 <= i < |cs| && 0 <= k < |cs[i].enemies| ensures cs[i].enemies[k] in es {
      assert cs[i].enemies == Colliding(cs[i].bullet.rect, es);
    }
    HitsAimed(cs, es);
  }

  /** A run of full-damage hits never deals negative damage. */
  lemma {:induction false} DamageToNonNegative(hs: seq<Hit>, e: FlyingEnemy)
    requires forall k :: 0 <= k < |hs| ==> hs[k].amount == BULLET_DAMAGE
    ensures DamageTo(hs, e) >= 0
  {
    if hs != [] {
      DamageToNonNegative(hs[..|hs| - 1], e);
    }
  }

  /** A run of full-damage hits that damages e has a last hit on e, after
      which e takes no more damage. */
  lemma {:induction false} LastHitOn(hs: seq<Hit>, e: FlyingEnemy) returns (k: nat)
    requires forall i :: 0 <= i < |hs| ==> hs[i].amount == BULLET_DAMAGE
    requires DamageTo(hs, e) > 0
    ensures k < |hs| && hs[k].target == e && DamageTo(hs[..k + 1], e) == DamageTo(hs, e)
  {
    var n := |hs| - 1;
    if hs[n].target == e {
      k := n;
      assert hs[..k + 1] == hs;
    } else {
      k := LastHitOn(hs[..n], e);
      assert hs[..n][..k + 1] == hs[..k + 1];
    }
  }

  /** A prefix of a run of full-damage hits deals at most the run's damage. */
  lemma PrefixDamage(hs: seq<Hit>, j: nat, e: FlyingEnemy)
    requires j <= |hs| && forall i :: 0 <= i < |hs| ==> hs[i].amount == BULLET_DAMAGE
    ensures DamageTo(hs[..j], e) <= DamageTo(hs, e)
  {
    assert hs == hs[..j] + hs[j..];
    DamageToConcat(hs[..j], hs[j..], e);
    DamageToNonNegative(hs[j..], e);
  }

  /** Full-damage hits starting from no kills kill e exactly when they
      damage it and leave it at or below zero, since its health only falls. */
  lemma KilledIffDamaged(t: Tally, hs: seq<Hit>, centers: map<FlyingEnemy, (int, int)>, e: FlyingEnemy)
    requires Aimed(hs, t, centers) && e in t.health && t.killed == {}
    requires forall i :: 0 <= i < |hs| ==> hs[i].amount == BULLET_DAMAGE
    ensures e in ApplyHits(t, hs, centers).killed <==> DamageTo(hs, e) > 0 && t.health[e] - DamageTo(hs, e) <= 0
  {
    ApplyHitsKilled(t, hs, centers, e);
    if e in ApplyHits(t, hs, centers).killed {
      var k :| 0 <= k < |hs| && hs[k].target == e && t.health[e] - DamageTo(hs[..k + 1], e) <= 0;
      assert hs[..k + 1][..k] == hs[..k];
      DamageToNonNegative(hs[..k], e);
      PrefixDamage(hs, k + 1, e);
    }
    if DamageTo(hs, e) > 0 && t.health[e] - DamageTo(hs, e) <= 0 {
      var k := LastHitOn(hs, e);
    }
  }

  /** How many bullets of bs overlap each enemy of es. */
  ghost function OverlapCounts(bs: seq<Bullet>, es: seq<FlyingEnemy>): (m: map<FlyingEnemy, nat>)
    reads (set b | b in bs)`rect, (set e | e in es)`rect
    ensures forall e :: e in es ==> e in m && m[e] == Overlapping(bs, e)
  {
    map e | e in es :: Overlapping(bs, e)
  }

  /** The bullet pass in closed form: over the enemies es, whose health
      was start and which hits bullets overlapped, the tally t leaves each
      with BULLET_DAMAGE less per overlapping bullet, and kills exactly the
      ones that some bullet hit and whose health ends at or below zero. */
  predicate Shot(es: seq<FlyingEnemy>, start: map<FlyingEnemy, int>, hits: map<FlyingEnemy, nat>, t: Tally)
  {
    forall e {:trigger hits[e]} :: e in es ==>
      && e in start && e in hits && e in t.health
      && t.health[e] == start[e] - BULLET_DAMAGE * hits[e]
      && (e in t.killed <==> hits[e] > 0 && t.health[e] <= 0)
  }

  /** The tally of the bullet pass over a group without duplicates is Shot
      from the group's health and the bullets overlapping each enemy. */
  lemma TallyShot(bs: seq<Bullet>, es: seq<FlyingEnemy>)
    requires Distinct(es)
    ensures Shot(es, Healths(es), OverlapCounts(bs, es), BulletTally(bs, es))
  {
    forall e | e in es
      ensures BulletTally(bs, es).health[e] == e.health - BULLET_DAMAGE * Overlapping(bs, e)
      ensures e in BulletTally(bs, es).killed <==>
                Overlapping(bs, e) > 0 && e.health - BULLET_DAMAGE * Overlapping(bs, e) <= 0
    {
      EnemyHealthAfterBullets(bs, es, e);
      KilledIffSpent(bs, es, e);
    }
  }

  /** The bullet pass kills an enemy of the group exactly when at least one
      bullet overlaps it and its health ends at or below zero. */
  lemma KilledIffSpent(bs: seq<Bullet>, es: seq<FlyingEnemy>, e: FlyingEnemy)
    requires Distinct(es) && e in es
    ensures e in BulletTally(bs, es).killed <==>
              Overlapping(bs, e) > 0 && e.health - BULLET_DAMAGE * Overlapping(bs, e) <= 0
  {
    var hs := Hits(Crashes(bs, es));
    var t := Tally(Healths(es), [], {});
    CrashesAimed(bs, es);
    KilledIffDamaged(t, hs, Centers(es), e);
    DamagePerOverlap(bs, es, e);
  }

  /** _handle_bullet_enemy_collision: groupcollide, then the damage loop. */
  method BulletsHitEnemies(bullets: Group<Bullet>, enemies: Group<FlyingEnemy>) returns (emitted: seq<Emission>)
    requires bullets.Valid()
    modifies bullets`sprites, enemies`sprites, set e | e in enemies.sprites :: e`health
    ensures bullets.Valid()
    ensures bullets.sprites == Excluding(old(bullets.sprites), Struck(old(Crashes(bullets.sprites, enemies.sprites))))
    ensures Tracks(old(enemies.sprites), enemies, old(BulletTally(bullets.sprites, enemies.sprites)))
    ensures emitted == old(BulletTally(bullets.sprites, enemies.sprites)).events
  {
    ghost var es0 := enemies.sprites;
    ghost var h0, centers := Healths(es0), Centers(es0);
    CrashesEntries(bullets.sprites, es0);
    var crashes := GroupCollide(bullets, enemies);
    assert Healths(es0) == h0 && Centers(es0) == centers;
    HitsAimed(crashes, es0);
    emitted := DamageEnemies(crashes, enemies);
  }

  // ---------------------------------------------------------------------
  // Enemies against the player

  /** The contact damage of each enemy touching the player, in group
      order. */
  function ContactDamages(es: seq<FlyingEnemy>): (r: seq<int>)
    ensures |r| == |es| && forall k :: 0 <= k < |r| ==> r[k] == ENEMY_DAMAGE
  {
    seq(|es|, k requires 0 <= k < |es| => es[k].damage)
  }

  /** What the contact pass does to the player's vitals and emits: nothing
      unless the player is alive, otherwise one take_damage per touching
      enemy. */
  function Contact(v: Vitals, alive: bool, touching: seq<FlyingEnemy>): (r: (Vitals, seq<Emission>))
    ensures !alive || v.invincible || touching == [] ==> r == (v, [])
    ensures alive && touching != [] ==> r == Hurt(v, ENEMY_DAMAGE)
  {
    if !alive then (v, [])
    else
      var amounts := ContactDamages(touching);
      if v.invincible then HurtAllInvincible(v, amounts); HurtAll(v, amounts)
      else if touching == [] then HurtAll(v, amounts)
      else FirstContactOnly(v, amounts); HurtAll(v, amounts)
  }

  method EnemiesTouchPlayer(player: Player, enemies: Group<FlyingEnemy>) returns (emitted: seq<Emission>)
    modifies player`health, player`invincible, player`invincibleTimer
    ensures (player.VitalsState(), emitted)
              == Contact(old(player.VitalsState()), player.alive, Colliding(player.rect, enemies.sprites))
  {
    ghost var v0 := player.VitalsState();
    if !player.alive {
      return [];
    }
    var hits := Colliding(player.rect, enemies.sprites);
    ghost var amounts := ContactDamages(hits);
    emitted := [];
    assert amounts[0..] == amounts;
    assert emitted + HurtAll(v0, amounts).1 == HurtAll(v0, amounts).1;
    for i := 0 to |hits|
      invariant (HurtAll(player.VitalsState(), amounts[i..]).0, emitted + HurtAll(player.VitalsState(), amounts[i..]).1)
                == HurtAll(v0, amounts)
    {
      ghost var v := player.VitalsState();
      assert amounts[i..][0] == amounts[i] && amounts[i..][1..] == amounts[i + 1..];
      ghost var first := Hurt(v, amounts[i]);
      ghost var rest := HurtAll(first.0, amounts[i + 1..]);
      assert HurtAll(v, amounts[i..]) == (rest.0, first.1 + rest.1);
      var ev := player.TakeDamage(hits[i].damage);
      assert (player.VitalsState(), ev) == first;
      assert emitted + (ev + rest.1) == (emitted + ev) + rest.1;
      emitted := emitted + ev;
    }
    assert amounts[|hits|..] == [];
    assert emitted + [] == emitted;
  }

  // ---------------------------------------------------------------------
  // One tick

  /** The two sprite passes of update: bullets against enemies, then the
      enemies that survived against the player. */
  method Combat(player: Player, enemies: Group<FlyingEnemy>, bullets: Group<Bullet>) returns (emitted: seq<Emission>)
    requires bullets.Valid()
    modifies player`health, player`invincible, player`invincibleTimer
    modifies bullets`sprites, enemies`sprites, set e | e in enemies.sprites :: e`health
    ensures bullets.Valid()
    ensures bullets.sprites == Excluding(old(bullets.sprites), Struck(old(Crashes(bullets.sprites, enemies.sprites))))
    ensures Tracks(old(enemies.sprites), enemies, old(BulletTally(bullets.sprites, enemies.sprites)))
    ensures var touch := Contact(old(player.VitalsState()), player.alive, Colliding(player.rect, enemies.sprites));
            player.VitalsState() == touch.0
            && emitted == old(BulletTally(bullets.sprites, enemies.sprites)).events + touch.1
  {
    ghost var es0, t0 := enemies.sprites, BulletTally(bullets.sprites, enemies.sprites);
    var hitEvents := BulletsHitEnemies(bullets, enemies);
    var contactEvents := EnemiesTouchPlayer(player, enemies);
    assert Tracks(es0, enemies, t0);
    emitted := hitEvents + contactEvents;
  }

  /** Moving the player leaves every bullet-enemy fact as it was. */
  twostate lemma SpritesUntouched(groups: (Group<Bullet>, Group<FlyingEnemy>))
    requires var (bullets, enemies) := groups; unchanged(bullets, enemies) && unchanged(bullets.sprites) && unchanged(enemies.sprites)
    ensures var (bullets, enemies) := groups;
            && bullets.Valid() == old(bullets.Valid())
            && Crashes(bullets.sprites, enemies.sprites) == old(Crashes(bullets.sprites, enemies.sprites))
            && BulletTally(bullets.sprites, enemies.sprites) == old(BulletTally(bullets.sprites, enemies.sprites))
  {
  }

  /** update: platforms first, then bullets against enemies, then enemies
      against the player, so the contact pass sees the resolved position
      and only the enemies that survived this tick's bullets. */
  method Update(player: Player, enemies: Group<FlyingEnemy>, bullets: Group<Bullet>, platforms: seq<Platform>)
    returns (emitted: seq<Emission>)
    requires bullets.Valid()
    modifies player`rect, player`vy, player`onGround, player`health, player`invincible, player`invincibleTimer
    modifies bullets`sprites, enemies`sprites, set e | e in enemies.sprites :: e`health
    ensures BodyOf(player) == Resolve(old(BodyOf(player)), platforms)
    ensures bullets.Valid()
    ensures bullets.sprites == Excluding(old(bullets.sprites), Struck(old(Crashes(bullets.sprites, enemies.sprites))))
    ensures Tracks(old(enemies.sprites), enemies, old(BulletTally(bullets.sprites, enemies.sprites)))
    ensures var touch := Contact(old(player.VitalsState()), player.alive, Colliding(player.rect, enemies.sprites));
            player.VitalsState() == touch.0
            && emitted == old(BulletTally(bullets.sprites, enemies.sprites)).events + touch.1
  {
    ghost var vitals := player.VitalsState();
    ResolvePlatforms(player, platforms);
    SpritesUntouched((bullets, enemies));
    assert player.VitalsState() == vitals;
    ghost var body := BodyOf(player);
    emitted := Combat(player, enemies, bullets);
    assert BodyOf(player) == body;
  }
}
