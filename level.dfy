/** The level of the gameplay state (states/playing_state.py,
    _create_level): the ground and thirteen floating platforms. */
module Levels {
  import opened Config
  import opened Rects
  import opened Sprites
  import opened Platforms

  /** The floating platforms of _create_level, as (x, y, width, height). */
  const FLOATING: seq<(int, int, int, int)> := [
    (200, 480, 150, 20), (450, 400, 150, 20), (700, 320, 150, 20), (950, 400, 150, 20),
    (1200, 480, 150, 20), (1400, 350, 200, 20), (1700, 420, 150, 20), (100, 350, 100, 20),
    (350, 250, 120, 20), (600, 180, 100, 20), (900, 220, 150, 20), (1100, 280, 120, 20),
    (1500, 200, 150, 20)]

  /** The ground: a strip 40 high along the bottom of the screen, as wide
      as the level (LEVEL_WIDTH in the game). */
  function Ground(width: int): Platform
  {
    NewPlatform(0, SCREEN_HEIGHT - 40, width, 40)
  }

  function Floating(k: nat): Platform
    requires k < |FLOATING|
  {
    NewPlatform(FLOATING[k].0, FLOATING[k].1, FLOATING[k].2, FLOATING[k].3)
  }

  /** The ground and the first n floating platforms, in the order
      _create_level adds them. */
  function Built(width: int, n: nat): (ps: seq<Platform>)
    requires n <= |FLOATING|
    ensures |ps| == n + 1
  {
    if n == 0 then [Ground(width)] else Built(width, n - 1) + [Floating(n - 1)]
  }

  /** The whole level for a ground of the given width. */
  function Level(width: int): seq<Platform>
  {
    [Ground(width)] + seq(|FLOATING|, k requires 0 <= k < |FLOATING| => Floating(k))
  }

  /** However far the level has been built, position 0 holds the ground. */
  lemma {:induction false} BuiltGround(width: int, n: nat)
    requires n <= |FLOATING|
    ensures Built(width, n)[0] == Ground(width)
  {
    if n > 0 {
      BuiltGround(width, n - 1);
    }
  }

  /** Position k + 1 holds the k-th floating platform once it is added. */
  lemma {:induction false} BuiltAt(width: int, n: nat, k: nat)
    requires k < n <= |FLOATING|
    ensures Built(width, n)[k + 1] == Floating(k)
  {
    if k + 1 < n {
      BuiltAt(width, n - 1, k);
    }
  }

  /** Building all the floating platforms gives the level. */
  lemma BuiltIsLevel(width: int, n: nat)
    requires n == |FLOATING|
    ensures Built(width, n) == Level(width)
  {
    var b, l := Built(width, n), Level(width);
    forall i | 0 <= i < |l| ensures b[i] == l[i] {
      if i == 0 {
        BuiltGround(width, n);
      } else {
        BuiltAt(width, n, i - 1);
      }
    }
  }

  /** The level has fourteen platforms: the ground and thirteen floating
      ones. Each collision box is whole 70-pixel tiles, 70 high whatever
      height was asked for: the ground spans 1960 of the 2000 pixels
      requested, the 150- and 200-wide platforms two tiles and the 100- and
      120-wide ones a single tile. */
  lemma LevelGeometry()
    ensures |Level(LEVEL_WIDTH)| == 14
    ensures Level(LEVEL_WIDTH)[0].rect == Rect(0, 560, 1960, 70)
    ensures forall k :: 0 <= k < |FLOATING| ==>
              Level(LEVEL_WIDTH)[k + 1].rect == Rect(FLOATING[k].0, FLOATING[k].1, if FLOATING[k].2 >= 140 then 140 else 70, 70)
  {
    var ps := Level(LEVEL_WIDTH);
    assert NumTiles(2000, 70) == 28;
    forall k | 0 <= k < |FLOATING|
      ensures ps[k + 1].rect == Rect(FLOATING[k].0, FLOATING[k].1, if FLOATING[k].2 >= 140 then 140 else 70, 70)
    {
      var w := FLOATING[k].2;
      assert w == 100 || w == 120 || w == 150 || w == 200;
      assert NumTiles(w, 70) == if w >= 140 then 2 else 1;
    }
  }

  /** Where in the level the platform with left edge x sits. */
  function LevelPosition(x: int): int
  {
    if x == 0 then 0 else if x == 200 then 1 else if x == 450 then 2
    else if x == 700 then 3 else if x == 950 then 4 else if x == 1200 then 5
    else if x == 1400 then 6 else if x == 1700 then 7 else if x == 100 then 8
    else if x == 350 then 9 else if x == 600 then 10 else if x == 900 then 11
    else if x == 1100 then 12 else if x == 1500 then 13 else -1
  }

  /** The k-th floating platform's left edge names position k + 1. */
  lemma FloatingPosition(k: nat)
    requires k < |FLOATING|
    ensures LevelPosition(Floating(k).rect.x) == k + 1
  {
    assert Floating(k).rect.x == FLOATING[k].0;
  }

  /** Every platform of the level starts at a different x, which names
      its position. */
  lemma BuiltPositions(width: int, n: nat)
    requires n <= |FLOATING|
    ensures forall i :: 0 <= i < |Built(width, n)| ==> LevelPosition(Built(width, n)[i].rect.x) == i
  {
    forall i | 0 <= i < |Built(width, n)| ensures LevelPosition(Built(width, n)[i].rect.x) == i {
      if i == 0 {
        BuiltGround(width, n);
      } else {
        BuiltAt(width, n, i - 1);
        FloatingPosition(i - 1);
      }
    }
  }

  /** No platform is added twice. */
  lemma LevelDistinct(width: int)
    ensures Distinct(Level(width))
  {
    var ps := Level(width);
    BuiltPositions(width, |FLOATING|);
    BuiltIsLevel(width, |FLOATING|);
    forall i, j | 0 <= i < j < |ps| ensures Apart(ps, i, j) {
      assert LevelPosition(ps[i].rect.x) == i && LevelPosition(ps[j].rect.x) == j;
    }
  }

  /** The k-th floating platform is not among those added before it. */
  lemma LevelGrows(width: int, k: nat)
    requires k < |FLOATING|
    ensures Floating(k) !in Built(width, k)
  {
    var b, c := Built(width, k), Built(width, k + 1);
    BuiltPositions(width, k + 1);
    assert c == b + [Floating(k)];
    forall j | 0 <= j < |b| ensures b[j] != Floating(k) {
      assert c[j] == b[j] && c[k + 1] == Floating(k);
      assert LevelPosition(c[j].rect.x) == j;
    }
  }

  /** _create_level(): the ground, then the floating platforms in order. */
  method CreateLevel(platforms: Group<Platform>)
    requires platforms.sprites == []
    modifies platforms`sprites
    ensures platforms.sprites == Level(LEVEL_WIDTH)
  {
    platforms.Add(Ground(LEVEL_WIDTH));
    for k := 0 to |FLOATING|
      invariant platforms.sprites == Built(LEVEL_WIDTH, k)
    {
      // Floating(k) is Platform(x, y, w, h) for the k-th row (x, y, w, h).
      LevelGrows(LEVEL_WIDTH, k);
      platforms.Add(Floating(k));
    }
    BuiltIsLevel(LEVEL_WIDTH, |FLOATING|);
  }
}
