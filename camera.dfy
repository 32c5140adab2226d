/** The scrolling viewport (core/camera.py): a screen-sized rectangle
    centred on a target and clamped to the level. */
module CameraView {
  import opened Config
  import opened Rects

  /** One axis of Camera.update: centre on c, then clamp to
      [0, level - screen]. When the level is narrower than the screen the
      upper bound is negative and the lower bound wins. */
  function ClampedOffset(c: int, screen: nat, level: int): (v: int)
    ensures v >= 0
    ensures level >= screen ==> v <= level - screen
    ensures level < screen ==> v == 0
    ensures 0 <= c - screen / 2 <= level - screen ==> v == c - screen / 2
    ensures c - screen / 2 < 0 ==> v == 0
    ensures level >= screen && c - screen / 2 > level - screen ==> v == level - screen
  {
    var centred := c - screen / 2;
    var upper := if centred < level - screen then centred else level - screen;
    if 0 < upper then upper else 0
  }

  /** The viewport for a target: screen-sized, placed by its centre only. */
  function ViewFor(target: Rect, levelWidth: int, levelHeight: int): (v: Rect)
    ensures v.w == SCREEN_WIDTH && v.h == SCREEN_HEIGHT
    ensures v.x >= 0 && v.y >= 0
    ensures levelWidth >= SCREEN_WIDTH ==> v.Right() <= levelWidth
    ensures levelHeight >= SCREEN_HEIGHT ==> v.Bottom() <= levelHeight
  {
    Rect(ClampedOffset(target.CenterX(), SCREEN_WIDTH, levelWidth),
         ClampedOffset(target.CenterY(), SCREEN_HEIGHT, levelHeight),
         SCREEN_WIDTH, SCREEN_HEIGHT)
  }

  /** Camera x never decreases when the target moves right. */
  lemma ClampedOffsetMonotone(c1: int, c2: int, screen: nat, level: int)
    requires c1 <= c2
    ensures ClampedOffset(c1, screen, level) <= ClampedOffset(c2, screen, level)
  {
  }

  /** Only the target's centre matters, so targets with the same centre give
      the same viewport, and updating twice on one target changes nothing
      the second time. */
  lemma ViewDependsOnlyOnCentre(a: Rect, b: Rect, levelWidth: int, levelHeight: int)
    requires a.CenterX() == b.CenterX() && a.CenterY() == b.CenterY()
    ensures ViewFor(a, levelWidth, levelHeight) == ViewFor(b, levelWidth, levelHeight)
  {
  }

  /** In the game's level, which is exactly one screen tall, the camera
      never scrolls vertically. */
  lemma NoVerticalScroll(target: Rect)
    ensures ViewFor(target, LEVEL_WIDTH, LEVEL_HEIGHT).y == 0
    ensures 0 <= ViewFor(target, LEVEL_WIDTH, LEVEL_HEIGHT).x <= LEVEL_WIDTH - SCREEN_WIDTH
  {
  }

  class Camera {
    var rect: Rect
    const levelWidth: int
    const levelHeight: int

    ghost predicate Valid()
      reads this
    {
      rect.w == SCREEN_WIDTH && rect.h == SCREEN_HEIGHT
    }

    constructor (levelWidth: int, levelHeight: int)
      ensures Valid()
      ensures rect == Rect(0, 0, SCREEN_WIDTH, SCREEN_HEIGHT)
      ensures this.levelWidth == levelWidth && this.levelHeight == levelHeight
    {
      rect := Rect(0, 0, SCREEN_WIDTH, SCREEN_HEIGHT);
      this.levelWidth := levelWidth;
      this.levelHeight := levelHeight;
    }

    /** apply_rect(r), and apply(entity) on entity.rect: offset by the
        camera position, same size. */
    function ApplyRect(r: Rect): (m: Rect)
      reads this
      ensures m.x == r.x - rect.x && m.y == r.y - rect.y
      ensures m.w == r.w && m.h == r.h
    {
      r.Move(-rect.x, -rect.y)
    }

    /** apply_pos(pos). */
    function ApplyPos(pos: (int, int)): (q: (int, int))
      reads this
      ensures q.0 + rect.x == pos.0 && q.1 + rect.y == pos.1
    {
      (pos.0 - rect.x, pos.1 - rect.y)
    }

    function Left(): (v: int)
      reads this
      ensures v == rect.x
    {
      rect.Left()
    }

    function Right(): (v: int)
      reads this
      requires Valid()
      ensures v == rect.x + SCREEN_WIDTH
    {
      rect.Right()
    }

    function Top(): (v: int)
      reads this
      ensures v == rect.y
    {
      rect.Top()
    }

    function Bottom(): (v: int)
      reads this
      requires Valid()
      ensures v == rect.y + SCREEN_HEIGHT
    {
      rect.Bottom()
    }

    /** update(target): recentre on the target, clamped to the level. */
    method Update(target: Rect)
      requires Valid()
      modifies this`rect
      ensures Valid()
      ensures rect == ViewFor(target, levelWidth, levelHeight)
    {
      var x := target.CenterX() - SCREEN_WIDTH / 2;
      var y := target.CenterY() - SCREEN_HEIGHT / 2;
      x := Max(0, Min(x, levelWidth - SCREEN_WIDTH));
      y := Max(0, Min(y, levelHeight - SCREEN_HEIGHT));
      rect := rect.(x := x, y := y);
    }
  }

  function Min(a: int, b: int): int { if a < b then a else b }
  function Max(a: int, b: int): int { if a < b then b else a }
}
