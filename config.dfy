/** Tunable constants of the game (config.py), as Dafny constants.
    Times are seconds, speeds pixels per second, sizes pixels. */
module Config {
  // Display
  const SCREEN_WIDTH: nat := 800
  const SCREEN_HEIGHT: nat := 600

  // Level
  const LEVEL_WIDTH: int := 2000
  const LEVEL_HEIGHT: int := 600

  // Physics
  const GRAVITY: real := 1500.0
  const TERMINAL_VELOCITY: real := 800.0

  // Player
  const PLAYER_SPEED: real := 300.0
  const JUMP_VELOCITY: real := -550.0
  const PLAYER_MAX_HEALTH: int := 100
  const PLAYER_INVINCIBILITY_TIME: real := 1.0

  // Shooting
  const SHOOT_COOLDOWN: real := 0.25
  const BULLET_SPEED: int := 600
  const BULLET_DAMAGE: int := 25
  const BULLET_LIFETIME: real := 2.0

  // Enemies
  const ENEMY_SPEED: int := 150
  const ENEMY_HEALTH: int := 50
  const ENEMY_DAMAGE: int := 15

  // Spawning
  const SPAWN_INTERVAL: real := 2.5
  const SPAWN_MARGIN: int := 50

  // Sprite sizes fixed by the entities' sprite loaders, which scale every
  // image (or its coloured fallback surface) to these sizes.
  const PLAYER_SPRITE_SIZE: nat := 48
  const ENEMY_SPRITE_SIZE: nat := 40
  const BULLET_SPRITE_SIZE: nat := 24
  const TILE_SIZE: nat := 70
}
