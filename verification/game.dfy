/** The game state record (game.js:100-106) and the invariant every state
    between two input events or frames keeps. */
module Game {

  import opened Grid
  import opened World

  /** Hit points of a freshly placed enemy (game.js:126). */
  const ENEMY_HP: int := 30
  /** Damage of one player attack (game.js:183). */
  const ATTACK_DAMAGE: int := 30
  /** Healing on a kill never lifts hit points above this (game.js:187). */
  const HP_CAP: int := 100
  /** Hit points at game start and after a defeat (game.js:101, 313). */
  const START_HP: int := 10
  /** Hit points after the restart button (game.js:288). */
  const RESTART_HP: int := 100
  /** Enemies act on every frame whose counter is a multiple of this (game.js:296). */
  const ENEMY_PERIOD: nat := 20

  datatype Player = Player(x: int, y: int, hp: int, dir: Dir, zone: string)

  datatype Enemy = Enemy(x: int, y: int, hp: int, zone: string)

  datatype GameState = GameState(player: Player, enemies: seq<Enemy>, kills: nat, tick: nat)

  function PlayerCell(p: Player): Cell {
    Cell(p.x, p.y)
  }

  function EnemyCell(e: Enemy): Cell {
    Cell(e.x, e.y)
  }

  /** An enemy as the game keeps it: on the board, belonging to the player's
      zone, alive and never above its starting hit points. */
  predicate EnemyOk(e: Enemy, zone: string) {
    InGrid(EnemyCell(e)) && e.zone == zone && 0 < e.hp <= ENEMY_HP
  }

  /** What holds of every state between two input events or frames: the
      player is on the board in a known zone with hit points in (0, HP_CAP],
      and every enemy is a live, on-board enemy of that zone. The lower bound
      on hit points relies on the model running the defeat reset in the frame
      that detects it; the game itself runs the reset from a timer 100 ms
      later, and keys still act on a player at or below zero in between. */
  predicate Inv(s: GameState) {
    && InGrid(PlayerCell(s.player))
    && s.player.zone in Zones()
    && 0 < s.player.hp <= HP_CAP
    && forall i :: 0 <= i < |s.enemies| ==> EnemyOk(s.enemies[i], s.player.zone)
  }
}
