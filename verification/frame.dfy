/** One animation frame (`loop`, game.js:294-320), the defeat reset it
    triggers (game.js:313-315), the restart button (game.js:287-292) and the
    initial state (game.js:100-106, 325). */
module Frame {

  import opened Wrappers
  import opened Grid
  import opened World
  import opened Game
  import opened Spawning
  import opened Movement
  import opened EnemyAi

  /** The cell a new game, a restart and a defeat put the player on. */
  const START_CELL: Cell := Cell(4, 4)

  /** Defeat: hit points back to START_HP, kills to zero, and the player
      re-enters the start zone at its spawn cell with a fresh roster. */
  function Defeat(s: GameState, draws: seq<Draw>): (r: Option<GameState>)
    ensures r.Some? <==> |Accepted(draws, START_CELL)| >= EnemyCount(START_ZONE)
    ensures r.Some? ==>
      && r.value.player == Player(START_CELL.x, START_CELL.y, START_HP, s.player.dir, START_ZONE)
      && r.value.kills == 0 && r.value.tick == s.tick
      && |r.value.enemies| == EnemyCount(START_ZONE)
    ensures r.Some? ==> forall i :: 0 <= i < |r.value.enemies| ==>
      && r.value.enemies[i].hp == ENEMY_HP
      && r.value.enemies[i].zone == START_ZONE
      && InGrid(EnemyCell(r.value.enemies[i]))
      && Chebyshev(EnemyCell(r.value.enemies[i]), START_CELL) > SPAWN_GAP
    ensures r.Some? ==> Inv(r.value)
  {
    ChangeZone(s.(player := s.player.(hp := START_HP), kills := 0), START_ZONE, Zones()[START_ZONE].spawn, draws)
  }

  /** Whether the frame after `s` runs the enemy pass. */
  predicate EnemyFrame(s: GameState) {
    (s.tick + 1) % ENEMY_PERIOD == 0
  }

  /** One frame: advance the counter, run the enemy pass on every
      ENEMY_PERIOD-th frame, then reset on defeat. */
  function LoopStep(s: GameState, rolls: seq<Roll>, draws: seq<Draw>): (r: Option<GameState>)
    requires EnemyFrame(s) ==> |rolls| == |s.enemies|
    ensures r.Some? ==> r.value.tick == s.tick + 1
    ensures !EnemyFrame(s) && s.player.hp > 0 ==> r == Some(s.(tick := s.tick + 1))
    ensures !EnemyFrame(s) && s.player.hp <= 0 ==> r == Defeat(s.(tick := s.tick + 1), draws)
    ensures EnemyFrame(s) && UpdateEnemies(s, rolls).player.hp > 0 ==>
      r == Some(UpdateEnemies(s, rolls).(tick := s.tick + 1))
    ensures EnemyFrame(s) && UpdateEnemies(s, rolls).player.hp <= 0 ==>
      r == Defeat(UpdateEnemies(s, rolls).(tick := s.tick + 1), draws)
    ensures r.Some? ==> 0 < r.value.player.hp
    ensures Inv(s) && r.Some? ==> Inv(r.value)
  {
    var t := s.(tick := s.tick + 1);
    var u := if t.tick % ENEMY_PERIOD == 0 then UpdateEnemies(t, rolls) else t;
    if u.player.hp <= 0 then Defeat(u, draws) else Some(u)
  }

  /** The restart button: a new player on the start cell facing down with
      RESTART_HP hit points, kills zero, a fresh start-zone roster. The frame
      counter is kept. */
  function Restart(s: GameState, draws: seq<Draw>): (r: Option<GameState>)
    ensures r.Some? <==> |Accepted(draws, START_CELL)| >= EnemyCount(START_ZONE)
    ensures r.Some? ==>
      && r.value.player == Player(START_CELL.x, START_CELL.y, RESTART_HP, Down, START_ZONE)
      && r.value.kills == 0 && r.value.tick == s.tick
      && |r.value.enemies| == EnemyCount(START_ZONE)
    ensures r.Some? ==> forall i :: 0 <= i < |r.value.enemies| ==>
      && r.value.enemies[i].hp == ENEMY_HP
      && r.value.enemies[i].zone == START_ZONE
      && InGrid(EnemyCell(r.value.enemies[i]))
      && Chebyshev(EnemyCell(r.value.enemies[i]), START_CELL) > SPAWN_GAP
    ensures r.Some? ==> Inv(r.value)
  {
    SpawnFor(s.(player := Player(START_CELL.x, START_CELL.y, RESTART_HP, Down, START_ZONE), kills := 0),
             START_ZONE, draws)
  }

  /** The state the page starts with. */
  function Init(draws: seq<Draw>): (r: Option<GameState>)
    ensures r.Some? <==> |Accepted(draws, START_CELL)| >= EnemyCount(START_ZONE)
    ensures r.Some? ==>
      && r.value.player == Player(START_CELL.x, START_CELL.y, START_HP, Down, START_ZONE)
      && r.value.kills == 0 && r.value.tick == 0
      && |r.value.enemies| == EnemyCount(START_ZONE)
    ensures r.Some? ==> forall i :: 0 <= i < |r.value.enemies| ==>
      && r.value.enemies[i].hp == ENEMY_HP
      && r.value.enemies[i].zone == START_ZONE
      && InGrid(EnemyCell(r.value.enemies[i]))
      && Chebyshev(EnemyCell(r.value.enemies[i]), START_CELL) > SPAWN_GAP
    ensures r.Some? ==> Inv(r.value)
  {
    SpawnFor(GameState(Player(START_CELL.x, START_CELL.y, START_HP, Down, START_ZONE), [], 0, 0),
             START_ZONE, draws)
  }
}
