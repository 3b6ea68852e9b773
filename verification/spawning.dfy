/** Enemy placement (`spawnEnemiesForZone`, game.js:116-128). The source
    draws random cells until one is far enough from the player; here the
    draws are an explicit input, consumed in order. */
module Spawning {

  import opened Wrappers
  import opened Grid
  import opened World
  import opened Game

  /** One random cell draw, `Math.floor(Math.random() * GRID)` per coordinate. */
  type Draw = GridCell

  /** Reference definition: the draws the retry loop accepts, in order. */
  function Accepted(draws: seq<Draw>, p: Cell): (a: seq<Cell>)
    ensures |a| <= |draws|
    ensures forall i :: 0 <= i < |a| ==> InGrid(a[i]) && Far(a[i], p)
  {
    if |draws| == 0 then []
    else (if Far(draws[0], p) then [draws[0]] else []) + Accepted(draws[1..], p)
  }

  function Fresh(c: Cell, zone: string): Enemy {
    Enemy(c.x, c.y, ENEMY_HP, zone)
  }

  /** Places `count` enemies of `zone`, each on the next draw that passes the
      distance test against player cell `p`; `None` when the draws run out. */
  function Place(zone: string, p: Cell, count: nat, draws: seq<Draw>): (r: Option<seq<Enemy>>)
    ensures r.Some? <==> |Accepted(draws, p)| >= count
    ensures r.Some? ==> |r.value| == count
    ensures r.Some? ==> forall i :: 0 <= i < count ==> r.value[i] == Fresh(Accepted(draws, p)[i], zone)
    decreases |draws|
  {
    if count == 0 then Some([])
    else if |draws| == 0 then None
    else if Far(draws[0], p) then
      match Place(zone, p, count - 1, draws[1..])
      case None => None
      case Some(rest) => Some([Fresh(draws[0], zone)] + rest)
    else Place(zone, p, count, draws[1..])
  }

  /** Replaces the roster with a fresh one for `zone`, placed relative to the
      player's current cell. Nothing but the roster changes. */
  function SpawnFor(s: GameState, zone: string, draws: seq<Draw>): (r: Option<GameState>)
    ensures r.Some? <==> |Accepted(draws, PlayerCell(s.player))| >= EnemyCount(zone)
    ensures r.Some? ==> r.value.player == s.player && r.value.kills == s.kills && r.value.tick == s.tick
    ensures r.Some? ==> |r.value.enemies| == EnemyCount(zone)
    ensures r.Some? ==> forall i :: 0 <= i < |r.value.enemies| ==>
      && r.value.enemies[i].hp == ENEMY_HP
      && r.value.enemies[i].zone == zone
      && InGrid(EnemyCell(r.value.enemies[i]))
      && Chebyshev(EnemyCell(r.value.enemies[i]), PlayerCell(s.player)) > SPAWN_GAP
  {
    var p := PlayerCell(s.player);
    match Place(zone, p, EnemyCount(zone), draws)
    case None => None
    case Some(es) =>
      assert forall i :: 0 <= i < |es| ==> EnemyCell(es[i]) == Accepted(draws, p)[i];
      Some(s.(enemies := es))
  }
}
