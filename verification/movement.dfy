/** Facing, walking and zone changes (`setDirection`, `movePlayer`,
    `changeZone`, game.js:130-168). */
module Movement {

  import opened Wrappers
  import opened Grid
  import opened World
  import opened Game
  import opened Spawning

  /** Turns the player; nothing else changes. */
  function SetDirection(s: GameState, d: Dir): (r: GameState)
    ensures r.player.dir == d
    ensures r.player.(dir := s.player.dir) == s.player
    ensures r.enemies == s.enemies && r.kills == s.kills && r.tick == s.tick
    ensures Inv(s) ==> Inv(r)
  {
    s.(player := s.player.(dir := d))
  }

  /** Enters `zone` at cell `dest` with a fresh roster; an unknown zone is a
      no-op. Hit points, facing, kills and the frame counter are kept. */
  function ChangeZone(s: GameState, zone: string, dest: Cell, draws: seq<Draw>): (r: Option<GameState>)
    ensures zone !in Zones() ==> r == Some(s)
    ensures zone in Zones() ==> (r.Some? <==> |Accepted(draws, dest)| >= EnemyCount(zone))
    ensures zone in Zones() && r.Some? ==>
      && r.value.player == s.player.(zone := zone, x := dest.x, y := dest.y)
      && r.value.kills == s.kills && r.value.tick == s.tick
      && |r.value.enemies| == EnemyCount(zone)
      && forall i :: 0 <= i < |r.value.enemies| ==>
           && r.value.enemies[i].hp == ENEMY_HP
           && r.value.enemies[i].zone == zone
           && InGrid(EnemyCell(r.value.enemies[i]))
           && Chebyshev(EnemyCell(r.value.enemies[i]), dest) > SPAWN_GAP
    ensures Inv(s) && InGrid(dest) && r.Some? ==> Inv(r.value)
  {
    if zone !in Zones() then Some(s)
    else SpawnFor(s.(player := s.player.(zone := zone, x := dest.x, y := dest.y)), zone, draws)
  }

  /** One keyboard step in direction `d`; the facing is not changed. */
  function Move(s: GameState, d: Dir, draws: seq<Draw>): (r: Option<GameState>)
    ensures s.player.zone !in Zones() ==> r == Some(s)
    ensures s.player.zone in Zones() && InGrid(Neighbor(PlayerCell(s.player), d)) ==>
      && r.Some?
      && PlayerCell(r.value.player) == Neighbor(PlayerCell(s.player), d)
      && r.value.player.(x := s.player.x, y := s.player.y) == s.player
      && r.value.enemies == s.enemies && r.value.kills == s.kills && r.value.tick == s.tick
    ensures s.player.zone in Zones() && !InGrid(Neighbor(PlayerCell(s.player), d)) &&
            (forall j :: 0 <= j < |Zones()[s.player.zone].connections| ==>
               Zones()[s.player.zone].connections[j].dir != d) ==>
      r == Some(s)
    ensures forall i ::
      (&& s.player.zone in Zones() && !InGrid(Neighbor(PlayerCell(s.player), d))
       && 0 <= i < |Zones()[s.player.zone].connections|
       && Zones()[s.player.zone].connections[i].dir == d
       && (forall j :: 0 <= j < i ==> Zones()[s.player.zone].connections[j].dir != d)) ==>
      r == ChangeZone(s, Zones()[s.player.zone].connections[i].to, Zones()[s.player.zone].connections[i].dest, draws)
    ensures Inv(s) && r.Some? ==> Inv(r.value)
  {
    if s.player.zone !in Zones() then Some(s)
    else
      var zone := Zones()[s.player.zone];
      var n := Neighbor(PlayerCell(s.player), d);
      if !InGrid(n) then
        match FirstMatch(zone.connections, d)
        case None => Some(s)
        case Some(i) =>
          var c := zone.connections[i];
          assert c.to in Zones() && InGrid(c.dest);
          ChangeZone(s, c.to, c.dest, draws)
      else
        Some(s.(player := s.player.(x := n.x, y := n.y)))
  }

  /** A step inside the board is undone by the opposite step. */
  lemma MoveUndo(s: GameState, d: Dir, draws: seq<Draw>, draws': seq<Draw>)
    requires Inv(s)
    requires InGrid(Neighbor(PlayerCell(s.player), d))
    ensures Move(s, d, draws).Some?
    ensures Move(Move(s, d, draws).value, Opposite(d), draws') == Some(s)
  {
  }
}
