/** The player's attack (`playerAttack`, game.js:170-193). */
module Combat {

  import opened Wrappers
  import opened Grid
  import opened World
  import opened Game

  function Min(a: int, b: int): int {
    if a < b then a else b
  }

  /** Enemy `e` stands on cell `c` and belongs to zone `zone`. */
  predicate Hits(e: Enemy, c: Cell, zone: string) {
    EnemyCell(e) == c && e.zone == zone
  }

  /** Reference definition of the enemy an attack on cell `c` strikes: the
      one with the highest index among those on `c` in the player's zone. */
  predicate IsTarget(es: seq<Enemy>, c: Cell, zone: string, i: int) {
    && 0 <= i < |es|
    && Hits(es[i], c, zone)
    && forall j :: i < j < |es| ==> !Hits(es[j], c, zone)
  }

  /** The backward scan of the roster, over indices below `n`. */
  function FindTarget(es: seq<Enemy>, c: Cell, zone: string, n: nat): (r: Option<nat>)
    requires n <= |es|
    ensures r.Some? ==> r.value < n && Hits(es[r.value], c, zone) &&
                        forall j :: r.value < j < n ==> !Hits(es[j], c, zone)
    ensures r.None? ==> forall j :: 0 <= j < n ==> !Hits(es[j], c, zone)
  {
    if n == 0 then None
    else if Hits(es[n - 1], c, zone) then Some(n - 1)
    else FindTarget(es, c, zone, n - 1)
  }

  /** The cell the player faces. */
  function Faced(p: Player): Cell {
    Neighbor(PlayerCell(p), p.dir)
  }

  /** Strikes the faced cell: at most one enemy is hit; a hit that brings its
      hit points to zero or below removes it, counts a kill and heals the
      player by one up to HP_CAP. */
  function Attack(s: GameState): (r: GameState)
    ensures r.player.(hp := s.player.hp) == s.player && r.tick == s.tick
    ensures r.kills == s.kills || r.kills == s.kills + 1
    ensures r.kills == s.kills + 1 ==>
      |r.enemies| == |s.enemies| - 1 && r.player.hp == Min(HP_CAP, s.player.hp + 1)
    ensures r.kills == s.kills ==> |r.enemies| == |s.enemies| && r.player.hp == s.player.hp
    ensures Inv(s) ==> Inv(r)
  {
    var a := Faced(s.player);
    if !InGrid(a) then s
    else
      match FindTarget(s.enemies, a, s.player.zone, |s.enemies|)
      case None => s
      case Some(i) =>
        var e := s.enemies[i].(hp := s.enemies[i].hp - ATTACK_DAMAGE);
        if e.hp <= 0 then
          s.(enemies := s.enemies[..i] + s.enemies[i + 1..],
             kills := s.kills + 1,
             player := s.player.(hp := Min(HP_CAP, s.player.hp + 1)))
        else
          s.(enemies := s.enemies[i := e])
  }

  /** The attack, case by case, against the reference notion of target. */
  lemma AttackSpec(s: GameState)
    ensures !InGrid(Faced(s.player)) ==> Attack(s) == s
    ensures (forall j :: 0 <= j < |s.enemies| ==> !Hits(s.enemies[j], Faced(s.player), s.player.zone)) ==>
      Attack(s) == s
    ensures forall i :: InGrid(Faced(s.player)) && IsTarget(s.enemies, Faced(s.player), s.player.zone, i) ==>
      Attack(s) ==
        if s.enemies[i].hp <= ATTACK_DAMAGE then
          s.(enemies := s.enemies[..i] + s.enemies[i + 1..],
             kills := s.kills + 1,
             player := s.player.(hp := Min(HP_CAP, s.player.hp + 1)))
        else
          s.(enemies := s.enemies[i := s.enemies[i].(hp := s.enemies[i].hp - ATTACK_DAMAGE)])
  {
  }
}
