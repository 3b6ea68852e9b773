/** One enemy update pass (`updateEnemies`, game.js:195-208). Each enemy's
    random choice is an explicit input: `None` when it does not try to move
    (the 0.85 branch), `Some(k)` when it tries the k-th offset. */
module EnemyAi {

  import opened Wrappers
  import opened Grid
  import opened Game

  /** Index into the source's offset list [(1,0), (-1,0), (0,1), (0,-1)]. */
  type DirIndex = k: int | 0 <= k < 4

  type Roll = Option<DirIndex>

  function AiDir(k: DirIndex): Dir {
    if k == 0 then Right else if k == 1 then Left else if k == 2 then Down else Up
  }

  /** Moves `e` one cell when its roll asks for it, the target is on the board
      and the target is not the player's cell `p`. */
  function StepEnemy(e: Enemy, roll: Roll, p: Cell): (r: Enemy)
    ensures r.hp == e.hp && r.zone == e.zone
    ensures InGrid(EnemyCell(e)) ==> InGrid(EnemyCell(r))
    ensures roll.None? ==> r == e
    ensures r == e || (EnemyCell(r) != p && EnemyCell(r) == Neighbor(EnemyCell(e), AiDir(roll.value)))
    ensures roll.Some? && InGrid(Neighbor(EnemyCell(e), AiDir(roll.value))) &&
            Neighbor(EnemyCell(e), AiDir(roll.value)) != p ==>
      EnemyCell(r) == Neighbor(EnemyCell(e), AiDir(roll.value))
  {
    match roll
    case None => e
    case Some(k) =>
      var n := Neighbor(EnemyCell(e), AiDir(k));
      if InGrid(n) && n != p then e.(x := n.x, y := n.y) else e
  }

  /** Reference count: how many enemies of `es` stand on cell `p`. */
  function OnCell(es: seq<Enemy>, p: Cell): nat {
    if |es| == 0 then 0
    else (if EnemyCell(es[0]) == p then 1 else 0) + OnCell(es[1..], p)
  }

  lemma {:induction false} OnCellBound(es: seq<Enemy>, p: Cell)
    ensures OnCell(es, p) <= |es|
  {
    if |es| > 0 {
      OnCellBound(es[1..], p);
    }
  }

  /** The source's loop over the roster: move each enemy in turn, then take
      one hit point from `hp` if it now shares the player's cell. */
  function Advance(es: seq<Enemy>, rolls: seq<Roll>, p: Cell, hp: int): (r: (seq<Enemy>, int))
    requires |rolls| == |es|
    ensures |r.0| == |es|
    ensures forall i :: 0 <= i < |es| ==> r.0[i] == StepEnemy(es[i], rolls[i], p)
    ensures r.1 == hp - OnCell(r.0, p)
  {
    if |es| == 0 then ([], hp)
    else
      var e := StepEnemy(es[0], rolls[0], p);
      var rest := Advance(es[1..], rolls[1..], p, if EnemyCell(e) == p then hp - 1 else hp);
      assert ([e] + rest.0)[1..] == rest.0;
      ([e] + rest.0, rest.1)
  }

  /** One enemy pass: the roster keeps its length and every enemy its hit
      points and zone; no enemy steps onto the player; the player loses one
      hit point per enemy on its cell after the moves. */
  function UpdateEnemies(s: GameState, rolls: seq<Roll>): (r: GameState)
    requires |rolls| == |s.enemies|
    ensures |r.enemies| == |s.enemies|
    ensures forall i :: 0 <= i < |s.enemies| ==>
      && r.enemies[i].hp == s.enemies[i].hp
      && r.enemies[i].zone == s.enemies[i].zone
      && (InGrid(EnemyCell(s.enemies[i])) ==> InGrid(EnemyCell(r.enemies[i])))
      && (r.enemies[i] == s.enemies[i] || EnemyCell(r.enemies[i]) != PlayerCell(s.player))
      && (rolls[i].None? ==> r.enemies[i] == s.enemies[i])
    ensures forall i :: 0 <= i < |s.enemies| ==> r.enemies[i] == StepEnemy(s.enemies[i], rolls[i], PlayerCell(s.player))
    ensures r.player.hp == s.player.hp - OnCell(r.enemies, PlayerCell(s.player))
    ensures s.player.hp - |s.enemies| <= r.player.hp <= s.player.hp
    ensures r.player.(hp := s.player.hp) == s.player && r.kills == s.kills && r.tick == s.tick
  {
    var res := Advance(s.enemies, rolls, PlayerCell(s.player), s.player.hp);
    OnCellBound(res.0, PlayerCell(s.player));
    s.(enemies := res.0, player := s.player.(hp := res.1))
  }

  /** Enemies that all stay put hurt the player once per enemy already on its
      cell; with two of them a player on one hit point drops below zero. */
  lemma DamageCanPassZero()
    ensures var p := Player(4, 4, 1, Down, "forest");
            var e := Enemy(4, 4, ENEMY_HP, "forest");
            var s := GameState(p, [e, e], 0, 0);
            UpdateEnemies(s, [None, None]).player.hp == -1
  {
  }
}
