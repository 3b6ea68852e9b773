/** A whole play session: the page's initial state followed by any sequence
    of key presses, frames and restart clicks, each with the random choices
    it consumes. */
module Session {

  import opened Wrappers
  import opened Grid
  import opened World
  import opened Game
  import opened Spawning
  import opened EnemyAi
  import opened Frame
  import opened Input

  datatype Event =
    | KeyPress(key: string, draws: seq<Draw>)
    | Tick(rolls: seq<Roll>, draws: seq<Draw>)
    | RestartClick(draws: seq<Draw>)

  /** Applies one event; `None` when its random choices do not fit (too few
      draws for a roster, or not one roll per enemy on an enemy frame). */
  function Apply(s: GameState, ev: Event): (r: Option<GameState>)
    ensures Inv(s) && r.Some? ==> Inv(r.value)
  {
    match ev
    case KeyPress(key, draws) => HandleKey(s, key, draws)
    case Tick(rolls, draws) =>
      if EnemyFrame(s) && |rolls| != |s.enemies| then None else LoopStep(s, rolls, draws)
    case RestartClick(draws) => Restart(s, draws)
  }

  function Run(s: GameState, evs: seq<Event>): Option<GameState>
    decreases |evs|
  {
    if |evs| == 0 then Some(s)
    else
      match Apply(s, evs[0])
      case None => None
      case Some(t) => Run(t, evs[1..])
  }

  /** Every state a run passes through keeps the invariant. */
  lemma {:induction false} RunInv(s: GameState, evs: seq<Event>)
    requires Inv(s)
    ensures Run(s, evs).Some? ==> Inv(Run(s, evs).value)
    decreases |evs|
  {
    if |evs| > 0 {
      match Apply(s, evs[0])
      case None =>
      case Some(t) => RunInv(t, evs[1..]);
    }
  }

  /** Every reachable state has the player on the board of a known zone with
      hit points in (0, HP_CAP], and only live on-board enemies of that zone. */
  lemma Reachable(draws: seq<Draw>, evs: seq<Event>)
    requires Init(draws).Some?
    ensures Run(Init(draws).value, evs).Some? ==> Inv(Run(Init(draws).value, evs).value)
  {
    RunInv(Init(draws).value, evs);
  }

  /** The kill counter grows by at most one per event. */
  lemma KillsStepByOne(s: GameState, ev: Event)
    ensures Apply(s, ev).Some? ==> Apply(s, ev).value.kills <= s.kills + 1
  {
  }
}
