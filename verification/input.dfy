/** The keyboard mapping (the `keydown` listener, game.js:272-283): W/A/S/D
    walk, the arrow keys turn, Enter attacks, any other key does nothing. */
module Input {

  import opened Wrappers
  import opened Grid
  import opened Game
  import opened Spawning
  import opened Movement
  import opened Combat

  datatype Action = Walk(d: Dir) | Face(d: Dir) | Strike

  /** Lower-casing of a key name. Only A-Z are mapped; the key names the
      game reacts to are all ASCII. */
  function LowerChar(c: char): char {
    if 'A' <= c <= 'Z' then (c as int + 32) as char else c
  }

  function Lower(s: string): (r: string)
    ensures |r| == |s|
    ensures forall i :: 0 <= i < |s| ==> r[i] == LowerChar(s[i])
  {
    seq(|s|, i requires 0 <= i < |s| => LowerChar(s[i]))
  }

  /** The lower-case key name bound to each action. */
  function KeyOf(a: Action): string {
    match a
    case Walk(Up) => "w"
    case Walk(Down) => "s"
    case Walk(Left) => "a"
    case Walk(Right) => "d"
    case Face(Up) => "arrowup"
    case Face(Down) => "arrowdown"
    case Face(Left) => "arrowleft"
    case Face(Right) => "arrowright"
    case Strike => "enter"
  }

  function KeyAction(key: string): (r: Option<Action>)
    ensures r.Some? ==> Lower(key) == KeyOf(r.value)
  {
    var k := Lower(key);
    if k == "w" then Some(Walk(Up))
    else if k == "s" then Some(Walk(Down))
    else if k == "a" then Some(Walk(Left))
    else if k == "d" then Some(Walk(Right))
    else if k == "arrowup" then Some(Face(Up))
    else if k == "arrowdown" then Some(Face(Down))
    else if k == "arrowleft" then Some(Face(Left))
    else if k == "arrowright" then Some(Face(Right))
    else if k == "enter" then Some(Strike)
    else None
  }

  /** Every action has a key, and pressing it (in any letter case) performs
      exactly that action: the mapping and KeyOf are inverse. */
  lemma KeyRoundTrip(a: Action, key: string)
    requires Lower(key) == KeyOf(a)
    ensures KeyAction(key) == Some(a)
  {
  }

  /** The browser's key names for the bound keys, with their shift-state
      variants, select the intended actions. */
  lemma BrowserKeyNames()
    ensures KeyAction("w") == Some(Walk(Up)) && KeyAction("W") == Some(Walk(Up))
    ensures KeyAction("ArrowLeft") == Some(Face(Left))
    ensures KeyAction("Enter") == Some(Strike)
    ensures KeyAction("Escape") == None
  {
    assert Lower("W") == "w";
    assert Lower("ArrowLeft") == "arrowleft";
    assert Lower("Enter") == "enter";
    assert Lower("Escape") == "escape";
  }

  /** Handles one key press; unbound keys leave the state unchanged. */
  function HandleKey(s: GameState, key: string, draws: seq<Draw>): (r: Option<GameState>)
    ensures KeyAction(key).None? ==> r == Some(s)
    ensures KeyAction(key) == Some(Strike) ==> r == Some(Attack(s))
    ensures forall d :: KeyAction(key) == Some(Face(d)) ==> r == Some(SetDirection(s, d))
    ensures forall d :: KeyAction(key) == Some(Walk(d)) ==> r == Move(s, d, draws)
    ensures Inv(s) && r.Some? ==> Inv(r.value)
  {
    match KeyAction(key)
    case None => Some(s)
    case Some(Walk(d)) => Move(s, d, draws)
    case Some(Face(d)) => Some(SetDirection(s, d))
    case Some(Strike) => Some(Attack(s))
  }
}
