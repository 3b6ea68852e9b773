/** The static zone table: a directed graph whose nodes are zones and whose
    edges are (direction, target zone, destination cell) connections
    (game.js:62-97), and the per-zone enemy counts (game.js:105, 118). */
module World {

  import opened Wrappers
  import opened Grid

  datatype Connection = Connection(dir: Dir, to: string, dest: Cell)

  datatype Item = Item(at: Cell, kind: string)

  datatype Zone = Zone(name: string, spawn: Cell, connections: seq<Connection>, items: seq<Item>)

  /** The zone a new game, a restart and a defeat start in. */
  const START_ZONE: string := "forest"

  /** Enemy count used for a zone without a (non-zero) entry in the count table. */
  const DEFAULT_ENEMY_COUNT: nat := 3

  /** Every part of a zone that names a place names an on-board cell, and
      every connection leads to a zone of the table. */
  predicate ZoneOk(t: map<string, Zone>, z: Zone) {
    && InGrid(z.spawn)
    && (forall i :: 0 <= i < |z.connections| ==>
          z.connections[i].to in t && InGrid(z.connections[i].dest))
    && (forall i :: 0 <= i < |z.items| ==> InGrid(z.items[i].at))
  }

  predicate WellFormed(t: map<string, Zone>) {
    forall id :: id in t ==> ZoneOk(t, t[id])
  }

  /** Connection `c`, leaving zone `from`, has a way back: its target zone has
      a connection in the opposite direction leading to `from`. */
  predicate HasWayBack(t: map<string, Zone>, from: string, c: Connection) {
    c.to in t &&
    exists j :: 0 <= j < |t[c.to].connections| &&
      t[c.to].connections[j].dir == Opposite(c.dir) && t[c.to].connections[j].to == from
  }

  predicate Reversible(t: map<string, Zone>) {
    forall id, i :: id in t && 0 <= i < |t[id].connections| ==> HasWayBack(t, id, t[id].connections[i])
  }

  function Zones(): (t: map<string, Zone>)
    ensures WellFormed(t)
    ensures START_ZONE in t && t[START_ZONE].spawn == Cell(4, 4)
  {
    map[
      "forest" := Zone("Bosque", Cell(4, 4),
                       [Connection(Right, "castle", Cell(1, 4)), Connection(Down, "cave", Cell(4, 1))],
                       [Item(Cell(7, 7), "chest")]),
      "castle" := Zone("Castillo", Cell(7, 4),
                       [Connection(Left, "forest", Cell(7, 4)), Connection(Down, "dungeon", Cell(4, 1))],
                       [Item(Cell(3, 3), "chest")]),
      "cave" := Zone("Cueva", Cell(4, 7),
                     [Connection(Up, "forest", Cell(4, 7))],
                     [Item(Cell(2, 4), "chest")]),
      "dungeon" := Zone("Mazmorra", Cell(4, 7),
                        [Connection(Up, "castle", Cell(4, 7))],
                        [])
    ]
  }

  lemma ZonesReversible()
    ensures Reversible(Zones())
  {
    var t := Zones();
    forall id, i | id in t && 0 <= i < |t[id].connections|
      ensures HasWayBack(t, id, t[id].connections[i])
    {
      var c := t[id].connections[i];
      var j := if id == "cave" || id == "dungeon" then 1 else 0;
      assert t[c.to].connections[j].dir == Opposite(c.dir) && t[c.to].connections[j].to == id;
    }
  }

  /** Enemy count per zone (the `zoneEnemies` field of the game state). */
  function ZoneEnemies(): map<string, nat> {
    map["forest" := 3, "castle" := 2, "cave" := 3, "dungeon" := 4]
  }

  /** `zoneEnemies[zone] || 3`: a missing or zero entry falls back to 3. */
  function EnemyCount(zone: string): (n: nat)
    ensures n > 0
    ensures zone in ZoneEnemies() && ZoneEnemies()[zone] != 0 ==> n == ZoneEnemies()[zone]
    ensures zone !in ZoneEnemies() ==> n == DEFAULT_ENEMY_COUNT
  {
    if zone in ZoneEnemies() && ZoneEnemies()[zone] != 0 then ZoneEnemies()[zone] else DEFAULT_ENEMY_COUNT
  }

  /** Index of the first connection, in list order, whose direction is `d`. */
  function FirstMatch(cs: seq<Connection>, d: Dir): (r: Option<nat>)
    ensures r.Some? ==> r.value < |cs| && cs[r.value].dir == d &&
                        forall j :: 0 <= j < r.value ==> cs[j].dir != d
    ensures r.None? ==> forall j :: 0 <= j < |cs| ==> cs[j].dir != d
  {
    FirstMatchFrom(cs, d, 0)
  }

  function FirstMatchFrom(cs: seq<Connection>, d: Dir, i: nat): (r: Option<nat>)
    requires i <= |cs|
    requires forall j :: 0 <= j < i ==> cs[j].dir != d
    ensures r.Some? ==> i <= r.value < |cs| && cs[r.value].dir == d &&
                        forall j :: 0 <= j < r.value ==> cs[j].dir != d
    ensures r.None? ==> forall j :: 0 <= j < |cs| ==> cs[j].dir != d
    decreases |cs| - i
  {
    if i == |cs| then None
    else if cs[i].dir == d then Some(i)
    else FirstMatchFrom(cs, d, i + 1)
  }
}
