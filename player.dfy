/** Players (Player.java) and the by-value copies of them that clients
    receive in a state snapshot. */
module Players {
  import opened Wrappers
  import opened Positions

  /** A player as a client sees it in a received snapshot. */
  datatype PlayerView = PlayerView(id: string, name: string, position: Position)

  /** A connected player: id and name are fixed, the position is updated
      by accepted moves. */
  class Player {
    const id: string
    const name: string
    var position: Position

    constructor (id: string, name: string, startPosition: Position)
      ensures this.id == id && this.name == name && position == startPosition
    {
      this.id := id;
      this.name := name;
      position := startPosition;
    }

    method SetPosition(newPosition: Position)
      modifies this
      ensures position == newPosition
    {
      position := newPosition;
    }

    /** The serialised copy of this player. */
    function View(): (v: PlayerView)
      reads this
      ensures v.id == id && v.name == name && v.position == position
    {
      PlayerView(id, name, position)
    }
  }

  /** `order` lists every key of `players` exactly once: the map's
      iteration order. */
  ghost predicate IsOrder(order: seq<string>, players: map<string, PlayerView>)
  {
    (forall i :: 0 <= i < |order| ==> order[i] in players) &&
    (forall id :: id in players ==> id in order) &&
    (forall i, j :: 0 <= i < j < |order| ==> order[i] != order[j])
  }

  /** `found` is the id of the first player in `order` named `localName`,
      and None exactly when nobody has that name. */
  ghost predicate Discovered(players: map<string, PlayerView>, order: seq<string>, localName: string,
                             found: Option<string>)
    requires IsOrder(order, players)
  {
    (found.None? <==> forall id :: id in players ==> players[id].name != localName) &&
    (found.Some? ==> exists i :: 0 <= i < |order| && players[order[i]].name == localName &&
                       found.value == players[order[i]].id &&
                       forall j :: 0 <= j < i ==> players[order[j]].name != localName)
  }

  /** Finds "which player am I": the id of the first player, in iteration
      order, whose name equals the local player name. */
  method DiscoverId(players: map<string, PlayerView>, order: seq<string>, localName: string)
    returns (found: Option<string>)
    requires IsOrder(order, players)
    ensures Discovered(players, order, localName, found)
  {
    found := None;
    var i := 0;
    while i < |order|
      invariant 0 <= i <= |order|
      invariant forall j :: 0 <= j < i ==> players[order[j]].name != localName
    {
      var p := players[order[i]];
      if p.name == localName {
        found := Some(p.id);
        return;
      }
      i := i + 1;
    }
    forall id | id in players
      ensures players[id].name != localName
    {
      var j :| 0 <= j < |order| && order[j] == id;
    }
  }
}
