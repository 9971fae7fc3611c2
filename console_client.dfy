/** The console client (Client.java): which player it is, the character
    grid it draws for each player-map message, and when it stops. */
module ConsoleClient {
  import opened Wrappers
  import opened Positions
  import opened Mazes
  import opened Players
  import opened Protocol

  /** The maze layer of the grid: 'E' at the exit, '#' at walls, ' ' elsewhere. */
  function Base(m: Maze, x: int, y: int): char
    reads m, m.walls
    requires m.Shape()
  {
    if Position(x, y) == m.exitPosition then 'E' else if m.IsWall(x, y) then '#' else ' '
  }

  /** The players in iteration order. */
  function Views(players: map<string, PlayerView>, order: seq<string>): (views: seq<PlayerView>)
    requires forall i :: 0 <= i < |order| ==> order[i] in players
    ensures |views| == |order| && forall i :: 0 <= i < |order| ==> views[i] == players[order[i]]
  {
    seq(|order|, i requires 0 <= i < |order| => players[order[i]])
  }

  /** The character at p once every player in `views` has been drawn over
      `below`, in order: 'P' for the local player, 'O' for the others. */
  function Mark(views: seq<PlayerView>, me: Option<string>, p: Position, below: char): char
  {
    if views == [] then below
    else
      var last := views[|views| - 1];
      if last.position == p then (if me == Some(last.id) then 'P' else 'O')
      else Mark(views[..|views| - 1], me, p, below)
  }

  /** A cell with no player keeps its maze character. */
  lemma {:induction false} MarkUncovered(views: seq<PlayerView>, me: Option<string>, p: Position, below: char)
    requires forall i :: 0 <= i < |views| ==> views[i].position != p
    ensures Mark(views, me, p, below) == below
  {
    if views != [] {
      var prefix := views[..|views| - 1];
      assert forall i :: 0 <= i < |prefix| ==> prefix[i] == views[i];
      MarkUncovered(prefix, me, p, below);
    }
  }

  /** Otherwise the last player drawn there decides it: later players
      overwrite earlier ones. */
  lemma {:induction false} MarkLastWins(views: seq<PlayerView>, me: Option<string>, p: Position, below: char, i: nat)
    requires i < |views| && views[i].position == p
    requires forall j :: i < j < |views| ==> views[j].position != p
    ensures Mark(views, me, p, below) == (if me == Some(views[i].id) then 'P' else 'O')
  {
    if i < |views| - 1 {
      var prefix := views[..|views| - 1];
      assert forall j :: 0 <= j < |prefix| ==> prefix[j] == views[j];
      MarkLastWins(prefix, me, p, below, i);
    }
  }

  /** The grid `printGameState` draws: `rows` has one string per maze row,
      each as wide as the maze, showing every cell's mark. */
  ghost predicate Depicts(rows: seq<string>, m: Maze, players: map<string, PlayerView>, order: seq<string>,
                          me: Option<string>)
    reads m, m.walls
    requires m.Shape() && forall i :: 0 <= i < |order| ==> order[i] in players
  {
    |rows| == m.height &&
    forall y :: 0 <= y < m.height ==>
      |rows[y]| == m.width &&
      forall x :: 0 <= x < m.width ==> rows[y][x] == Mark(Views(players, order), me, Position(x, y), Base(m, x, y))
  }

  /** Every position in the map lies inside the maze. */
  ghost predicate OnGrid(m: Maze, players: map<string, PlayerView>)
  {
    forall id :: id in players ==> m.InGrid(players[id].position)
  }

  /** The maze layer of the display grid: the fill loop, then the exit. */
  method DrawMaze(m: Maze) returns (displayGrid: array2<char>)
    requires m.Valid()
    ensures fresh(displayGrid) && displayGrid.Length0 == m.height && displayGrid.Length1 == m.width
    ensures forall y, x :: 0 <= y < m.height && 0 <= x < m.width ==> displayGrid[y, x] == Base(m, x, y)
  {
    displayGrid := new char[m.height, m.width];
    for y := 0 to m.height
      invariant forall y', x :: 0 <= y' < y && 0 <= x < m.width ==>
                  displayGrid[y', x] == (if m.IsWall(x, y') then '#' else ' ')
    {
      for x := 0 to m.width
        invariant forall y', x' :: 0 <= y' < y && 0 <= x' < m.width ==>
                    displayGrid[y', x'] == (if m.IsWall(x', y') then '#' else ' ')
        invariant forall x' :: 0 <= x' < x ==> displayGrid[y, x'] == (if m.IsWall(x', y) then '#' else ' ')
      {
        displayGrid[y, x] := if m.IsWall(x, y) then '#' else ' ';
      }
    }
    var exitPos := m.exitPosition;
    m.ExitPlacement();
    displayGrid[exitPos.y, exitPos.x] := 'E';
  }

  /** The player layer: each player's cell, in iteration order. */
  method DrawPlayers(displayGrid: array2<char>, m: Maze, players: map<string, PlayerView>, order: seq<string>,
                     me: Option<string>)
    requires IsOrder(order, players) && OnGrid(m, players)
    requires displayGrid.Length0 == m.height && displayGrid.Length1 == m.width
    modifies displayGrid
    ensures forall y, x :: 0 <= y < m.height && 0 <= x < m.width ==>
              displayGrid[y, x] == Mark(Views(players, order), me, Position(x, y), old(displayGrid[y, x]))
  {
    ghost var views := Views(players, order);
    for i := 0 to |order|
      invariant forall y, x :: 0 <= y < m.height && 0 <= x < m.width ==>
                  displayGrid[y, x] == Mark(views[..i], me, Position(x, y), old(displayGrid[y, x]))
    {
      var p := players[order[i]];
      var pos := p.position;
      displayGrid[pos.y, pos.x] := if Some(p.id) == me then 'P' else 'O';
      assert views[..i + 1][..i] == views[..i];
    }
    assert views[..|order|] == views;
  }

  class Client {
    var myPlayerId: Option<string>
    var currentMaze: Maze?
    /** The last grid printed. */
    var screen: Option<seq<string>>
    /** Set when a winner announcement ends the program. */
    var finished: bool

    constructor ()
      ensures myPlayerId.None? && currentMaze == null && screen.None? && !finished
    {
      myPlayerId := None;
      currentMaze := null;
      screen := None;
      finished := false;
    }

    /** Builds the console grid; nothing is drawn before a maze has arrived
        or while the player map is empty. */
    method PrintGameState(players: map<string, PlayerView>, order: seq<string>) returns (grid: Option<seq<string>>)
      requires IsOrder(order, players)
      requires currentMaze != null ==> currentMaze.Valid() && OnGrid(currentMaze, players)
      ensures grid.None? <==> currentMaze == null || players == map[]
      ensures grid.Some? ==> Depicts(grid.value, currentMaze, players, order, myPlayerId)
    {
      if currentMaze == null || players == map[] {
        return None;
      }
      var displayGrid := DrawMaze(currentMaze);
      DrawPlayers(displayGrid, currentMaze, players, order, myPlayerId);
      var rows := seq(displayGrid.Length0, y requires 0 <= y < displayGrid.Length0 reads displayGrid =>
                    seq(displayGrid.Length1, x requires 0 <= x < displayGrid.Length1 reads displayGrid => displayGrid[y, x]));
      grid := Some(rows);
    }

    /** One message from the server. The id is looked up only while
        unknown; only text starting with "WINNER" ends the program. */
    method HandleServerMessage(message: ServerMessage, localPlayerName: string)
      requires message.PlayersMessage? ==>
                 IsOrder(message.order, message.players) &&
                 (currentMaze != null ==> currentMaze.Valid() && OnGrid(currentMaze, message.players))
      modifies this
      ensures message.MazeMessage? ==>
                currentMaze == message.maze && myPlayerId == old(myPlayerId) &&
                screen == old(screen) && finished == old(finished)
      ensures message.PlayersMessage? ==>
                && currentMaze == old(currentMaze) && finished == old(finished)
                && (old(myPlayerId).Some? ==> myPlayerId == old(myPlayerId))
                && (old(myPlayerId).None? ==>
                      Discovered(message.players, message.order, localPlayerName, myPlayerId))
                && (screen.None? <==> currentMaze == null || message.players == map[])
                && (screen.Some? ==>
                      Depicts(screen.value, currentMaze, message.players, message.order, myPlayerId))
      ensures (message.TextMessage? || message.OtherMessage?) ==>
                currentMaze == old(currentMaze) && myPlayerId == old(myPlayerId) && screen == old(screen) &&
                finished == (old(finished) || (message.TextMessage? && AnnouncesWinner(message.text)))
    {
      match message
      case MazeMessage(maze) =>
        currentMaze := maze;
      case PlayersMessage(players, order) =>
        if myPlayerId.None? {
          myPlayerId := DiscoverId(players, order, localPlayerName);
        }
        screen := PrintGameState(players, order);
      case TextMessage(text) =>
        if AnnouncesWinner(text) {
          finished := true;
        }
      case OtherMessage =>
    }
  }
}
