/** The authoritative server's game rules (Server.java): command parsing,
    the move and win rules, spawning, join and cleanup of the two id-keyed
    maps, and the earthquake maze swap. */
module Server {
  import opened Wrappers
  import opened Positions
  import opened Mazes
  import opened Players
  import opened Protocol
  import opened Text

  const MazeWidth := 21
  const MazeHeight := 11

  datatype Direction = Up | Down | Left | Right

  /** `command.toLowerCase().trim()` */
  function Normalize(command: string): string
  {
    TrimEnd(TrimStart(Lower(command)))
  }

  /** The command word of each direction. */
  function Word(d: Direction): string
  {
    match d
    case Up => "up"
    case Down => "down"
    case Left => "left"
    case Right => "right"
  }

  /** The four recognised commands; any other text is no direction. */
  function Parse(command: string): (r: Option<Direction>)
    ensures r.Some? ==> Normalize(command) == Word(r.value)
    ensures r.None? ==> forall d: Direction :: Normalize(command) != Word(d)
  {
    var c := Normalize(command);
    if c == "up" then Some(Up)
    else if c == "down" then Some(Down)
    else if c == "left" then Some(Left)
    else if c == "right" then Some(Right)
    else None
  }

  /** The cell one step from p in direction d; y grows downwards. */
  function Step(p: Position, d: Direction): (q: Position)
    ensures Adjacent(p, q) && q != p
  {
    match d
    case Up => Position(p.x, p.y - 1)
    case Down => Position(p.x, p.y + 1)
    case Left => Position(p.x - 1, p.y)
    case Right => Position(p.x + 1, p.y)
  }

  /** The position `processCommand` tries: one step for a recognised
      command, the current position otherwise. */
  function Target(current: Position, command: string): Position
  {
    match Parse(command)
    case Some(d) => Step(current, d)
    case None => current
  }

  /** A cell a player may enter: open, or the exit even when it is a wall. */
  predicate Enterable(m: Maze, p: Position)
    reads m, m.walls
    requires m.Shape()
  {
    !m.IsWall(p.x, p.y) || p == m.exitPosition
  }

  datatype Outcome = Outcome(position: Position, won: bool)

  /** The effect of one command on a player standing at `current`. */
  function Move(m: Maze, current: Position, command: string): (r: Outcome)
    reads m, m.walls
    requires m.Shape()
    ensures Parse(command).None? ==> r == Outcome(current, false)
    ensures Parse(command).Some? ==>
              (r.position != current <==> Enterable(m, Step(current, Parse(command).value)))
    ensures r.position != current ==>
              Parse(command).Some? && r.position == Step(current, Parse(command).value) &&
              Adjacent(current, r.position) && Enterable(m, r.position)
    ensures r.won <==> r.position != current && r.position == m.exitPosition
  {
    var target := Target(current, command);
    if target != current && Enterable(m, target) then Outcome(target, target == m.exitPosition)
    else Outcome(current, false)
  }

  /** The announcement sent to every client; clients recognise it by its
      "WINNER" prefix. */
  function WinnerMessage(winnerName: string): (message: string)
    ensures AnnouncesWinner(message)
  {
    "WINNER: " + winnerName
  }

  /** The shared world: the current maze, the players by id, and the ids
      holding an output stream (the streams themselves are I/O). */
  class World {
    var maze: Maze
    var players: map<string, Player>
    var outputs: set<string>

    ghost predicate Valid()
      reads this, maze, maze.walls, players.Values
    {
      && maze.Valid() && maze.width == MazeWidth && maze.height == MazeHeight
      && players.Keys == outputs
      && (forall id :: id in players ==> players[id].id == id && maze.InGrid(players[id].position))
      && (forall a, b :: a in players && b in players && a != b ==> players[a] != players[b])
    }

    constructor ()
      ensures Valid() && fresh(maze) && players == map[] && outputs == {}
    {
      maze := new Maze(MazeWidth, MazeHeight);
      players := map[];
      outputs := {};
    }

    /** `findStartLocation`: rejection sampling over the random draws. */
    method FindStartLocation(draws: seq<Position>) returns (start: Position)
      requires Valid()
      requires exists k :: 0 <= k < |draws| && maze.IsFree(draws[k])
      ensures maze.IsFree(start) && maze.InGrid(start) && start in draws
    {
      var used;
      start, used := maze.SampleFree(draws);
    }

    /** A completed handshake: a fresh id gets a player at a free cell and
        an output stream, in both maps at once. */
    method Join(id: string, name: string, draws: seq<Position>) returns (player: Player)
      requires Valid() && id !in players
      requires exists k :: 0 <= k < |draws| && maze.IsFree(draws[k])
      modifies this
      ensures Valid() && maze == old(maze)
      ensures fresh(player) && player.id == id && player.name == name && maze.IsFree(player.position)
      ensures players == old(players)[id := player] && outputs == old(outputs) + {id}
    {
      var start := FindStartLocation(draws);
      player := new Player(id, name, start);
      players := players[id := player];
      outputs := outputs + {id};
    }

    /** Session cleanup: remove the id from both maps. A session that never
        completed its handshake has no id and removes nothing. */
    method Leave(id: Option<string>)
      requires Valid()
      modifies this
      ensures Valid() && maze == old(maze)
      ensures id.None? ==> players == old(players) && outputs == old(outputs)
      ensures id.Some? ==> players == old(players) - {id.value} && outputs == old(outputs) - {id.value}
    {
      if id.Some? {
        players := players - {id.value};
        outputs := outputs - {id.value};
      }
    }

    /** `processCommand`: move the commanding player when the rule allows,
        announce a winner when the move lands on the exit. */
    method ProcessCommand(id: string, command: string) returns (announcement: Option<string>)
      requires Valid()
      modifies players.Values
      ensures Valid() && maze == old(maze) && players == old(players) && outputs == old(outputs)
      ensures id !in players ==> announcement.None?
      ensures id in players ==>
                var r := Move(maze, old(players[id].position), command);
                players[id].position == r.position &&
                announcement == (if r.won then Some(WinnerMessage(players[id].name)) else None)
      ensures forall other :: other in players && other != id ==>
                players[other].position == old(players[other].position)
    {
      announcement := None;
      if id !in players {
        return;
      }
      var player := players[id];
      var currentPos := player.position;
      var newPos := Target(currentPos, command);
      var exitPos := maze.exitPosition;
      if newPos != currentPos && (!maze.IsWall(newPos.x, newPos.y) || newPos == exitPos) {
        player.SetPosition(newPos);
        maze.ExitPlacement();
        if newPos == exitPos {
          announcement := Some(WinnerMessage(player.name));
        }
      }
    }

    /** The maze is replaced by a fresh one of the same size; nobody moves,
        even onto what is now a wall. */
    method Earthquake()
      requires Valid()
      modifies this
      ensures Valid() && fresh(maze)
      ensures maze.width == old(maze.width) && maze.height == old(maze.height)
      ensures players == old(players) && outputs == old(outputs)
      ensures forall id :: id in players ==> players[id].position == old(players[id].position)
    {
      maze := new Maze(MazeWidth, MazeHeight);
    }

    /** The player map as broadcast: a fresh copy of every player. */
    function Snapshot(): (s: map<string, PlayerView>)
      reads this, players.Values
      ensures s.Keys == players.Keys
    {
      map id | id in players :: players[id].View()
    }

    /** In a valid world every snapshot entry carries its own key as id and
        a position inside the maze. */
    lemma SnapshotWellFormed()
      requires Valid()
      ensures forall id :: id in Snapshot() ==>
                Snapshot()[id].id == id && maze.InGrid(Snapshot()[id].position)
    {
    }

    /** Spawning can always succeed: (1, 1) is a free cell of every
        generated server maze. */
    lemma SpawnPossible()
      requires Valid()
      ensures maze.IsFree(Position(1, 1))
    {
      maze.StartIsFree();
    }
  }

  /** Blanks around a command make no difference to its normal form. */
  lemma NormalizeIgnoresBlanks(pre: string, s: string, post: string)
    requires Blank(pre) && Blank(post)
    ensures Normalize(pre + s + post) == Normalize(s)
  {
    LowerAppend(pre + s, post);
    LowerAppend(pre, s);
    LowerFixes(pre);
    LowerFixes(post);
    TrimIgnoresBlanks(pre, Lower(s), post);
  }

  /** Commands are matched ignoring surrounding whitespace ... */
  lemma ParseIgnoresSurroundingBlanks(pre: string, s: string, post: string)
    requires Blank(pre) && Blank(post)
    ensures Parse(pre + s + post) == Parse(s)
  {
    NormalizeIgnoresBlanks(pre, s, post);
  }

  /** ... and ignoring case. */
  lemma ParseIgnoresCase(s: string)
    ensures Parse(Lower(s)) == Parse(s)
  {
    LowerFixes(s);
  }

  /** Every command word, with any blanks around it, is recognised as its
      direction, so Parse and Word are inverse. */
  lemma ParseWord(d: Direction, pre: string, post: string)
    requires Blank(pre) && Blank(post)
    ensures Parse(pre + Word(d) + post) == Some(d)
  {
    ParseIgnoresSurroundingBlanks(pre, Word(d), post);
    assert Normalize(Word(d)) == Word(d);
  }

  /** Two concrete commands: an upper-case word with blanks, and an unknown
      word. */
  lemma ParseExamples()
    ensures Parse(" UP\n") == Some(Up)
    ensures Parse("jump") == None
  {
  }
}
