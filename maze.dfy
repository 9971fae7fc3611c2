/** The maze (Maze.java): an all-wall grid carved by a randomised depth-first
    walk in two-cell jumps from (1, 1), and an exit on the right border. */
module Mazes {
  import opened Positions

  /** One of the four jump directions of `carvePath`, as (dx, dy). */
  predicate IsStep(d: (int, int))
  {
    d == (0, 1) || d == (0, -1) || d == (1, 0) || d == (-1, 0)
  }

  /** Fisher-Yates shuffle in place. Each swap index is an arbitrary draw in
      `0..i`, standing for `random.nextInt(i + 1)`. */
  method Shuffle(a: array<(int, int)>)
    modifies a
    ensures multiset(a[..]) == multiset(old(a[..]))
  {
    var i := a.Length - 1;
    while i > 0
      invariant -1 <= i < a.Length
      invariant multiset(a[..]) == multiset(old(a[..]))
    {
      var index :| 0 <= index <= i;
      a[index], a[i] := a[i], a[index];
      i := i - 1;
    }
  }

  /** The four directions `{0, 1}, {0, -1}, {1, 0}, {-1, 0}` in shuffled order. */
  method ShuffledDirections() returns (directions: array<(int, int)>)
    ensures fresh(directions) && directions.Length == 4
    ensures multiset(directions[..]) == multiset{(0, 1), (0, -1), (1, 0), (-1, 0)}
    ensures forall j :: 0 <= j < 4 ==> IsStep(directions[j])
  {
    directions := new (int, int)[4];
    directions[0], directions[1], directions[2], directions[3] := (0, 1), (0, -1), (1, 0), (-1, 0);
    assert directions[..] == [(0, 1), (0, -1), (1, 0), (-1, 0)];
    Shuffle(directions);
    forall j | 0 <= j < 4
      ensures IsStep(directions[j])
    {
      assert directions[..][j] == directions[j];
      assert directions[j] in multiset(directions[..]);
    }
  }

  class Maze {
    const width: int
    const height: int
    /** `walls[y, x]` is true when the cell (x, y) is blocked. */
    const walls: array2<bool>
    var exitPosition: Position

    /** Cells in the order carving opened them (duplicates allowed), with,
        for each but the first, the index of an earlier adjacent cell. */
    ghost var carved: seq<Position>
    ghost var via: seq<nat>

    ghost predicate Shape()
    {
      2 <= width && 2 <= height && walls.Length0 == height && walls.Length1 == width
    }

    predicate InGrid(p: Position)
    {
      0 <= p.x < width && 0 <= p.y < height
    }

    /** Every cell of the grid. */
    ghost function Cells(): set<Position>
    {
      set x: int, y: int | 0 <= x < width && 0 <= y < height :: Position(x, y)
    }

    /** Cells carving has not opened yet; it shrinks with every jump. */
    ghost function Unopened(): set<Position>
      reads this
    {
      Cells() - set p | p in carved
    }

    /** Where carving may open a cell: never both coordinates even, and an
        even coordinate only strictly inside the grid (between two odd ones). */
    ghost predicate Lattice(p: Position)
    {
      !(p.x % 2 == 0 && p.y % 2 == 0) &&
      (p.x % 2 == 1 || (0 < p.x && p.x + 1 < width)) &&
      (p.y % 2 == 1 || (0 < p.y && p.y + 1 < height))
    }

    ghost predicate ViaOk()
      reads this
    {
      |via| == |carved| &&
      forall k :: 0 < k < |carved| ==> via[k] < k && Adjacent(carved[via[k]], carved[k])
    }

    /** What carving maintains: (1, 1) carved first, the carved cells are
        exactly the open cells, each on the lattice and each but the first
        next to an earlier one. */
    ghost predicate Carved()
      reads this, walls
      requires Shape()
    {
      && |carved| >= 1 && carved[0] == Position(1, 1)
      && ViaOk()
      && (forall k :: 0 <= k < |carved| ==>
            InGrid(carved[k]) && !walls[carved[k].y, carved[k].x] && Lattice(carved[k]))
      && (forall x, y :: 0 <= x < width && 0 <= y < height && !walls[y, x] ==> Position(x, y) in carved)
    }

    /** Row y of the column `findExit` scans is a wall. */
    predicate ScanBlocked(y: int)
      reads walls
      requires Shape() && 0 <= y < height
    {
      walls[y, width - 2]
    }

    /** The exit `findExit` picks: on the right border, level with the lowest
        open cell of column width-2 in rows 1..height-2, else at height-2. */
    ghost predicate ExitScanned(e: Position)
      reads walls
      requires Shape()
    {
      e.x == width - 1 &&
      ((1 <= e.y <= height - 2 && !walls[e.y, width - 2] &&
        forall y :: e.y < y <= height - 2 ==> ScanBlocked(y)) ||
       (e.y == height - 2 && forall y :: 1 <= y <= height - 2 ==> ScanBlocked(y)))
    }

    ghost predicate Valid()
      reads this, walls
    {
      Shape() && Carved() && ExitScanned(exitPosition)
    }

    constructor (width: int, height: int)
      requires 2 <= width && 2 <= height
      ensures Valid() && fresh(walls)
      ensures this.width == width && this.height == height
    {
      this.width := width;
      this.height := height;
      walls := new bool[height, width];
      new;
      GenerateMaze();
      exitPosition := FindExit();
    }

    /** The fill loop at the start of generation: every cell becomes a wall. */
    method FillWalls()
      requires Shape()
      modifies walls
      ensures forall x, y :: 0 <= x < width && 0 <= y < height ==> walls[y, x]
    {
      for y := 0 to height
        invariant forall x', y' :: 0 <= x' < width && 0 <= y' < y ==> walls[y', x']
      {
        for x := 0 to width
          invariant forall x', y' :: 0 <= x' < width && 0 <= y' < y ==> walls[y', x']
          invariant forall x' :: 0 <= x' < x ==> walls[y, x']
        {
          walls[y, x] := true;
        }
      }
    }

    method GenerateMaze()
      requires Shape()
      modifies walls, this`carved, this`via
      ensures Carved()
    {
      FillWalls();
      walls[1, 1] := false;
      carved, via := [Position(1, 1)], [0];
      CarvePath(1, 1, 0);
    }

    /** `b` continues `a`: carving only ever appends to its record. */
    ghost predicate Extends(a: seq<Position>, b: seq<Position>)
    {
      |a| <= |b| && b[..|a|] == a
    }

    lemma ExtendsShrinks(a: seq<Position>, b: seq<Position>)
      requires Extends(a, b)
      ensures (Cells() - set p | p in b) <= (Cells() - set p | p in a)
    {
      forall p | p in a ensures p in b {
        var j :| 0 <= j < |a| && a[j] == p;
        assert b[..|a|][j] == p;
      }
    }

    /** Opens one cell next to the already-open `carved[parent]`. */
    method Open(p: Position, ghost parent: nat)
      requires Shape() && Carved() && InGrid(p) && Lattice(p)
      requires parent < |carved| && Adjacent(carved[parent], p)
      modifies walls, this`carved, this`via
      ensures Carved() && carved == old(carved) + [p]
      ensures forall x, y :: 0 <= x < width && 0 <= y < height && Position(x, y) != p ==>
                walls[y, x] == old(walls[y, x])
    {
      walls[p.y, p.x] := false;
      carved := carved + [p];
      via := via + [parent];
    }

    /** One jump of `carvePath`: open the cell between (x, y) and the wall
        cell two steps away, then that cell itself. */
    method Jump(x: int, y: int, dx: int, dy: int, ghost k: nat)
      requires Shape() && Carved()
      requires k < |carved| && carved[k] == Position(x, y)
      requires x % 2 == 1 && y % 2 == 1 && IsStep((dx, dy))
      requires InGrid(Position(x + 2 * dx, y + 2 * dy)) && walls[y + 2 * dy, x + 2 * dx]
      modifies walls, this`carved, this`via
      ensures Carved()
      ensures carved == old(carved) + [Position(x + dx, y + dy), Position(x + 2 * dx, y + 2 * dy)]
      ensures Unopened() < old(Unopened())
    {
      var newX, newY := x + 2 * dx, y + 2 * dy;
      ghost var before := carved;
      assert Position(newX, newY) !in carved;
      assert Position(newX, newY) in Cells();
      Open(Position(x + dx, y + dy), k);
      Open(Position(newX, newY), |carved| - 1);
      assert Unopened() <= (Cells() - set p | p in before) - {Position(newX, newY)};
    }

    /** Depth-first carving from the odd cell (x, y), recorded at `carved[k]`.
        Each jump opens a wall cell, so the recursion terminates. */
    method CarvePath(x: int, y: int, ghost k: nat)
      requires Shape() && Carved()
      requires k < |carved| && carved[k] == Position(x, y)
      requires x % 2 == 1 && y % 2 == 1
      modifies walls, this`carved, this`via
      ensures Carved() && Extends(old(carved), carved)
      decreases Unopened()
    {
      var directions := ShuffledDirections();
      for i := 0 to 4
        invariant Carved() && Extends(old(carved), carved)
        invariant forall j :: 0 <= j < 4 ==> IsStep(directions[j])
        invariant Unopened() <= old(Unopened())
      {
        var (dx, dy) := directions[i];
        var newX, newY := x + dx * 2, y + dy * 2;
        if 0 <= newX < width && 0 <= newY < height && walls[newY, newX] {
          ghost var before := carved;
          Jump(x, y, dx, dy, k);
          ghost var mid := carved;
          CarvePath(newX, newY, |carved| - 1);
          ExtendsShrinks(mid, carved);
          assert Extends(old(carved), carved) by {
            assert carved[..|mid|][..|old(carved)|] == carved[..|old(carved)|];
            assert mid[..|before|] == before;
          }
        }
      }
    }

    /** Scans column width-2 from the bottom for the first open cell. */
    method FindExit() returns (e: Position)
      requires Shape()
      ensures ExitScanned(e)
    {
      var y := height - 2;
      while y > 0
        invariant 0 <= y <= height - 2
        invariant forall y' :: y < y' <= height - 2 ==> ScanBlocked(y')
      {
        if !walls[y, width - 2] {
          return Position(width - 1, y);
        }
        y := y - 1;
      }
      return Position(width - 1, height - 2);
    }

    /** Out-of-bounds cells count as walls. */
    function IsWall(x: int, y: int): (r: bool)
      reads walls
      requires Shape()
      ensures !r ==> InGrid(Position(x, y))
    {
      if x < 0 || x >= width || y < 0 || y >= height then true else walls[y, x]
    }

    /** Where a player may spawn or a coin or power-up may be placed. */
    predicate IsFree(p: Position)
      reads this, walls
      requires Shape()
    {
      !IsWall(p.x, p.y) && p != exitPosition
    }

    /** Rejection sampling over a stream of random cells: the first draw that
        is neither a wall nor the exit. */
    method SampleFree(draws: seq<Position>) returns (p: Position, used: nat)
      requires Shape()
      requires exists k :: 0 <= k < |draws| && IsFree(draws[k])
      ensures used < |draws| && p == draws[used] && IsFree(p)
      ensures forall j :: 0 <= j < used ==> !IsFree(draws[j])
    {
      used := 0;
      while !IsFree(draws[used])
        invariant used < |draws|
        invariant forall j :: 0 <= j < used ==> !IsFree(draws[j])
        invariant exists k :: used <= k < |draws| && IsFree(draws[k])
        decreases |draws| - used
      {
        used := used + 1;
      }
      p := draws[used];
    }

    /** One display character per cell. */
    function Glyph(x: int, y: int): char
      reads walls
      requires Shape()
    {
      if IsWall(x, y) then '#' else ' '
    }

    /** The first n characters of row y. */
    ghost function Line(y: int, n: nat): string
      reads walls
      requires Shape() && n <= width
    {
      if n == 0 then [] else Line(y, n - 1) + [Glyph(n - 1, y)]
    }

    /** The first n rows, each followed by a newline. */
    ghost function Lines(n: nat): string
      reads walls
      requires Shape() && n <= height
    {
      if n == 0 then [] else Lines(n - 1) + Line(n - 1, width) + "\n"
    }

    method ToString() returns (s: string)
      requires Shape()
      ensures s == Lines(height)
    {
      s := [];
      for y := 0 to height
        invariant s == Lines(y)
      {
        for x := 0 to width
          invariant s == Lines(y) + Line(y, x)
        {
          s := s + [Glyph(x, y)];
        }
        s := s + "\n";
      }
    }

    lemma {:induction false} LineAt(y: int, n: nat, x: int)
      requires Shape() && n <= width && 0 <= x < n
      ensures |Line(y, n)| == n && Line(y, n)[x] == Glyph(x, y)
    {
      if x < n - 1 {
        LineAt(y, n - 1, x);
      } else {
        LineLength(y, n - 1);
      }
    }

    lemma {:induction false} LineLength(y: int, n: nat)
      requires Shape() && n <= width
      ensures |Line(y, n)| == n
    {
      if n > 0 {
        LineLength(y, n - 1);
      }
    }

    /** `toString` lays the grid out as n rows of width+1 characters: '#'
        exactly at walls, ' ' elsewhere, and '\n' closing every row. */
    lemma {:induction false} LinesLayout(n: nat, y: int, x: int)
      requires Shape() && n <= height
      requires 0 <= y < n && 0 <= x <= width
      ensures |Lines(n)| == n * (width + 1)
      ensures Lines(n)[y * (width + 1) + x] == (if x == width then '\n' else if IsWall(x, y) then '#' else ' ')
    {
      var w := width + 1;
      LineLength(n - 1, width);
      LinesLength(n - 1);
      assert n * w == (n - 1) * w + w;
      if y < n - 1 {
        LinesLayout(n - 1, y, x);
        assert y * w + x < (n - 1) * w by {
          assert y * w <= (n - 2) * w by { MulMono(y, n - 2, w); }
          assert (n - 1) * w == (n - 2) * w + w;
        }
      } else {
        assert y * w == (n - 1) * w;
        if x < width {
          LineAt(y, width, x);
        }
      }
    }

    lemma {:induction false} LinesLength(n: nat)
      requires Shape() && n <= height
      ensures |Lines(n)| == n * (width + 1)
    {
      if n > 0 {
        LinesLength(n - 1);
        LineLength(n - 1, width);
        assert n * (width + 1) == (n - 1) * (width + 1) + width + 1;
      }
    }

    /** A chain of carved cells from (1, 1) to `carved[k]`, each step between
        neighbours, following the `via` links back to the start. */
    ghost function PathVia(k: nat): (path: seq<Position>)
      reads this
      requires k < |carved| && ViaOk()
      ensures |path| > 0 && path[0] == carved[0] && path[|path| - 1] == carved[k]
      ensures forall i :: 0 <= i < |path| ==> path[i] in carved
      ensures forall i :: 0 < i < |path| ==> Adjacent(path[i - 1], path[i])
      decreases k
    {
      if k == 0 then [carved[0]] else PathVia(via[k]) + [carved[k]]
    }

    /** A walk through open cells starting at (1, 1). */
    ghost predicate IsRoute(path: seq<Position>)
      reads walls
      requires Shape()
    {
      |path| > 0 && path[0] == Position(1, 1) &&
      (forall i :: 0 <= i < |path| ==> !IsWall(path[i].x, path[i].y)) &&
      (forall i :: 0 < i < |path| ==> Adjacent(path[i - 1], path[i]))
    }

    /** Every open cell is reachable from (1, 1) through open cells. */
    lemma RouteTo(p: Position) returns (path: seq<Position>)
      requires Valid() && !IsWall(p.x, p.y)
      ensures IsRoute(path) && path[|path| - 1] == p
    {
      assert p == Position(p.x, p.y);
      var k :| 0 <= k < |carved| && carved[k] == p;
      path := PathVia(k);
      forall i | 0 <= i < |path|
        ensures !IsWall(path[i].x, path[i].y)
      {
        var j :| 0 <= j < |carved| && carved[j] == path[i];
      }
    }

    /** Carving never opens a cell whose coordinates are both even, and opens
        an even coordinate only strictly inside the grid. In particular row 0
        and column 0 stay walls, and so do the last row and column when the
        height or width is odd. */
    lemma OpenCellsOnLattice(x: int, y: int)
      requires Valid() && !IsWall(x, y)
      ensures !(x % 2 == 0 && y % 2 == 0)
      ensures x % 2 == 1 || (0 < x && x + 1 < width)
      ensures y % 2 == 1 || (0 < y && y + 1 < height)
    {
      var k :| 0 <= k < |carved| && carved[k] == Position(x, y);
      assert Lattice(carved[k]);
    }

    /** The exit lies on the right border, inside the grid; when the scan
        found an open cell, the exit's left neighbour is that cell. */
    lemma ExitPlacement()
      requires Valid()
      ensures exitPosition.x == width - 1 && InGrid(exitPosition)
      ensures !IsWall(width - 2, exitPosition.y) ==> 1 <= exitPosition.y <= height - 2
      ensures (1 <= exitPosition.y <= height - 2 && !IsWall(width - 2, exitPosition.y))
              || exitPosition == Position(width - 1, height - 2)
    {
    }

    /** With an odd width the border column is never carved, so the exit
        itself is a wall cell (as in the server's 21 x 11 maze). */
    lemma ExitIsWallWhenWidthOdd()
      requires Valid() && width % 2 == 1
      ensures IsWall(exitPosition.x, exitPosition.y)
    {
      if !IsWall(exitPosition.x, exitPosition.y) {
        OpenCellsOnLattice(exitPosition.x, exitPosition.y);
      }
    }

    /** The start cell is open and, once the grid is at least 3 wide, is not
        the exit: rejection sampling always has a cell to find. */
    lemma StartIsFree()
      requires Valid() && 3 <= width
      ensures IsFree(Position(1, 1))
    {
      assert carved[0] == Position(1, 1);
    }
  }

  lemma MulMono(a: int, b: int, c: int)
    requires a <= b && 0 <= c
    ensures a * c <= b * c
  {
    assert (b - a) * c >= 0;
  }
}
