# Maze escape game — a verified model of its rule layer

This project models the rule layer of a LAN multiplayer maze game: an authoritative server and two clients. The model is in Dafny, and the proofs are about that model.

- **Server and maze.** The server generates a maze and lets players walk it. It accepts or rejects their commands, announces every player whose accepted move lands on the exit (nothing resets after a win), and replaces the maze every so often (the "earthquake").
- **Console client.** It learns which player it is and draws the maze and players as a character grid.
- **Swing client.** It adds a local coin game on top: a difficulty table, coins scattered over the maze, a coin bag and a time bonus that appear periodically, and a countdown.
- **Jump demo.** A stand-alone jump/gravity demo is modelled as well.

Modules, one per source file:

| module | file | models |
|---|---|---|
| `Positions` | `position.dfy` | `Position.java`: the immutable coordinate pair |
| `Mazes` | `maze.dfy` | `Maze.java`: a class over a 2-D `array2<bool>`. The fill loop, the in-place Fisher–Yates shuffle, the recursive carving, the exit scan, `isWall` and `toString`. Ghost fields record the order in which carving opened cells, and for each cell an already-open neighbour. Reachability and the parity of open cells are proved from them. |
| `Players` | `player.dfy` | `Player.java`: a class with final id and name and a mutable position. Also the by-value copy a client receives, and the "which player am I" search both clients perform. |
| `Text` | `text.dfy` | `toLowerCase` and `trim` as the server and the Swing client apply them, with the facts about blanks and case that command parsing relies on. |
| `Protocol` | `protocol.dfy` | The three kinds of object the server writes to a client: the maze, the player map, and text. Also the `"WINNER"` prefix test. |
| `Server` | `server.dfy` | `Server.java`: command normalisation, the move and win rule, and the class `World`. `World` holds the maze, the id → player map and the set of ids holding an output stream. It has the join, cleanup, command and earthquake steps. |
| `ConsoleClient` | `console_client.dfy` | `Client.java`: id discovery and the display grid. The grid is a `char` array filled by loops: walls, then the exit, then each player. |
| `SwingClient` | `swing_client.dfy` | `MazeRunnerSwingClient.java`: difficulty settings, coin generation, collection, power-up spawning and expiry, the one-second tick, and message handling. |
| `Mario` | `mario.dfy` | `MarioRunner.java`: the timer tick and key handling as pure transition functions, and a class whose handlers are proved to follow them. |

`wrappers.dfy` holds the `Option` type.

Randomness is a parameter:
- `shuffle` picks each swap index nondeterministically (`:|`), so the proofs hold for every order it can produce.
- Each rejection-sampling loop (spawn point, coins, coin bag, time bonus) reads a caller-supplied stream `draws` of random cells. It requires that the stream contains an acceptable cell. This turns "retry until it fits" into a terminating scan that settles on the first acceptable draw.
- A Java `HashMap`'s iteration order is a caller-supplied sequence `order` that lists every key exactly once (`Players.IsOrder`).

Main results:
- **Carving.** Carving terminates: every jump shrinks the set of unopened cells. Every open cell is reachable from (1, 1) through open cells (`RouteTo`). Open cells never have two even coordinates (`OpenCellsOnLattice`).
- **Exit.** The exit is the border cell chosen by the bottom-up scan, or the fixed fallback `(width-1, height-2)` (`FindExit`, `ExitPlacement`). With an odd width the exit is itself a wall (`ExitIsWallWhenWidthOdd`).
- **Moves.** A move is accepted exactly when the rule says so. An accepted move is one unit step. A win is exactly an accepted move onto the exit (`Move`).
- **Server state.** The server's two id-keyed maps keep equal key sets across join and cleanup. An earthquake moves nobody.
- **Console grid.** The grid shows, cell by cell, the last player drawn there, or else the maze character.
- **Commands.** A command is recognised exactly when its lower-cased, trimmed text is a direction word. Blanks around it and its case make no difference (`ParseIgnoresSurroundingBlanks`, `ParseIgnoresCase`, `ParseWord`).
- **Coins.** Coin generation yields the requested number of distinct free cells. Collection removes exactly the first coin at the player's cell. Every Swing client method states its whole new state (`SwingClient.Game`), and collection is one function, `Collect`, shared by the collision check, the arrow keys and the player-map handler.
- **Jump demo.** Every jump lands after exactly `vy + 13` ticks, so a jump from the ground lands after 25 ticks (`JumpLands`, `JumpFromGround`).

Two properties one might expect of such a game do not hold of the code, and the model states what the code does:
- The exit is not an open cell. With the server's odd 21 × 11 size the border column is never carved, so the exit is a wall cell that only the move rule's exit exception lets a player enter (`Mazes.Maze.ExitIsWallWhenWidthOdd`). When the scan finds no open cell, the fallback exit's left neighbour need not be open either.
- Players do not always stand on an open cell or on the exit. The earthquake replaces the maze without moving anyone, so a player can end up inside a wall of the new maze. `Server.World.Earthquake` states that positions are unchanged, and `World.Valid` only keeps players inside the grid.

## Model

| member | source | states |
|---|---|---|
| Positions.PositionEquality | Position.java:8 | Two positions are equal exactly when both coordinates are equal. This is the equality behind the exit and win checks. |
| Positions.PositionAccessors | Position.java:8 | The accessors return the constructor arguments. |
| Mazes.Shuffle | Maze.java:65-72 | The in-place swaps leave the array a permutation of its old contents (the same multiset), whatever index each draw picks. |
| Mazes.ShuffledDirections | Maze.java:48-49 | The shuffled direction array is a permutation of the four vectors (0,1), (0,-1), (1,0), (-1,0), so every entry is one of them. |
| Mazes.Maze.constructor | Maze.java:16-22 | A new maze has the given width and height and a fresh grid. It satisfies the maze invariant: (1,1) opened first, the open cells exactly the carved cells, each on the parity lattice and next to an earlier one, and the exit as the scan defines it. |
| Mazes.Maze.FillWalls | Maze.java:30-34 | After the fill loop every cell of the grid is a wall. |
| Mazes.Maze.GenerateMaze | Maze.java:28-41 | After generation the carving invariant holds, starting from (1,1) opened on an all-wall grid. |
| Mazes.Maze.Open | Maze.java:55-56 | Opening one cell next to an open cell keeps the invariant, appends it to the carving record and changes no other cell. |
| Mazes.Maze.Jump | Maze.java:54-56 | A jump to an in-bounds walled destination opens the skipped cell and the destination. The set of unopened cells strictly shrinks, which makes the recursion terminate. |
| Mazes.Maze.CarvePath | Maze.java:47-60 | Carving from a cell with odd coordinates keeps the invariant and only adds to what is open. It terminates on the shrinking set of unopened cells. |
| Mazes.Maze.FindExit | Maze.java:78-86 | The exit is at x = width-1. Its y is the largest y in 1..height-2 whose cell in column width-2 is open, and every row below it is blocked. If there is no such y, the exit is (width-1, height-2). |
| Mazes.Maze.IsWall | Maze.java:91-96 | Every coordinate outside the grid is a wall: a non-wall answer implies the cell is in the grid. |
| Mazes.Maze.SampleFree | Server.java:203-208 | Rejection sampling returns the first draw that is neither a wall nor the exit, and every earlier draw was rejected. |
| Mazes.Maze.ToString | Maze.java:115-128 | The string is the row-by-row rendering `Lines(height)`. |
| Mazes.Maze.LinesLayout | Maze.java:116-127 | The rendering has height × (width+1) characters. The character at row y, column x is '#' exactly at walls, ' ' at open cells, and '\n' at column width. |
| Mazes.Maze.RouteTo | Maze.java:51-57 | Every open cell of a generated maze is the end of a walk that starts at (1,1), moves between side-sharing cells and visits only open cells. |
| Mazes.Maze.OpenCellsOnLattice | Maze.java:37-57 | No open cell has both coordinates even. An even coordinate of an open cell lies strictly inside the grid. |
| Mazes.Maze.ExitPlacement | Maze.java:80-85 | The exit is on the right border and inside the grid. Either its left neighbour is open with y in 1..height-2, or it is the fallback (width-1, height-2). |
| Mazes.Maze.ExitIsWallWhenWidthOdd | Maze.java:80-85 | With an odd width the exit cell itself is a wall. |
| Mazes.Maze.StartIsFree | Maze.java:37-39 | In a maze at least 3 wide, (1,1) is open and is not the exit, so spawning always has a cell to find. |
| Text.Lower | Server.java:163 | Lower-casing keeps the length and maps each character on its own: 'A'..'Z' to 'a'..'z', everything else unchanged. |
| Text.LowerAppend | Server.java:163 | Lower-casing distributes over concatenation. |
| Text.LowerFixes | Server.java:163 | Lower-casing leaves blank characters alone and is idempotent. |
| Text.TrimStartShape | Server.java:163 | The left trim keeps a suffix, drops only characters up to U+0020, and what is left starts with a visible character. |
| Text.TrimEndShape | Server.java:163 | The right trim keeps a prefix, drops only characters up to U+0020, and what is left ends with a visible character. |
| Text.BlankIffTrimmedEmpty | MazeRunnerSwingClient.java:209 | `trim().isEmpty()` holds exactly when every character is at most U+0020. |
| Text.TrimStartBlank | Server.java:163 | Blanks in front of a string make no difference to the left trim. |
| Text.TrimEndBlank | Server.java:163 | Blanks behind a string make no difference to the right trim. |
| Text.TrimStartAppend | Server.java:163 | The left trim of a concatenation reaches into the second part only when the first part is blank. |
| Text.TrimIgnoresBlanks | Server.java:163 | Blanks on both sides of a string make no difference to `trim`. |
| Protocol.AnnouncesWinner | MazeRunnerSwingClient.java:414 | A text announces a winner exactly when "WINNER" is a prefix of it. |
| Players.Player.constructor | Player.java:13-17 | The constructor stores the given id, name and start position. |
| Players.Player.SetPosition | Player.java:31-33 | After `setPosition` the position is the new value. Id and name are constants. |
| Players.Player.View | Player.java:19-29 | The copy a client receives carries the player's id, name and position. |
| Players.DiscoverId | Client.java:84-91 | The id found is that of the first player in iteration order whose name equals the local name, and it is None exactly when no player has that name. |
| Server.Step | Server.java:163-176 | Each recognised direction moves to a side-sharing, different cell. |
| Server.Move | Server.java:149-197 | The move rule. An unrecognised command leaves the position unchanged and does not win. A recognised one moves exactly when the unit step lands on a non-wall cell or on the exit; an accepted move is that step. A win happens exactly when an accepted move lands on the exit. |
| Server.WinnerMessage | Server.java:214-215 | The winner announcement starts with "WINNER", which clients test for. |
| Server.Parse | Server.java:163-176 | A command yields a direction exactly when its lower-cased, trimmed text is that direction's word; any other text yields none. |
| Server.NormalizeIgnoresBlanks | Server.java:163 | Blanks around a command do not change its lower-cased, trimmed form. |
| Server.ParseIgnoresSurroundingBlanks | Server.java:163 | Blanks before and after a command make no difference to the direction it yields. |
| Server.ParseIgnoresCase | Server.java:163 | Lower-casing a command first makes no difference to the direction it yields. |
| Server.ParseWord | Server.java:163-176 | Each direction word, with any blanks around it, yields that direction, so words and directions are inverse. |
| Server.ParseExamples | Server.java:163 | " UP\n" is the command up; "jump" is no command. |
| Server.World.constructor | Server.java:21-25 | The server starts with a valid 21 × 11 maze and two empty maps. |
| Server.World.FindStartLocation | Server.java:202-209 | The spawn cell is neither a wall nor the exit, and it is one of the random draws. |
| Server.World.Join | Server.java:106-110 | A joining player with a fresh id gets a free start cell. The same id is added to both maps, which keep equal key sets. |
| Server.World.Leave | Server.java:133-135 | Cleanup removes the id from both maps. A session without an id removes nothing. |
| Server.World.ProcessCommand | Server.java:149-197 | Only the commanding player's position changes, and it changes as `Move` says. A winner is announced exactly on a win. An unknown id changes nothing. The maze and both key sets are untouched. |
| Server.World.Earthquake | Server.java:68-72 | The maze is replaced by a fresh valid one of the same size. Every player keeps its position and both maps are unchanged. |
| Server.World.Snapshot | Server.java:56-57 | The broadcast player map has the same keys as the server's map. |
| Server.World.SnapshotWellFormed | Server.java:56-57 | Every broadcast entry carries its own key as id and a position inside the maze. |
| Server.World.SpawnPossible | Server.java:202-209 | In every valid world (1,1) is a free cell, so the spawn loop can succeed. |
| ConsoleClient.MarkUncovered | Client.java:127-131 | A cell with no player on it keeps its maze character. |
| ConsoleClient.MarkLastWins | Client.java:127-131 | A cell with players on it shows the last one drawn: 'P' when it is the local player, else 'O'. |
| ConsoleClient.DrawMaze | Client.java:114-125 | The fresh grid is height × width. It holds 'E' at the exit, '#' at the other walls and ' ' elsewhere. |
| ConsoleClient.DrawPlayers | Client.java:127-131 | After the loop over the players each cell holds its `Mark`: the players drawn over the maze layer in iteration order. |
| ConsoleClient.Client.constructor | Client.java:16-18 | The client starts with no id, no maze and nothing on screen. |
| ConsoleClient.Client.PrintGameState | Client.java:104-136 | No grid is produced while the maze is unknown or the player map is empty. Otherwise the grid has one row per maze row, each as wide as the maze, showing every cell's mark over the maze layer. |
| ConsoleClient.Client.HandleServerMessage | Client.java:76-99 | A maze message replaces the maze. A player map sets the id only while it is unknown, to the discovered one, then draws the grid. Only text starting with "WINNER" ends the client. |
| SwingClient.SettingsFor | MazeRunnerSwingClient.java:178-200 | Every level is playable: time, coins and both rewards are positive, and at least one power-up interval fits into the starting time. |
| SwingClient.HarderIsStricter | MazeRunnerSwingClient.java:178-200 | Across the table EASY (90, 20, 15, 15, 5), MEDIUM (60, 30, 10, 10, 10), HARD (40, 40, 7, 5, 15), a harder level has less time, more coins, smaller rewards and a longer power-up interval. |
| SwingClient.GatherSound | MazeRunnerSwingClient.java:442-452 | The coins the sampling loop keeps are distinct. Each is neither a wall nor the exit, and each comes from the random draws. |
| SwingClient.PlaceCoins | MazeRunnerSwingClient.java:442-452 | The loop stops with exactly the requested number of coins: the coins kept from a prefix of the draws, distinct and free. |
| SwingClient.IndexOf | MazeRunnerSwingClient.java:459-470 | The scan finds the first index holding the player's cell, or None exactly when no coin is there. |
| SwingClient.WithoutFirstAt | MazeRunnerSwingClient.java:462-469 | Removing the coin the scan found leaves the others in order: the list without that index. |
| SwingClient.WithoutFirstAbsent | MazeRunnerSwingClient.java:462-469 | With no coin at the cell the list is unchanged. |
| SwingClient.WithoutFirstRemovesOne | MazeRunnerSwingClient.java:462-469 | Collection removes exactly one copy of the cell when there is one, and nothing otherwise. |
| SwingClient.WithoutFirstDistinct | MazeRunnerSwingClient.java:462-469 | Collection keeps a distinct coin list distinct and leaves no coin at the player's cell. |
| SwingClient.TakeCoinEffect | MazeRunnerSwingClient.java:459-470 | The coin scan keeps the state consistent, counts 1 when a coin was at the cell, removes exactly one copy of the cell and leaves no coin there. |
| SwingClient.TakeBagEffect | MazeRunnerSwingClient.java:472-478 | The bag check keeps the state consistent and the coins, never lowers the count and leaves no bag at the cell. |
| SwingClient.TakeBonusEffect | MazeRunnerSwingClient.java:480-485 | The bonus check keeps the state consistent, the coins and the count, and leaves no bonus at the cell. |
| SwingClient.CollectEffect | MazeRunnerSwingClient.java:458-492 | Collection keeps the settings, distinct coins and a non-negative count. The count never drops and rises when a coin was there. Exactly one copy of the cell leaves the coins. Afterwards no coin, bag or bonus is at the cell. |
| SwingClient.CollectTwice | MazeRunnerSwingClient.java:458-492 | Collecting twice at the same cell is the same as collecting once, so standing still scores nothing more. |
| SwingClient.CollectRepeated | MazeRunnerSwingClient.java:264-302 | Each round adds one key listener, so n listeners run the collection check at the same cell; for every n of at least 1 this equals a single collection. |
| SwingClient.NewRoundEffect | MazeRunnerSwingClient.java:174-222 | A new round at a chosen level keeps the state consistent. It is running, has nothing collected and no coins generated, has the level's full time with the spawn clock at that time, and has no power-ups, maze or id. |
| SwingClient.Client.constructor | MazeRunnerSwingClient.java:10-77 | The whole initial state: no name, id, maze or player map, MEDIUM with 30 coins, 60 seconds, values 10, 10 and interval 10, spawn clock 0, no game running, no coins generated, no power-ups, and no intentional disconnect. |
| SwingClient.Client.SelectDifficulty | MazeRunnerSwingClient.java:174-222 | The level's settings always apply. A non-blank name starts a new round under that name; a blank or cancelled name changes nothing else. |
| SwingClient.Client.ApplySettings | MazeRunnerSwingClient.java:175-200 | The chosen level and its five settings replace the old ones; no other field changes. |
| SwingClient.Client.StartNewGame | MazeRunnerSwingClient.java:246-258 | The new state is `NewRound` of the old one: count 0, no coins generated, running, no power-ups, spawn clock at the current time, and maze, player map and id cleared (`clearNetwork`). All other fields are kept. |
| SwingClient.Client.GenerateCoins | MazeRunnerSwingClient.java:436-456 | The coin list is replaced by exactly `totalCoins` distinct free cells from a prefix of the draws, and the count is reset to 0. All other fields are kept. |
| SwingClient.Client.CheckCoinCollection | MazeRunnerSwingClient.java:458-492 | The new state is `Collect` of the old one at the cell: first coin removed and counted 1, bag counted and removed, bonus added to the time and removed. All other fields are kept. |
| SwingClient.Client.TakeCoinAt | MazeRunnerSwingClient.java:459-470 | The coin scan: the new state is `TakeCoin` of the old one, with the first coin at the cell removed and counted 1. Nothing else changes. |
| SwingClient.Client.TakeBagAt | MazeRunnerSwingClient.java:473-478 | The bag check: the new state is `TakeBag` of the old one. A bag at the cell adds its value and disappears; nothing else changes. |
| SwingClient.Client.TakeBonusAt | MazeRunnerSwingClient.java:481-485 | The bonus check: the new state is `TakeBonus` of the old one. A bonus at the cell adds its seconds to the time and disappears; nothing else changes. |
| SwingClient.Client.SpawnCoinBag | MazeRunnerSwingClient.java:494-503 | With a maze, the bag goes to the first free draw. Without one, nothing happens. No other field changes. |
| SwingClient.Client.SpawnTimeBonus | MazeRunnerSwingClient.java:517-526 | With a maze, the bonus goes to the first free draw. Without one, nothing happens. No other field changes. |
| SwingClient.Client.ExpireCoinBag | MazeRunnerSwingClient.java:508-512 | The bag's timer removes the bag, changes nothing else and keeps the state consistent. |
| SwingClient.Client.ExpireTimeBonus | MazeRunnerSwingClient.java:532-536 | The bonus's timer removes the bonus, changes nothing else and keeps the state consistent. |
| SwingClient.Client.Tick | MazeRunnerSwingClient.java:324-348 | Outside a game a tick changes nothing. During one, time drops by exactly 1. When the old spawn clock minus the new time reaches the interval, each absent power-up is spawned and the clock set to the new time; present ones stay. The game ends when the time reaches 0. No other field changes. |
| SwingClient.Client.SpawnMissing | MazeRunnerSwingClient.java:331-339 | Each power-up not on the board is placed at the first free draw; one on the board stays. No other field changes. |
| SwingClient.Client.ArrowKey | MazeRunnerSwingClient.java:264-305 | An arrow key during a connected game is `Collect` at the own cell of the last player map. Otherwise it changes nothing. |
| SwingClient.Client.CollectAtOwnCell | MazeRunnerSwingClient.java:407-412 | When the own id is in the player map, the new state is `Collect` at the own cell; otherwise nothing changes. |
| SwingClient.Client.ConnectionLost | MazeRunnerSwingClient.java:375-380 | A connection error ends the round and changes nothing else, unless the client disconnected on purpose after a win; then it changes nothing. |
| SwingClient.Client.ReceiveMaze | MazeRunnerSwingClient.java:385-390 | A maze replaces the current one. Only the first maze of a round generates coins (`totalCoins` free cells, count reset, marked generated). No other field changes. |
| SwingClient.Client.LearnId | MazeRunnerSwingClient.java:398-405 | While the id is unknown it becomes the first player in iteration order with the own name; a known id stays. No other field changes. |
| SwingClient.Client.ReceivePlayers | MazeRunnerSwingClient.java:394-413 | The map is stored and the id learnt as `LearnId` says. When the id is in the map, the rest is `Collect` at the own cell; otherwise nothing else changes. |
| SwingClient.Client.HandleServerMessage | MazeRunnerSwingClient.java:384-434 | A maze message has `ReceiveMaze`'s effect and a player map `ReceivePlayers`'s. A "WINNER" text ends the round and marks the disconnect as intended, changing nothing else; other messages change nothing. |
| Mario.Tick | MarioRunner.java:46-58 | A tick does nothing on the ground. In the air it rises by the velocity and loses one unit of it, landing at y = 300 with zero velocity once at or below the ground. x never changes. |
| Mario.Press | MarioRunner.java:66-80 | Right and left move x by ±2 and leave the vertical state alone. Space starts a jump with velocity 12 only from the ground. Other keys change nothing. |
| Mario.TickPreserves | MarioRunner.java:48-57 | A tick keeps the trajectory invariant: on the ground y = 300 and the velocity is 0; in the air the height matches the velocity. A body in the air stays in the air exactly while its velocity is above -12. |
| Mario.PressPreserves | MarioRunner.java:66-80 | A key press keeps the trajectory invariant. |
| Mario.JumpLands | MarioRunner.java:48-57 | A body in the air with velocity vy stays in the air for vy + 12 more ticks. On tick vy + 13 it is back on the ground at rest, at the same x. |
| Mario.JumpFromGround | MarioRunner.java:75-78 | A jump started from the ground lands after exactly 25 ticks, in the state it started from. |
| Mario.MarioRunner.constructor | MarioRunner.java:6-12 | The demo starts at x = 50 on the ground at rest, which satisfies the invariant. |
| Mario.MarioRunner.ActionPerformed | MarioRunner.java:46-62 | The timer handler performs exactly `Tick` and keeps the invariant. |
| Mario.MarioRunner.KeyPressed | MarioRunner.java:66-80 | The key handler performs exactly `Press` and keeps the invariant. |

## Left out

- Sockets, object streams and Java serialization are left out. So are the accept loop, the thread pool and the client reading threads. Messages appear as method parameters (`Protocol.ServerMessage`).
- The writes in `broadcastGameState` and `broadcastWinner` are I/O. `Server.World.Snapshot` gives the broadcast player map, and `ProcessCommand` returns the announcement text.
- The `synchronized` keyword and the thread safety of `ConcurrentHashMap` are left out. Each server step is modelled as one atomic method.
- Scheduling by `java.util.Timer` and the Swing timers is left out. Only the body of one tick, one earthquake or one expiry is modelled.
- `System.nanoTime()` id generation is left out. A fresh id is a precondition of `Server.World.Join`.
- `Math.random` and `java.util.Random` are caller-supplied draws, or a nondeterministic choice in `Shuffle`. The sampling loops terminate only because a precondition says the draws contain an acceptable cell.
- The failed-handshake path is modelled as `Leave(None)`, which removes nothing. In the code, `remove(null)` on a `ConcurrentHashMap` throws.
- Swing is left out: painting, icons, labels, dialogs, the score area, `updateStatusLabel`, `updateCellSize` and the `lastDir` sprite choice. The console client's clearing and printing are left out too; the printed grid is returned as rows instead.
- Java's 32-bit `int` is modelled by unbounded integers. This affects coordinates, `coinCount`, `timeLeft`, `marioX` and `marioY`; the game never comes near the limits.
- `toLowerCase` is modelled as lower-casing of 'A'..'Z' only, and every other character is left as it is. The model assumes a locale without special casing rules, as with `Locale.ROOT`; it does not model how `toLowerCase` treats letters outside ASCII. Under the default locale of a Turkish system "RIGHT" lowers to "rıght" and is not recognised as a command; that case is not modelled.
- The iteration order of a `HashMap` is a caller-supplied key order.
- SwingClient.Client.ArrowKey: models one key listener. `startNewGame` (MazeRunnerSwingClient.java:264) adds a new listener in every round and never removes the old ones. From round n on, each arrow key therefore sends its command n times and runs the collection check n times. The repeated sends are I/O and are not modelled. Locally, n checks at the same cell have the effect of one `Collect` (`SwingClient.CollectRepeated`).
- The unused `powerUpSpawnRate` field, the `lastEarthquakeShown` timestamp and the log output are left out.
- Mazes.Maze.constructor: requires width and height of at least 2; below that the code's `walls[1][1]` is out of bounds.
- ConsoleClient.Client.PrintGameState: requires every player's position to lie inside the maze. The code would throw on one outside it, and the server only ever broadcasts in-grid positions.
- SwingClient.Client.GenerateCoins: requires that the draws contain at least `totalCoins` distinct free cells. The code's loop would spin forever otherwise.
- SwingClient.Client: the player name, `null` in the code until a name is entered, starts as the empty string. No map arrives before a name is chosen.
- Whether the exit scan always finds an open cell in column width-2 is not proved. Both outcomes are kept in `FindExit`'s contract.
