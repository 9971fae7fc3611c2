/** The graphical client's local game rules (MazeRunnerSwingClient.java):
    the difficulty table, coins scattered over the received maze, coin,
    coin-bag and time-bonus collection, and the once-a-second countdown
    that spawns power-ups. */
module SwingClient {
  import opened Wrappers
  import opened Positions
  import opened Mazes
  import opened Players
  import opened Protocol
  import opened Text

  datatype Difficulty = Easy | Medium | Hard

  /** What a difficulty fixes: the starting time, the coins to scatter, the
      worth of a coin bag and of a time bonus, and the power-up period. */
  datatype Settings = Settings(timeLeft: int, totalCoins: nat, coinBagValue: nat, timeBonusValue: nat,
                               powerUpSpawnInterval: int)

  /** The difficulty table. Every level is playable: time, coins and
      rewards are positive, and at least one power-up period fits into the
      starting time. */
  function SettingsFor(d: Difficulty): (s: Settings)
    ensures s.timeLeft > 0 && s.totalCoins > 0 && s.coinBagValue > 0 && s.timeBonusValue > 0
    ensures 0 < s.powerUpSpawnInterval < s.timeLeft
  {
    match d
    case Easy => Settings(90, 20, 15, 15, 5)
    case Medium => Settings(60, 30, 10, 10, 10)
    case Hard => Settings(40, 40, 7, 5, 15)
  }

  function Rank(d: Difficulty): nat
  {
    match d
    case Easy => 0
    case Medium => 1
    case Hard => 2
  }

  /** A harder game gives less time, more coins to find, smaller rewards and
      rarer power-ups. */
  lemma HarderIsStricter(a: Difficulty, b: Difficulty)
    requires Rank(a) < Rank(b)
    ensures SettingsFor(b).timeLeft < SettingsFor(a).timeLeft
    ensures SettingsFor(b).totalCoins > SettingsFor(a).totalCoins
    ensures SettingsFor(b).coinBagValue < SettingsFor(a).coinBagValue
    ensures SettingsFor(b).timeBonusValue < SettingsFor(a).timeBonusValue
    ensures SettingsFor(b).powerUpSpawnInterval > SettingsFor(a).powerUpSpawnInterval
  {
  }

  predicate Distinct(s: seq<Position>)
  {
    forall i, j :: 0 <= i < j < |s| ==> s[i] != s[j]
  }

  /** The coins the sampling loop keeps from a stream of random draws: each
      draw that is open, not the exit and not yet a coin. */
  ghost function Gather(m: Maze, draws: seq<Position>): seq<Position>
    reads m, m.walls
    requires m.Shape()
  {
    if draws == [] then []
    else
      var coins := Gather(m, draws[..|draws| - 1]);
      var p := draws[|draws| - 1];
      if m.IsFree(p) && p !in coins then coins + [p] else coins
  }

  /** Gathered coins are distinct free cells taken from the draws. */
  lemma {:induction false} GatherSound(m: Maze, draws: seq<Position>)
    requires m.Shape()
    ensures Distinct(Gather(m, draws))
    ensures forall i :: 0 <= i < |Gather(m, draws)| ==>
              m.IsFree(Gather(m, draws)[i]) && Gather(m, draws)[i] in draws
  {
    if draws != [] {
      var prefix := draws[..|draws| - 1];
      GatherSound(m, prefix);
      assert forall q :: q in prefix ==> q in draws;
    }
  }

  /** The first draw of the stream that is free: what a do-while sampling
      loop settles on. */
  ghost predicate FirstFree(m: Maze, draws: seq<Position>, p: Position)
    reads m, m.walls
    requires m.Shape()
  {
    exists k :: 0 <= k < |draws| && draws[k] == p && m.IsFree(p) &&
      forall j :: 0 <= j < k ==> !m.IsFree(draws[j])
  }

  /** `generateCoins`' sampling loop: draw until `total` coins are placed. */
  method PlaceCoins(m: Maze, draws: seq<Position>, total: nat) returns (coins: seq<Position>, used: nat)
    requires m.Shape() && total <= |Gather(m, draws)|
    ensures used <= |draws| && coins == Gather(m, draws[..used]) && |coins| == total
    ensures Distinct(coins) && forall i :: 0 <= i < |coins| ==> m.IsFree(coins[i]) && coins[i] in draws
  {
    coins := [];
    used := 0;
    while |coins| < total && used < |draws|
      invariant used <= |draws| && coins == Gather(m, draws[..used]) && |coins| <= total
      decreases |draws| - used
    {
      var pos := draws[used];
      if !m.IsWall(pos.x, pos.y) && pos != m.exitPosition && pos !in coins {
        coins := coins + [pos];
      }
      assert draws[..used + 1][..used] == draws[..used];
      used := used + 1;
    }
    assert used == |draws| ==> draws[..used] == draws;
    GatherSound(m, draws[..used]);
    assert forall q :: q in draws[..used] ==> q in draws;
  }

  /** The list after collecting at p: the first coin equal to p is gone,
      the others keep their order. */
  function WithoutFirst(coins: seq<Position>, p: Position): seq<Position>
  {
    if coins == [] then []
    else if coins[0] == p then coins[1..]
    else [coins[0]] + WithoutFirst(coins[1..], p)
  }

  /** The iterator scan of `checkCoinCollection`: the first index holding p. */
  method IndexOf(coins: seq<Position>, p: Position) returns (found: Option<nat>)
    ensures found.None? <==> p !in coins
    ensures found.Some? ==> found.value < |coins| && coins[found.value] == p && p !in coins[..found.value]
  {
    var i := 0;
    while i < |coins|
      invariant i <= |coins| && p !in coins[..i]
    {
      if coins[i] == p {
        return Some(i);
      }
      assert coins[..i + 1] == coins[..i] + [coins[i]];
      i := i + 1;
    }
    assert coins[..i] == coins;
    return None;
  }

  /** Removing the coin found by the scan is `WithoutFirst`. */
  lemma {:induction false} WithoutFirstAt(coins: seq<Position>, p: Position, i: nat)
    requires i < |coins| && coins[i] == p && p !in coins[..i]
    ensures WithoutFirst(coins, p) == coins[..i] + coins[i + 1..]
  {
    if i > 0 {
      assert coins[1..][..i - 1] == coins[1..i];
      WithoutFirstAt(coins[1..], p, i - 1);
      assert coins[1..][i..] == coins[i + 1..];
      assert [coins[0]] + coins[1..i] == coins[..i];
    }
  }

  /** A list without p is left as it is. */
  lemma {:induction false} WithoutFirstAbsent(coins: seq<Position>, p: Position)
    requires p !in coins
    ensures WithoutFirst(coins, p) == coins
  {
    if coins != [] {
      WithoutFirstAbsent(coins[1..], p);
    }
  }

  /** Collecting removes exactly one copy of p when there is one. */
  lemma {:induction false} WithoutFirstRemovesOne(coins: seq<Position>, p: Position)
    ensures multiset(WithoutFirst(coins, p)) ==
              if p in coins then multiset(coins) - multiset{p} else multiset(coins)
  {
    if coins != [] {
      WithoutFirstRemovesOne(coins[1..], p);
      assert coins == [coins[0]] + coins[1..];
    }
  }

  /** Collecting keeps a distinct coin list distinct, and leaves no coin at p. */
  lemma {:induction false} WithoutFirstDistinct(coins: seq<Position>, p: Position)
    requires Distinct(coins)
    ensures Distinct(WithoutFirst(coins, p)) && p !in WithoutFirst(coins, p)
  {
    if coins != [] {
      var tail := coins[1..];
      assert forall i :: 0 <= i < |tail| ==> tail[i] == coins[i + 1];
      assert coins[0] !in tail;
      if coins[0] != p {
        WithoutFirstDistinct(tail, p);
        WithoutFirstRemovesOne(tail, p);
        var rest := WithoutFirst(tail, p);
        forall q | q in rest
          ensures q in tail
        {
          assert q in multiset(rest);
        }
        var r := [coins[0]] + rest;
        assert forall k :: 0 < k < |r| ==> r[k] == rest[k - 1];
      }
    }
  }

  /** The client's game state, field for field. The window, timers,
      streams and labels are left out; `players` is the last received
      player map. */
  datatype Game = Game(
    playerName: string,
    myPlayerId: Option<string>,
    currentMaze: Maze?,
    players: Option<map<string, PlayerView>>,
    difficulty: Difficulty,
    coinPositions: seq<Position>,
    coinCount: int,
    totalCoins: nat,
    timeLeft: int,
    coinBagValue: nat,
    timeBonusValue: nat,
    powerUpSpawnInterval: int,
    lastPowerUpSpawn: int,
    gameStarted: bool,
    coinsGenerated: bool,
    coinBagPos: Option<Position>,
    timeBonusPos: Option<Position>,
    disconnectedIntentionally: bool)

  /** The settings in force are those of the chosen difficulty (the time
      left moves on its own), the coins are pairwise distinct and the coin
      count never negative. */
  ghost predicate Consistent(g: Game)
  {
    && var s := SettingsFor(g.difficulty);
    && g.totalCoins == s.totalCoins && g.coinBagValue == s.coinBagValue
    && g.timeBonusValue == s.timeBonusValue && g.powerUpSpawnInterval == s.powerUpSpawnInterval
    && Distinct(g.coinPositions) && g.coinCount >= 0
    && (g.currentMaze != null ==> g.currentMaze.Shape())
  }

  /** The first coin at p is picked up and counts 1. */
  function TakeCoin(g: Game, p: Position): Game
  {
    if p in g.coinPositions then
      g.(coinPositions := WithoutFirst(g.coinPositions, p), coinCount := g.coinCount + 1)
    else g
  }

  /** A coin bag at p is picked up and counts its value. */
  function TakeBag(g: Game, p: Position): Game
  {
    if g.coinBagPos == Some(p) then g.(coinCount := g.coinCount + g.coinBagValue, coinBagPos := None) else g
  }

  /** A time bonus at p is picked up and adds its seconds. */
  function TakeBonus(g: Game, p: Position): Game
  {
    if g.timeBonusPos == Some(p) then g.(timeLeft := g.timeLeft + g.timeBonusValue, timeBonusPos := None) else g
  }

  /** `checkCoinCollection` at p: coin, then bag, then bonus. */
  function Collect(g: Game, p: Position): Game
  {
    TakeBonus(TakeBag(TakeCoin(g, p), p), p)
  }

  /** Picking up a coin keeps the state consistent, counts it, removes
      exactly one copy of p and leaves no coin at p. */
  lemma TakeCoinEffect(g: Game, p: Position)
    requires Consistent(g)
    ensures var c := TakeCoin(g, p);
            && Consistent(c) && c.coinCount >= g.coinCount
            && (p in g.coinPositions ==> c.coinCount > g.coinCount)
            && multiset(c.coinPositions) ==
                 (if p in g.coinPositions then multiset(g.coinPositions) - multiset{p} else multiset(g.coinPositions))
            && p !in c.coinPositions
  {
    WithoutFirstDistinct(g.coinPositions, p);
    WithoutFirstRemovesOne(g.coinPositions, p);
  }

  /** Picking up a bag keeps the state consistent and the coins, never
      lowers the count and leaves no bag at p. */
  lemma TakeBagEffect(g: Game, p: Position)
    requires Consistent(g)
    ensures var b := TakeBag(g, p);
            && Consistent(b) && b.coinCount >= g.coinCount && b.coinPositions == g.coinPositions
            && b.coinBagPos != Some(p) && b.timeBonusPos == g.timeBonusPos
  {
  }

  /** Picking up a bonus keeps the state consistent, the coins and the
      count, and leaves no bonus at p. */
  lemma TakeBonusEffect(g: Game, p: Position)
    requires Consistent(g)
    ensures var b := TakeBonus(g, p);
            && Consistent(b) && b.coinCount == g.coinCount && b.coinPositions == g.coinPositions
            && b.coinBagPos == g.coinBagPos && b.timeBonusPos != Some(p)
  {
  }

  /** Collection keeps the state consistent, never lowers the coin count,
      removes exactly one copy of p from the coins when there is one, and
      leaves nothing to collect at p. */
  lemma CollectEffect(g: Game, p: Position)
    requires Consistent(g)
    ensures var h := Collect(g, p);
            && Consistent(h) && h.coinCount >= g.coinCount
            && (p in g.coinPositions ==> h.coinCount > g.coinCount)
            && multiset(h.coinPositions) ==
                 (if p in g.coinPositions then multiset(g.coinPositions) - multiset{p} else multiset(g.coinPositions))
            && p !in h.coinPositions && h.coinBagPos != Some(p) && h.timeBonusPos != Some(p)
  {
    TakeCoinEffect(g, p);
    TakeBagEffect(TakeCoin(g, p), p);
    TakeBonusEffect(TakeBag(TakeCoin(g, p), p), p);
  }

  /** Standing still collects nothing new: a second collection at the same
      cell changes nothing. */
  lemma CollectTwice(g: Game, p: Position)
    requires Consistent(g)
    ensures Collect(Collect(g, p), p) == Collect(g, p)
  {
    CollectEffect(g, p);
    WithoutFirstAbsent(Collect(g, p).coinPositions, p);
  }

  /** n collections at the same cell in a row, as n key listeners run them. */
  function CollectTimes(g: Game, p: Position, n: nat): Game
    decreases n
  {
    if n == 0 then g else CollectTimes(Collect(g, p), p, n - 1)
  }

  /** However many listeners respond to one key, the local effect is that
      of a single collection. */
  lemma {:induction false} CollectRepeated(g: Game, p: Position, n: nat)
    requires Consistent(g) && n >= 1
    ensures CollectTimes(g, p, n) == Collect(g, p)
    decreases n
  {
    if n > 1 {
      CollectEffect(g, p);
      CollectRepeated(Collect(g, p), p, n - 1);
      CollectTwice(g, p);
    }
  }

  /** `startNewGame` followed by `clearNetwork`: a fresh round, waiting for
      a maze. The coin list is kept until the next maze replaces it. */
  function NewRound(g: Game): Game
  {
    g.(coinCount := 0, coinsGenerated := false, gameStarted := true, coinBagPos := None, timeBonusPos := None,
       lastPowerUpSpawn := g.timeLeft, currentMaze := null, players := None, myPlayerId := None)
  }

  /** The settings of difficulty d applied to g. */
  function Configure(g: Game, d: Difficulty): Game
  {
    var s := SettingsFor(d);
    g.(difficulty := d, timeLeft := s.timeLeft, totalCoins := s.totalCoins, coinBagValue := s.coinBagValue,
       timeBonusValue := s.timeBonusValue, powerUpSpawnInterval := s.powerUpSpawnInterval)
  }

  /** A configured new round is consistent, running, with nothing collected,
      its full starting time and its spawn clock at that time. */
  lemma NewRoundEffect(g: Game, d: Difficulty)
    requires Consistent(g)
    ensures var h := NewRound(Configure(g, d));
            && Consistent(h) && h.gameStarted && h.coinCount == 0 && !h.coinsGenerated
            && h.timeLeft == SettingsFor(d).timeLeft && h.lastPowerUpSpawn == h.timeLeft
            && h.coinBagPos.None? && h.timeBonusPos.None? && h.currentMaze == null && h.myPlayerId.None?
  {
  }

  class Client {
    var playerName: string
    var myPlayerId: Option<string>
    var currentMaze: Maze?
    var players: Option<map<string, PlayerView>>
    var difficulty: Difficulty
    var coinPositions: seq<Position>
    var coinCount: int
    var totalCoins: nat
    var timeLeft: int
    var coinBagValue: nat
    var timeBonusValue: nat
    var powerUpSpawnInterval: int
    var lastPowerUpSpawn: int
    var gameStarted: bool
    var coinsGenerated: bool
    var coinBagPos: Option<Position>
    var timeBonusPos: Option<Position>
    var disconnectedIntentionally: bool

    function State(): Game
      reads this
    {
      Game(playerName, myPlayerId, currentMaze, players, difficulty, coinPositions, coinCount, totalCoins,
           timeLeft, coinBagValue, timeBonusValue, powerUpSpawnInterval, lastPowerUpSpawn, gameStarted,
           coinsGenerated, coinBagPos, timeBonusPos, disconnectedIntentionally)
    }

    ghost predicate Valid()
      reads this
    {
      Consistent(State())
    }

    /** The field initialisers: MEDIUM's settings, 60 seconds, no name yet
        (modelled as ""), nothing received, nothing running. */
    constructor ()
      ensures Valid()
      ensures State() == Game("", None, null, None, Medium, [], 0, 30, 60, 10, 10, 10, 0, false, false,
                              None, None, false)
    {
      playerName := "";
      myPlayerId := None;
      currentMaze := null;
      players := None;
      difficulty := Medium;
      coinPositions := [];
      coinCount := 0;
      totalCoins := 30;
      timeLeft := 60;
      coinBagValue := 10;
      timeBonusValue := 10;
      powerUpSpawnInterval := 10;
      lastPowerUpSpawn := 0;
      gameStarted := false;
      coinsGenerated := false;
      coinBagPos := None;
      timeBonusPos := None;
      disconnectedIntentionally := false;
    }

    /** A difficulty button: the table's settings always apply; a game
        starts only when a non-blank name was entered (None: the dialog
        was cancelled). */
    method SelectDifficulty(d: Difficulty, name: Option<string>)
      requires Valid()
      modifies this
      ensures Valid()
      ensures name.None? || Blank(name.value) ==> State() == Configure(old(State()), d)
      ensures name.Some? && !Blank(name.value) ==>
                State() == NewRound(Configure(old(State()), d).(playerName := name.value))
    {
      ApplySettings(d);
      if name.None? || Blank(name.value) {
        return;
      }
      playerName := name.value;
      StartNewGame();
    }

    /** The settings of the chosen level. */
    method ApplySettings(d: Difficulty)
      requires Valid()
      modifies this
      ensures Valid() && State() == Configure(old(State()), d)
    {
      assert Consistent(Configure(State(), d));
      difficulty := d;
      var s := SettingsFor(d);
      timeLeft := s.timeLeft;
      totalCoins := s.totalCoins;
      coinBagValue := s.coinBagValue;
      timeBonusValue := s.timeBonusValue;
      powerUpSpawnInterval := s.powerUpSpawnInterval;
    }

    method StartNewGame()
      requires Valid()
      modifies this
      ensures Valid() && State() == NewRound(old(State()))
    {
      ghost var g := NewRound(State());
      assert Consistent(g);
      coinCount := 0;
      coinsGenerated := false;
      gameStarted := true;
      coinBagPos := None;
      timeBonusPos := None;
      lastPowerUpSpawn := timeLeft;
      currentMaze := null;
      players := None;
      myPlayerId := None;
      assert State() == g;
    }

    /** `generateCoins`: replace the coins by `totalCoins` fresh ones taken
        from a prefix of the draws, and reset the count. */
    method GenerateCoins(draws: seq<Position>)
      requires Valid() && currentMaze != null && totalCoins <= |Gather(currentMaze, draws)|
      modifies this
      ensures Valid() && State() == old(State()).(coinPositions := coinPositions, coinCount := 0)
      ensures |coinPositions| == totalCoins
      ensures exists used :: 0 <= used <= |draws| && coinPositions == Gather(currentMaze, draws[..used])
      ensures forall i :: 0 <= i < |coinPositions| ==> currentMaze.IsFree(coinPositions[i])
    {
      var coins, used := PlaceCoins(currentMaze, draws, totalCoins);
      coinPositions := coins;
      coinCount := 0;
    }

    method CheckCoinCollection(playerPos: Position)
      requires Valid()
      modifies this
      ensures Valid() && State() == Collect(old(State()), playerPos)
    {
      ghost var g := State();
      CollectEffect(g, playerPos);
      TakeCoinAt(playerPos);
      TakeBagAt(playerPos);
      TakeBonusAt(playerPos);
    }

    /** The coin scan: the first coin at p is removed and counted. */
    method TakeCoinAt(p: Position)
      modifies this
      ensures State() == TakeCoin(old(State()), p)
    {
      var found := IndexOf(coinPositions, p);
      if found.Some? {
        var i := found.value;
        WithoutFirstAt(coinPositions, p, i);
        coinCount := coinCount + 1;
        coinPositions := coinPositions[..i] + coinPositions[i + 1..];
      }
    }

    /** The bag check at p. */
    method TakeBagAt(p: Position)
      modifies this
      ensures State() == TakeBag(old(State()), p)
    {
      if coinBagPos == Some(p) {
        coinCount := coinCount + coinBagValue;
        coinBagPos := None;
      }
    }

    /** The bonus check at p. */
    method TakeBonusAt(p: Position)
      modifies this
      ensures State() == TakeBonus(old(State()), p)
    {
      if timeBonusPos == Some(p) {
        timeLeft := timeLeft + timeBonusValue;
        timeBonusPos := None;
      }
    }

    /** `spawnCoinBag`: the bag goes to the first free draw; without a maze
        nothing happens. */
    method SpawnCoinBag(draws: seq<Position>)
      requires Valid()
      requires currentMaze != null ==> exists k :: 0 <= k < |draws| && currentMaze.IsFree(draws[k])
      modifies this
      ensures Valid() && State() == old(State()).(coinBagPos := coinBagPos)
      ensures currentMaze == null ==> coinBagPos == old(coinBagPos)
      ensures currentMaze != null ==> coinBagPos.Some? && FirstFree(currentMaze, draws, coinBagPos.value)
    {
      if currentMaze == null {
        return;
      }
      var pos, used := currentMaze.SampleFree(draws);
      coinBagPos := Some(pos);
    }

    /** `spawnTimeBonus`: the bonus goes to the first free draw; without a
        maze nothing happens. */
    method SpawnTimeBonus(draws: seq<Position>)
      requires Valid()
      requires currentMaze != null ==> exists k :: 0 <= k < |draws| && currentMaze.IsFree(draws[k])
      modifies this
      ensures Valid() && State() == old(State()).(timeBonusPos := timeBonusPos)
      ensures currentMaze == null ==> timeBonusPos == old(timeBonusPos)
      ensures currentMaze != null ==> timeBonusPos.Some? && FirstFree(currentMaze, draws, timeBonusPos.value)
    {
      if currentMaze == null {
        return;
      }
      var pos, used := currentMaze.SampleFree(draws);
      timeBonusPos := Some(pos);
    }

    /** The bag's ten-second timer: an uncollected bag disappears. */
    method ExpireCoinBag()
      requires Valid()
      modifies this
      ensures Valid() && State() == old(State()).(coinBagPos := None)
    {
      coinBagPos := None;
    }

    /** The bonus's ten-second timer: an uncollected bonus disappears. */
    method ExpireTimeBonus()
      requires Valid()
      modifies this
      ensures Valid() && State() == old(State()).(timeBonusPos := None)
    {
      timeBonusPos := None;
    }

    /** One second of the game timer: count down, spawn the missing
        power-ups once a full interval has passed since the last spawn, and
        end the game when the time is up. */
    method Tick(bagDraws: seq<Position>, bonusDraws: seq<Position>)
      requires Valid()
      requires currentMaze != null ==>
                 (exists k :: 0 <= k < |bagDraws| && currentMaze.IsFree(bagDraws[k])) &&
                 (exists k :: 0 <= k < |bonusDraws| && currentMaze.IsFree(bonusDraws[k]))
      modifies this
      ensures Valid()
      ensures !old(gameStarted) ==> State() == old(State())
      ensures old(gameStarted) ==>
                var t := old(timeLeft) - 1;
                var due := old(lastPowerUpSpawn) - t >= old(powerUpSpawnInterval);
                && State() == old(State()).(timeLeft := t,
                                            lastPowerUpSpawn := if due then t else old(lastPowerUpSpawn),
                                            gameStarted := t > 0,
                                            coinBagPos := coinBagPos, timeBonusPos := timeBonusPos)
                && (due && old(coinBagPos).None? && currentMaze != null ==>
                      coinBagPos.Some? && FirstFree(currentMaze, bagDraws, coinBagPos.value))
                && (!(due && old(coinBagPos).None?) || currentMaze == null ==> coinBagPos == old(coinBagPos))
                && (due && old(timeBonusPos).None? && currentMaze != null ==>
                      timeBonusPos.Some? && FirstFree(currentMaze, bonusDraws, timeBonusPos.value))
                && (!(due && old(timeBonusPos).None?) || currentMaze == null ==> timeBonusPos == old(timeBonusPos))
    {
      if !gameStarted {
        return;
      }
      ghost var g := State();
      timeLeft := timeLeft - 1;
      assert State() == g.(timeLeft := g.timeLeft - 1) && Valid();
      if lastPowerUpSpawn - timeLeft >= powerUpSpawnInterval {
        SpawnMissing(bagDraws, bonusDraws);
        lastPowerUpSpawn := timeLeft;
      }
      if timeLeft <= 0 {
        gameStarted := false;
      }
    }

    /** The spawn step of the game timer: whichever power-up is not on the
        board is placed. */
    method SpawnMissing(bagDraws: seq<Position>, bonusDraws: seq<Position>)
      requires Valid()
      requires currentMaze != null ==>
                 (exists k :: 0 <= k < |bagDraws| && currentMaze.IsFree(bagDraws[k])) &&
                 (exists k :: 0 <= k < |bonusDraws| && currentMaze.IsFree(bonusDraws[k]))
      modifies this
      ensures Valid()
      ensures State() == old(State()).(coinBagPos := coinBagPos, timeBonusPos := timeBonusPos)
      ensures old(coinBagPos).None? && currentMaze != null ==>
                coinBagPos.Some? && FirstFree(currentMaze, bagDraws, coinBagPos.value)
      ensures old(coinBagPos).Some? || currentMaze == null ==> coinBagPos == old(coinBagPos)
      ensures old(timeBonusPos).None? && currentMaze != null ==>
                timeBonusPos.Some? && FirstFree(currentMaze, bonusDraws, timeBonusPos.value)
      ensures old(timeBonusPos).Some? || currentMaze == null ==> timeBonusPos == old(timeBonusPos)
    {
      if coinBagPos.None? {
        SpawnCoinBag(bagDraws);
      }
      if timeBonusPos.None? {
        SpawnTimeBonus(bonusDraws);
      }
    }

    /** One key listener's response to an arrow key while a game runs and
        the connection is up: its command goes to the server (I/O, left
        out) and the player's cell in the last received map is checked for
        collectibles. Every round adds one more listener, so from round n
        on a key runs this n times. */
    method ArrowKey(connected: bool)
      requires Valid()
      modifies this
      ensures Valid()
      ensures var g := old(State());
              if g.gameStarted && connected && g.players.Some? && g.myPlayerId.Some? &&
                 g.myPlayerId.value in g.players.value
              then State() == Collect(g, g.players.value[g.myPlayerId.value].position)
              else State() == g
    {
      if !gameStarted || !connected {
        return;
      }
      if players.Some? {
        CollectAtOwnCell(players.value);
      }
    }

    /** The reading loop ended with an error: unless the client itself
        closed the connection after a win, the round is over. */
    method ConnectionLost()
      requires Valid()
      modifies this
      ensures Valid()
      ensures State() == if old(disconnectedIntentionally) then old(State()) else old(State()).(gameStarted := false)
    {
      if !disconnectedIntentionally {
        gameStarted := false;
      }
    }

    /** The effect of a maze message: the maze is replaced (a new round or
        an earthquake); only the first maze of a round brings coins. */
    twostate predicate MazeReceived(maze: Maze, coinDraws: seq<Position>)
      reads this, maze, maze.walls
    {
      && maze.Shape()
      && if old(coinsGenerated) then State() == old(State()).(currentMaze := maze)
         else
           && State() == old(State()).(currentMaze := maze, coinsGenerated := true,
                                       coinPositions := coinPositions, coinCount := 0)
           && |coinPositions| == totalCoins
           && (exists used :: 0 <= used <= |coinDraws| && coinPositions == Gather(maze, coinDraws[..used]))
           && (forall i :: 0 <= i < |coinPositions| ==> maze.IsFree(coinPositions[i]))
    }

    /** The effect of a player-map message: the map is stored, the own id is
        looked up while unknown, and anything at the own cell is collected. */
    twostate predicate PlayersReceived(updatedPlayers: map<string, PlayerView>, order: seq<string>)
      requires IsOrder(order, updatedPlayers)
      reads this
    {
      && (old(myPlayerId).Some? ==> myPlayerId == old(myPlayerId))
      && (old(myPlayerId).None? ==> Discovered(updatedPlayers, order, old(playerName), myPlayerId))
      && var g := old(State()).(players := Some(updatedPlayers), myPlayerId := myPlayerId);
         State() == if myPlayerId.Some? && myPlayerId.value in updatedPlayers
                    then Collect(g, updatedPlayers[myPlayerId.value].position)
                    else g
    }

    method ReceiveMaze(maze: Maze, coinDraws: seq<Position>)
      requires Valid() && maze.Shape()
      requires !coinsGenerated ==> totalCoins <= |Gather(maze, coinDraws)|
      modifies this
      ensures Valid() && MazeReceived(maze, coinDraws)
    {
      currentMaze := maze;
      if !coinsGenerated {
        GenerateCoins(coinDraws);
        coinsGenerated := true;
      }
    }

    method ReceivePlayers(updatedPlayers: map<string, PlayerView>, order: seq<string>)
      requires Valid() && IsOrder(order, updatedPlayers)
      modifies this
      ensures Valid() && PlayersReceived(updatedPlayers, order)
    {
      players := Some(updatedPlayers);
      LearnId(updatedPlayers, order);
      ghost var g := State();
      assert g == old(State()).(players := Some(updatedPlayers), myPlayerId := myPlayerId);
      assert Consistent(g);
      CollectAtOwnCell(updatedPlayers);
    }

    /** Collection at the own cell of a player map, when the own id is in it. */
    method CollectAtOwnCell(ps: map<string, PlayerView>)
      requires Valid()
      modifies this
      ensures Valid()
      ensures State() == if myPlayerId.Some? && myPlayerId.value in ps
                         then Collect(old(State()), ps[myPlayerId.value].position)
                         else old(State())
    {
      if myPlayerId.Some? && myPlayerId.value in ps {
        CheckCoinCollection(ps[myPlayerId.value].position);
      }
    }

    /** While the own id is unknown, look for the own name in the map. */
    method LearnId(updatedPlayers: map<string, PlayerView>, order: seq<string>)
      requires IsOrder(order, updatedPlayers)
      modifies this
      ensures State() == old(State()).(myPlayerId := myPlayerId)
      ensures old(myPlayerId).Some? ==> myPlayerId == old(myPlayerId)
      ensures old(myPlayerId).None? ==> Discovered(updatedPlayers, order, playerName, myPlayerId)
    {
      if myPlayerId.None? {
        myPlayerId := DiscoverId(updatedPlayers, order, playerName);
      }
    }

    /** One message from the server; only text starting with "WINNER" is
        acted on, and it ends the round and marks the coming disconnect as
        intended. */
    method HandleServerMessage(message: ServerMessage, coinDraws: seq<Position>)
      requires Valid()
      requires message.MazeMessage? ==>
                 message.maze.Shape() &&
                 (!coinsGenerated ==> totalCoins <= |Gather(message.maze, coinDraws)|)
      requires message.PlayersMessage? ==> IsOrder(message.order, message.players)
      modifies this
      ensures Valid()
      ensures message.MazeMessage? ==> MazeReceived(message.maze, coinDraws)
      ensures message.PlayersMessage? ==> PlayersReceived(message.players, message.order)
      ensures message.TextMessage? && AnnouncesWinner(message.text) ==>
                State() == old(State()).(gameStarted := false, disconnectedIntentionally := true)
      ensures (message.TextMessage? && !AnnouncesWinner(message.text)) || message.OtherMessage? ==>
                State() == old(State())
    {
      match message
      case MazeMessage(maze) =>
        ReceiveMaze(maze, coinDraws);
      case PlayersMessage(updatedPlayers, order) =>
        ReceivePlayers(updatedPlayers, order);
      case TextMessage(text) =>
        if AnnouncesWinner(text) {
          gameStarted := false;
          disconnectedIntentionally := true;
        }
      case OtherMessage =>
    }
  }
}
