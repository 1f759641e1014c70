/** The master's game rules: argument checks, the initial board fill, the
    placement of players and the application of one move to the game state. */
module Master {
  import opened Common
  import Shm

  /** One player record of the game state. Counters are unbounded here. */
  datatype Player = Player(
    name: string,
    score: nat,
    invalidMoves: nat,
    validMoves: nat,
    x: nat,
    y: nat,
    pid: int,
    isBlocked: bool)

  /** A player record as the zero-filled region holds it. */
  const BLANK_PLAYER := Player("", 0, 0, 0, 0, 0, 0, false)

  function Clamp(v: int, lo: int, hi: int): (r: int)
    ensures lo <= hi ==> lo <= r <= hi
    ensures lo <= v <= hi ==> r == v
    ensures v < lo ==> r == lo
    ensures lo <= hi < v ==> r == hi
  {
    if v < lo then lo else if v > hi then hi else v
  }

  /** Outcome of the argument checks: the board dimensions to use, or the
      exit code the master dies with. */
  datatype ArgsCheck = Accepted(width: int, height: int) | Rejected(exitCode: int)

  function ValidateGameArgs(width: int, height: int, numPlayers: int): (r: ArgsCheck)
    ensures r.Rejected? <==> numPlayers < 1
    ensures r.Rejected? ==> r.exitCode == ERROR_INVALID_ARGS
    ensures r.Accepted? ==> MIN_BOARD_SIZE <= r.width <= MAX_BOARD_SIZE
    ensures r.Accepted? ==> MIN_BOARD_SIZE <= r.height <= MAX_BOARD_SIZE
    ensures r.Accepted? && MIN_BOARD_SIZE <= width <= MAX_BOARD_SIZE ==> r.width == width
    ensures r.Accepted? && MIN_BOARD_SIZE <= height <= MAX_BOARD_SIZE ==> r.height == height
  {
    var w := Clamp(width, MIN_BOARD_SIZE, MAX_BOARD_SIZE);
    var h := Clamp(height, MIN_BOARD_SIZE, MAX_BOARD_SIZE);
    if numPlayers < 1 then Rejected(ERROR_INVALID_ARGS) else Accepted(w, h)
  }

  /** An argument that the -p option stops at. An empty argument does not
      stop it: its first byte is the terminating NUL, not '-'. */
  predicate StartsWithDash(arg: string)
  {
    |arg| > 0 && arg[0] == '-'
  }

  /** The -p option at argv[i]: collects the following arguments that do not
      start with '-' until MAX_PLAYERS binaries are known. Returns the index
      of the last argument consumed and the binaries collected so far. */
  method CollectPlayerBins(argv: seq<string>, i: nat, bins: seq<string>)
    returns (last: nat, collected: seq<string>)
    requires i < |argv| && |bins| <= MAX_PLAYERS
    ensures i <= last < |argv|
    ensures collected == bins + argv[i + 1..last + 1]
    ensures |collected| <= MAX_PLAYERS
    ensures forall j :: i < j <= last ==> !StartsWithDash(argv[j])
    ensures last + 1 == |argv| || |collected| == MAX_PLAYERS || StartsWithDash(argv[last + 1])
  {
    last, collected := i, bins;
    while last + 1 < |argv| && |collected| < MAX_PLAYERS && !StartsWithDash(argv[last + 1])
      invariant i <= last < |argv|
      invariant collected == bins + argv[i + 1..last + 1]
      invariant |collected| <= MAX_PLAYERS
      invariant forall j :: i < j <= last ==> !StartsWithDash(argv[j])
    {
      last := last + 1;
      collected := collected + [argv[last]];
    }
  }

  /** The reward a pseudo-random draw gives a cell. */
  function RewardOf(draw: nat): (value: int)
    ensures CellIsFree(value)
  {
    draw % (MAX_REWARD - MIN_REWARD + 1) + MIN_REWARD
  }

  /** Starting column of player i among n players on a board of width w. */
  function StartX(i: nat, w: nat, n: nat): (x: nat)
    requires w > 0
    ensures x < w
  {
    Clamp((i + 1) * w / (n + 1), 0, w - 1)
  }

  /** Starting row of player i: a third of the way down for odd i, two
      thirds for even i. */
  function StartY(i: nat, h: nat): (y: nat)
    requires h > 0
    ensures y < h
  {
    Clamp(if i % 2 == 1 then h / 3 else (2 * h) / 3, 0, h - 1)
  }

  /** Index of the starting cell of player i. */
  function StartIdx(i: nat, w: nat, h: nat, n: nat): (k: nat)
    requires w > 0 && h > 0
    ensures k < w * h
  {
    IdxInRange(StartX(i, w, n), StartY(i, h), w, h);
    Idx(StartX(i, w, n), StartY(i, h), w)
  }

  predicate IsStartCell(k: int, w: nat, h: nat, n: nat)
    requires w > 0 && h > 0
  {
    exists i: nat :: i < n && StartIdx(i, w, h, n) == k
  }

  /** The name place_players gives player i: "P" followed by its index. */
  function PlayerLabel(i: nat): (name: string)
    requires i < 10
    ensures |name| == 2 && name[0] == 'P' && '0' <= name[1] <= '9'
    ensures name[1] as int - '0' as int == i
  {
    ['P', ('0' as int + i) as char]
  }

  lemma DivBelow(a: nat, d: nat, w: nat)
    requires d > 0 && a < d * w
    ensures a / d < w
  {
    if a / d >= w {
      MulLeq(w, a / d, d);
      assert false;
    }
  }

  lemma DivGap(a: nat, c: nat, d: nat)
    requires d > 0 && c >= a + d
    ensures a / d < c / d
  {
    if c / d <= a / d {
      MulLeq(c / d, a / d, d);
      assert false;
    }
  }

  /** On a board wider than the number of players, players start in strictly
      increasing columns, hence on distinct cells. */
  lemma {:induction false} StartsDistinct(i: nat, j: nat, w: nat, h: nat, n: nat)
    requires i < j < n && n < w && h > 0
    ensures StartX(i, w, n) < StartX(j, w, n)
    ensures StartIdx(i, w, h, n) != StartIdx(j, w, h, n)
  {
    MulLeq(i + 1, n, w);
    MulLeq(j + 1, n, w);
    assert n * w < (n + 1) * w;
    DivBelow((i + 1) * w, n + 1, w);
    DivBelow((j + 1) * w, n + 1, w);
    MulLeq(1, j - i, w);
    assert (j + 1) * w == (i + 1) * w + (j - i) * w;
    DivGap((i + 1) * w, (j + 1) * w, n + 1);
    if StartIdx(i, w, h, n) == StartIdx(j, w, h, n) {
      IdxInjective(StartX(i, w, n), StartY(i, h), StartX(j, w, n), StartY(j, h), w, h);
      assert false;
    }
  }

  /** The first n players all stand inside the board. */
  predicate PlayersInBounds(ps: seq<Player>, n: nat, w: int, h: int)
  {
    n <= |ps| && forall i :: 0 <= i < n ==> IsInside(ps[i].x, ps[i].y, w, h)
  }

  /** Every cell is a free reward cell or is captured by one of the n
      registered players. */
  predicate BoardWellFormed(board: seq<int>, n: nat)
  {
    forall k :: 0 <= k < |board| ==>
      CellIsFree(board[k]) || (CellIsCaptured(board[k]) && GetCellOwner(board[k]) < n)
  }

  /** The cell a player would step to in the given direction. */
  function Destination(p: Player, dir: int): (d: (int, int))
    ensures -1 <= d.0 - p.x <= 1 && -1 <= d.1 - p.y <= 1
    ensures d != (p.x, p.y) <==> 0 <= dir <= 7
  {
    var off := DirectionOffset(dir);
    (p.x + off.0, p.y + off.1)
  }

  /** The three checks of apply_move: a valid direction, a destination on
      the board, and a free destination cell. */
  predicate MoveAllowed(board: seq<int>, w: nat, h: nat, p: Player, dir: byte)
    requires |board| == w * h
  {
    var (nx, ny) := Destination(p, dir);
    IsValidDirection(dir) && IsInside(nx, ny, w, h) &&
    (IdxInRange(nx, ny, w, h); CellIsFree(board[Idx(nx, ny, w)]))
  }

  datatype MoveResult = MoveResult(applied: bool, player: Player, board: seq<int>)

  /** apply_move on values: the move of player pidIdx (record p) in
      direction dir on the given board. */
  function Move(board: seq<int>, w: nat, h: nat, p: Player, pidIdx: nat, dir: byte): (r: MoveResult)
    requires |board| == w * h
    ensures r.applied <==> MoveAllowed(board, w, h, p, dir)
    ensures |r.board| == |board|
    ensures r.player.validMoves + r.player.invalidMoves == p.validMoves + p.invalidMoves + 1
    ensures r.applied ==> r.player.validMoves == p.validMoves + 1
    ensures !r.applied ==> r.player.invalidMoves == p.invalidMoves + 1
    ensures r.player.score >= p.score
    ensures r.player.name == p.name && r.player.pid == p.pid && r.player.isBlocked == p.isBlocked
  {
    if !IsValidDirection(dir) then
      MoveResult(false, p.(invalidMoves := p.invalidMoves + 1), board)
    else
      var (nx, ny) := Destination(p, dir);
      if !IsInside(nx, ny, w, h) then
        MoveResult(false, p.(invalidMoves := p.invalidMoves + 1), board)
      else
        IdxInRange(nx, ny, w, h);
        var k := Idx(nx, ny, w);
        if !CellIsFree(board[k]) then
          MoveResult(false, p.(invalidMoves := p.invalidMoves + 1), board)
        else
          MoveResult(true,
                     p.(x := nx, y := ny, score := p.score + board[k], validMoves := p.validMoves + 1),
                     board[k := PlayerToCellValue(pidIdx)])
  }

  /** A rejected move only counts one more invalid move: position, score,
      valid moves and the board are untouched. */
  lemma MoveRejected(board: seq<int>, w: nat, h: nat, p: Player, pidIdx: nat, dir: byte)
    requires |board| == w * h
    requires !MoveAllowed(board, w, h, p, dir)
    ensures Move(board, w, h, p, pidIdx, dir) == MoveResult(false, p.(invalidMoves := p.invalidMoves + 1), board)
  {
  }

  /** An accepted move steps onto the destination, scores its reward,
      counts one valid move and captures that one cell, nothing else. */
  lemma MoveAccepted(board: seq<int>, w: nat, h: nat, p: Player, pidIdx: nat, dir: byte)
    requires |board| == w * h
    requires MoveAllowed(board, w, h, p, dir)
    ensures var (nx, ny) := Destination(p, dir);
            var r := Move(board, w, h, p, pidIdx, dir);
            IsInside(nx, ny, w, h) &&
            0 <= Idx(nx, ny, w) < |board| &&
            CellIsFree(board[Idx(nx, ny, w)]) &&
            r.player == p.(x := nx, y := ny, score := p.score + board[Idx(nx, ny, w)],
                           validMoves := p.validMoves + 1) &&
            r.board == board[Idx(nx, ny, w) := PlayerToCellValue(pidIdx)]
  {
    var (nx, ny) := Destination(p, dir);
    IdxInRange(nx, ny, w, h);
  }

  /** A move keeps the mover on the board, keeps every cell free or owned by
      a registered player, and never frees a captured cell. */
  lemma MoveKeepsInvariants(board: seq<int>, w: nat, h: nat, p: Player, pidIdx: nat, dir: byte, n: nat)
    requires |board| == w * h && pidIdx < n
    requires IsInside(p.x, p.y, w, h) && BoardWellFormed(board, n)
    ensures var r := Move(board, w, h, p, pidIdx, dir);
            IsInside(r.player.x, r.player.y, w, h) &&
            BoardWellFormed(r.board, n) &&
            forall k :: 0 <= k < |board| && CellIsCaptured(board[k]) ==> r.board[k] == board[k]
  {
    if MoveAllowed(board, w, h, p, dir) {
      MoveAccepted(board, w, h, p, pidIdx, dir);
    }
  }

  /** The game state the master writes and everybody else reads. */
  class GameState {
    const width: nat
    const height: nat
    var numPlayers: nat
    const players: array<Player>
    var finished: bool
    /** Row-major board; a separate array stands for the trailing buffer. */
    const board: array<int>

    ghost predicate Valid()
      reads this
    {
      width > 0 && height > 0 &&
      players.Length == MAX_PLAYERS &&
      board.Length == width * height &&
      numPlayers <= MAX_PLAYERS
    }

    /** The state as the region's owner leaves it after mapping: the image
        Shm.FreshState describes, dimensions stamped and everything else zero. */
    constructor (w: nat, h: nat)
      requires w > 0 && h > 0
      ensures Valid() && fresh(players) && fresh(board)
      ensures width == w && height == h && numPlayers == 0 && !finished
      ensures Shm.StateImage(width, height, numPlayers, finished, board[..]) == Shm.FreshState(w, h)
      ensures players[..] == seq(MAX_PLAYERS, _ => BLANK_PLAYER)
    {
      width, height := w, h;
      numPlayers := 0;
      finished := false;
      players := new Player[MAX_PLAYERS](_ => BLANK_PLAYER);
      board := new int[w * h](_ => 0);
    }

    /** Fills every cell, row by row, with the reward of the next draw of the
        seeded generator: cell k receives the k-th draw. */
    method InitBoard(draws: seq<nat>)
      requires Valid() && |draws| >= width * height
      modifies board
      ensures forall k :: 0 <= k < board.Length ==> board[k] == RewardOf(draws[k])
      ensures forall k :: 0 <= k < board.Length ==> CellIsFree(board[k])
    {
      var y, base := 0, 0;
      while y < height
        invariant 0 <= y <= height
        invariant base == y * width && base <= board.Length
        invariant forall k :: 0 <= k < base ==> board[k] == RewardOf(draws[k])
      {
        MulLeq(y + 1, height, width);
        assert base + width == (y + 1) * width <= board.Length;
        FillRow(base, draws);
        y, base := y + 1, base + width;
      }
    }

    /** The inner loop of InitBoard: fills the row that starts at index base
        and leaves every earlier cell alone. */
    method FillRow(base: nat, draws: seq<nat>)
      requires base + width <= board.Length && |draws| >= board.Length
      modifies board
      ensures forall k :: 0 <= k < base ==> board[k] == old(board[k])
      ensures forall k :: base <= k < base + width ==> board[k] == RewardOf(draws[k])
    {
      var x := 0;
      while x < width
        invariant 0 <= x <= width
        invariant forall k :: 0 <= k < base ==> board[k] == old(board[k])
        invariant forall k :: base <= k < base + x ==> board[k] == RewardOf(draws[k])
      {
        board[base + x] := RewardOf(draws[base + x]);
        x := x + 1;
      }
    }

    /** Puts each registered player on its starting cell with zeroed
        counters, and marks that cell as captured by the player. */
    method PlacePlayers()
      requires Valid()
      modifies players, board
      ensures forall i :: 0 <= i < numPlayers ==>
        players[i] == old(players[i]).(name := PlayerLabel(i), x := StartX(i, width, numPlayers),
                                       y := StartY(i, height), score := 0, validMoves := 0,
                                       invalidMoves := 0, isBlocked := false)
      ensures forall i :: numPlayers <= i < MAX_PLAYERS ==> players[i] == old(players[i])
      ensures forall k :: 0 <= k < board.Length && !IsStartCell(k, width, height, numPlayers) ==>
        board[k] == old(board[k])
      ensures forall k :: 0 <= k < board.Length && IsStartCell(k, width, height, numPlayers) ==>
        CellIsCaptured(board[k]) && GetCellOwner(board[k]) < numPlayers
      ensures numPlayers < width ==> forall i: nat :: i < numPlayers ==>
        board[StartIdx(i, width, height, numPlayers)] == PlayerToCellValue(i)
    {
      var n := numPlayers;
      for i := 0 to n
        invariant forall j :: 0 <= j < i ==>
          players[j] == old(players[j]).(name := PlayerLabel(j), x := StartX(j, width, n),
                                         y := StartY(j, height), score := 0, validMoves := 0,
                                         invalidMoves := 0, isBlocked := false)
        invariant forall j :: i <= j < MAX_PLAYERS ==> players[j] == old(players[j])
        invariant forall k :: 0 <= k < board.Length && !(exists j: nat :: j < i && StartIdx(j, width, height, n) == k) ==>
          board[k] == old(board[k])
        invariant forall j: nat :: j < i ==>
          CellIsCaptured(board[StartIdx(j, width, height, n)]) &&
          GetCellOwner(board[StartIdx(j, width, height, n)]) < n
        invariant n < width ==> forall j: nat :: j < i ==>
          board[StartIdx(j, width, height, n)] == PlayerToCellValue(j)
      {
        if n < width {
          forall j: nat | j < i ensures StartIdx(j, width, height, n) != StartIdx(i, width, height, n) {
            StartsDistinct(j, i, width, height, n);
          }
        }
        PlaceOne(i);
      }
    }

    /** One iteration of place_players: player i gets its label, its start
        cell and fresh counters, and its start cell is marked as captured. */
    method PlaceOne(i: nat)
      requires Valid() && i < numPlayers
      modifies players, board
      ensures players[i] == old(players[i]).(name := PlayerLabel(i), x := StartX(i, width, numPlayers),
                                             y := StartY(i, height), score := 0, validMoves := 0,
                                             invalidMoves := 0, isBlocked := false)
      ensures forall j :: 0 <= j < MAX_PLAYERS && j != i ==> players[j] == old(players[j])
      ensures board[StartIdx(i, width, height, numPlayers)] == PlayerToCellValue(i)
      ensures forall k :: 0 <= k < board.Length && k != StartIdx(i, width, height, numPlayers) ==>
        board[k] == old(board[k])
    {
      var x := StartX(i, width, numPlayers);
      var y := StartY(i, height);
      players[i] := players[i].(name := PlayerLabel(i), x := x, y := y, score := 0,
                                validMoves := 0, invalidMoves := 0, isBlocked := false);
      board[StartIdx(i, width, height, numPlayers)] := PlayerToCellValue(i);
    }

    predicate InBounds()
      reads this, players
    {
      PlayersInBounds(players[..], numPlayers, width, height)
    }

    predicate WellFormed()
      reads this, board
    {
      BoardWellFormed(board[..], numPlayers)
    }

    /** The initialisation the master performs under the writer lock before
        any agent starts: register n players, fill the board, place them. */
    method SetUp(n: nat, draws: seq<nat>)
      requires Valid() && 1 <= n <= MAX_PLAYERS && |draws| >= width * height
      modifies this, players, board
      ensures Valid() && numPlayers == n && !finished
      ensures InBounds() && WellFormed()
      ensures forall i :: 0 <= i < n ==>
        players[i].score == 0 && players[i].validMoves == 0 &&
        players[i].invalidMoves == 0 && !players[i].isBlocked
      ensures forall k :: 0 <= k < board.Length && !IsStartCell(k, width, height, n) ==>
        board[k] == RewardOf(draws[k])
      ensures n < width ==> forall i: nat :: i < n ==>
        board[StartIdx(i, width, height, n)] == PlayerToCellValue(i)
    {
      numPlayers := n;
      finished := false;
      InitBoard(draws);
      PlacePlayers();
    }

    /** apply_move: the caller holds the writer lock. Changes the record of
        player pidIdx and at most one board cell, as Move describes. */
    method ApplyMove(pidIdx: nat, dir: byte) returns (applied: bool)
      requires Valid() && pidIdx < numPlayers
      modifies players, board
      ensures var m := Move(old(board[..]), width, height, old(players[pidIdx]), pidIdx, dir);
              applied == m.applied &&
              players[..] == old(players[..])[pidIdx := m.player] &&
              board[..] == m.board
    {
      var p := players[pidIdx];
      if !IsValidDirection(dir) {
        players[pidIdx] := p.(invalidMoves := p.invalidMoves + 1);
        return false;
      }
      var (dx, dy) := DirectionOffset(dir);
      var nx := p.x + dx;
      var ny := p.y + dy;
      if !IsInside(nx, ny, width, height) {
        players[pidIdx] := p.(invalidMoves := p.invalidMoves + 1);
        return false;
      }
      IdxInRange(nx, ny, width, height);
      var k := Idx(nx, ny, width);
      var cell := board[k];
      if !CellIsFree(cell) {
        players[pidIdx] := p.(invalidMoves := p.invalidMoves + 1);
        return false;
      }
      players[pidIdx] := p.(x := nx, y := ny, score := p.score + cell, validMoves := p.validMoves + 1);
      board[k] := PlayerToCellValue(pidIdx);
      return true;
    }
  }
}
