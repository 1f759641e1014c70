/** Board and direction primitives shared by the master, the agents and the
    shared-region manager: constants, the row-major cell index, the cell
    encoding (free reward cell or captured cell) and the 8-way compass. */
module Common {

  const NUM_DIRECTIONS := 8

  const MAX_PLAYERS := 9
  const MAX_NAME_LEN := 16
  const MIN_BOARD_SIZE := 10
  const MAX_BOARD_SIZE := 100

  const DEFAULT_DELAY_MS := 200
  const DEFAULT_TIMEOUT_S := 100

  const MIN_REWARD := 1
  const MAX_REWARD := 9
  const EMPTY_CELL := 0

  // Exit codes of the master.
  const SUCCESS := 0
  const ERROR_INVALID_ARGS := -1
  const ERROR_SHM := -2
  const ERROR_PIPE := -3
  const ERROR_FORK := -4
  const ERROR_SELECT := -5
  const ERROR_SHM_ATTACH := -6

  /** sizeof(game_state_t) on an LP64 Linux target: two 16-bit dimensions, a
      32-bit player count, nine 40-byte player records and the finished flag,
      padded to the alignment of the trailing int board. */
  const STATE_HEADER_SIZE := 372
  /** sizeof(int), the size of one board cell. */
  const CELL_SIZE := 4
  /** sizeof(game_sync_t) with glibc's 32-byte sem_t: five semaphores, the
      reader count (padded) and nine turn gates. */
  const SYNC_REGION_SIZE := 456

  /** An unsigned char, the unit an agent writes per turn. */
  type byte = b: int | 0 <= b < 256

  /** An unsigned short, the type of the board dimensions in the header. */
  type ushort = u: int | 0 <= u < 0x1_0000

  datatype Option<T> = None | Some(value: T)

  /** Row-major index of cell (x, y) on a board of the given width. */
  function Idx(x: int, y: int, width: int): int
  {
    y * width + x
  }

  predicate IsInside(x: int, y: int, width: int, height: int)
  {
    0 <= x < width && 0 <= y < height
  }

  /** Every cell inside the board has an index inside the board buffer. */
  lemma IdxInRange(x: int, y: int, width: int, height: int)
    requires IsInside(x, y, width, height)
    ensures 0 <= Idx(x, y, width) < width * height
  {
    assert y * width <= (height - 1) * width by {
      MulLeq(y, height - 1, width);
    }
  }

  lemma MulLeq(a: int, b: int, c: nat)
    requires a <= b
    ensures a * c <= b * c
  {
  }

  /** Distinct cells inside the board have distinct indices. */
  lemma IdxInjective(x1: int, y1: int, x2: int, y2: int, width: int, height: int)
    requires IsInside(x1, y1, width, height) && IsInside(x2, y2, width, height)
    requires Idx(x1, y1, width) == Idx(x2, y2, width)
    ensures x1 == x2 && y1 == y2
  {
    if y1 < y2 {
      MulLeq(y1 + 1, y2, width);
      assert false;
    } else if y2 < y1 {
      MulLeq(y2 + 1, y1, width);
      assert false;
    }
  }

  /** A free cell holds an unclaimed reward in [MIN_REWARD, MAX_REWARD]. */
  predicate CellIsFree(value: int)
  {
    MIN_REWARD <= value <= MAX_REWARD
  }

  /** A captured cell holds minus the index of its owner. */
  predicate CellIsCaptured(value: int)
  {
    value <= 0
  }

  /** The owner index of a captured cell, or -1 for any other value. */
  function GetCellOwner(value: int): (owner: int)
    ensures owner >= -1
    ensures owner == -1 <==> !CellIsCaptured(value)
  {
    if CellIsCaptured(value) then -value else -1
  }

  /** The value a cell takes when the given player captures it. */
  function PlayerToCellValue(player: int): (value: int)
    ensures player >= 0 ==> CellIsCaptured(value)
    ensures player > 0 ==> value != EMPTY_CELL
  {
    -player
  }

  /** Owner index and capture value are inverse to each other. */
  lemma OwnerRoundTrip(player: int, value: int)
    ensures player >= 0 ==> GetCellOwner(PlayerToCellValue(player)) == player
    ensures CellIsCaptured(value) ==> PlayerToCellValue(GetCellOwner(value)) == value
  {
  }

  /** No value is both free and captured; values above MAX_REWARD are neither. */
  lemma FreeAndCapturedDisjoint(value: int)
    ensures !(CellIsFree(value) && CellIsCaptured(value))
    ensures value > MAX_REWARD ==> !CellIsFree(value) && !CellIsCaptured(value)
    ensures CellIsFree(value) || CellIsCaptured(value) <==> value <= MAX_REWARD
  {
  }

  /** Player 0's capture value coincides with EMPTY_CELL, and that value
      reads as captured by player 0, never as free: a zero-filled board reads
      as entirely owned by player 0. */
  lemma PlayerZeroCollision()
    ensures PlayerToCellValue(0) == EMPTY_CELL
    ensures CellIsCaptured(EMPTY_CELL) && !CellIsFree(EMPTY_CELL)
    ensures GetCellOwner(EMPTY_CELL) == 0
  {
  }

  /** The compass offset (dx, dy) of a direction: 0 is up, then clockwise
      up to 7 (up-left); any other value yields (0, 0). */
  function DirectionOffset(dir: int): (offset: (int, int))
    ensures 0 <= dir <= 7 ==> -1 <= offset.0 <= 1 && -1 <= offset.1 <= 1 && offset != (0, 0)
    ensures !(0 <= dir <= 7) ==> offset == (0, 0)
  {
    match dir
    case 0 => (0, -1)
    case 1 => (1, -1)
    case 2 => (1, 0)
    case 3 => (1, 1)
    case 4 => (0, 1)
    case 5 => (-1, 1)
    case 6 => (-1, 0)
    case 7 => (-1, -1)
    case _ => (0, 0)
  }

  /** Opposite directions have negated offsets. */
  lemma OppositeDirections(dir: int)
    requires 0 <= dir <= 7
    ensures DirectionOffset((dir + 4) % 8).0 == -DirectionOffset(dir).0
    ensures DirectionOffset((dir + 4) % 8).1 == -DirectionOffset(dir).1
  {
  }

  /** The eight directions have eight distinct offsets. */
  lemma DirectionsDistinct(d1: int, d2: int)
    requires 0 <= d1 <= 7 && 0 <= d2 <= 7 && d1 != d2
    ensures DirectionOffset(d1) != DirectionOffset(d2)
  {
  }

  predicate IsValidDirection(dir: byte)
  {
    dir <= 7
  }

  /** A direction byte is valid exactly when it names a real move. */
  lemma ValidDirectionMoves(dir: byte)
    ensures IsValidDirection(dir) <==> DirectionOffset(dir) != (0, 0)
  {
  }

  /** Bytes needed for the game-state region: the fixed header followed by
      width * height int cells. */
  function GameStateSize(width: nat, height: nat): (size: nat)
    ensures size >= STATE_HEADER_SIZE
    ensures (size - STATE_HEADER_SIZE) % CELL_SIZE == 0
    ensures (size - STATE_HEADER_SIZE) / CELL_SIZE == width * height
  {
    STATE_HEADER_SIZE + width * height * CELL_SIZE
  }

  /** A larger board never needs a smaller region. */
  lemma GameStateSizeMonotone(w1: nat, h1: nat, w2: nat, h2: nat)
    requires w1 <= w2 && h1 <= h2
    ensures GameStateSize(w1, h1) <= GameStateSize(w2, h2)
  {
    MulLeq(w1, w2, h1);
    MulLeq(h1, h2, w2);
    assert w1 * h1 <= w2 * h2;
  }
}
