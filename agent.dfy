/** The agent's greedy heuristic: from its own position, pick the in-bounds
    neighbour with the highest positive value, preferring the lowest
    direction index among equals, or give up with -1. */
module Agent {
  import opened Common
  import opened Master

  /** Direction dir, one of the eight, leads from (x, y) to a cell on the board. */
  predicate NeighbourInside(w: int, h: int, x: int, y: int, dir: int)
  {
    0 <= dir < NUM_DIRECTIONS &&
    var off := DirectionOffset(dir);
    IsInside(x + off.0, y + off.1, w, h)
  }

  /** The value of the neighbour of (x, y) in direction dir. */
  function NeighbourValue(board: seq<int>, w: int, h: int, x: int, y: int, dir: int): int
    requires |board| == w * h && NeighbourInside(w, h, x, y, dir)
  {
    var off := DirectionOffset(dir);
    IdxInRange(x + off.0, y + off.1, w, h);
    board[Idx(x + off.0, y + off.1, w)]
  }

  /** pick_dir: reads the board copy and returns the chosen direction. */
  method PickDir(board: array<int>, width: int, height: int, x: int, y: int) returns (dir: int)
    requires width >= 0 && height >= 0 && board.Length == width * height
    ensures -1 <= dir < NUM_DIRECTIONS
    ensures dir == -1 <==>
      forall d :: NeighbourInside(width, height, x, y, d) ==>
        NeighbourValue(board[..], width, height, x, y, d) <= 0
    ensures dir >= 0 ==>
      NeighbourInside(width, height, x, y, dir) &&
      NeighbourValue(board[..], width, height, x, y, dir) > 0
    ensures dir >= 0 ==>
      forall d :: NeighbourInside(width, height, x, y, d) ==>
        NeighbourValue(board[..], width, height, x, y, d) <= NeighbourValue(board[..], width, height, x, y, dir)
    ensures dir >= 0 ==>
      forall d :: 0 <= d < dir && NeighbourInside(width, height, x, y, d) ==>
        NeighbourValue(board[..], width, height, x, y, d) < NeighbourValue(board[..], width, height, x, y, dir)
  {
    var maxScore := 0;
    dir := -1;
    for d := 0 to NUM_DIRECTIONS
      invariant -1 <= dir < d
      invariant dir == -1 ==> maxScore == 0
      invariant dir >= 0 ==>
        NeighbourInside(width, height, x, y, dir) &&
        NeighbourValue(board[..], width, height, x, y, dir) == maxScore > 0
      invariant forall e :: 0 <= e < d && NeighbourInside(width, height, x, y, e) ==>
        NeighbourValue(board[..], width, height, x, y, e) <= maxScore
      invariant forall e :: 0 <= e < dir && NeighbourInside(width, height, x, y, e) ==>
        NeighbourValue(board[..], width, height, x, y, e) < maxScore
    {
      var (dx, dy) := DirectionOffset(d);
      if IsInside(x + dx, y + dy, width, height) {
        IdxInRange(x + dx, y + dy, width, height);
        var current := board[Idx(x + dx, y + dy, width)];
        if current > maxScore {
          maxScore := current;
          dir := d;
        }
      }
    }
  }

  /** On a board whose cells are all free or captured, a direction that
      PickDir can return is one the master's apply_move accepts. */
  lemma PickedDirectionAccepted(board: seq<int>, w: nat, h: nat, p: Player, pidIdx: nat, n: nat, dir: int)
    requires |board| == w * h && BoardWellFormed(board, n)
    requires NeighbourInside(w, h, p.x, p.y, dir)
    requires NeighbourValue(board, w, h, p.x, p.y, dir) > 0
    ensures 0 <= dir <= 7
    ensures Move(board, w, h, p, pidIdx, dir).applied
  {
    var (nx, ny) := Destination(p, dir);
    IdxInRange(nx, ny, w, h);
    assert CellIsFree(board[Idx(nx, ny, w)]);
  }
}
