/** One player's grid in a lobby: a `BoardSize` x `BoardSize` list of rows,
    indexed `board[y][x]`, whose cells are the characters '~', 'S', 'X', 'O'
    of the server. */
module Boards {

  /** '~' water, 'S' ship, 'X' hit ship, 'O' missed shot. */
  datatype Cell = Water | Ship | Hit | Miss

  type Board = seq<seq<Cell>>

  /** A coordinate pair `(x, y)` as the server's `free_cells` list holds it. */
  type Pos = (int, int)

  /** The lobby's `board_size`, never changed from its default. */
  const BoardSize: nat := 5

  predicate InBounds(x: int, y: int)
  {
    0 <= x < BoardSize && 0 <= y < BoardSize
  }

  /** The shape every board of a lobby has. */
  predicate WellFormed(b: Board)
  {
    |b| == BoardSize && forall y :: 0 <= y < |b| ==> |b[y]| == BoardSize
  }

  /** The all-water board a lobby gives a new player, also used as the view of
      a missing opponent. */
  function Blank(): (b: Board)
    ensures WellFormed(b)
    ensures forall x, y :: InBounds(x, y) ==> b[y][x] == Water
  {
    seq(BoardSize, _ => seq(BoardSize, _ => Water))
  }

  /** The board after the assignment `board[y][x] = c`. */
  function SetCell(b: Board, x: int, y: int, c: Cell): (r: Board)
    requires WellFormed(b) && InBounds(x, y)
    ensures WellFormed(r)
    ensures r[y][x] == c
    ensures forall i, j :: InBounds(i, j) && (i != x || j != y) ==> r[j][i] == b[j][i]
  {
    b[y := b[y][x := c]]
  }

  function Indicator(p: bool): nat
  {
    if p then 1 else 0
  }

  /** Number of cells equal to `c` in one row. */
  function CountRow(row: seq<Cell>, c: Cell): nat
  {
    if row == [] then 0 else Indicator(row[0] == c) + CountRow(row[1..], c)
  }

  /** Number of cells equal to `c` on the board, as the server counts placed
      ships (server/utils/models.py:72-76). */
  function Count(b: Board, c: Cell): nat
  {
    if b == [] then 0 else CountRow(b[0], c) + Count(b[1..], c)
  }

  /** Some cell of the board is `c`: the test `shoot` uses for ships left
      (server/utils/models.py:165). */
  predicate Occurs(b: Board, c: Cell)
  {
    exists y, x :: 0 <= y < |b| && 0 <= x < |b[y]| && b[y][x] == c
  }

  /** Masks one cell for the opponent: only shots stay visible. */
  function MaskCell(c: Cell): Cell
  {
    if c == Hit || c == Miss then c else Water
  }

  function MaskRow(row: seq<Cell>): (v: seq<Cell>)
    ensures |v| == |row|
  {
    seq(|row|, x requires 0 <= x < |row| => MaskCell(row[x]))
  }

  /** The opponent-facing copy of a board: every cell masked, rows and cells in
      place (server/utils/models.py:181). */
  function Mask(b: Board): (v: Board)
    ensures |v| == |b|
    ensures forall y :: 0 <= y < |b| ==> |v[y]| == |b[y]|
    ensures WellFormed(b) ==> WellFormed(v)
  {
    seq(|b|, y requires 0 <= y < |b| => MaskRow(b[y]))
  }

  /** An ordering of exactly the water cells of `b`, as `random.shuffle` leaves
      the server's `free_cells` list: every water cell once, nothing else. */
  predicate IsShuffleOfFree(order: seq<Pos>, b: Board)
    requires WellFormed(b)
  {
    && |order| == Count(b, Water)
    && (forall i :: 0 <= i < |order| ==>
          InBounds(order[i].0, order[i].1) && b[order[i].1][order[i].0] == Water)
    && (forall i, j :: 0 <= i < j < |order| ==> order[i] != order[j])
  }

  // ---------------------------------------------------------------------------
  // Counting

  /** Writing `d` into one cell of a row changes the count of `c` by what left
      and what arrived. */
  lemma {:induction false} CountRowUpdate(row: seq<Cell>, x: nat, d: Cell, c: Cell)
    requires x < |row|
    ensures CountRow(row[x := d], c) == CountRow(row, c) - Indicator(row[x] == c) + Indicator(d == c)
  {
    if x == 0 {
      assert row[x := d][1..] == row[1..];
    } else {
      assert row[x := d][1..] == row[1..][x - 1 := d];
      CountRowUpdate(row[1..], x - 1, d, c);
    }
  }

  lemma {:induction false} CountRowsUpdate(b: Board, x: nat, y: nat, d: Cell, c: Cell)
    requires y < |b| && x < |b[y]|
    ensures Count(b[y := b[y][x := d]], c) == Count(b, c) - Indicator(b[y][x] == c) + Indicator(d == c)
  {
    if y == 0 {
      assert b[y := b[y][x := d]][1..] == b[1..];
      CountRowUpdate(b[0], x, d, c);
    } else {
      assert b[y := b[y][x := d]][1..] == b[1..][y - 1 := b[y][x := d]];
      CountRowsUpdate(b[1..], x, y - 1, d, c);
    }
  }

  /** `board[y][x] = d` changes the count of every cell kind `c` by exactly
      what the cell held before and what it holds now. */
  lemma CountSetCell(b: Board, x: int, y: int, d: Cell, c: Cell)
    requires WellFormed(b) && InBounds(x, y)
    ensures Count(SetCell(b, x, y, d), c) == Count(b, c) - Indicator(b[y][x] == c) + Indicator(d == c)
  {
    CountRowsUpdate(b, x, y, d, c);
  }

  lemma {:induction false} CountRowOccurs(row: seq<Cell>, c: Cell)
    ensures CountRow(row, c) > 0 <==> exists x :: 0 <= x < |row| && row[x] == c
    ensures CountRow(row, c) <= |row|
  {
    if row != [] {
      CountRowOccurs(row[1..], c);
      if row[0] != c && CountRow(row, c) == 0 {
        assert forall x :: 1 <= x < |row| ==> row[x] == row[1..][x - 1];
      }
      if CountRow(row[1..], c) > 0 {
        var x :| 0 <= x < |row[1..]| && row[1..][x] == c;
        assert row[x + 1] == c;
      }
    }
  }

  /** The count of `c` is positive exactly when some cell is `c`: the server's
      "any ship left" test and its ship count agree. */
  lemma {:induction false} CountOccurs(b: Board, c: Cell)
    ensures Count(b, c) > 0 <==> Occurs(b, c)
  {
    if b != [] {
      CountOccurs(b[1..], c);
      CountRowOccurs(b[0], c);
      if Occurs(b[1..], c) {
        var y, x :| 0 <= y < |b[1..]| && 0 <= x < |b[1..][y]| && b[1..][y][x] == c;
        assert b[y + 1][x] == c;
      }
      if Occurs(b, c) {
        var y, x :| 0 <= y < |b| && 0 <= x < |b[y]| && b[y][x] == c;
        if y > 0 {
          assert b[1..][y - 1][x] == c;
        }
      }
    }
  }

  lemma {:induction false} CountBound(b: Board, w: nat, c: Cell)
    requires forall y :: 0 <= y < |b| ==> |b[y]| <= w
    ensures Count(b, c) <= |b| * w
  {
    if b != [] {
      CountRowOccurs(b[0], c);
      CountBound(b[1..], w, c);
      assert |b| * w == w + (|b| - 1) * w;
    }
  }

  /** A lobby board holds at most `BoardSize * BoardSize` cells of any kind. */
  lemma WellFormedCountBound(b: Board, c: Cell)
    requires WellFormed(b)
    ensures Count(b, c) <= BoardSize * BoardSize
  {
    CountBound(b, BoardSize, c);
  }

  lemma {:induction false} ConstantRowCount(n: nat, d: Cell, c: Cell)
    ensures CountRow(seq(n, _ => d), c) == if d == c then n else 0
  {
    if n > 0 {
      assert seq(n, _ => d)[1..] == seq(n - 1, _ => d);
      ConstantRowCount(n - 1, d, c);
    }
  }

  lemma {:induction false} ConstantRowsCount(m: nat, n: nat, d: Cell, c: Cell)
    ensures Count(seq(m, _ => seq(n, _ => d)), c) == if d == c then m * n else 0
  {
    if m > 0 {
      assert seq(m, _ => seq(n, _ => d))[1..] == seq(m - 1, _ => seq(n, _ => d));
      ConstantRowCount(n, d, c);
      ConstantRowsCount(m - 1, n, d, c);
      assert m * n == n + (m - 1) * n;
    }
  }

  /** A new player's board carries no ship and `BoardSize * BoardSize` free cells. */
  lemma BlankCounts()
    ensures Count(Blank(), Ship) == 0
    ensures Count(Blank(), Water) == BoardSize * BoardSize
  {
    ConstantRowsCount(BoardSize, BoardSize, Water, Ship);
    ConstantRowsCount(BoardSize, BoardSize, Water, Water);
  }

  // ---------------------------------------------------------------------------
  // Placement round trip

  /** Placing a ship on a water cell and removing it again restores the board. */
  lemma PlaceRemoveRoundTrip(b: Board, x: int, y: int)
    requires WellFormed(b) && InBounds(x, y) && b[y][x] == Water
    ensures SetCell(SetCell(b, x, y, Ship), x, y, Water) == b
  {
    var r := SetCell(SetCell(b, x, y, Ship), x, y, Water);
    assert forall j :: 0 <= j < BoardSize ==> r[j] == b[j];
  }

  // ---------------------------------------------------------------------------
  // The opponent's view

  function MaskedCount(b: Board, c: Cell): nat
  {
    match c
    case Ship => 0
    case Water => Count(b, Water) + Count(b, Ship)
    case _ => Count(b, c)
  }

  function MaskedRowCount(row: seq<Cell>, c: Cell): nat
  {
    match c
    case Ship => 0
    case Water => CountRow(row, Water) + CountRow(row, Ship)
    case _ => CountRow(row, c)
  }

  lemma {:induction false} MaskRowCount(row: seq<Cell>, c: Cell)
    ensures CountRow(MaskRow(row), c) == MaskedRowCount(row, c)
  {
    if row != [] {
      assert MaskRow(row)[1..] == MaskRow(row[1..]);
      MaskRowCount(row[1..], c);
    }
  }

  /** The opponent's view hides every ship, shows every hit and miss, and shows
      water wherever there was water or a ship. */
  lemma {:induction false} MaskCount(b: Board, c: Cell)
    ensures Count(Mask(b), c) == MaskedCount(b, c)
  {
    if b != [] {
      assert Mask(b)[1..] == Mask(b[1..]);
      MaskRowCount(b[0], c);
      MaskCount(b[1..], c);
    }
  }

  /** Masking a view again changes nothing. */
  lemma MaskIdempotent(b: Board)
    ensures Mask(Mask(b)) == Mask(b)
  {
    forall y | 0 <= y < |b|
      ensures Mask(Mask(b))[y] == Mask(b)[y]
    {
    }
  }
}
