// The Connect Four board: 48 cells in 6 rows of 8 columns, cell index = row * 8 + column,
// and the four-in-a-row test the server runs after each move.

module Board {

  const Rows := 6
  const Cols := 8
  const Size := 48

  /** The two players of a game; RED is the first to connect and the first to move. */
  datatype Side = Red | Blue

  /** The player a side is wired to as its rival. */
  function Rival(s: Side): (r: Side)
    ensures r != s
  {
    if s == Red then Blue else Red
  }

  /** A cell is unmarked (the server's `null`) or marked by one player. */
  datatype Cell = Empty | Marked(owner: Side)

  function Idx(r: int, c: int): int
  {
    r * Cols + c
  }

  function EmptyBoard(): (b: seq<Cell>)
    ensures |b| == Size
    ensures forall k :: 0 <= k < Size ==> b[k] == Empty
  {
    seq(Size, _ => Empty)
  }

  /** No unmarked cell remains. */
  predicate Full(b: seq<Cell>)
  {
    forall k :: 0 <= k < |b| ==> b[k] != Empty
  }

  /** How many cells a side has marked. */
  function Count(b: seq<Cell>, s: Side): nat
  {
    multiset(b)[Marked(s)]
  }

  /** Every marked cell of `b` keeps its mark in `b'`. */
  predicate Extends(b: seq<Cell>, b': seq<Cell>)
  {
    |b| == |b'| && forall k :: 0 <= k < |b| && b[k] != Empty ==> b'[k] == b[k]
  }

  // ---------------------------------------------------------------------------
  // The windows the server scans, in index terms: four cells starting at index
  // `i` and stepping by `d` (1 across a row, 8 down a column, -7 up and to the
  // right, -9 up and to the left).

  predicate Four(b: seq<Cell>, i: int, d: int)
    requires |b| == Size
    requires 0 <= i < Size && 0 <= i + 3 * d < Size
  {
    b[i] != Empty && b[i] == b[i + d] && b[i] == b[i + 2 * d] && b[i] == b[i + 3 * d]
  }

  predicate Horizontal(b: seq<Cell>, r: int, c: int)
    requires |b| == Size && 0 <= r < Rows && 0 <= c < Cols - 3
  {
    Four(b, Idx(r, c), 1)
  }

  predicate Vertical(b: seq<Cell>, r: int, c: int)
    requires |b| == Size && 0 <= r < Rows - 3 && 0 <= c < Cols
  {
    Four(b, Idx(r, c), 8)
  }

  predicate Ascending(b: seq<Cell>, r: int, c: int)
    requires |b| == Size && Rows - 3 <= r < Rows && 0 <= c < Cols - 3
  {
    Four(b, Idx(r, c), -7)
  }

  predicate Descending(b: seq<Cell>, r: int, c: int)
    requires |b| == Size && Rows - 3 <= r < Rows && 3 <= c < Cols
  {
    Four(b, Idx(r, c), -9)
  }

  /** Some scanned window holds four equal marked cells. */
  predicate HasFour(b: seq<Cell>)
    requires |b| == Size
  {
    (exists r, c :: 0 <= r < Rows && 0 <= c < Cols - 3 && Horizontal(b, r, c)) ||
    (exists r, c :: 0 <= r < Rows - 3 && 0 <= c < Cols && Vertical(b, r, c)) ||
    (exists r, c :: Rows - 3 <= r < Rows && 0 <= c < Cols - 3 && Ascending(b, r, c)) ||
    (exists r, c :: Rows - 3 <= r < Rows && 3 <= c < Cols && Descending(b, r, c))
  }

  // ---------------------------------------------------------------------------
  // Reference definition, in grid terms: four consecutive cells along any of the
  // eight compass directions, all inside the grid, all marked by the same side.

  predicate InGrid(r: int, c: int)
  {
    0 <= r < Rows && 0 <= c < Cols
  }

  predicate IsDirection(dr: int, dc: int)
  {
    -1 <= dr <= 1 && -1 <= dc <= 1 && (dr != 0 || dc != 0)
  }

  predicate LineAt(b: seq<Cell>, r: int, c: int, dr: int, dc: int)
    requires |b| == Size
  {
    InGrid(r, c) && InGrid(r + dr, c + dc) && InGrid(r + 2 * dr, c + 2 * dc) && InGrid(r + 3 * dr, c + 3 * dc) &&
    b[Idx(r, c)] != Empty &&
    b[Idx(r + dr, c + dc)] == b[Idx(r, c)] &&
    b[Idx(r + 2 * dr, c + 2 * dc)] == b[Idx(r, c)] &&
    b[Idx(r + 3 * dr, c + 3 * dc)] == b[Idx(r, c)]
  }

  ghost predicate FourInLine(b: seq<Cell>)
    requires |b| == Size
  {
    exists r, c, dr, dc :: IsDirection(dr, dc) && LineAt(b, r, c, dr, dc)
  }

  /** The four window families together find exactly the lines of four on the grid. */
  lemma HasFourIffFourInLine(b: seq<Cell>)
    requires |b| == Size
    ensures HasFour(b) <==> FourInLine(b)
  {
    if HasFour(b) {
      if r, c :| 0 <= r < Rows && 0 <= c < Cols - 3 && Horizontal(b, r, c) {
        assert LineAt(b, r, c, 0, 1);
      } else if r, c :| 0 <= r < Rows - 3 && 0 <= c < Cols && Vertical(b, r, c) {
        assert LineAt(b, r, c, 1, 0);
      } else if r, c :| Rows - 3 <= r < Rows && 0 <= c < Cols - 3 && Ascending(b, r, c) {
        assert LineAt(b, r, c, -1, 1);
      } else {
        var r, c :| Rows - 3 <= r < Rows && 3 <= c < Cols && Descending(b, r, c);
        assert LineAt(b, r, c, -1, -1);
      }
    }
    if FourInLine(b) {
      var r, c, dr, dc :| IsDirection(dr, dc) && LineAt(b, r, c, dr, dc);
      LineHasWindow(b, r, c, dr, dc);
    }
  }

  /** Each of the eight directions is a scanned window read forwards or backwards. */
  lemma LineHasWindow(b: seq<Cell>, r: int, c: int, dr: int, dc: int)
    requires |b| == Size && IsDirection(dr, dc) && LineAt(b, r, c, dr, dc)
    ensures HasFour(b)
  {
    if dr == 0 && dc == 1 {
      assert Horizontal(b, r, c);
    } else if dr == 0 && dc == -1 {
      assert Horizontal(b, r, c - 3);
    } else if dr == 1 && dc == 0 {
      assert Vertical(b, r, c);
    } else if dr == -1 && dc == 0 {
      assert Vertical(b, r - 3, c);
    } else if dr == -1 && dc == 1 {
      assert Ascending(b, r, c);
    } else if dr == 1 && dc == -1 {
      assert Ascending(b, r + 3, c - 3);
    } else if dr == -1 && dc == -1 {
      assert Descending(b, r, c);
    } else {
      assert dr == 1 && dc == 1;
      assert Descending(b, r + 3, c + 3);
    }
  }

  /** A line of four, once on the board, survives any later marking of empty cells. */
  lemma WinIsStable(b: seq<Cell>, b': seq<Cell>)
    requires |b| == Size && HasFour(b) && Extends(b, b')
    ensures HasFour(b')
  {
    HasFourIffFourInLine(b);
    var r, c, dr, dc :| IsDirection(dr, dc) && LineAt(b, r, c, dr, dc);
    assert LineAt(b', r, c, dr, dc);
    HasFourIffFourInLine(b');
  }

  /** A board with at most one marked cell holds no line of four: every window spans distinct cells. */
  lemma SingleMarkHasNoFour(b: seq<Cell>, k: int)
    requires |b| == Size
    requires forall j :: 0 <= j < Size && j != k ==> b[j] == Empty
    ensures !HasFour(b)
  {
  }

  lemma EmptyBoardHasNoFour()
    ensures !HasFour(EmptyBoard()) && !Full(EmptyBoard())
  {
    var b := EmptyBoard();
    assert b[0] == Empty;
  }
}
