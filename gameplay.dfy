// The server's game object: a 48-cell array and the field naming the player to
// move, with the scans and the move step that both player threads call.

module GamePlay {
  import opened Board
  import opened Rules
  import opened Protocol

  class Game {
    const matrix: array<Cell>
    var curr: Side

    ghost predicate Valid()
      reads this
    {
      matrix.Length == Size
    }

    /** The game as a value, for stating what each method does. */
    ghost function Snapshot(): State
      reads this, matrix
      requires Valid()
    {
      State(matrix[..], curr)
    }

    /** A fresh game: every cell unmarked and RED, the first player to connect, to move. */
    constructor ()
      ensures Valid() && fresh(matrix)
      ensures Snapshot() == Init()
    {
      matrix := new Cell[Size](_ => Empty);
      curr := Red;
      new;
      assert matrix[..] == EmptyBoard();
    }

    /** Scans the horizontal, vertical, ascending and descending windows, in that order. */
    method HasWon() returns (won: bool)
      requires Valid()
      ensures won == HasFour(matrix[..])
    {
      // Horizontally: start column j, row start i.
      for j := 0 to 5
        invariant forall r, c :: 0 <= r < 6 && 0 <= c < j ==> !Horizontal(matrix[..], r, c)
      {
        var i := 0;
        ghost var row := 0;
        while i < 48
          invariant 0 <= row <= 6 && i == 8 * row
          invariant forall r :: 0 <= r < row ==> !Horizontal(matrix[..], r, j)
        {
          if matrix[i + j] != Empty && matrix[i + j] == matrix[i + j + 1] &&
             matrix[i + j] == matrix[i + j + 2] && matrix[i + j] == matrix[i + j + 3]
          {
            assert Horizontal(matrix[..], row, j);
            return true;
          }
          i, row := i + 8, row + 1;
        }
      }
      // Vertically: row start i (rows 0 to 2), column j.
      var i := 0;
      ghost var row := 0;
      while i < 24
        invariant 0 <= row <= 3 && i == 8 * row
        invariant forall r, c :: 0 <= r < row && 0 <= c < 8 ==> !Vertical(matrix[..], r, c)
      {
        for j := 0 to 8
          invariant forall c :: 0 <= c < j ==> !Vertical(matrix[..], row, c)
        {
          if matrix[i + j] != Empty && matrix[i + j] == matrix[i + 8 + j] &&
             matrix[i + j] == matrix[i + 16 + j] && matrix[i + j] == matrix[i + 24 + j]
          {
            assert Vertical(matrix[..], row, j);
            return true;
          }
        }
        i, row := i + 8, row + 1;
      }
      // Ascending diagonals: row start i (rows 3 to 5), column j (0 to 4).
      i, row := 24, 3;
      while i < 48
        invariant 3 <= row <= 6 && i == 8 * row
        invariant forall r, c :: 3 <= r < row && 0 <= c < 5 ==> !Ascending(matrix[..], r, c)
      {
        for j := 0 to 5
          invariant forall c :: 0 <= c < j ==> !Ascending(matrix[..], row, c)
        {
          if matrix[i + j] != Empty && matrix[i + j] == matrix[(i - 8) + j + 1] &&
             matrix[i + j] == matrix[i - 16 + j + 2] && matrix[i + j] == matrix[(i - 24) + j + 3]
          {
            assert Ascending(matrix[..], row, j);
            return true;
          }
        }
        i, row := i + 8, row + 1;
      }
      // Descending diagonals: row start i (rows 3 to 5), column j (3 to 7).
      i, row := 24, 3;
      while i < 48
        invariant 3 <= row <= 6 && i == 8 * row
        invariant forall r, c :: 3 <= r < row && 3 <= c < 8 ==> !Descending(matrix[..], r, c)
      {
        for j := 3 to 8
          invariant forall c :: 3 <= c < j ==> !Descending(matrix[..], row, c)
        {
          if matrix[i + j] != Empty && matrix[i + j] == matrix[(i - 8) + j - 1] &&
             matrix[i + j] == matrix[(i - 16) + j - 2] && matrix[i + j] == matrix[(i - 24) + j - 3]
          {
            assert Descending(matrix[..], row, j);
            return true;
          }
        }
        i, row := i + 8, row + 1;
      }
      return false;
    }

    /** True when no unmarked cell remains. */
    method MatrixExhausted() returns (full: bool)
      requires Valid()
      ensures full == Full(matrix[..])
    {
      for k := 0 to matrix.Length
        invariant forall j :: 0 <= j < k ==> matrix[j] != Empty
      {
        if matrix[k] == Empty {
          return false;
        }
      }
      return true;
    }

    /**
     * A move request: if `player` is the one to move, mark the lowest empty cell
     * of the column of `position`, scanning up from the bottom row and never above
     * `position`, pass the turn to the rival and answer the marked cell; otherwise,
     * or when no such cell is empty, answer -1 and change nothing.
     */
    method ValidMove(position: int, player: Side) returns (k: int)
      requires Valid() && 0 <= position
      modifies this`curr, matrix
      ensures Valid()
      ensures k == Attempt(old(Snapshot()), position, player).landed
      ensures Snapshot() == Attempt(old(Snapshot()), position, player).next
    {
      ghost var b := matrix[..];
      var minposition := position % 8 + 8 * 5;
      k := minposition;
      while k >= position
        invariant k <= minposition && k % 8 == position % 8
        invariant matrix[..] == b && curr == old(curr)
        invariant player == curr ==> forall j :: Candidate(position, j) && k < j ==> b[j] != Empty
        decreases k + 8
      {
        if player == curr && matrix[k] == Empty {
          LandingIsLowestEmpty(b, position, k);
          matrix[k] := Marked(curr);
          curr := Rival(curr);
          return;
        }
        k := k - 8;
      }
      return -1;
    }

    /**
     * One move request handled from start to finish: the move itself, then the
     * lines for the requesting player and, on acceptance, the lines for its rival,
     * both judged on the board after the move.
     */
    method Move(position: int, player: Side) returns (mine: seq<string>, theirs: seq<string>)
      requires Valid() && 0 <= position
      modifies this`curr, matrix
      ensures Valid()
      ensures Snapshot() == Attempt(old(Snapshot()), position, player).next
      ensures var o := Attempt(old(Snapshot()), position, player);
              && mine == MoverLines(o.landed, HasFour(o.next.board), Full(o.next.board))
              && theirs == if o.landed == -1 then [] else RivalLines(o.landed, HasFour(o.next.board), Full(o.next.board))
    {
      var k := ValidMove(position, player);
      if k != -1 {
        var lost := HasWon();
        var tie := MatrixExhausted();
        theirs := RivalLines(k, lost, tie);
        var won := HasWon();
        var full := MatrixExhausted();
        mine := MoverLines(k, won, full);
      } else {
        mine := MoverLines(-1, false, false);
        theirs := [];
      }
    }
  }
}
