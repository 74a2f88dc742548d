// Concrete games played against the model: what the server answers in a few
// situations that fix its behaviour.

module Scenarios {
  import opened Board
  import opened Rules
  import opened Protocol

  /**
   * RED's first request for cell 0 drops to the bottom of column 0, cell 40; the
   * board after it holds no line and is not exhausted, so both sides' second
   * lines are empty.
   */
  lemma FirstMoveDropsToBottom()
    ensures var o := Attempt(Init(), 0, Red);
            && o.landed == 40
            && o.next == State(EmptyBoard()[40 := Marked(Red)], Blue)
            && MoverLines(o.landed, HasFour(o.next.board), Full(o.next.board)) == ["MOVE_CORRECT40", ""]
            && RivalLines(o.landed, HasFour(o.next.board), Full(o.next.board)) == ["RIVAL_MOVED 40", ""]
  {
    var b := EmptyBoard()[40 := Marked(Red)];
    LandingIsLowestEmpty(EmptyBoard(), 0, 40);
    SingleMarkHasNoFour(b, 40);
    assert b[0] == Empty;
    assert Digits(40) == "40";
    assert MoveCorrect + Digits(40) == "MOVE_CORRECT40";
    assert RivalMoved + Digits(40) == "RIVAL_MOVED 40";
  }

  /** BLUE asking to move while it is RED's turn is refused and nothing changes. */
  lemma OutOfTurnRequestRefused()
    ensures Attempt(Init(), 5, Blue) == Outcome(Init(), -1)
    ensures MoverLines(-1, false, false) == ["MSG ?"]
  {
  }

  /** A request for a cell below the board is refused in any game, even from the player to move. */
  lemma BeyondBoardRefused(s: State, position: nat, player: Side)
    requires WellFormed(s) && Size <= position
    ensures Attempt(s, position, player) == Outcome(s, -1)
  {
  }

  /** The cells a request for a top-row cell may fill are exactly the cells of that column. */
  lemma CandidatesOfTopCell(p: int, j: int)
    requires 0 <= p < 8
    ensures Candidate(p, j) <==> 0 <= j < Size && j % 8 == p
  {
    if 0 <= j < Size && j % 8 == p {
      assert j == (j / 8) * 8 + p;
    }
  }

  /**
   * A request for top-row cell `p` by the side to move fills `k` when `k` is an
   * empty cell of column `p` and every cell below it is marked.
   */
  lemma DropOnColumn(b: seq<Cell>, side: Side, p: int, k: int)
    requires |b| == Size && 0 <= p < 8 && 0 <= k < Size && k % 8 == p && b[k] == Empty
    requires k + 8 < Size ==> b[k + 8] != Empty
    requires k + 16 < Size ==> b[k + 16] != Empty
    requires k + 24 < Size ==> b[k + 24] != Empty
    requires k + 32 < Size ==> b[k + 32] != Empty
    requires k + 40 < Size ==> b[k + 40] != Empty
    ensures Attempt(State(b, side), p, side) == Outcome(State(b[k := Marked(side)], Rival(side)), k)
  {
    forall j | Candidate(p, j) && k < j
      ensures b[j] != Empty
    {
      var m := (j - k) / 8;
      assert j == k + 8 * m;
      assert 1 <= m <= 5;
    }
    LandingIsLowestEmpty(b, p, k);
  }

  /** RED's three marks in column 0 and BLUE's three in column 1, RED to move. */
  function Stacked(): seq<Cell>
  {
    EmptyBoard()[40 := Marked(Red)][41 := Marked(Blue)][32 := Marked(Red)][33 := Marked(Blue)]
                [24 := Marked(Red)][25 := Marked(Blue)]
  }

  function Stacking(): seq<Request>
  {
    [Request(0, Red), Request(1, Blue), Request(0, Red), Request(1, Blue), Request(0, Red), Request(1, Blue)]
  }

  lemma StackingReachesStacked()
    ensures Run(Init(), Stacking()) == State(Stacked(), Red)
  {
    var b0 := EmptyBoard();
    var b1 := b0[40 := Marked(Red)];
    var b2 := b1[41 := Marked(Blue)];
    var b3 := b2[32 := Marked(Red)];
    var b4 := b3[33 := Marked(Blue)];
    var b5 := b4[24 := Marked(Red)];
    var b6 := b5[25 := Marked(Blue)];
    DropOnColumn(b0, Red, 0, 40);
    DropOnColumn(b1, Blue, 1, 41);
    DropOnColumn(b2, Red, 0, 32);
    DropOnColumn(b3, Blue, 1, 33);
    DropOnColumn(b4, Red, 0, 24);
    DropOnColumn(b5, Blue, 1, 25);
    var r := Stacking();
    assert Run(State(b6, Red), r[6..]) == State(b6, Red);
    assert Run(State(b5, Blue), r[5..]) == State(b6, Red);
    assert Run(State(b4, Red), r[4..]) == State(b6, Red);
    assert Run(State(b3, Blue), r[3..]) == State(b6, Red);
    assert Run(State(b2, Red), r[2..]) == State(b6, Red);
    assert Run(State(b1, Blue), r[1..]) == State(b6, Red);
  }

  /** RED's request for cell 0 on the stacked board fills cell 16 and completes a vertical line. */
  lemma FourthMarkWins()
    ensures Attempt(State(Stacked(), Red), 0, Red) == Outcome(State(Stacked()[16 := Marked(Red)], Blue), 16)
    ensures HasFour(Stacked()[16 := Marked(Red)])
  {
    var b := Stacked();
    assert b[24] == Marked(Red) && b[32] == Marked(Red) && b[40] == Marked(Red) && b[16] == Empty;
    DropOnColumn(b, Red, 0, 16);
    assert Vertical(b[16 := Marked(Red)], 2, 0);
  }

  /** After RED's win, BLUE's request for cell 1 is still accepted and fills cell 17. */
  lemma MoveAfterWinAccepted()
    ensures Attempt(State(Stacked()[16 := Marked(Red)], Blue), 1, Blue).landed == 17
    ensures HasFour(Attempt(State(Stacked()[16 := Marked(Red)], Blue), 1, Blue).next.board)
  {
    var b := Stacked()[16 := Marked(Red)];
    assert b[25] == Marked(Blue) && b[33] == Marked(Blue) && b[41] == Marked(Blue) && b[17] == Empty;
    DropOnColumn(b, Blue, 1, 17);
    FourthMarkWins();
    WinIsStable(b, b[17 := Marked(Blue)]);
  }

  /**
   * RED stacks four in column 0 while BLUE stacks three in column 1; RED's fourth
   * request lands in cell 16 and completes a vertical line, so RED is told WIN and
   * BLUE LOSS; a further BLUE move is still accepted, and the board BLUE is then
   * judged on still holds a line of four, so BLUE too is told WIN and RED LOSS.
   */
  lemma ColumnOfFour()
    ensures var o := Attempt(Run(Init(), Stacking()), 0, Red);
            && o.landed == 16 && HasFour(o.next.board)
            && MoverLines(o.landed, HasFour(o.next.board), Full(o.next.board))[1] == "WIN"
            && RivalLines(o.landed, HasFour(o.next.board), Full(o.next.board))[1] == "LOSS"
            && var o' := Attempt(o.next, 1, Blue);
            && o'.landed == 17 && HasFour(o'.next.board)
            && MoverLines(o'.landed, HasFour(o'.next.board), Full(o'.next.board))[1] == "WIN"
            && RivalLines(o'.landed, HasFour(o'.next.board), Full(o'.next.board))[1] == "LOSS"
  {
    StackingReachesStacked();
    FourthMarkWins();
    MoveAfterWinAccepted();
  }
}
