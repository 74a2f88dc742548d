// What one move request does to the game (the server's `validMove`), stated as a
// function on values, and what any sequence of requests keeps true.

module Rules {
  import opened Board

  /** The shared game: the board and whose turn it is. */
  datatype State = State(board: seq<Cell>, curr: Side)

  predicate WellFormed(s: State)
  {
    |s.board| == Size
  }

  /** The game as the server sets it up: an unmarked board, RED to move. */
  function Init(): State
  {
    State(EmptyBoard(), Red)
  }

  /**
   * `j` is one of the cells a request for `position` may fill: in the column of
   * `position`, no higher than `position` and no lower than the bottom row.
   */
  predicate Candidate(position: int, j: int)
  {
    position <= j <= position % 8 + 40 && j % 8 == position % 8
  }

  /** The upward scan from cell `k`, stepping one row (8 cells) at a time, never above `position`. */
  function ScanFrom(b: seq<Cell>, k: int, position: int): (r: int)
    requires |b| == Size && 0 <= position && k < Size && k % 8 == position % 8
    ensures r == -1 || (position <= r <= k && r % 8 == position % 8 && b[r] == Empty)
    ensures r == -1 ==> forall j :: position <= j <= k && j % 8 == position % 8 ==> b[j] != Empty
    ensures r != -1 ==> forall j :: r < j <= k && j % 8 == position % 8 ==> b[j] != Empty
    decreases k + 8
  {
    if k < position then -1
    else if b[k] == Empty then k
    else ScanFrom(b, k - 8, position)
  }

  /** The cell a request for `position` fills: the lowest empty candidate, or -1 if there is none. */
  function Landing(b: seq<Cell>, position: int): (r: int)
    requires |b| == Size && 0 <= position
    ensures r == -1 <==> forall j :: Candidate(position, j) ==> b[j] != Empty
    ensures r != -1 ==> Candidate(position, r) && b[r] == Empty
    ensures r != -1 ==> forall j :: Candidate(position, j) && r < j ==> b[j] != Empty
    ensures Size <= position ==> r == -1
  {
    ScanFrom(b, position % 8 + 40, position)
  }

  /** Being an empty candidate with every lower candidate marked singles out the landing cell. */
  lemma LandingIsLowestEmpty(b: seq<Cell>, position: int, k: int)
    requires |b| == Size && 0 <= position
    requires Candidate(position, k) && b[k] == Empty
    requires forall j :: Candidate(position, j) && k < j ==> b[j] != Empty
    ensures Landing(b, position) == k
  {
    assert Landing(b, position) != -1;
  }

  /** The result of one move request: the new game and the filled cell, or -1 when rejected. */
  datatype Outcome = Outcome(next: State, landed: int)

  function Attempt(s: State, position: int, player: Side): (o: Outcome)
    requires WellFormed(s) && 0 <= position
    ensures WellFormed(o.next)
    ensures o.landed == -1 <==> player != s.curr || forall j :: Candidate(position, j) ==> s.board[j] != Empty
    ensures o.landed == -1 ==> o.next == s
    ensures o.landed != -1 ==>
              && Candidate(position, o.landed)
              && s.board[o.landed] == Empty
              && (forall j :: Candidate(position, j) && o.landed < j ==> s.board[j] != Empty)
              && o.next.board == s.board[o.landed := Marked(player)]
              && o.next.curr == Rival(player)
  {
    if player != s.curr then Outcome(s, -1)
    else
      var k := Landing(s.board, position);
      if k == -1 then Outcome(s, -1)
      else Outcome(State(s.board[k := Marked(s.curr)], Rival(s.curr)), k)
  }

  // ---------------------------------------------------------------------------
  // Sequences of requests, in the order the server serialises them.

  datatype Request = Request(position: nat, player: Side)

  function Run(s: State, reqs: seq<Request>): (t: State)
    requires WellFormed(s)
    ensures WellFormed(t)
    decreases |reqs|
  {
    if reqs == [] then s
    else Run(Attempt(s, reqs[0].position, reqs[0].player).next, reqs[1..])
  }

  /** The players whose requests were accepted, in order. */
  function Movers(s: State, reqs: seq<Request>): seq<Side>
    requires WellFormed(s)
    decreases |reqs|
  {
    if reqs == [] then []
    else
      var o := Attempt(s, reqs[0].position, reqs[0].player);
      (if o.landed != -1 then [reqs[0].player] else []) + Movers(o.next, reqs[1..])
  }

  /** `m` lists `first`, its rival, `first`, ... in turn. */
  predicate Alternates(m: seq<Side>, first: Side)
  {
    forall i :: 0 <= i < |m| ==> m[i] == if i % 2 == 0 then first else Rival(first)
  }

  /** Putting `first` in front of an alternation that starts with its rival gives an alternation. */
  lemma AlternatesCons(first: Side, rest: seq<Side>)
    requires Alternates(rest, Rival(first))
    ensures Alternates([first] + rest, first)
  {
    var m := [first] + rest;
    forall i | 0 < i < |m|
      ensures m[i] == if i % 2 == 0 then first else Rival(first)
    {
      assert m[i] == rest[i - 1];
    }
  }

  /** Accepted moves alternate between the two sides, starting with the side to move. */
  lemma {:induction false} TurnsAlternate(s: State, reqs: seq<Request>)
    requires WellFormed(s)
    ensures Alternates(Movers(s, reqs), s.curr)
    ensures Run(s, reqs).curr == if |Movers(s, reqs)| % 2 == 0 then s.curr else Rival(s.curr)
    decreases |reqs|
  {
    if reqs != [] {
      var o := Attempt(s, reqs[0].position, reqs[0].player);
      TurnsAlternate(o.next, reqs[1..]);
      if o.landed != -1 {
        assert Movers(s, reqs) == [s.curr] + Movers(o.next, reqs[1..]);
        AlternatesCons(s.curr, Movers(o.next, reqs[1..]));
      }
    }
  }

  /** From the initial game, RED makes every even-numbered accepted move and BLUE every odd one. */
  lemma RedThenBlue(reqs: seq<Request>)
    ensures Alternates(Movers(Init(), reqs), Red)
    ensures Run(Init(), reqs).curr == if |Movers(Init(), reqs)| % 2 == 0 then Red else Blue
  {
    TurnsAlternate(Init(), reqs);
  }

  // ---------------------------------------------------------------------------
  // Invariants kept by every request.

  /** RED has marked as many cells as BLUE, or one more when it is BLUE's turn. */
  predicate Balanced(s: State)
  {
    Count(s.board, Red) == Count(s.board, Blue) + (if s.curr == Blue then 1 else 0)
  }

  lemma AttemptKeepsBalance(s: State, position: nat, player: Side)
    requires WellFormed(s) && Balanced(s)
    ensures Balanced(Attempt(s, position, player).next)
  {
    var o := Attempt(s, position, player);
    if o.landed != -1 {
      assert multiset(o.next.board) == multiset(s.board) - multiset{Empty} + multiset{Marked(player)};
    }
  }

  lemma {:induction false} RunKeepsBalance(s: State, reqs: seq<Request>)
    requires WellFormed(s) && Balanced(s)
    ensures Balanced(Run(s, reqs))
    decreases |reqs|
  {
    if reqs != [] {
      AttemptKeepsBalance(s, reqs[0].position, reqs[0].player);
      RunKeepsBalance(Attempt(s, reqs[0].position, reqs[0].player).next, reqs[1..]);
    }
  }

  /** Whatever was requested, the marks on the board are shared evenly, RED ahead by at most one. */
  lemma MarksStayBalanced(reqs: seq<Request>)
    ensures Balanced(Run(Init(), reqs))
  {
    assert Marked(Red) !in multiset(EmptyBoard());
    assert Marked(Blue) !in multiset(EmptyBoard());
    RunKeepsBalance(Init(), reqs);
  }

  /** In every column, a marked cell above the bottom row rests on a marked cell. */
  predicate BottomFilled(b: seq<Cell>)
    requires |b| == Size
  {
    forall k :: 0 <= k < Size - 8 && b[k] != Empty ==> b[k + 8] != Empty
  }

  lemma AttemptKeepsBottomFilled(s: State, position: nat, player: Side)
    requires WellFormed(s) && BottomFilled(s.board)
    ensures BottomFilled(Attempt(s, position, player).next.board)
  {
    var o := Attempt(s, position, player);
    if o.landed != -1 {
      var k := o.landed;
      if k + 8 < Size {
        assert Candidate(position, k + 8);
      }
    }
  }

  lemma {:induction false} RunKeepsBottomFilled(s: State, reqs: seq<Request>)
    requires WellFormed(s) && BottomFilled(s.board)
    ensures BottomFilled(Run(s, reqs).board)
    decreases |reqs|
  {
    if reqs != [] {
      AttemptKeepsBottomFilled(s, reqs[0].position, reqs[0].player);
      RunKeepsBottomFilled(Attempt(s, reqs[0].position, reqs[0].player).next, reqs[1..]);
    }
  }

  /** Every column of every reachable board fills from the bottom up. */
  lemma ColumnsFillFromBottom(reqs: seq<Request>)
    ensures BottomFilled(Run(Init(), reqs).board)
  {
    RunKeepsBottomFilled(Init(), reqs);
  }

  /** No request ever clears or changes a marked cell. */
  lemma {:induction false} RunExtends(s: State, reqs: seq<Request>)
    requires WellFormed(s)
    ensures Extends(s.board, Run(s, reqs).board)
    decreases |reqs|
  {
    if reqs != [] {
      var o := Attempt(s, reqs[0].position, reqs[0].player);
      RunExtends(o.next, reqs[1..]);
      assert Extends(s.board, o.next.board);
    }
  }

  /**
   * Once a line of four is on the board it stays there: the server has no
   * finished state, so every later accepted move is evaluated on a won board.
   */
  lemma WinPersists(s: State, reqs: seq<Request>)
    requires WellFormed(s) && HasFour(s.board)
    ensures HasFour(Run(s, reqs).board)
  {
    RunExtends(s, reqs);
    WinIsStable(s.board, Run(s, reqs).board);
  }

  /**
   * On an exhausted board (the one that draws TIE) every request is refused and
   * nothing changes, so a tied game accepts no further move.
   */
  lemma FullBoardRefusesEveryRequest(s: State, position: nat, player: Side)
    requires WellFormed(s) && Full(s.board)
    ensures Attempt(s, position, player) == Outcome(s, -1)
  {
    var o := Attempt(s, position, player);
    if o.landed != -1 {
      assert false;
    }
  }

  /** On a bottom-filled board, an empty cell means the top cell of its column is empty. */
  lemma {:induction false} TopOfColumnEmpty(b: seq<Cell>, k: int)
    requires |b| == Size && BottomFilled(b) && 0 <= k < Size && b[k] == Empty
    ensures b[k % 8] == Empty
    decreases k
  {
    if k >= 8 {
      assert b[k - 8] == Empty;
      TopOfColumnEmpty(b, k - 8);
    }
  }

  /**
   * On a bottom-filled board the side to move can play in some column (by
   * submitting that column's top cell) exactly when the board is not full.
   */
  lemma MoveAvailableIffNotFull(s: State)
    requires WellFormed(s) && BottomFilled(s.board)
    ensures (exists c :: 0 <= c < Cols && Attempt(s, c, s.curr).landed != -1) <==> !Full(s.board)
  {
    if c :| 0 <= c < Cols && Attempt(s, c, s.curr).landed != -1 {
      assert s.board[Attempt(s, c, s.curr).landed] == Empty;
    }
    if !Full(s.board) {
      var k :| 0 <= k < Size && s.board[k] == Empty;
      TopOfColumnEmpty(s.board, k);
      assert Candidate(k % 8, k % 8);
      assert Attempt(s, k % 8, s.curr).landed != -1;
    }
  }
}
