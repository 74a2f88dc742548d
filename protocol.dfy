// The text lines the server sends after a move request: to the player who asked,
// and to that player's rival.

module Protocol {

  /** The decimal text of a non-negative number, as Java's string concatenation writes it. */
  function Digits(n: nat): (s: string)
    ensures |s| >= 1 && (s[0] == '0' ==> n == 0 && s == "0")
    ensures forall i :: 0 <= i < |s| ==> '0' <= s[i] <= '9'
  {
    if n < 10 then [(n + '0' as int) as char]
    else Digits(n / 10) + [(n % 10 + '0' as int) as char]
  }

  /** The number a string of decimal digits denotes. */
  function Value(s: string): nat
    requires forall i :: 0 <= i < |s| ==> '0' <= s[i] <= '9'
  {
    if s == [] then 0
    else Value(s[..|s| - 1]) * 10 + (s[|s| - 1] as int - '0' as int)
  }

  /** Reading back the decimal text of a number gives the number. */
  lemma {:induction false} ValueOfDigits(n: nat)
    ensures Value(Digits(n)) == n
  {
    if n >= 10 {
      var s := Digits(n);
      assert s[..|s| - 1] == Digits(n / 10);
      ValueOfDigits(n / 10);
    }
  }

  const MoveCorrect := "MOVE_CORRECT"
  const RivalMoved := "RIVAL_MOVED "
  const Rejected := "MSG ?"

  /**
   * What the requesting player receives: on acceptance the filled cell glued to
   * MOVE_CORRECT, then WIN, TIE or an empty line; on rejection MSG ?.
   */
  function MoverLines(k: int, won: bool, full: bool): (lines: seq<string>)
    requires -1 <= k
    ensures k == -1 ==> lines == [Rejected]
    ensures k != -1 ==>
              && |lines| == 2
              && lines[0] == MoveCorrect + Digits(k)
              && |lines[0]| > |MoveCorrect|
              && lines[0][..|MoveCorrect|] == MoveCorrect
              && (forall i :: |MoveCorrect| <= i < |lines[0]| ==> '0' <= lines[0][i] <= '9')
              && Value(lines[0][|MoveCorrect|..]) == k
              && (lines[1] == "WIN" <==> won)
              && (lines[1] == "TIE" <==> !won && full)
              && (lines[1] == "" <==> !won && !full)
  {
    if k == -1 then [Rejected]
    else
      ValueOfDigits(k);
      assert (MoveCorrect + Digits(k))[|MoveCorrect|..] == Digits(k);
      [MoveCorrect + Digits(k), if won then "WIN" else if full then "TIE" else ""]
  }

  /** What the rival receives after an accepted move: RIVAL_MOVED and the cell, then LOSS, TIE or an empty line. */
  function RivalLines(k: nat, won: bool, full: bool): (lines: seq<string>)
    ensures |lines| == 2
    ensures lines[0] == RivalMoved + Digits(k)
    ensures |lines[0]| > |RivalMoved| && lines[0][..|RivalMoved|] == RivalMoved
    ensures forall i :: |RivalMoved| <= i < |lines[0]| ==> '0' <= lines[0][i] <= '9'
    ensures Value(lines[0][|RivalMoved|..]) == k
    ensures lines[1] == "LOSS" <==> won
    ensures lines[1] == "TIE" <==> !won && full
    ensures lines[1] == "" <==> !won && !full
  {
    ValueOfDigits(k);
    assert (RivalMoved + Digits(k))[|RivalMoved|..] == Digits(k);
    [RivalMoved + Digits(k), if won then "LOSS" else if full then "TIE" else ""]
  }
}
