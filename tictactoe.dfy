/** The game rules, the 7-byte frame header and the command-line validators
    shared by the server and the client (tictactoe.h, tictactoe.c). */
module TicTacToe {

  /** An unsigned 8-bit value: every header byte and every sequence number. */
  type byte = x: int | 0 <= x < 256

  const ROWS := 3
  const COLUMNS := 3
  const MAX_BOARD := 10
  const MAX_TRY := 3

  const CLIENT_MARK := 'X'
  const SERVER_MARK := 'O'

  // byte 0
  const VERSION: byte := 8
  // byte 2
  const GAME_ON: byte := 0
  const GAME_COMPLETE: byte := 1
  const GAME_ERROR: byte := 2
  // byte 3 when byte 2 is GAME_COMPLETE
  const DRAW: byte := 1
  const WIN: byte := 2
  const LOSE: byte := 3
  // byte 3 when byte 2 is GAME_ERROR
  const OUT_OF_RESOURCES: byte := 1
  const MALFORMED_REQUEST: byte := 2
  const SERVER_SHUTDOWN: byte := 3
  const TIME_OUT: byte := 4
  const TRY_AGAIN: byte := 5
  // byte 4
  const NEW_GAME: byte := 0
  const MOVE: byte := 1
  const END_GAME: byte := 2

  const TIME_LIMIT_SERVER := 10
  const MAX_SEND_COUNT := 3
  const SKIP_NEXT_SEND := 6

  /** The `(uint8_t)` cast: reduction modulo 256. */
  function U8(x: int): byte { x % 256 }

  /** C's `%` on `int`: the remainder takes the sign of the dividend. */
  function CRem(a: int, b: int): int
    requires b > 0
  {
    if a >= 0 then a % b else -((-a) % b)
  }

  /** The seven header bytes `[version, choice, status, statusModifier,
      messageType, gameId, sequenceNum]`; `sendBuffer` writes exactly these
      seven bytes of the 1000-byte buffer. */
  datatype Frame = Frame(version: byte, choice: byte, status: byte, modifier: byte,
                         msgType: byte, gameId: byte, sequenceNum: byte)

  /** A buffer that was zero-filled and never written. */
  const ZeroFrame := Frame(0, 0, 0, 0, 0, 0, 0)

  // ---------------------------------------------------------------- board

  /** `char board[ROWS][COLUMNS]` in C's row-major layout: cell (row, column)
      is at index `3 * row + column`, so choice c (1..9) is at index c - 1. */
  type Board = b: seq<char> | |b| == 9 witness "123456789"

  /** `(char) (n + '0')` */
  function Digit(n: int): char
    requires 0 <= n <= 9
  {
    (n + '0' as int) as char
  }

  /** A cell is free while it still holds its own digit. */
  predicate IsFree(b: Board, k: int)
    requires 0 <= k < 9
  {
    b[k] == Digit(k + 1)
  }

  predicate HasFree(b: Board) {
    exists k :: 0 <= k < 9 && IsFree(b, k)
  }

  /** Every cell holds its digit or one of the two marks. */
  predicate WellFormed(b: Board) {
    forall k :: 0 <= k < 9 ==> b[k] == Digit(k + 1) || b[k] == CLIENT_MARK || b[k] == SERVER_MARK
  }

  /** The board `initBoard` leaves behind. */
  const InitialBoard: Board := "123456789"

  /** The nine cells starting at `base` of a larger block of cells. */
  function BoardAt(cells: seq<char>, base: nat): Board
    requires base + 9 <= |cells|
  {
    cells[base..base + 9]
  }

  /** `cells` with the nine cells starting at `base` replaced by `b`. */
  function Splice(cells: seq<char>, base: nat, b: Board): (r: seq<char>)
    requires base + 9 <= |cells|
    ensures |r| == |cells|
  {
    cells[..base] + b + cells[base + 9..]
  }

  /** Replacing one block of nine cells leaves every disjoint block alone. */
  lemma BoardAtSplice(cells: seq<char>, base: nat, b: Board, other: nat)
    requires base + 9 <= |cells| && other + 9 <= |cells|
    requires other == base || other + 9 <= base || base + 9 <= other
    ensures BoardAt(Splice(cells, base, b), other) == if other == base then b else BoardAt(cells, other)
  {
    var r := Splice(cells, base, b);
    assert forall k :: 0 <= k < |cells| ==> r[k] == if base <= k < base + 9 then b[k - base] else cells[k];
  }

  /** Writing one cell of a block changes that block in one place and no
      other block. */
  lemma BoardAtUpdate(cells: seq<char>, base: nat, i: int, c: char, other: nat)
    requires base + 9 <= |cells| && other + 9 <= |cells| && base <= i < base + 9
    requires other == base || other + 9 <= base || base + 9 <= other
    ensures BoardAt(cells[i := c], other) ==
            if other == base then BoardAt(cells, base)[i - base := c] else BoardAt(cells, other)
  {
  }

  /** The board after `mark` is written into the cell of `choice`. */
  function Place(b: Board, choice: int, mark: char): Board
    requires 1 <= choice <= 9
  {
    b[choice - 1 := mark]
  }

  /** isMoveValid: out-of-range choices are refused before the board is read;
      otherwise the move is valid when its cell still holds its digit. */
  function IsMoveValid(b: Board, choice: int): (valid: bool)
    ensures valid <==> 1 <= choice <= 9 && IsFree(b, choice - 1)
  {
    if choice > 9 || choice < 1 then false
    else
      var row := (choice - 1) / ROWS;
      var column := (choice - 1) % COLUMNS;
      b[row * COLUMNS + column] == Digit(choice)
  }

  /** checkWin, with `mark` the player who moved last: the eight lines are
      tested in the order rows, columns, diagonals; the first line of three
      equal cells decides WIN (its cell is `mark`) or LOSE. Without such a
      line the game is a DRAW when no cell holds its digit, else GAME_ON. */
  function CheckWin(b: Board, mark: char): (r: byte)
    ensures r == GAME_ON || r == DRAW || r == WIN || r == LOSE
  {
    if b[0] == b[1] && b[1] == b[2] then (if mark == b[0] then WIN else LOSE)
    else if b[3] == b[4] && b[4] == b[5] then (if mark == b[3] then WIN else LOSE)
    else if b[6] == b[7] && b[7] == b[8] then (if mark == b[6] then WIN else LOSE)
    else if b[0] == b[3] && b[3] == b[6] then (if mark == b[0] then WIN else LOSE)
    else if b[1] == b[4] && b[4] == b[7] then (if mark == b[1] then WIN else LOSE)
    else if b[2] == b[5] && b[5] == b[8] then (if mark == b[2] then WIN else LOSE)
    else if b[0] == b[4] && b[4] == b[8] then (if mark == b[0] then WIN else LOSE)
    else if b[6] == b[4] && b[4] == b[2] then (if mark == b[6] then WIN else LOSE)
    else if b[0] != '1' && b[1] != '2' && b[2] != '3' &&
            b[3] != '4' && b[4] != '5' && b[5] != '6' &&
            b[6] != '7' && b[7] != '8' && b[8] != '9' then DRAW
    else GAME_ON
  }

  // Reference definition of checkWin: a table of lines and a search over it.

  /** The cells of line `i`, in the order checkWin tests the lines; the
      first cell of each triple is the one compared with the mark. */
  function LineCells(i: int): (c: (int, int, int))
    requires 0 <= i < 8
    ensures 0 <= c.0 < 9 && 0 <= c.1 < 9 && 0 <= c.2 < 9
    ensures c.0 != c.1 && c.1 != c.2 && c.0 != c.2
  {
    if i == 0 then (0, 1, 2) else if i == 1 then (3, 4, 5) else if i == 2 then (6, 7, 8)
    else if i == 3 then (0, 3, 6) else if i == 4 then (1, 4, 7) else if i == 5 then (2, 5, 8)
    else if i == 6 then (0, 4, 8) else (6, 4, 2)
  }

  predicate Complete(b: Board, i: int)
    requires 0 <= i < 8
  {
    var c := LineCells(i);
    b[c.0] == b[c.1] && b[c.1] == b[c.2]
  }

  /** The first complete line at or after `from`, or 8 when there is none. */
  function FirstComplete(b: Board, from: int): (j: int)
    requires 0 <= from <= 8
    ensures from <= j <= 8
    ensures j < 8 ==> Complete(b, j)
    ensures forall k :: from <= k < j ==> !Complete(b, k)
    decreases 8 - from
  {
    if from == 8 then 8
    else if Complete(b, from) then from
    else FirstComplete(b, from + 1)
  }

  /** What checkWin decides, stated through the line table. */
  function Outcome(b: Board, mark: char): byte {
    var j := FirstComplete(b, 0);
    if j < 8 then (if b[LineCells(j).0] == mark then WIN else LOSE)
    else if HasFree(b) then GAME_ON
    else DRAW
  }

  lemma {:induction false} CheckWinMatchesLines(b: Board, mark: char)
    ensures CheckWin(b, mark) == Outcome(b, mark)
  {
    var j := FirstComplete(b, 0);
    if j == 8 {
      assert forall k :: 0 <= k < 8 ==> !Complete(b, k);
      assert !Complete(b, 0) && !Complete(b, 1) && !Complete(b, 2) && !Complete(b, 3);
      assert !Complete(b, 4) && !Complete(b, 5) && !Complete(b, 6) && !Complete(b, 7);
      if HasFree(b) {
        var k :| 0 <= k < 9 && IsFree(b, k);
        assert b[k] == Digit(k + 1);
      } else {
        assert !IsFree(b, 0) && !IsFree(b, 1) && !IsFree(b, 2) && !IsFree(b, 3) && !IsFree(b, 4);
        assert !IsFree(b, 5) && !IsFree(b, 6) && !IsFree(b, 7) && !IsFree(b, 8);
      }
    } else {
      assert Complete(b, j);
    }
  }

  /** The three ways checkWin can answer, each with its exact condition. */
  lemma CheckWinCases(b: Board, mark: char)
    ensures var r := CheckWin(b, mark);
      && ((r == WIN || r == LOSE) <==> exists i :: 0 <= i < 8 && Complete(b, i))
      && (r == DRAW <==> (forall i :: 0 <= i < 8 ==> !Complete(b, i)) && !HasFree(b))
      && (r == GAME_ON <==> (forall i :: 0 <= i < 8 ==> !Complete(b, i)) && HasFree(b))
      && (r == WIN ==> b[LineCells(FirstComplete(b, 0)).0] == mark)
  {
    CheckWinMatchesLines(b, mark);
    var j := FirstComplete(b, 0);
    if j < 8 {
      assert Complete(b, j);
    }
  }

  /** A game that is still on has a free cell. */
  lemma GameOnHasFree(b: Board, mark: char)
    requires CheckWin(b, mark) == GAME_ON
    ensures HasFree(b)
  {
    CheckWinCases(b, mark);
  }

  /** On a well-formed board a complete line is a line of one mark, because
      the digits of distinct cells differ. */
  lemma {:induction false} CompleteLineIsMarked(b: Board, i: int)
    requires WellFormed(b) && 0 <= i < 8 && Complete(b, i)
    ensures b[LineCells(i).0] == CLIENT_MARK || b[LineCells(i).0] == SERVER_MARK
  {
    var c := LineCells(i);
    // distinct cells hold distinct digits
    assert Digit(c.0 + 1) != Digit(c.1 + 1);
    assert b[c.1] == Digit(c.1 + 1) || b[c.1] == CLIENT_MARK || b[c.1] == SERVER_MARK;
  }

  lemma InitialBoardFacts(mark: char)
    ensures WellFormed(InitialBoard)
    ensures forall k :: 0 <= k < 9 ==> IsFree(InitialBoard, k)
    ensures forall c :: 1 <= c <= 9 ==> IsMoveValid(InitialBoard, c)
    ensures CheckWin(InitialBoard, mark) == GAME_ON
  {
  }

  /** Writing a mark into a free cell keeps the board well formed. */
  lemma PlaceKeepsWellFormed(b: Board, choice: int, mark: char)
    requires WellFormed(b) && IsMoveValid(b, choice)
    requires mark == CLIENT_MARK || mark == SERVER_MARK
    ensures WellFormed(Place(b, choice, mark))
    ensures forall k :: 0 <= k < 9 && k != choice - 1 ==> Place(b, choice, mark)[k] == b[k]
    ensures !IsMoveValid(Place(b, choice, mark), choice)
  {
  }

  /** serverMakeChoice as a value: the lowest-numbered choice whose cell
      still holds its digit, or 9 when there is none. */
  function LowestFree(b: Board): (c: byte)
    ensures 1 <= c <= 9
    ensures HasFree(b) ==> IsMoveValid(b, c)
    ensures forall k :: 1 <= k < c ==> !IsMoveValid(b, k)
    ensures !HasFree(b) ==> c == 9
  {
    LowestFreeFrom(b, 1)
  }

  /** LowestFree is the only choice with no free cell below it that is
      free itself or is the last one. */
  lemma LowestFreeIs(b: Board, c: int)
    requires 1 <= c <= 9
    requires forall k :: 0 <= k < c - 1 ==> !IsFree(b, k)
    requires c < 9 ==> IsFree(b, c - 1)
    ensures LowestFree(b) == c
  {
  }

  function LowestFreeFrom(b: Board, c: int): (r: byte)
    requires 1 <= c <= 9
    ensures c <= r <= 9
    ensures r < 9 ==> IsFree(b, r - 1)
    ensures forall k :: c - 1 <= k < r - 1 ==> !IsFree(b, k)
    ensures (exists k :: c - 1 <= k < 9 && IsFree(b, k)) ==> IsFree(b, r - 1)
    decreases 9 - c
  {
    if c == 9 || IsFree(b, c - 1) then c else LowestFreeFrom(b, c + 1)
  }

  // --------------------------------------------------------------- frames

  /** The frame sendMoveWithChoice writes for a board `after` the move: the
      modifier is checkWin's result and the status is GAME_ON exactly when
      that result is GAME_ON, else GAME_COMPLETE. */
  function MoveFrame(after: Board, choice: byte, gameId: byte, sequenceNum: byte, mark: char): (f: Frame)
    ensures f.msgType == MOVE && f.choice == choice && f.gameId == gameId && f.sequenceNum == sequenceNum
    ensures f.status == GAME_ON || f.status == GAME_COMPLETE
    ensures f.status == GAME_ON <==> f.modifier == GAME_ON
    ensures f.status == GAME_COMPLETE ==> f.modifier == DRAW || f.modifier == WIN || f.modifier == LOSE
  {
    var result := CheckWin(after, mark);
    Frame(VERSION, choice, if result == GAME_ON then GAME_ON else GAME_COMPLETE, result,
          MOVE, gameId, sequenceNum)
  }

  /** What a MOVE frame tells its reader about the board it was built for:
      the game is on exactly when no line is complete and a cell is free, a
      DRAW means a full board without a line, and WIN or LOSE means a
      complete line. */
  lemma MoveFrameReportsBoard(after: Board, choice: byte, gameId: byte, sequenceNum: byte, mark: char)
    ensures var f := MoveFrame(after, choice, gameId, sequenceNum, mark);
      && (f.status == GAME_ON <==> (forall i :: 0 <= i < 8 ==> !Complete(after, i)) && HasFree(after))
      && (f.modifier == DRAW <==> (forall i :: 0 <= i < 8 ==> !Complete(after, i)) && !HasFree(after))
      && ((f.modifier == WIN || f.modifier == LOSE) <==> exists i :: 0 <= i < 8 && Complete(after, i))
  {
    CheckWinCases(after, mark);
  }

  /** respondToInvalidRequest: GAME_ERROR / MALFORMED_REQUEST, the sequence
      number cast to a byte. */
  function InvalidRequestFrame(sendSequenceNum: int, gameId: byte): (f: Frame)
    ensures f.status == GAME_ERROR && f.modifier == MALFORMED_REQUEST
    ensures f.msgType == MOVE && f.choice == 0 && f.gameId == gameId
    ensures ParseGeneralError(f.modifier) == 0
    ensures 0 <= sendSequenceNum < 256 ==> f.sequenceNum == sendSequenceNum
    ensures f.sequenceNum == (sendSequenceNum + 256) % 256
  {
    Frame(VERSION, 0, GAME_ERROR, MALFORMED_REQUEST, MOVE, gameId, U8(sendSequenceNum))
  }

  /** The END_GAME acknowledgement of a matching GAME_COMPLETE report: LOSE
      when the peer's move won, DRAW otherwise. */
  function EndGameFrame(result: byte, gameId: byte, sequenceNum: byte): (f: Frame)
    ensures f.status == GAME_COMPLETE && f.msgType == END_GAME
    ensures f.gameId == gameId && f.sequenceNum == sequenceNum
    ensures f.modifier == LOSE <==> result == WIN
    ensures f.modifier == DRAW <==> result != WIN
  {
    Frame(VERSION, 0, GAME_COMPLETE, if result == WIN then LOSE else DRAW, END_GAME, gameId, sequenceNum)
  }

  /** parseGeneralError: 1 when the error invites a retry, else 0. */
  function ParseGeneralError(statusModifier: byte): (retry: int)
    ensures retry == 0 || retry == 1
    ensures retry == 1 <==> statusModifier == OUT_OF_RESOURCES || statusModifier == TRY_AGAIN
  {
    if statusModifier == OUT_OF_RESOURCES then 1
    else if statusModifier == MALFORMED_REQUEST then 0
    else if statusModifier == SERVER_SHUTDOWN then 0
    else if statusModifier == TIME_OUT then 0
    else if statusModifier == TRY_AGAIN then 1
    else 0
  }

  lemma FramesAreVersioned(b: Board, choice: byte, gameId: byte, s: byte, mark: char, result: byte, n: int)
    ensures MoveFrame(b, choice, gameId, s, mark).version == VERSION
    ensures InvalidRequestFrame(n, gameId).version == VERSION
    ensures EndGameFrame(result, gameId, s).version == VERSION
    ensures MoveFrame(b, choice, gameId, s, mark) != ZeroFrame
    ensures InvalidRequestFrame(n, gameId) != ZeroFrame
    ensures EndGameFrame(result, gameId, s) != ZeroFrame
  {
  }

  // ------------------------------------------------------ in-place boards

  /** initBoard on the nine cells starting at `base`: cell (i, j) receives
      the digit 3i + j + 1. */
  method InitBoard(a: array<char>, base: nat)
    requires base + 9 <= a.Length
    modifies a
    ensures a[..] == Splice(old(a[..]), base, InitialBoard)
  {
    var count := 1;
    for i := 0 to 3
      invariant count == 3 * i + 1
      invariant forall k :: 0 <= k < a.Length ==>
        a[k] == if base <= k < base + 3 * i then Digit(k - base + 1) else old(a[k])
    {
      for j := 0 to 3
        invariant count == 3 * i + j + 1
        invariant forall k :: 0 <= k < a.Length ==>
          a[k] == if base <= k < base + 3 * i + j then Digit(k - base + 1) else old(a[k])
      {
        a[base + i * COLUMNS + j] := Digit(count);
        count := count + 1;
      }
    }
    assert forall k :: 0 <= k < 9 ==> InitialBoard[k] == Digit(k + 1);
    assert a[..] == old(a[..])[..base] + InitialBoard + old(a[..])[base + 9..];
  }

  /** sendMoveWithChoice: writes `mark` into the cell of `choice` (and no
      other cell), then builds the MOVE frame for the updated board. The
      result is GAME_ERROR when the write fails (`sendOk` false), else GAME_ON. */
  method SendMoveWithChoice(a: array<char>, base: nat, choice: byte, gameId: byte,
                            sequenceNum: byte, mark: char, sendOk: bool)
    returns (frame: Frame, r: byte)
    requires base + 9 <= a.Length && 1 <= choice <= 9
    modifies a
    ensures a[..] == old(a[..])[base + choice - 1 := mark]
    ensures BoardAt(a[..], base) == Place(BoardAt(old(a[..]), base), choice, mark)
    ensures frame == MoveFrame(BoardAt(a[..], base), choice, gameId, sequenceNum, mark)
    ensures r == if sendOk then GAME_ON else GAME_ERROR
  {
    var row := (choice - 1) / ROWS;
    var column := (choice - 1) % COLUMNS;
    a[base + row * COLUMNS + column] := mark;
    var result := CheckWin(a[base..base + 9], mark);
    var status := if result == GAME_ON then GAME_ON else GAME_COMPLETE;
    frame := Frame(VERSION, choice, status, result, MOVE, gameId, sequenceNum);
    r := if sendOk then GAME_ON else GAME_ERROR;
  }

  // ----------------------------------------------------------- validators

  /** A C string: no NUL character inside. */
  predicate IsCString(s: string) {
    forall k :: 0 <= k < |s| ==> s[k] != '\0'
  }

  predicate IsDecimal(c: char) { '0' <= c <= '9' }

  predicate AllDigits(s: string) {
    forall k :: 0 <= k < |s| ==> IsDecimal(s[k])
  }

  /** isDigitValid: every character is a decimal digit (true of ""). */
  method IsDigitValid(s: string) returns (valid: bool)
    requires IsCString(s)
    ensures valid <==> AllDigits(s)
  {
    var i := 0;
    while i < |s|
      invariant 0 <= i <= |s|
      invariant forall k :: 0 <= k < i ==> IsDecimal(s[k])
    {
      if '0' <= s[i] <= '9' {
        i := i + 1;
      } else {
        return false;
      }
    }
    return true;
  }

  /** isPortNumValid: non-empty, a first character 1..9, the rest 0..9. */
  method IsPortNumValid(portNum: string) returns (valid: bool)
    requires IsCString(portNum)
    ensures valid <==> |portNum| > 0 && '1' <= portNum[0] <= '9' && AllDigits(portNum[1..])
  {
    var len := |portNum|;
    if len <= 0 {
      return false;
    }
    if portNum[0] > '9' || portNum[0] < '1' {
      return false;
    }
    for i := 1 to |portNum|
      invariant forall k :: 1 <= k < i ==> IsDecimal(portNum[k])
    {
      if portNum[i] > '9' || portNum[i] < '0' {
        assert !IsDecimal(portNum[1..][i - 1]);
        return false;
      }
    }
    return true;
  }

  // strtok(_, ".") as positions in the string.

  /** Where strtok starts its next token: past every '.' from `pos` on. */
  function SkipDelims(s: string, pos: int): (p: int)
    requires 0 <= pos <= |s|
    ensures pos <= p <= |s|
    ensures p < |s| ==> s[p] != '.'
    ensures forall k :: pos <= k < p ==> s[k] == '.'
    decreases |s| - pos
  {
    if pos < |s| && s[pos] == '.' then SkipDelims(s, pos + 1) else pos
  }

  /** Where the token starting at `pos` ends: the next '.' or the end. */
  function TokenEnd(s: string, pos: int): (e: int)
    requires 0 <= pos <= |s|
    ensures pos <= e <= |s|
    ensures e < |s| ==> s[e] == '.'
    ensures forall k :: pos <= k < e ==> s[k] != '.'
    decreases |s| - pos
  {
    if pos < |s| && s[pos] != '.' then TokenEnd(s, pos + 1) else pos
  }

  /** The tokens strtok returns from `pos` on: the pieces between dots,
      empty pieces skipped. */
  function TokensFrom(s: string, pos: int): seq<string>
    requires 0 <= pos <= |s|
    decreases |s| - pos
  {
    var start := SkipDelims(s, pos);
    if start == |s| then []
    else
      var end := TokenEnd(s, start);
      [s[start..end]] + TokensFrom(s, end)
  }

  function Tokens(s: string): seq<string> {
    TokensFrom(s, 0)
  }

  /** What isIpValid accepts: four dot-separated pieces, each all digits. */
  predicate IpAccepted(ip: string) {
    var t := Tokens(ip);
    |t| == 4 && forall k :: 0 <= k < 4 ==> AllDigits(t[k])
  }

  /** The value strtol gives a string of digits, saturated at LONG_MAX. */
  function Strtol(s: string): int
    requires AllDigits(s)
  {
    var v := DecimalValue(s);
    if v > 0x7fff_ffff_ffff_ffff then 0x7fff_ffff_ffff_ffff else v
  }

  function DecimalValue(s: string): nat
    requires AllDigits(s)
  {
    if s == [] then 0 else 10 * DecimalValue(s[..|s| - 1]) + (s[|s| - 1] as int - '0' as int)
  }

  lemma {:induction false} SkipDelimsIdle(s: string, p: int)
    requires 0 <= p <= |s| && (p == |s| || s[p] != '.')
    ensures SkipDelims(s, p) == p
  {
  }

  /** One strtok call: the token at `p` and the position of the next one. */
  lemma {:induction false} TokensStep(s: string, p: int)
    requires 0 <= p < |s| && s[p] != '.'
    ensures TokensFrom(s, p) == [s[p..TokenEnd(s, p)]] + TokensFrom(s, SkipDelims(s, TokenEnd(s, p)))
  {
    SkipDelimsIdle(s, p);
    var e := TokenEnd(s, p);
    var q := SkipDelims(s, e);
    SkipDelimsIdle(s, q);
    assert TokensFrom(s, e) == TokensFrom(s, q);
  }

  /** isIpValid: the strtok loop over the dot-separated pieces. Every piece
      must be all digits; the range test that follows never fails, since
      the piece's value is cast to uint8_t first; the string is accepted
      when exactly four pieces (three counted after the first) were seen.
      The source copies the string into a 29-byte buffer, hence the bound. */
  method IsIpValid(ip: string) returns (valid: bool)
    requires |ip| <= 28 && IsCString(ip)
    ensures valid <==> IpAccepted(ip)
  {
    var ptr := SkipDelims(ip, 0);
    if ptr == |ip| {
      return false;
    }
    var dots := 0;
    ghost var seen: seq<string> := [];
    while ptr < |ip|
      invariant 0 <= ptr <= |ip|
      invariant ptr < |ip| ==> ip[ptr] != '.'
      invariant seen + TokensFrom(ip, ptr) == Tokens(ip)
      invariant forall k :: 0 <= k < |seen| ==> AllDigits(seen[k])
      invariant dots == |seen| - 1 + (if ptr < |ip| then 1 else 0)
      invariant ptr == |ip| ==> |seen| >= 1
      decreases |ip| - ptr
    {
      var end := TokenEnd(ip, ptr);
      var token := ip[ptr..end];
      TokensStep(ip, ptr);
      var digits := IsDigitValid(token);
      if !digits {
        assert Tokens(ip)[|seen|] == token;
        return false;
      }
      var num := U8(Strtol(token));
      RangeTestNeverFails(token);
      // the source's range test: num is the piece's value modulo 256
      assert 0 <= num <= 255;
      ptr := SkipDelims(ip, end);
      seen := seen + [token];
      if ptr < |ip| {
        dots := dots + 1;
      }
    }
    assert seen == Tokens(ip);
    return dots == 3;
  }

  /** isIpValid's range test sees the piece's value after the cast to
      uint8_t: for a piece whose value fits in a long, the tested number is
      that value modulo 256, which always lies in the tested range. */
  lemma RangeTestNeverFails(token: string)
    requires AllDigits(token)
    ensures DecimalValue(token) <= 0x7fff_ffff_ffff_ffff ==> U8(Strtol(token)) == DecimalValue(token) % 256
  {
  }

  /** The piece "999" reaches the range test as 231. */
  lemma WidePieceWraps()
    ensures U8(Strtol("999")) == 231
  {
    assert "999"[..2] == "99" && "99"[..1] == "9" && "9"[..0] == "";
  }

  /** Pieces are not range-checked, and empty pieces are skipped. */
  lemma OutOfRangePieceAccepted()
    ensures IpAccepted("999.1.2.3")
  {
    var s := "999.1.2.3";
    assert TokenEnd(s, 0) == 3 && SkipDelims(s, 3) == 4 && TokenEnd(s, 4) == 5;
    assert SkipDelims(s, 5) == 6 && TokenEnd(s, 6) == 7;
    assert SkipDelims(s, 7) == 8 && TokenEnd(s, 8) == 9;
    assert TokensFrom(s, 9) == [];
    assert s[0..3] == "999" && s[4..5] == "1" && s[6..7] == "2" && s[8..9] == "3";
    assert TokensFrom(s, 7) == ["3"];
    assert TokensFrom(s, 5) == ["2", "3"];
    assert TokensFrom(s, 3) == ["1", "2", "3"];
    assert Tokens(s) == ["999", "1", "2", "3"];
  }

  lemma EmptyPiecesSkipped()
    ensures IpAccepted("1..2.3.4.")
  {
    var s := "1..2.3.4.";
    assert TokenEnd(s, 0) == 1 && SkipDelims(s, 1) == 3 && TokenEnd(s, 3) == 4;
    assert SkipDelims(s, 4) == 5 && TokenEnd(s, 5) == 6;
    assert SkipDelims(s, 6) == 7 && TokenEnd(s, 7) == 8;
    assert SkipDelims(s, 8) == 9;
    assert TokensFrom(s, 8) == [];
    assert s[0..1] == "1" && s[3..4] == "2" && s[5..6] == "3" && s[7..8] == "4";
    assert TokensFrom(s, 6) == ["4"];
    assert TokensFrom(s, 4) == ["3", "4"];
    assert TokensFrom(s, 1) == ["2", "3", "4"];
    assert Tokens(s) == ["1", "2", "3", "4"];
  }

  /** The number of '.' in `s` from `pos` on. */
  function DotsFrom(s: string, pos: int): nat
    requires 0 <= pos <= |s|
    decreases |s| - pos
  {
    if pos == |s| then 0 else (if s[pos] == '.' then 1 else 0) + DotsFrom(s, pos + 1)
  }

  /** Skipping delimiters never finds more dots ahead. */
  lemma {:induction false} SkipDelimsDots(s: string, pos: int)
    requires 0 <= pos <= |s|
    ensures DotsFrom(s, SkipDelims(s, pos)) <= DotsFrom(s, pos)
    decreases |s| - pos
  {
    if pos < |s| && s[pos] == '.' {
      SkipDelimsDots(s, pos + 1);
    }
  }

  /** A token holds no dot. */
  lemma {:induction false} TokenEndDots(s: string, pos: int)
    requires 0 <= pos <= |s|
    ensures DotsFrom(s, TokenEnd(s, pos)) == DotsFrom(s, pos)
    decreases |s| - pos
  {
    if pos < |s| && s[pos] != '.' {
      TokenEndDots(s, pos + 1);
    }
  }

  /** strtok finds at most one token more than there are dots. */
  lemma {:induction false} TokensBound(s: string, pos: int)
    requires 0 <= pos <= |s|
    ensures |TokensFrom(s, pos)| <= DotsFrom(s, pos) + 1
    decreases |s| - pos
  {
    var start := SkipDelims(s, pos);
    SkipDelimsDots(s, pos);
    if start < |s| {
      var end := TokenEnd(s, start);
      TokenEndDots(s, start);
      if end < |s| {
        assert SkipDelims(s, end) == SkipDelims(s, end + 1);
        assert TokensFrom(s, end) == TokensFrom(s, end + 1);
        TokensBound(s, end + 1);
      }
    }
  }

  /** isIpValid refuses an address with fewer than three dots: it cannot
      split into four pieces. */
  lemma FewDotsRefused(ip: string)
    requires DotsFrom(ip, 0) < 3
    ensures !IpAccepted(ip)
  {
    TokensBound(ip, 0);
  }
}
