/** The server's session table and per-message dispatch (server.c).

    The spec functions below describe one step of the server on a value
    snapshot of its state (`Table`); the class `Server` keeps the state in
    arrays updated in place, as the source does, and each of its methods is
    proved to perform exactly the corresponding step. The lemmas at the end
    state what the source promises about those steps. */
module Server {
  import opened TicTacToe

  /** `struct board_info`: one slot of the session table. `sd` is the
      client's descriptor (0: the slot is free), `latestTime` the last time
      the slot was refreshed, `sequenceNum` the sequence number expected
      from the client, `sendBuffer` the cached "last sent" frame. */
  datatype BoardInfo = BoardInfo(resendCount: int, sd: int, latestTime: int,
                                 sequenceNum: byte, sendBuffer: Frame)

  /** A frame handed to write() and the descriptor it was written to. */
  datatype Sent = Sent(sd: int, frame: Frame)

  /** The slot `initBoardInfo` leaves; `now` stands for time(). */
  function FreeInfo(now: int): BoardInfo {
    BoardInfo(0, 0, now, 0, ZeroFrame)
  }

  /** The server's state as a value: the slots, the 90 cells of
      `boards[MAX_BOARD][ROWS][COLUMNS]` (board g is cells 9g..9g+8) and
      every frame written so far. */
  datatype Table = Table(info: seq<BoardInfo>, boards: seq<char>, outbox: seq<Sent>)

  predicate Shaped(t: Table) {
    |t.info| == MAX_BOARD && |t.boards| == 9 * MAX_BOARD
  }

  function BoardOf(t: Table, g: int): Board
    requires Shaped(t) && 0 <= g < MAX_BOARD
  {
    BoardAt(t.boards, 9 * g)
  }

  /** What every slot keeps: the cached frame is never written after
      initBoardInfo zeroes it, only the timeout sweep increments the resend
      counter and only while it is at most MAX_SEND_COUNT, and the expected
      sequence number starts at 0 and moves in steps of 2 modulo 256. */
  predicate SlotOk(s: BoardInfo) {
    && s.sendBuffer == ZeroFrame
    && 0 <= s.resendCount <= MAX_SEND_COUNT + 1
    && s.sequenceNum % 2 == 0
  }

  predicate InfoOk(info: seq<BoardInfo>) {
    forall g :: 0 <= g < |info| ==> SlotOk(info[g])
  }

  predicate BoardsOk(boards: seq<char>)
    requires |boards| == 9 * MAX_BOARD
  {
    forall g :: 0 <= g < MAX_BOARD ==> WellFormed(BoardAt(boards, 9 * g))
  }

  predicate TableOk(t: Table) {
    Shaped(t) && InfoOk(t.info) && BoardsOk(t.boards)
  }

  /** The table after playServer's set-up loop: every slot free with the
      given time, every board initial, nothing sent. */
  predicate Initial(t: Table, now: int) {
    && Shaped(t)
    && (forall g :: 0 <= g < MAX_BOARD ==> t.info[g] == FreeInfo(now))
    && (forall g :: 0 <= g < MAX_BOARD ==> BoardOf(t, g) == InitialBoard)
    && t.outbox == []
  }

  // The three elementary changes every step is made of.

  /** `time(&boardInfo[g].latest_time)` */
  function Touch(t: Table, g: int, now: int): (r: Table)
    requires Shaped(t) && 0 <= g < MAX_BOARD
    ensures Shaped(r)
  {
    t.(info := t.info[g := t.info[g].(latestTime := now)])
  }

  /** A frame handed to write() on descriptor `sd`. */
  function Send(t: Table, sd: int, frame: Frame): (r: Table)
    requires Shaped(t)
    ensures Shaped(r)
  {
    t.(outbox := t.outbox + [Sent(sd, frame)])
  }

  /** `boards[g][row][column] = mark` for the cell of `choice`. */
  function Mark(t: Table, g: int, choice: int, mark: char): (r: Table)
    requires Shaped(t) && 0 <= g < MAX_BOARD && 1 <= choice <= 9
    ensures Shaped(r)
  {
    t.(boards := t.boards[9 * g + choice - 1 := mark])
  }

  /** Slot `g` released: its descriptor closed, its board and its
      board_info re-initialised. */
  function Release(t: Table, g: int, now: int): (r: Table)
    requires Shaped(t) && 0 <= g < MAX_BOARD
    ensures Shaped(r)
  {
    t.(info := t.info[g := FreeInfo(now)], boards := Splice(t.boards, 9 * g, InitialBoard))
  }

  /** respondToInvalidRequestServer: a MALFORMED_REQUEST frame to the
      slot's descriptor, then the slot's time refreshed. */
  function Respond(t: Table, sendSequenceNum: int, g: int, now: int): (r: Table)
    requires Shaped(t) && 0 <= g < MAX_BOARD
    ensures Shaped(r)
  {
    Touch(Send(t, t.info[g].sd, InvalidRequestFrame(sendSequenceNum, g)), g, now)
  }

  /** receiveNewGame: the sequence number is compared with the slot's. */
  function NewGameStep(t: Table, recv: byte, send: byte, next: byte, g: int, now: int, sendOk: bool)
    : (res: (Table, int))
    requires Shaped(t) && 0 <= g < MAX_BOARD
    ensures Shaped(res.0)
  {
    var s := t.info[g];
    if recv < s.sequenceNum then
      if s.resendCount < MAX_TRY then
        var t1 := Send(t, s.sd, s.sendBuffer);
        if !sendOk then (t1, GAME_ERROR as int) else (Touch(t1, g, now), SKIP_NEXT_SEND)
      else (t, GAME_ERROR as int)
    else if recv > s.sequenceNum then (Respond(t, send, g, now), SKIP_NEXT_SEND)
    else
      var t1 := Touch(t.(info := t.info[g := s.(sequenceNum := next)]), g, now);
      (Send(t1, s.sd, Frame(VERSION, 0, GAME_ON, 0, MOVE, g, send)),
       if sendOk then SKIP_NEXT_SEND else GAME_ERROR as int)
  }

  /** receiveMove, once the client's mark is on the board: the local
      result decides between the server's answer, an END_GAME
      acknowledgement and a MALFORMED_REQUEST. */
  function MarkedStep(t: Table, send: byte, buffer: Frame, now: int, sendOk: bool): (res: (Table, int))
    requires Shaped(t) && buffer.gameId < MAX_BOARD
    ensures Shaped(res.0)
  {
    var g := buffer.gameId;
    var sd := t.info[g].sd;
    var result := CheckWin(BoardOf(t, g), CLIENT_MARK);
    if buffer.status == GAME_ON then
      if result == GAME_ON then
        var newChoice := LowestFree(BoardOf(t, g));
        var t1 := Mark(Touch(t, g, now), g, newChoice, SERVER_MARK);
        (Send(t1, sd, MoveFrame(BoardOf(t1, g), newChoice, g, send, SERVER_MARK)), GAME_ON as int)
      else (Respond(t, send, g, now), SKIP_NEXT_SEND)
    else if result != buffer.modifier then (Respond(t, send, g, now), SKIP_NEXT_SEND)
    else
      var t1 := Touch(Send(t, sd, EndGameFrame(result, g, send)), g, now);
      if !sendOk then (t1, GAME_ERROR as int) else (Release(t1, g, now), SKIP_NEXT_SEND)
  }

  /** receiveMove, for the board of the frame's game id. */
  function MoveStep(t: Table, send: byte, buffer: Frame, now: int, sendOk: bool): (res: (Table, int))
    requires Shaped(t) && buffer.gameId < MAX_BOARD
    ensures Shaped(res.0)
  {
    var g := buffer.gameId;
    if buffer.status > 2 then (Respond(t, send, g, now), SKIP_NEXT_SEND)
    else if buffer.status == GAME_ERROR then (t, GAME_ERROR as int)
    else if !IsMoveValid(BoardOf(t, g), buffer.choice) then (Respond(t, send, g, now), SKIP_NEXT_SEND)
    else MarkedStep(Mark(t, g, buffer.choice, CLIENT_MARK), send, buffer, now, sendOk)
  }

  /** processBuffer, once the frame's header, game id and sequence number
      have been accepted and the expected sequence number advanced. */
  function InOrderStep(t: Table, g: int, send: byte, buffer: Frame, now: int, sendOk: bool): (res: (Table, int))
    requires Shaped(t) && 0 <= g < MAX_BOARD && g == buffer.gameId
    ensures Shaped(res.0)
  {
    if buffer.msgType == END_GAME then
      var t1 := Touch(t, g, now);
      var result := CheckWin(BoardOf(t1, g), CLIENT_MARK);
      if result == GAME_ON || result == WIN then (Respond(t1, send, g, now), 1)
      else (Release(t1, g, now), 1)
    else MoveStep(t, send, buffer, now, sendOk)
  }

  /** processBuffer: header checks, then the sequence-number classifier,
      then dispatch on the message type. */
  function ProcessStep(t: Table, g: int, buffer: Frame, now: int, sendOk: bool): (res: (Table, int))
    requires Shaped(t) && 0 <= g < MAX_BOARD
    ensures Shaped(res.0)
  {
    if buffer.version != VERSION then (Respond(t, buffer.sequenceNum, g, now), 1)
    else
      var recv: int := buffer.sequenceNum;
      var send := (recv + 1) % 256;
      var next := (send + 1) % 256;
      if buffer.msgType > 2 then (Respond(t, send, g, now), 1)
      else if buffer.msgType == NEW_GAME then NewGameStep(t, recv, send, next, g, now, sendOk)
      else if g != buffer.gameId then (Respond(t, send, g, now), 1)
      else
        var s := t.info[g];
        if recv < s.sequenceNum then
          if s.resendCount < MAX_TRY then (Touch(Send(t, s.sd, s.sendBuffer), g, now), 1)
          else (t, GAME_ERROR as int)
        else if recv > s.sequenceNum then (Respond(t, send, g, now), 1)
        else InOrderStep(t.(info := t.info[g := s.(sequenceNum := next)]), g, send, buffer, now, sendOk)
  }

  /** The TIMEOUT notice for slot g. */
  function TimeoutFrame(g: byte, sequenceNum: byte): (f: Frame)
    ensures f.status == GAME_ERROR && f.modifier == TIME_OUT
    ensures f.msgType == MOVE && f.choice == 0 && f.gameId == g && f.sequenceNum == sequenceNum
    ensures ParseGeneralError(f.modifier) == 0
    ensures forall n: int :: f != InvalidRequestFrame(n, g)
  {
    Frame(VERSION, 0, GAME_ERROR, TIME_OUT, MOVE, g, sequenceNum)
  }

  /** One iteration of checkBoardTimeOut's loop. Frames go to `sd`, the
      listening descriptor the sweep is given, and a resend does not refresh
      the slot's time. */
  function SweepSlot(t: Table, i: int, sd: int, now: int): (r: Table)
    requires Shaped(t) && 0 <= i < MAX_BOARD
    ensures Shaped(r)
  {
    var s := t.info[i];
    if s.sd != 0 && now - s.latestTime >= TIME_LIMIT_SERVER then
      if s.resendCount <= MAX_SEND_COUNT then
        Send(t.(info := t.info[i := s.(resendCount := s.resendCount + 1)]), sd, s.sendBuffer)
      else
        // (sequenceNum - 1) % 256 with C's remainder, then the uint8_t cast
        Send(Release(t, i, now), sd, TimeoutFrame(i, U8(CRem(s.sequenceNum - 1, 256))))
    else t
  }

  /** checkBoardTimeOut's loop after its first n iterations. */
  function SweepUpTo(t: Table, sd: int, now: int, n: int): (r: Table)
    requires Shaped(t) && 0 <= n <= MAX_BOARD
    ensures Shaped(r)
  {
    if n == 0 then t else SweepSlot(SweepUpTo(t, sd, now, n - 1), n - 1, sd, now)
  }

  function Sweep(t: Table, sd: int, now: int): (r: Table)
    requires Shaped(t)
    ensures Shaped(r)
  {
    SweepUpTo(t, sd, now, MAX_BOARD)
  }

  /** The lowest slot from `from` on whose descriptor is 0, or |info|. */
  function FirstFree(info: seq<BoardInfo>, from: int): (g: int)
    requires 0 <= from <= |info|
    ensures from <= g <= |info|
    ensures g < |info| ==> info[g].sd == 0
    ensures forall h :: from <= h < g ==> info[h].sd != 0
    decreases |info| - from
  {
    if from == |info| then from
    else if info[from].sd == 0 then from
    else FirstFree(info, from + 1)
  }

  /** The refusal sent when every slot is busy. */
  const OutOfResourcesFrame := Frame(VERSION, 0, GAME_ERROR, OUT_OF_RESOURCES, MOVE, 0, 1)

  /** The refusal of a connection when every slot is taken is the one error
      the server sends that invites the client to try again; it names game 0
      and sequence number 1, and no other error frame looks like it. */
  lemma OutOfResourcesInvitesRetry(g: byte, s: byte, n: int)
    ensures OutOfResourcesFrame.status == GAME_ERROR
    ensures ParseGeneralError(OutOfResourcesFrame.modifier) == 1
    ensures OutOfResourcesFrame.gameId == 0 && OutOfResourcesFrame.sequenceNum == 1
    ensures OutOfResourcesFrame != TimeoutFrame(g, s) && OutOfResourcesFrame != InvalidRequestFrame(n, g)
  {
  }

  /** playServer's handling of a new connection: the lowest free slot takes
      the descriptor; with none free, the OUT_OF_RESOURCES frame is written
      to the new descriptor and the result is MAX_BOARD. */
  function AcceptStep(t: Table, connectedSd: int): (res: (Table, int))
    requires Shaped(t)
    ensures Shaped(res.0)
  {
    var g := FirstFree(t.info, 0);
    if g < MAX_BOARD then (t.(info := t.info[g := t.info[g].(sd := connectedSd)]), g)
    else (Send(t, connectedSd, OutOfResourcesFrame), MAX_BOARD)
  }

  /** playServer's handling of a zero-length read: only the slot's
      board_info is re-initialised, its board is kept. */
  function DisconnectStep(t: Table, g: int, now: int): (r: Table)
    requires Shaped(t) && 0 <= g < MAX_BOARD
    ensures Shaped(r)
  {
    t.(info := t.info[g := FreeInfo(now)])
  }

  // ------------------------------------------------------ serverMakeChoice

  /** serverMakeChoice: scans the cells row by row and answers the first
      one that still holds its digit; 9 when none does. */
  method ServerMakeChoice(b: Board) returns (choice: byte)
    ensures choice == LowestFree(b)
  {
    choice := 0;
    for i := 0 to ROWS
      invariant forall k :: 0 <= k < 3 * i ==> !IsFree(b, k)
      invariant choice == 3 * i
    {
      for j := 0 to COLUMNS
        invariant forall k :: 0 <= k < 3 * i + j ==> !IsFree(b, k)
        invariant choice == (if j == 0 then 3 * i else 3 * i + j)
      {
        choice := i * 3 + j + 1;
        if b[i * COLUMNS + j] == Digit(choice) {
          LowestFreeIs(b, choice);
          return choice;
        }
      }
    }
    LowestFreeIs(b, choice);
    return choice;
  }

  // ---------------------------------------------------------- the server

  class Server {
    /** `boardInfo[]`; the source declares one spare entry past MAX_BOARD
        that is never read or written. */
    const info: array<BoardInfo>
    /** `boards[MAX_BOARD][ROWS][COLUMNS]`, in C's layout. */
    const boards: array<char>
    /** Every frame written, with its descriptor. */
    var outbox: seq<Sent>

    ghost predicate Sized()
      reads this
    {
      info.Length == MAX_BOARD && boards.Length == 9 * MAX_BOARD
    }

    function Snapshot(): Table
      reads this, info, boards
    {
      Table(info[..], boards[..], outbox)
    }

    ghost predicate Valid()
      reads this, info, boards
    {
      Sized() && TableOk(Snapshot())
    }

    /** playServer's set-up: every slot and every board initialised. */
    constructor (now: int)
      ensures Sized() && fresh(info) && fresh(boards)
      ensures Initial(Snapshot(), now)
      ensures Valid()
    {
      info := new BoardInfo[MAX_BOARD](_ => FreeInfo(0));
      boards := new char[9 * MAX_BOARD](_ => '1');
      outbox := [];
      new;
      for i := 0 to MAX_BOARD
        invariant Sized() && outbox == []
        invariant forall h :: 0 <= h < i ==> info[h] == FreeInfo(now)
        invariant forall h :: 0 <= h < i ==> BoardAt(boards[..], 9 * h) == InitialBoard
      {
        InitBoardInfo(i, now);
        ghost var before := boards[..];
        InitBoard(boards, 9 * i);
        forall h | 0 <= h <= i
          ensures BoardAt(boards[..], 9 * h) == InitialBoard
        {
          BoardAtSplice(before, 9 * i, InitialBoard, 9 * h);
        }
      }
      InitialOk(Snapshot(), now);
    }

    /** initBoardInfo on slot g. */
    method InitBoardInfo(g: int, now: int)
      requires Sized() && 0 <= g < MAX_BOARD
      modifies info
      ensures info[..] == old(info[..])[g := FreeInfo(now)]
    {
      info[g] := FreeInfo(now);
    }

    /** close(); initBoard(); initBoardInfo() on slot g. */
    method ReleaseSlot(g: int, now: int)
      requires Sized() && 0 <= g < MAX_BOARD
      modifies info, boards
      ensures Snapshot() == Release(old(Snapshot()), g, now)
    {
      InitBoard(boards, 9 * g);
      InitBoardInfo(g, now);
    }

    method RespondToInvalidRequestServer(sendSequenceNum: int, g: int, now: int)
      requires Sized() && 0 <= g < MAX_BOARD
      modifies this, info
      ensures Snapshot() == Respond(old(Snapshot()), sendSequenceNum, g, now)
    {
      outbox := outbox + [Sent(info[g].sd, InvalidRequestFrame(sendSequenceNum, g))];
      info[g] := info[g].(latestTime := now);
    }

    method ReceiveNewGame(recvSequenceNum: byte, sendSequenceNum: byte, nextRecvSequenceNum: byte,
                          gameId: byte, now: int, sendOk: bool) returns (r: int)
      requires Sized() && gameId < MAX_BOARD
      modifies this, info
      ensures (Snapshot(), r) ==
              NewGameStep(old(Snapshot()), recvSequenceNum, sendSequenceNum, nextRecvSequenceNum,
                          gameId, now, sendOk)
    {
      if recvSequenceNum < info[gameId].sequenceNum {
        if info[gameId].resendCount < MAX_TRY {
          outbox := outbox + [Sent(info[gameId].sd, info[gameId].sendBuffer)];
          if !sendOk {
            return GAME_ERROR;
          }
          info[gameId] := info[gameId].(latestTime := now);
          return SKIP_NEXT_SEND;
        } else {
          return GAME_ERROR;
        }
      }
      if recvSequenceNum > info[gameId].sequenceNum {
        RespondToInvalidRequestServer(sendSequenceNum, gameId, now);
        return SKIP_NEXT_SEND;
      }
      ghost var t := Snapshot();
      info[gameId] := info[gameId].(sequenceNum := nextRecvSequenceNum, latestTime := now);
      assert Snapshot() == Touch(t.(info := t.info[gameId := t.info[gameId].(sequenceNum := nextRecvSequenceNum)]), gameId, now);
      outbox := outbox + [Sent(info[gameId].sd, Frame(VERSION, 0, GAME_ON, 0, MOVE, gameId, sendSequenceNum))];
      if !sendOk {
        return GAME_ERROR;
      }
      return SKIP_NEXT_SEND;
    }

    method ReceiveMove(sendSequenceNum: byte, buffer: Frame, now: int, sendOk: bool) returns (r: int)
      requires Sized() && buffer.gameId < MAX_BOARD
      modifies this, info, boards
      ensures (Snapshot(), r) == MoveStep(old(Snapshot()), sendSequenceNum, buffer, now, sendOk)
    {
      ghost var t := Snapshot();
      var gameId := buffer.gameId;
      var base := 9 * gameId;
      if buffer.status > 2 {
        RespondToInvalidRequestServer(sendSequenceNum, gameId, now);
        return SKIP_NEXT_SEND;
      }
      if buffer.status == GAME_ERROR {
        // parseGeneralError only reports the error
        return GAME_ERROR;
      }
      var choice := buffer.choice;
      assert boards[base..base + 9] == BoardOf(t, gameId);
      if !IsMoveValid(boards[base..base + 9], choice) {
        RespondToInvalidRequestServer(sendSequenceNum, gameId, now);
        return SKIP_NEXT_SEND;
      }
      var row := (choice - 1) / ROWS;
      var column := (choice - 1) % COLUMNS;
      boards[base + row * COLUMNS + column] := CLIENT_MARK;
      ghost var t1 := Mark(t, gameId, choice, CLIENT_MARK);
      assert Snapshot() == t1;
      assert MoveStep(t, sendSequenceNum, buffer, now, sendOk) ==
             MarkedStep(t1, sendSequenceNum, buffer, now, sendOk);
      assert boards[base..base + 9] == BoardOf(t1, gameId);
      var result := CheckWin(boards[base..base + 9], CLIENT_MARK);
      if buffer.status == GAME_ON {
        if result == GAME_ON {
          info[gameId] := info[gameId].(latestTime := now);
          ghost var t2 := Touch(t1, gameId, now);
          assert Snapshot() == t2;
          var newChoice := ServerMakeChoice(boards[base..base + 9]);
          var frame, _ := SendMoveWithChoice(boards, base, newChoice, gameId, sendSequenceNum,
                                             SERVER_MARK, sendOk);
          assert boards[..] == t2.boards[base + newChoice - 1 := SERVER_MARK];
          assert Snapshot() == Mark(t2, gameId, newChoice, SERVER_MARK);
          outbox := outbox + [Sent(info[gameId].sd, frame)];
          return GAME_ON;
        }
        RespondToInvalidRequestServer(sendSequenceNum, gameId, now);
        return SKIP_NEXT_SEND;
      }
      if result != buffer.modifier {
        RespondToInvalidRequestServer(sendSequenceNum, gameId, now);
        return SKIP_NEXT_SEND;
      }
      outbox := outbox + [Sent(info[gameId].sd, EndGameFrame(result, gameId, sendSequenceNum))];
      info[gameId] := info[gameId].(latestTime := now);
      if !sendOk {
        return GAME_ERROR;
      }
      ReleaseSlot(gameId, now);
      return SKIP_NEXT_SEND;
    }

    /** processBuffer for the frame read from slot `gameId`. */
    method ProcessBuffer(gameId: byte, buffer: Frame, now: int, sendOk: bool) returns (r: int)
      requires Valid() && gameId < MAX_BOARD
      modifies this, info, boards
      ensures (Snapshot(), r) == ProcessStep(old(Snapshot()), gameId, buffer, now, sendOk)
      ensures Valid()
    {
      ghost var t := Snapshot();
      ProcessKeepsOk(t, gameId, buffer, now, sendOk);
      if buffer.version != VERSION {
        RespondToInvalidRequestServer(buffer.sequenceNum, gameId, now);
        return 1;
      }
      var recvSequenceNum: int := buffer.sequenceNum;
      var sendSequenceNum := (recvSequenceNum + 1) % 256;
      var nextRecvSequenceNum := (sendSequenceNum + 1) % 256;
      if buffer.msgType > 2 {
        RespondToInvalidRequestServer(sendSequenceNum, gameId, now);
        return 1;
      }
      if buffer.msgType == NEW_GAME {
        r := ReceiveNewGame(recvSequenceNum, sendSequenceNum, nextRecvSequenceNum, gameId, now, sendOk);
        return;
      }
      if gameId != buffer.gameId {
        RespondToInvalidRequestServer(sendSequenceNum, gameId, now);
        return 1;
      }
      if recvSequenceNum < info[gameId].sequenceNum {
        if info[gameId].resendCount < MAX_TRY {
          outbox := outbox + [Sent(info[gameId].sd, info[gameId].sendBuffer)];
          info[gameId] := info[gameId].(latestTime := now);
          return 1;
        }
        return GAME_ERROR;
      }
      if recvSequenceNum > info[gameId].sequenceNum {
        RespondToInvalidRequestServer(sendSequenceNum, gameId, now);
        return 1;
      }
      info[gameId] := info[gameId].(sequenceNum := nextRecvSequenceNum);
      ProcessInOrder(t, gameId, buffer, now, sendOk, sendSequenceNum, Snapshot());
      r := ReceiveInOrder(gameId, sendSequenceNum, buffer, now, sendOk);
    }

    /** The tail of processBuffer, once the expected sequence number has
        been advanced: END_GAME is checked against the local board, MOVE
        goes to receiveMove. */
    method ReceiveInOrder(gameId: byte, sendSequenceNum: byte, buffer: Frame, now: int, sendOk: bool)
      returns (r: int)
      requires Sized() && gameId < MAX_BOARD && gameId == buffer.gameId
      modifies this, info, boards
      ensures (Snapshot(), r) == InOrderStep(old(Snapshot()), gameId, sendSequenceNum, buffer, now, sendOk)
    {
      if buffer.msgType == END_GAME {
        ghost var t := Snapshot();
        info[gameId] := info[gameId].(latestTime := now);
        assert Snapshot() == Touch(t, gameId, now);
        assert boards[9 * gameId..9 * gameId + 9] == BoardOf(t, gameId);
        var result := CheckWin(boards[9 * gameId..9 * gameId + 9], CLIENT_MARK);
        if result == GAME_ON || result == WIN {
          RespondToInvalidRequestServer(sendSequenceNum, gameId, now);
          return 1;
        }
        ReleaseSlot(gameId, now);
        return 1;
      }
      r := ReceiveMove(sendSequenceNum, buffer, now, sendOk);
    }

    /** checkBoardTimeOut, with `sd` the listening descriptor it is given. */
    method CheckBoardTimeOut(sd: int, now: int)
      requires Valid()
      modifies this, info, boards
      ensures Snapshot() == Sweep(old(Snapshot()), sd, now)
      ensures Valid()
    {
      for i := 0 to MAX_BOARD
        invariant Sized()
        invariant Snapshot() == SweepUpTo(old(Snapshot()), sd, now, i)
      {
        ghost var u := Snapshot();
        if info[i].sd != 0 && now - info[i].latestTime >= TIME_LIMIT_SERVER {
          if info[i].resendCount <= MAX_SEND_COUNT {
            info[i] := info[i].(resendCount := info[i].resendCount + 1);
            outbox := outbox + [Sent(sd, info[i].sendBuffer)];
          } else {
            var sendSequenceNum := CRem(info[i].sequenceNum - 1, 256);
            ReleaseSlot(i, now);
            outbox := outbox + [Sent(sd, TimeoutFrame(i, U8(sendSequenceNum)))];
          }
        }
        assert Snapshot() == SweepSlot(u, i, sd, now);
      }
      SweepKeepsOk(old(Snapshot()), sd, now, MAX_BOARD);
    }

    /** The allocation loop for a descriptor returned by accept(). */
    method Accept(connectedSd: int) returns (gameId: int)
      requires Valid()
      modifies this, info
      ensures (Snapshot(), gameId) == AcceptStep(old(Snapshot()), connectedSd)
      ensures Valid()
    {
      gameId := 0;
      while gameId < MAX_BOARD
        invariant 0 <= gameId <= MAX_BOARD
        invariant forall h :: 0 <= h < gameId ==> info[h].sd != 0
        invariant info[..] == old(info[..]) && outbox == old(outbox)
      {
        if info[gameId].sd == 0 {
          info[gameId] := info[gameId].(sd := connectedSd);
          FirstFreeIsLowest(old(info[..]), 0, gameId);
          return;
        }
        gameId := gameId + 1;
      }
      FirstFreeIsLowest(old(info[..]), 0, gameId);
      outbox := outbox + [Sent(connectedSd, OutOfResourcesFrame)];
    }

    /** A zero-length read on slot g: close the descriptor and reset the
        slot's board_info only. */
    method Disconnect(g: int, now: int)
      requires Valid() && 0 <= g < MAX_BOARD
      modifies info
      ensures Snapshot() == DisconnectStep(old(Snapshot()), g, now)
      ensures Valid()
    {
      InitBoardInfo(g, now);
    }
  }

  // ------------------------------------------------------------ invariant

  /** The set-up loop leaves a table that satisfies the invariant. */
  lemma InitialOk(t: Table, now: int)
    requires Initial(t, now)
    ensures TableOk(t)
  {
    InitialBoardFacts(CLIENT_MARK);
    forall g | 0 <= g < MAX_BOARD
      ensures WellFormed(BoardAt(t.boards, 9 * g))
    {
      assert BoardOf(t, g) == InitialBoard;
    }
  }

  /** The lowest slot whose descriptor is 0, found from `from` on. */
  lemma FirstFreeIsLowest(info: seq<BoardInfo>, from: int, g: int)
    requires 0 <= from <= g <= |info|
    requires forall h :: from <= h < g ==> info[h].sd != 0
    requires g == |info| || info[g].sd == 0
    ensures FirstFree(info, from) == g
    decreases g - from
  {
    if from < g {
      FirstFreeIsLowest(info, from + 1, g);
    }
  }

  lemma ReleaseKeepsOk(t: Table, g: int, now: int)
    requires Shaped(t) && 0 <= g < MAX_BOARD
    requires InfoOk(t.info)
    requires forall h :: 0 <= h < MAX_BOARD && h != g ==> WellFormed(BoardOf(t, h))
    ensures TableOk(Release(t, g, now))
    ensures BoardOf(Release(t, g, now), g) == InitialBoard
    ensures forall h :: 0 <= h < MAX_BOARD && h != g ==> BoardOf(Release(t, g, now), h) == BoardOf(t, h)
  {
    var r := Release(t, g, now);
    InitialBoardFacts(CLIENT_MARK);
    forall h | 0 <= h < MAX_BOARD
      ensures BoardOf(r, h) == if h == g then InitialBoard else BoardOf(t, h)
      ensures WellFormed(BoardAt(r.boards, 9 * h))
    {
      BoardAtSplice(t.boards, 9 * g, InitialBoard, 9 * h);
    }
  }

  /** Writing a mark into a free cell of board g changes that board as
      Place says, leaves every other board alone and keeps them all well
      formed. */
  lemma MarkKeepsOk(t: Table, g: int, choice: int, mark: char)
    requires TableOk(t) && 0 <= g < MAX_BOARD && IsMoveValid(BoardOf(t, g), choice)
    requires mark == CLIENT_MARK || mark == SERVER_MARK
    ensures TableOk(Mark(t, g, choice, mark))
    ensures BoardOf(Mark(t, g, choice, mark), g) == Place(BoardOf(t, g), choice, mark)
    ensures forall h :: 0 <= h < MAX_BOARD && h != g ==> BoardOf(Mark(t, g, choice, mark), h) == BoardOf(t, h)
  {
    var r := Mark(t, g, choice, mark);
    PlaceKeepsWellFormed(BoardOf(t, g), choice, mark);
    forall h | 0 <= h < MAX_BOARD
      ensures BoardOf(r, h) == if h == g then Place(BoardOf(t, g), choice, mark) else BoardOf(t, h)
      ensures WellFormed(BoardAt(r.boards, 9 * h))
    {
      BoardAtUpdate(t.boards, 9 * g, 9 * g + choice - 1, mark, 9 * h);
      assert WellFormed(BoardOf(t, h));
    }
  }

  lemma {:induction false} MarkedKeepsOk(t: Table, send: byte, buffer: Frame, now: int, sendOk: bool)
    requires TableOk(t) && buffer.gameId < MAX_BOARD
    ensures TableOk(MarkedStep(t, send, buffer, now, sendOk).0)
  {
    var g := buffer.gameId;
    var result := CheckWin(BoardOf(t, g), CLIENT_MARK);
    if buffer.status == GAME_ON && result == GAME_ON {
      GameOnHasFree(BoardOf(t, g), CLIENT_MARK);
      MarkKeepsOk(Touch(t, g, now), g, LowestFree(BoardOf(t, g)), SERVER_MARK);
    } else if buffer.status != GAME_ON && result == buffer.modifier && sendOk {
      ReleaseKeepsOk(Touch(Send(t, t.info[g].sd, EndGameFrame(result, g, send)), g, now), g, now);
    }
  }

  lemma {:induction false} MoveKeepsOk(t: Table, send: byte, buffer: Frame, now: int, sendOk: bool)
    requires TableOk(t) && buffer.gameId < MAX_BOARD
    ensures TableOk(MoveStep(t, send, buffer, now, sendOk).0)
  {
    var g := buffer.gameId;
    if buffer.status <= 1 && IsMoveValid(BoardOf(t, g), buffer.choice) {
      MarkKeepsOk(t, g, buffer.choice, CLIENT_MARK);
      MarkedKeepsOk(Mark(t, g, buffer.choice, CLIENT_MARK), send, buffer, now, sendOk);
    }
  }

  lemma {:induction false} InOrderKeepsOk(t: Table, g: int, send: byte, buffer: Frame, now: int, sendOk: bool)
    requires TableOk(t) && 0 <= g < MAX_BOARD && g == buffer.gameId
    ensures TableOk(InOrderStep(t, g, send, buffer, now, sendOk).0)
  {
    if buffer.msgType == END_GAME {
      ReleaseKeepsOk(Touch(t, g, now), g, now);
    } else {
      MoveKeepsOk(t, send, buffer, now, sendOk);
    }
  }

  /** Replacing one slot by a slot that keeps SlotOk, and writing frames,
      keeps the invariant. */
  lemma SlotUpdateKeepsOk(t: Table, g: int, s: BoardInfo, outbox: seq<Sent>)
    requires TableOk(t) && 0 <= g < MAX_BOARD && SlotOk(s)
    ensures TableOk(Table(t.info[g := s], t.boards, outbox))
  {
  }

  lemma {:induction false} NewGameKeepsOk(t: Table, recv: byte, send: byte, next: byte, g: int, now: int, sendOk: bool)
    requires TableOk(t) && 0 <= g < MAX_BOARD
    requires recv == t.info[g].sequenceNum ==> next % 2 == 0
    ensures TableOk(NewGameStep(t, recv, send, next, g, now, sendOk).0)
  {
    var s := t.info[g];
    if recv < s.sequenceNum {
      SlotUpdateKeepsOk(t, g, s.(latestTime := now), t.outbox + [Sent(s.sd, s.sendBuffer)]);
    } else if recv > s.sequenceNum {
      SlotUpdateKeepsOk(t, g, s.(latestTime := now), Respond(t, send, g, now).outbox);
    } else {
      SlotUpdateKeepsOk(t, g, s.(sequenceNum := next, latestTime := now),
                        t.outbox + [Sent(s.sd, Frame(VERSION, 0, GAME_ON, 0, MOVE, g, send))]);
    }
  }

  lemma {:induction false} ProcessKeepsOk(t: Table, g: int, buffer: Frame, now: int, sendOk: bool)
    requires TableOk(t) && 0 <= g < MAX_BOARD
    ensures TableOk(ProcessStep(t, g, buffer, now, sendOk).0)
  {
    var s := t.info[g];
    var recv: int := buffer.sequenceNum;
    var send := (recv + 1) % 256;
    var next := (send + 1) % 256;
    if buffer.version != VERSION {
      SlotUpdateKeepsOk(t, g, s.(latestTime := now), Respond(t, recv, g, now).outbox);
    } else if buffer.msgType > 2 || (buffer.msgType != NEW_GAME && g != buffer.gameId) {
      SlotUpdateKeepsOk(t, g, s.(latestTime := now), Respond(t, send, g, now).outbox);
    } else if buffer.msgType == NEW_GAME {
      assert recv == s.sequenceNum ==> next % 2 == 0;
      NewGameKeepsOk(t, recv, send, next, g, now, sendOk);
    } else if recv < s.sequenceNum {
      SlotUpdateKeepsOk(t, g, s.(latestTime := now), t.outbox + [Sent(s.sd, s.sendBuffer)]);
    } else if recv > s.sequenceNum {
      SlotUpdateKeepsOk(t, g, s.(latestTime := now), Respond(t, send, g, now).outbox);
    } else {
      assert next % 2 == 0;
      var t1 := t.(info := t.info[g := s.(sequenceNum := next)]);
      SlotUpdateKeepsOk(t, g, s.(sequenceNum := next), t.outbox);
      InOrderKeepsOk(t1, g, send, buffer, now, sendOk);
      ProcessInOrder(t, g, buffer, now, sendOk, send, t1);
    }
  }

  lemma {:induction false} SweepKeepsOk(t: Table, sd: int, now: int, n: int)
    requires TableOk(t) && 0 <= n <= MAX_BOARD
    ensures TableOk(SweepUpTo(t, sd, now, n))
  {
    if n > 0 {
      SweepKeepsOk(t, sd, now, n - 1);
      var u := SweepUpTo(t, sd, now, n - 1);
      ReleaseKeepsOk(u, n - 1, now);
    }
  }

  // ------------------------------------------------------------ isolation

  /** Every slot other than g, and its board, is as it was. */
  ghost predicate OnlySlot(t: Table, r: Table, g: int)
    requires Shaped(t) && Shaped(r) && 0 <= g < MAX_BOARD
  {
    forall h :: 0 <= h < MAX_BOARD && h != g ==> r.info[h] == t.info[h] && BoardOf(r, h) == BoardOf(t, h)
  }

  /** At most one frame was written, to `sd`, and nothing written before
      was lost. */
  ghost predicate AtMostOneTo(t: Table, r: Table, sd: int) {
    r.outbox == t.outbox || exists f :: r.outbox == t.outbox + [Sent(sd, f)]
  }

  lemma OnlySlotTrans(a: Table, b: Table, c: Table, g: int)
    requires Shaped(a) && Shaped(b) && Shaped(c) && 0 <= g < MAX_BOARD
    requires OnlySlot(a, b, g) && OnlySlot(b, c, g)
    ensures OnlySlot(a, c, g)
  {
  }

  lemma MarkElsewhere(t: Table, g: int, choice: int, mark: char)
    requires Shaped(t) && 0 <= g < MAX_BOARD && 1 <= choice <= 9
    ensures OnlySlot(t, Mark(t, g, choice, mark), g)
  {
    forall h | 0 <= h < MAX_BOARD && h != g
      ensures BoardOf(Mark(t, g, choice, mark), h) == BoardOf(t, h)
    {
      BoardAtUpdate(t.boards, 9 * g, 9 * g + choice - 1, mark, 9 * h);
    }
  }

  lemma ReleaseElsewhere(t: Table, g: int, now: int)
    requires Shaped(t) && 0 <= g < MAX_BOARD
    ensures OnlySlot(t, Release(t, g, now), g)
  {
    forall h | 0 <= h < MAX_BOARD && h != g
      ensures BoardOf(Release(t, g, now), h) == BoardOf(t, h)
    {
      BoardAtSplice(t.boards, 9 * g, InitialBoard, 9 * h);
    }
  }

  lemma {:induction false} MarkedConfined(t: Table, send: byte, buffer: Frame, now: int, sendOk: bool)
    requires Shaped(t) && buffer.gameId < MAX_BOARD
    ensures var r := MarkedStep(t, send, buffer, now, sendOk).0;
      OnlySlot(t, r, buffer.gameId) && AtMostOneTo(t, r, t.info[buffer.gameId].sd)
  {
    var g := buffer.gameId;
    var result := CheckWin(BoardOf(t, g), CLIENT_MARK);
    if buffer.status == GAME_ON && result == GAME_ON {
      MarkElsewhere(Touch(t, g, now), g, LowestFree(BoardOf(t, g)), SERVER_MARK);
    } else if buffer.status != GAME_ON && result == buffer.modifier && sendOk {
      ReleaseElsewhere(Touch(Send(t, t.info[g].sd, EndGameFrame(result, g, send)), g, now), g, now);
    }
  }

  lemma {:induction false} InOrderConfined(t: Table, g: int, send: byte, buffer: Frame, now: int, sendOk: bool)
    requires Shaped(t) && 0 <= g < MAX_BOARD && g == buffer.gameId
    ensures var r := InOrderStep(t, g, send, buffer, now, sendOk).0;
      OnlySlot(t, r, g) && AtMostOneTo(t, r, t.info[g].sd)
  {
    if buffer.msgType == END_GAME {
      ReleaseElsewhere(Touch(t, g, now), g, now);
    } else if buffer.status <= 1 && IsMoveValid(BoardOf(t, g), buffer.choice) {
      var t1 := Mark(t, g, buffer.choice, CLIENT_MARK);
      MarkElsewhere(t, g, buffer.choice, CLIENT_MARK);
      MarkedConfined(t1, send, buffer, now, sendOk);
    }
  }

  /** A step that replaces slot g's board_info and keeps every board
      touches slot g only. */
  lemma SlotUpdateElsewhere(t: Table, g: int, s: BoardInfo, outbox: seq<Sent>)
    requires Shaped(t) && 0 <= g < MAX_BOARD
    ensures OnlySlot(t, Table(t.info[g := s], t.boards, outbox), g)
  {
  }

  lemma {:induction false} NewGameConfined(t: Table, recv: byte, send: byte, next: byte, g: int, now: int, sendOk: bool)
    requires Shaped(t) && 0 <= g < MAX_BOARD
    ensures var r := NewGameStep(t, recv, send, next, g, now, sendOk).0;
      OnlySlot(t, r, g) && AtMostOneTo(t, r, t.info[g].sd)
  {
    var s := t.info[g];
    if recv < s.sequenceNum {
      SlotUpdateElsewhere(t, g, s.(latestTime := now), t.outbox + [Sent(s.sd, s.sendBuffer)]);
    } else if recv > s.sequenceNum {
      SlotUpdateElsewhere(t, g, s.(latestTime := now), Respond(t, send, g, now).outbox);
    } else {
      SlotUpdateElsewhere(t, g, s.(sequenceNum := next, latestTime := now),
                          t.outbox + [Sent(s.sd, Frame(VERSION, 0, GAME_ON, 0, MOVE, g, send))]);
    }
  }

  /** The frames processBuffer accepts and hands on past the sequence
      number check. */
  predicate InOrderPath(t: Table, g: int, buffer: Frame)
    requires Shaped(t) && 0 <= g < MAX_BOARD
  {
    && buffer.version == VERSION
    && (buffer.msgType == MOVE || buffer.msgType == END_GAME)
    && g == buffer.gameId
    && buffer.sequenceNum == t.info[g].sequenceNum
  }

  /** On the in-order path processBuffer advances the expected sequence
      number by two and continues with the frame's message type. */
  lemma ProcessInOrder(t: Table, g: int, buffer: Frame, now: int, sendOk: bool, send: byte, t1: Table)
    requires Shaped(t) && 0 <= g < MAX_BOARD && InOrderPath(t, g, buffer)
    requires send == (buffer.sequenceNum + 1) % 256
    requires t1 == t.(info := t.info[g := t.info[g].(sequenceNum := (send + 1) % 256)])
    ensures ProcessStep(t, g, buffer, now, sendOk) == InOrderStep(t1, g, send, buffer, now, sendOk)
  {
  }

  lemma {:induction false} InOrderPathConfined(t: Table, g: int, buffer: Frame, now: int, sendOk: bool)
    requires Shaped(t) && 0 <= g < MAX_BOARD && InOrderPath(t, g, buffer)
    ensures var r := ProcessStep(t, g, buffer, now, sendOk).0;
      OnlySlot(t, r, g) && AtMostOneTo(t, r, t.info[g].sd)
  {
    var s := t.info[g];
    var recv: int := buffer.sequenceNum;
    var send := (recv + 1) % 256;
    var next := (send + 1) % 256;
    var t1 := t.(info := t.info[g := s.(sequenceNum := next)]);
    SlotUpdateElsewhere(t, g, s.(sequenceNum := next), t.outbox);
    InOrderConfined(t1, g, send, buffer, now, sendOk);
    var r := InOrderStep(t1, g, send, buffer, now, sendOk).0;
    OnlySlotTrans(t, t1, r, g);
    assert AtMostOneTo(t, r, t.info[g].sd);
    ProcessInOrder(t, g, buffer, now, sendOk, send, t1);
  }

  lemma {:induction false} EarlyPathConfined(t: Table, g: int, buffer: Frame, now: int, sendOk: bool)
    requires Shaped(t) && 0 <= g < MAX_BOARD && !InOrderPath(t, g, buffer)
    ensures var r := ProcessStep(t, g, buffer, now, sendOk).0;
      OnlySlot(t, r, g) && AtMostOneTo(t, r, t.info[g].sd)
  {
    var s := t.info[g];
    var recv: int := buffer.sequenceNum;
    var send := (recv + 1) % 256;
    var next := (send + 1) % 256;
    if buffer.version != VERSION {
      SlotUpdateElsewhere(t, g, s.(latestTime := now), Respond(t, recv, g, now).outbox);
    } else if buffer.msgType > 2 || (buffer.msgType != NEW_GAME && g != buffer.gameId) {
      SlotUpdateElsewhere(t, g, s.(latestTime := now), Respond(t, send, g, now).outbox);
    } else if buffer.msgType == NEW_GAME {
      NewGameConfined(t, recv, send, next, g, now, sendOk);
    } else if recv < s.sequenceNum {
      SlotUpdateElsewhere(t, g, s.(latestTime := now), t.outbox + [Sent(s.sd, s.sendBuffer)]);
    } else {
      SlotUpdateElsewhere(t, g, s.(latestTime := now), Respond(t, send, g, now).outbox);
    }
  }

  /** processBuffer for slot g changes no other slot and no other board,
      and answers with at most one frame, written to g's own descriptor. */
  lemma ProcessConfined(t: Table, g: int, buffer: Frame, now: int, sendOk: bool)
    requires Shaped(t) && 0 <= g < MAX_BOARD
    ensures var r := ProcessStep(t, g, buffer, now, sendOk).0;
      OnlySlot(t, r, g) && AtMostOneTo(t, r, t.info[g].sd)
  {
    if InOrderPath(t, g, buffer) {
      InOrderPathConfined(t, g, buffer, now, sendOk);
    } else {
      EarlyPathConfined(t, g, buffer, now, sendOk);
    }
  }

  // ------------------------------------------------------------ properties

  lemma MarkHere(t: Table, g: int, choice: int, mark: char)
    requires Shaped(t) && 0 <= g < MAX_BOARD && 1 <= choice <= 9
    ensures BoardOf(Mark(t, g, choice, mark), g) == Place(BoardOf(t, g), choice, mark)
  {
    BoardAtUpdate(t.boards, 9 * g, 9 * g + choice - 1, mark, 9 * g);
  }

  lemma ReleaseHere(t: Table, g: int, now: int)
    requires Shaped(t) && 0 <= g < MAX_BOARD
    ensures BoardOf(Release(t, g, now), g) == InitialBoard
  {
    BoardAtSplice(t.boards, 9 * g, InitialBoard, 9 * g);
  }

  /** A frame with the wrong version, an unknown message type, or a MOVE or
      END_GAME naming another game than the sender's slot is answered with
      MALFORMED_REQUEST on the sender's descriptor, and the game itself is
      left as it was. The answer echoes the received sequence number after a
      version error, and uses the received one plus one otherwise. */
  lemma BadHeaderAnswered(t: Table, g: int, buffer: Frame, now: int, sendOk: bool)
    requires Shaped(t) && 0 <= g < MAX_BOARD
    requires || buffer.version != VERSION
             || buffer.msgType > 2
             || (buffer.msgType != NEW_GAME && g != buffer.gameId)
    ensures var res := ProcessStep(t, g, buffer, now, sendOk);
      var answered := if buffer.version != VERSION then buffer.sequenceNum as int
                      else (buffer.sequenceNum + 1) % 256;
      && res.1 == 1
      && res.0.outbox == t.outbox + [Sent(t.info[g].sd, InvalidRequestFrame(answered, g))]
      && res.0.info[g] == t.info[g].(latestTime := now)
      && res.0.boards == t.boards
  {
  }

  /** A MOVE or END_GAME repeating an already answered sequence number is
      answered by resending the cached frame, which is the all-zero frame
      since nothing ever fills the cache; the resend counter is not
      incremented. Once the counter has reached MAX_TRY (which only the
      timeout sweep can do) the frame is refused with GAME_ERROR and
      nothing changes. */
  lemma DuplicateResent(t: Table, g: int, buffer: Frame, now: int, sendOk: bool)
    requires TableOk(t) && 0 <= g < MAX_BOARD
    requires buffer.version == VERSION && (buffer.msgType == MOVE || buffer.msgType == END_GAME)
    requires g == buffer.gameId && buffer.sequenceNum < t.info[g].sequenceNum
    ensures var res := ProcessStep(t, g, buffer, now, sendOk);
      if t.info[g].resendCount < MAX_TRY then
        && res.1 == 1
        && res.0.outbox == t.outbox + [Sent(t.info[g].sd, ZeroFrame)]
        && res.0.info[g] == t.info[g].(latestTime := now)
        && res.0.boards == t.boards
      else res == (t, GAME_ERROR as int)
  {
  }

  /** A repeated NEW_GAME is answered the same way by receiveNewGame, with
      the write checked: the zero frame is written in any case, but only a
      successful write refreshes the slot's time and skips the next send. */
  lemma NewGameDuplicateResent(t: Table, g: int, buffer: Frame, now: int, sendOk: bool)
    requires TableOk(t) && 0 <= g < MAX_BOARD
    requires buffer.version == VERSION && buffer.msgType == NEW_GAME
    requires buffer.sequenceNum < t.info[g].sequenceNum
    ensures var res := ProcessStep(t, g, buffer, now, sendOk);
      if t.info[g].resendCount < MAX_TRY then
        && res.0.outbox == t.outbox + [Sent(t.info[g].sd, ZeroFrame)]
        && res.0.boards == t.boards
        && (sendOk ==> res.1 == SKIP_NEXT_SEND && res.0.info[g] == t.info[g].(latestTime := now))
        && (!sendOk ==> res.1 == GAME_ERROR as int && res.0.info == t.info)
      else res == (t, GAME_ERROR as int)
  {
  }

  /** `n` deliveries of the same duplicate frame. */
  function Replay(t: Table, g: int, buffer: Frame, now: int, n: nat): (r: Table)
    requires Shaped(t) && 0 <= g < MAX_BOARD
    ensures Shaped(r)
  {
    if n == 0 then t else ProcessStep(Replay(t, g, buffer, now, n - 1), g, buffer, now, true).0
  }

  /** Since duplicates do not count against the resend budget, a client
      that keeps repeating an old frame gets an answer every time: after n
      deliveries n zero frames have been written and the slot still
      expects the same sequence number. */
  lemma {:induction false} DuplicatesNeverExhaust(t: Table, g: int, buffer: Frame, now: int, n: nat)
    requires TableOk(t) && 0 <= g < MAX_BOARD
    requires buffer.version == VERSION && (buffer.msgType == MOVE || buffer.msgType == END_GAME)
    requires g == buffer.gameId && buffer.sequenceNum < t.info[g].sequenceNum
    requires t.info[g].resendCount < MAX_TRY
    ensures var r := Replay(t, g, buffer, now, n);
      && TableOk(r)
      && r.outbox == t.outbox + seq(n, _ => Sent(t.info[g].sd, ZeroFrame))
      && r.info[g] == (if n == 0 then t.info[g] else t.info[g].(latestTime := now))
      && r.boards == t.boards
  {
    if n > 0 {
      DuplicatesNeverExhaust(t, g, buffer, now, n - 1);
      var u := Replay(t, g, buffer, now, n - 1);
      DuplicateResent(u, g, buffer, now, true);
      assert u.outbox + [Sent(t.info[g].sd, ZeroFrame)] == t.outbox + seq(n, _ => Sent(t.info[g].sd, ZeroFrame));
    }
  }

  /** A frame whose sequence number is ahead of the expected one is
      answered with MALFORMED_REQUEST; the expected number and the board
      stay as they were. */
  lemma AheadAnswered(t: Table, g: int, buffer: Frame, now: int, sendOk: bool)
    requires Shaped(t) && 0 <= g < MAX_BOARD
    requires buffer.version == VERSION && buffer.msgType <= 2
    requires buffer.msgType == NEW_GAME || g == buffer.gameId
    requires buffer.sequenceNum > t.info[g].sequenceNum
    ensures var res := ProcessStep(t, g, buffer, now, sendOk);
      && res.1 == (if buffer.msgType == NEW_GAME then SKIP_NEXT_SEND else 1)
      && res.0.outbox == t.outbox + [Sent(t.info[g].sd, InvalidRequestFrame((buffer.sequenceNum + 1) % 256, g))]
      && res.0.info[g] == t.info[g].(latestTime := now)
      && res.0.boards == t.boards
  {
  }

  /** A NEW_GAME with the expected sequence number is answered with a
      GAME_ON frame carrying the slot index as the game id; the expected
      number advances by two, the board is not reset. The result is
      GAME_ERROR when that write fails. The game id inside a NEW_GAME is
      never examined. */
  lemma NewGameAccepted(t: Table, g: int, buffer: Frame, now: int, sendOk: bool)
    requires Shaped(t) && 0 <= g < MAX_BOARD
    requires buffer.version == VERSION && buffer.msgType == NEW_GAME
    requires buffer.sequenceNum == t.info[g].sequenceNum
    ensures var res := ProcessStep(t, g, buffer, now, sendOk);
      var send := (buffer.sequenceNum + 1) % 256;
      && res.1 == (if sendOk then SKIP_NEXT_SEND else GAME_ERROR as int)
      && res.0.outbox == t.outbox + [Sent(t.info[g].sd, Frame(VERSION, 0, GAME_ON, 0, MOVE, g, send))]
      && res.0.info[g] == t.info[g].(sequenceNum := (send + 1) % 256, latestTime := now)
      && res.0.boards == t.boards
  {
  }

  /** In-order MOVE whose cell is out of range or taken: MALFORMED_REQUEST,
      the board unchanged, the expected number advanced all the same. */
  lemma InvalidMoveRejected(t: Table, g: int, buffer: Frame, now: int, sendOk: bool)
    requires Shaped(t) && 0 <= g < MAX_BOARD && InOrderPath(t, g, buffer)
    requires buffer.msgType == MOVE && buffer.status <= GAME_COMPLETE
    requires !IsMoveValid(BoardOf(t, g), buffer.choice)
    ensures var res := ProcessStep(t, g, buffer, now, sendOk);
      var send := (buffer.sequenceNum + 1) % 256;
      && res.1 == SKIP_NEXT_SEND
      && res.0.outbox == t.outbox + [Sent(t.info[g].sd, InvalidRequestFrame(send, g))]
      && res.0.info[g] == t.info[g].(sequenceNum := (send + 1) % 256, latestTime := now)
      && res.0.boards == t.boards
  {
    var send := (buffer.sequenceNum + 1) % 256;
    var t1 := t.(info := t.info[g := t.info[g].(sequenceNum := (send + 1) % 256)]);
    ProcessInOrder(t, g, buffer, now, sendOk, send, t1);
  }

  /** In-order MOVE with a status above GAME_ERROR: MALFORMED_REQUEST
      before the choice is looked at, the board unchanged, the expected
      number advanced all the same. */
  lemma BadStatusAnswered(t: Table, g: int, buffer: Frame, now: int, sendOk: bool)
    requires Shaped(t) && 0 <= g < MAX_BOARD && InOrderPath(t, g, buffer)
    requires buffer.msgType == MOVE && buffer.status > GAME_ERROR
    ensures var res := ProcessStep(t, g, buffer, now, sendOk);
      var send := (buffer.sequenceNum + 1) % 256;
      && res.1 == SKIP_NEXT_SEND
      && res.0.outbox == t.outbox + [Sent(t.info[g].sd, InvalidRequestFrame(send, g))]
      && res.0.info[g] == t.info[g].(sequenceNum := (send + 1) % 256, latestTime := now)
      && res.0.boards == t.boards
  {
    var send := (buffer.sequenceNum + 1) % 256;
    var t1 := t.(info := t.info[g := t.info[g].(sequenceNum := (send + 1) % 256)]);
    ProcessInOrder(t, g, buffer, now, sendOk, send, t1);
  }

  /** In-order MOVE reporting GAME_ERROR: the error is only reported. The
      expected number has already advanced by two; nothing is written, the
      slot's time is not refreshed, and the slot is kept although the
      result is GAME_ERROR. */
  lemma ErrorStatusIgnored(t: Table, g: int, buffer: Frame, now: int, sendOk: bool)
    requires Shaped(t) && 0 <= g < MAX_BOARD && InOrderPath(t, g, buffer)
    requires buffer.msgType == MOVE && buffer.status == GAME_ERROR
    ensures ProcessStep(t, g, buffer, now, sendOk) ==
            (t.(info := t.info[g := t.info[g].(sequenceNum := (buffer.sequenceNum + 2) % 256)]), GAME_ERROR as int)
  {
    var send := (buffer.sequenceNum + 1) % 256;
    var t1 := t.(info := t.info[g := t.info[g].(sequenceNum := (send + 1) % 256)]);
    ProcessInOrder(t, g, buffer, now, sendOk, send, t1);
  }

  /** The step that answers a move, as a value. */
  lemma AnswerMoveValue(t: Table, g: int, buffer: Frame, now: int, sendOk: bool, t2: Table)
    requires Shaped(t) && 0 <= g < MAX_BOARD && InOrderPath(t, g, buffer)
    requires buffer.msgType == MOVE && buffer.status == GAME_ON
    requires IsMoveValid(BoardOf(t, g), buffer.choice)
    requires t2 == Mark(t.(info := t.info[g := t.info[g].(sequenceNum := ((buffer.sequenceNum + 1) % 256 + 1) % 256)]),
                        g, buffer.choice, CLIENT_MARK)
    requires CheckWin(BoardOf(t2, g), CLIENT_MARK) == GAME_ON
    ensures var c := LowestFree(BoardOf(t2, g));
      var t3 := Mark(Touch(t2, g, now), g, c, SERVER_MARK);
      ProcessStep(t, g, buffer, now, sendOk) ==
        (Send(t3, t.info[g].sd, MoveFrame(BoardOf(t3, g), c, g, (buffer.sequenceNum + 1) % 256, SERVER_MARK)),
         GAME_ON as int)
  {
    var send := (buffer.sequenceNum + 1) % 256;
    var t1 := t.(info := t.info[g := t.info[g].(sequenceNum := (send + 1) % 256)]);
    ProcessInOrder(t, g, buffer, now, sendOk, send, t1);
    assert BoardOf(t1, g) == BoardOf(t, g);
    assert t2 == Mark(t1, g, buffer.choice, CLIENT_MARK);
    assert InOrderStep(t1, g, send, buffer, now, sendOk) == MoveStep(t1, send, buffer, now, sendOk);
    assert MoveStep(t1, send, buffer, now, sendOk) == MarkedStep(t2, send, buffer, now, sendOk);
  }

  /** In-order GAME_ON MOVE that is valid and leaves the game on: the
      client's X goes into its cell, the server answers with its O in the
      lowest free cell of the resulting board, and the answer's status and
      modifier describe the board after both moves. */
  lemma ServerAnswersMove(t: Table, g: int, buffer: Frame, now: int, sendOk: bool)
    requires Shaped(t) && 0 <= g < MAX_BOARD && InOrderPath(t, g, buffer)
    requires buffer.msgType == MOVE && buffer.status == GAME_ON
    requires IsMoveValid(BoardOf(t, g), buffer.choice)
    requires CheckWin(Place(BoardOf(t, g), buffer.choice, CLIENT_MARK), CLIENT_MARK) == GAME_ON
    ensures var res := ProcessStep(t, g, buffer, now, sendOk);
      var afterClient := Place(BoardOf(t, g), buffer.choice, CLIENT_MARK);
      var c := LowestFree(afterClient);
      var send := (buffer.sequenceNum + 1) % 256;
      && IsMoveValid(afterClient, c)
      && res.1 == GAME_ON as int
      && BoardOf(res.0, g) == Place(afterClient, c, SERVER_MARK)
      && res.0.outbox == t.outbox + [Sent(t.info[g].sd, MoveFrame(Place(afterClient, c, SERVER_MARK), c, g, send, SERVER_MARK))]
      && res.0.info[g] == t.info[g].(sequenceNum := (send + 1) % 256, latestTime := now)
  {
    var send := (buffer.sequenceNum + 1) % 256;
    var t1 := t.(info := t.info[g := t.info[g].(sequenceNum := (send + 1) % 256)]);
    var t2 := Mark(t1, g, buffer.choice, CLIENT_MARK);
    assert BoardOf(t1, g) == BoardOf(t, g);
    MarkHere(t1, g, buffer.choice, CLIENT_MARK);
    AnswerMoveValue(t, g, buffer, now, sendOk, t2);
    var afterClient := BoardOf(t2, g);
    GameOnHasFree(afterClient, CLIENT_MARK);
    var c := LowestFree(afterClient);
    MarkHere(Touch(t2, g, now), g, c, SERVER_MARK);
  }


  /** A GAME_ON MOVE after which the server's board is no longer on, or a
      GAME_COMPLETE MOVE whose modifier disagrees with the server's own
      result, is refused with MALFORMED_REQUEST, but the client's X stays
      on the board. */
  lemma ClaimMismatchRejected(t: Table, g: int, buffer: Frame, now: int, sendOk: bool)
    requires Shaped(t) && 0 <= g < MAX_BOARD && InOrderPath(t, g, buffer)
    requires buffer.msgType == MOVE && buffer.status <= GAME_COMPLETE
    requires IsMoveValid(BoardOf(t, g), buffer.choice)
    requires var result := CheckWin(Place(BoardOf(t, g), buffer.choice, CLIENT_MARK), CLIENT_MARK);
      if buffer.status == GAME_ON then result != GAME_ON else result != buffer.modifier
    ensures var res := ProcessStep(t, g, buffer, now, sendOk);
      var send := (buffer.sequenceNum + 1) % 256;
      && res.1 == SKIP_NEXT_SEND
      && BoardOf(res.0, g) == Place(BoardOf(t, g), buffer.choice, CLIENT_MARK)
      && res.0.outbox == t.outbox + [Sent(t.info[g].sd, InvalidRequestFrame(send, g))]
      && res.0.info[g] == t.info[g].(sequenceNum := (send + 1) % 256, latestTime := now)
  {
    var send := (buffer.sequenceNum + 1) % 256;
    var t1 := t.(info := t.info[g := t.info[g].(sequenceNum := (send + 1) % 256)]);
    ProcessInOrder(t, g, buffer, now, sendOk, send, t1);
    MarkHere(t1, g, buffer.choice, CLIENT_MARK);
  }

  /** A GAME_COMPLETE MOVE whose modifier matches the server's result after
      the client's X is acknowledged with END_GAME (LOSE for the server's
      side when the client won, DRAW otherwise); once that write succeeds
      the slot is released, otherwise the result is GAME_ERROR and the slot
      keeps its board. */
  lemma CompleteAcknowledged(t: Table, g: int, buffer: Frame, now: int, sendOk: bool)
    requires Shaped(t) && 0 <= g < MAX_BOARD && InOrderPath(t, g, buffer)
    requires buffer.msgType == MOVE && buffer.status == GAME_COMPLETE
    requires IsMoveValid(BoardOf(t, g), buffer.choice)
    requires CheckWin(Place(BoardOf(t, g), buffer.choice, CLIENT_MARK), CLIENT_MARK) == buffer.modifier
    ensures var res := ProcessStep(t, g, buffer, now, sendOk);
      var send := (buffer.sequenceNum + 1) % 256;
      && res.0.outbox == t.outbox + [Sent(t.info[g].sd, EndGameFrame(buffer.modifier, g, send))]
      && (sendOk ==> res.1 == SKIP_NEXT_SEND && res.0.info[g] == FreeInfo(now) && BoardOf(res.0, g) == InitialBoard)
      && (!sendOk ==> res.1 == GAME_ERROR as int
                      && res.0.info[g] == t.info[g].(sequenceNum := (send + 1) % 256, latestTime := now)
                      && BoardOf(res.0, g) == Place(BoardOf(t, g), buffer.choice, CLIENT_MARK))
  {
    var send := (buffer.sequenceNum + 1) % 256;
    var t1 := t.(info := t.info[g := t.info[g].(sequenceNum := (send + 1) % 256)]);
    ProcessInOrder(t, g, buffer, now, sendOk, send, t1);
    var t2 := Mark(t1, g, buffer.choice, CLIENT_MARK);
    MarkHere(t1, g, buffer.choice, CLIENT_MARK);
    var t3 := Touch(Send(t2, t.info[g].sd, EndGameFrame(buffer.modifier, g, send)), g, now);
    ReleaseHere(t3, g, now);
  }

  /** An in-order END_GAME closes the game when the server's board shows a
      draw or a win for its own O (LOSE from the client's side): the slot
      is released and nothing is written. Any other board gets
      MALFORMED_REQUEST and the game goes on. */
  lemma EndGameHandled(t: Table, g: int, buffer: Frame, now: int, sendOk: bool)
    requires Shaped(t) && 0 <= g < MAX_BOARD && InOrderPath(t, g, buffer)
    requires buffer.msgType == END_GAME
    ensures var res := ProcessStep(t, g, buffer, now, sendOk);
      var result := CheckWin(BoardOf(t, g), CLIENT_MARK);
      var send := (buffer.sequenceNum + 1) % 256;
      && res.1 == 1
      && (result == DRAW || result == LOSE ==>
            res.0.info[g] == FreeInfo(now) && BoardOf(res.0, g) == InitialBoard && res.0.outbox == t.outbox)
      && (result == GAME_ON || result == WIN ==>
            && res.0.info[g] == t.info[g].(sequenceNum := (send + 1) % 256, latestTime := now)
            && res.0.boards == t.boards
            && res.0.outbox == t.outbox + [Sent(t.info[g].sd, InvalidRequestFrame(send, g))])
  {
    var send := (buffer.sequenceNum + 1) % 256;
    var t1 := t.(info := t.info[g := t.info[g].(sequenceNum := (send + 1) % 256)]);
    ProcessInOrder(t, g, buffer, now, sendOk, send, t1);
    ReleaseHere(Touch(t1, g, now), g, now);
  }

  // ------------------------------------------------------------- timeouts

  /** A slot the sweep finds busy and silent for TIME_LIMIT_SERVER seconds
      or more. */
  predicate Stale(s: BoardInfo, now: int) {
    s.sd != 0 && now - s.latestTime >= TIME_LIMIT_SERVER
  }

  /** A stale slot whose resend budget is spent: the sweep releases it. */
  predicate Expired(s: BoardInfo, now: int) {
    Stale(s, now) && s.resendCount > MAX_SEND_COUNT
  }

  /** The TIMEOUT notice carries the slot's expected sequence number minus
      one; for an expected 0 the C remainder gives -1, which the cast to
      uint8_t turns into 255. */
  lemma TimeoutSequenceNum(s: byte)
    ensures U8(CRem(s - 1, 256)) == if s == 0 then 255 else s - 1
  {
  }

  /** What the sweep does with slot i, as a value. */
  function SweptSlot(s: BoardInfo, now: int): BoardInfo {
    if Stale(s, now) then
      if Expired(s, now) then FreeInfo(now) else s.(resendCount := s.resendCount + 1)
    else s
  }

  /** One iteration of the sweep touches slot j only. A stale slot with
      budget left gets its cached frame resent, and an expired one gets the
      TIMEOUT notice. Either frame goes to the descriptor the sweep is
      given. A slot that is not stale is left alone and nothing is written. */
  lemma SweepSlotAt(u: Table, j: int, sd: int, now: int)
    requires Shaped(u) && 0 <= j < MAX_BOARD
    ensures var r := SweepSlot(u, j, sd, now);
      && u.outbox <= r.outbox
      && r.info == u.info[j := SweptSlot(u.info[j], now)]
      && (forall h :: 0 <= h < MAX_BOARD && h != j ==> BoardOf(r, h) == BoardOf(u, h))
      && BoardOf(r, j) == (if Expired(u.info[j], now) then InitialBoard else BoardOf(u, j))
      && (Expired(u.info[j], now) ==>
            r.outbox == u.outbox + [Sent(sd, TimeoutFrame(j, U8(CRem(u.info[j].sequenceNum - 1, 256))))])
      && (Stale(u.info[j], now) && !Expired(u.info[j], now) ==>
            r.outbox == u.outbox + [Sent(sd, u.info[j].sendBuffer)])
      && (!Stale(u.info[j], now) ==> r == u)
  {
    if Expired(u.info[j], now) {
      ReleaseElsewhere(u, j, now);
      ReleaseHere(u, j, now);
    }
  }

  /** The sweep treats every slot on its own: a stale slot gets one more
      resend counted, or is released once its budget is spent; every other
      slot is left alone. */
  lemma {:induction false} SweepInfoAt(t: Table, sd: int, now: int, n: int)
    requires Shaped(t) && 0 <= n <= MAX_BOARD
    ensures forall i :: 0 <= i < MAX_BOARD ==>
      SweepUpTo(t, sd, now, n).info[i] == if i < n then SweptSlot(t.info[i], now) else t.info[i]
  {
    if n > 0 {
      SweepInfoAt(t, sd, now, n - 1);
      SweepSlotAt(SweepUpTo(t, sd, now, n - 1), n - 1, sd, now);
    }
  }

  /** Only the boards of expired slots change, and they are re-initialised. */
  lemma {:induction false} SweepBoardsAt(t: Table, sd: int, now: int, n: int)
    requires Shaped(t) && 0 <= n <= MAX_BOARD
    ensures forall i :: 0 <= i < MAX_BOARD ==>
      BoardOf(SweepUpTo(t, sd, now, n), i) ==
        if i < n && Expired(t.info[i], now) then InitialBoard else BoardOf(t, i)
  {
    if n > 0 {
      SweepBoardsAt(t, sd, now, n - 1);
      SweepInfoAt(t, sd, now, n - 1);
      SweepSlotAt(SweepUpTo(t, sd, now, n - 1), n - 1, sd, now);
    }
  }

  /** Nothing written before the sweep is lost. */
  lemma {:induction false} SweepOutboxGrows(t: Table, sd: int, now: int, n: int)
    requires Shaped(t) && 0 <= n <= MAX_BOARD
    ensures t.outbox <= SweepUpTo(t, sd, now, n).outbox
  {
    if n > 0 {
      SweepOutboxGrows(t, sd, now, n - 1);
      SweepSlotAt(SweepUpTo(t, sd, now, n - 1), n - 1, sd, now);
    }
  }

  lemma InPrefix(a: seq<Sent>, b: seq<Sent>, x: Sent)
    requires a <= b && x in a
    ensures x in b
  {
    var k :| 0 <= k < |a| && a[k] == x;
    assert b[k] == x;
  }

  /** Every expired slot's TIMEOUT notice goes to the listening descriptor. */
  lemma {:induction false} SweepNoticesAt(t: Table, sd: int, now: int, n: int)
    requires Shaped(t) && 0 <= n <= MAX_BOARD
    ensures forall i :: 0 <= i < n && Expired(t.info[i], now) ==>
      Sent(sd, TimeoutFrame(i, U8(CRem(t.info[i].sequenceNum - 1, 256)))) in SweepUpTo(t, sd, now, n).outbox
  {
    if n > 0 {
      SweepNoticesAt(t, sd, now, n - 1);
      SweepInfoAt(t, sd, now, n - 1);
      var u := SweepUpTo(t, sd, now, n - 1);
      SweepSlotAt(u, n - 1, sd, now);
      var r := SweepSlot(u, n - 1, sd, now);
      forall i | 0 <= i < n && Expired(t.info[i], now)
        ensures Sent(sd, TimeoutFrame(i, U8(CRem(t.info[i].sequenceNum - 1, 256)))) in r.outbox
      {
        if i < n - 1 {
          InPrefix(u.outbox, r.outbox, Sent(sd, TimeoutFrame(i, U8(CRem(t.info[i].sequenceNum - 1, 256)))));
        } else {
          assert u.info[i] == t.info[i];
          assert r.outbox[|u.outbox|] == Sent(sd, TimeoutFrame(i, U8(CRem(t.info[i].sequenceNum - 1, 256))));
        }
      }
    }
  }

  /** Consecutive sweeps at the given times. */
  function Sweeps(t: Table, sd: int, nows: seq<int>): (r: Table)
    requires Shaped(t)
    ensures Shaped(r)
    decreases |nows|
  {
    if nows == [] then t else Sweeps(Sweep(t, sd, nows[0]), sd, nows[1..])
  }

  lemma {:induction false} FreeStaysFree(t: Table, sd: int, nows: seq<int>, i: int)
    requires Shaped(t) && 0 <= i < MAX_BOARD && t.info[i].sd == 0
    ensures Sweeps(t, sd, nows).info[i].sd == 0
    decreases |nows|
  {
    if nows != [] {
      SweepInfoAt(t, sd, nows[0], MAX_BOARD);
      FreeStaysFree(Sweep(t, sd, nows[0]), sd, nows[1..], i);
    }
  }

  /** A client that stays silent loses its slot: since a resend does not
      refresh the slot's time, every sweep at least TIME_LIMIT_SERVER after
      the last refresh counts one resend, and the sweep after the
      (MAX_SEND_COUNT + 1)-th releases the slot. */
  lemma {:induction false} IdleSlotEvicted(t: Table, sd: int, nows: seq<int>, i: int)
    requires Shaped(t) && 0 <= i < MAX_BOARD && t.info[i].sd != 0
    requires 0 <= t.info[i].resendCount <= MAX_SEND_COUNT + 1
    requires |nows| >= MAX_SEND_COUNT + 2 - t.info[i].resendCount
    requires forall k :: 0 <= k < |nows| ==> nows[k] - t.info[i].latestTime >= TIME_LIMIT_SERVER
    ensures Sweeps(t, sd, nows).info[i].sd == 0
    decreases |nows|
  {
    var u := Sweep(t, sd, nows[0]);
    SweepInfoAt(t, sd, nows[0], MAX_BOARD);
    if u.info[i].sd == 0 {
      FreeStaysFree(u, sd, nows[1..], i);
    } else {
      assert u.info[i] == t.info[i].(resendCount := t.info[i].resendCount + 1);
      IdleSlotEvicted(u, sd, nows[1..], i);
    }
  }

  // ---------------------------------------------------------- connections

  /** A new connection takes the lowest free slot, and only its descriptor
      changes; when every slot is busy the connection gets
      OUT_OF_RESOURCES and the result is MAX_BOARD. */
  lemma AcceptLowestFree(t: Table, connectedSd: int)
    requires Shaped(t)
    ensures var res := AcceptStep(t, connectedSd);
      var g := res.1;
      && res.0.boards == t.boards
      && 0 <= g <= MAX_BOARD
      && (g < MAX_BOARD <==> exists h :: 0 <= h < MAX_BOARD && t.info[h].sd == 0)
      && (forall h :: 0 <= h < g ==> t.info[h].sd != 0)
      && (g < MAX_BOARD ==>
            && t.info[g].sd == 0
            && res.0.info == t.info[g := t.info[g].(sd := connectedSd)]
            && res.0.outbox == t.outbox)
      && (g == MAX_BOARD ==>
            res.0.info == t.info && res.0.outbox == t.outbox + [Sent(connectedSd, OutOfResourcesFrame)])
  {
  }

  /** A disconnect resets the slot's board_info but not its board, so the
      next client to connect takes the slot back together with the old
      board, and is expected to start from sequence number 0. */
  lemma ReconnectInheritsBoard(t: Table, g: int, now: int, connectedSd: int)
    requires Shaped(t) && 0 <= g < MAX_BOARD
    requires forall h :: 0 <= h < g ==> t.info[h].sd != 0
    ensures var res := AcceptStep(DisconnectStep(t, g, now), connectedSd);
      && res.1 == g
      && res.0.info[g] == FreeInfo(now).(sd := connectedSd)
      && BoardOf(res.0, g) == BoardOf(t, g)
  {
    FirstFreeIsLowest(DisconnectStep(t, g, now).info, 0, g);
  }
}
