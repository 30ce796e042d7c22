/** The client's side of a game (client.c).

    As for the server, the spec functions describe one step of the client on
    a value snapshot (`Peer`); the class `Client` keeps the board in an array
    and the counters in fields, updated in place as the source does through
    its pointers, and each of its methods is proved to perform exactly the
    corresponding step. The handshake `BuildGameForClient` is a method on
    its own, with the outcome of every receive given as input. */
module Client {
  import opened TicTacToe

  /** The two results of the receive loop's helpers. */
  const LOOP_CONTINUE := 1
  const LOOP_BREAK := 0

  /** The static `bufferSend` is never written in client.c, so every resend
      writes its zero-filled header. */
  const BufferSend := ZeroFrame

  /** What playClient keeps between two received frames: its board, the
      sequence number it last sent, the resend counter shared with the
      receive loop, and every frame written to the server. */
  datatype Peer = Peer(board: Board, sequenceNum: byte, resendCount: int, outbox: seq<Frame>)

  /** The client's invariant: a board of digits and marks, a counter that
      only counts. */
  predicate PeerOk(p: Peer) {
    WellFormed(p.board) && p.resendCount >= 0
  }

  /** `p` after one more frame is written. */
  function Emit(p: Peer, f: Frame): Peer {
    p.(outbox := p.outbox + [f])
  }

  // ------------------------------------------------ clientMakeChoice input

  /** The user is prompted exactly when a GAME_ON move with a valid choice
      leaves the game on after the server's mark is written. */
  predicate Prompted(b: Board, buffer: Frame) {
    && buffer.status == GAME_ON
    && IsMoveValid(b, buffer.choice)
    && CheckWin(Place(b, buffer.choice, SERVER_MARK), SERVER_MARK) == GAME_ON
  }

  /** clientMakeChoice prompts until the typed number is a valid move, so
      the choice it returns is valid on the board it is given. */
  predicate Answers(b: Board, buffer: Frame, typed: byte) {
    Prompted(b, buffer) ==> IsMoveValid(Place(b, buffer.choice, SERVER_MARK), typed)
  }

  // ------------------------------------------------------- one step, spec

  /** receiveMoveClient on a frame whose header and sequence number were
      accepted; `typed` is what clientMakeChoice returns if it is called. */
  function ReceiveMoveClientStep(p: Peer, send: byte, buffer: Frame, typed: byte): (res: (Peer, int))
    requires Answers(p.board, buffer, typed)
  {
    var g := buffer.gameId;
    if buffer.status > 2 then (Emit(p, InvalidRequestFrame(send, g)), LOOP_BREAK)
    else if buffer.status == GAME_ERROR then (p, LOOP_BREAK)
    else if !IsMoveValid(p.board, buffer.choice) then (Emit(p, InvalidRequestFrame(send, g)), LOOP_BREAK)
    else MarkedClientStep(p.(board := Place(p.board, buffer.choice, SERVER_MARK)), send, buffer, typed)
  }

  /** receiveMoveClient once the server's move is on the board: the local
      result decides between the client's next move, an END_GAME
      acknowledgement and a MALFORMED_REQUEST. */
  function MarkedClientStep(q: Peer, send: byte, buffer: Frame, typed: byte): (res: (Peer, int))
    requires buffer.status == GAME_ON && CheckWin(q.board, SERVER_MARK) == GAME_ON ==> IsMoveValid(q.board, typed)
  {
    var g := buffer.gameId;
    var result := CheckWin(q.board, SERVER_MARK);
    if buffer.status == GAME_ON then
      if result == GAME_ON then
        var b2 := Place(q.board, typed, SERVER_MARK);
        (q.(board := b2, outbox := q.outbox + [MoveFrame(b2, typed, g, send, SERVER_MARK)]), LOOP_CONTINUE)
      else (Emit(q, InvalidRequestFrame(send, g)), LOOP_BREAK)
    else if result != buffer.modifier then (Emit(q, InvalidRequestFrame(send, g)), LOOP_BREAK)
    else (Emit(q, EndGameFrame(result, g, send)), LOOP_BREAK)
  }

  /** The tail of processBufferClient once the sequence number is updated:
      END_GAME is checked against the local board, MOVE goes to
      receiveMoveClient. */
  function InOrderClientStep(p: Peer, send: byte, buffer: Frame, typed: byte): (res: (Peer, int))
    requires Answers(p.board, buffer, typed)
  {
    if buffer.msgType == END_GAME then
      var result := CheckWin(p.board, SERVER_MARK);
      if result == GAME_ON || result == WIN then (Emit(p, InvalidRequestFrame(send, buffer.gameId)), LOOP_BREAK)
      else (p, LOOP_BREAK)
    else ReceiveMoveClientStep(p, send, buffer, typed)
  }

  /** processBufferClient for the frame `buffer` in a game `gameId`. The
      expected sequence number is the one last sent plus one, the reply's is
      plus two, both modulo 256, and they are compared as plain integers. */
  function ProcessClientStep(p: Peer, gameId: byte, buffer: Frame, typed: byte): (res: (Peer, int))
    requires Answers(p.board, buffer, typed)
  {
    var expected: int := (p.sequenceNum + 1) % 256;
    var send: byte := (expected + 1) % 256;
    if buffer.version != VERSION then (Emit(p, InvalidRequestFrame(send, gameId)), LOOP_BREAK)
    else if buffer.msgType < 1 || buffer.msgType > 2 then (Emit(p, InvalidRequestFrame(send, gameId)), LOOP_BREAK)
    else if gameId != buffer.gameId then (Emit(p, InvalidRequestFrame(send, gameId)), LOOP_BREAK)
    else if buffer.sequenceNum < expected then
      if p.resendCount < MAX_TRY then
        (p.(resendCount := p.resendCount + 1, outbox := p.outbox + [BufferSend]), LOOP_CONTINUE)
      else (p, LOOP_BREAK)
    else if buffer.sequenceNum > expected then (Emit(p, InvalidRequestFrame(send, gameId)), LOOP_BREAK)
    else InOrderClientStep(p.(sequenceNum := send), send, buffer, typed)
  }

  /** A header processBufferClient accepts before it looks at the sequence
      number. */
  predicate HeaderOk(gameId: byte, buffer: Frame) {
    buffer.version == VERSION && 1 <= buffer.msgType <= 2 && gameId == buffer.gameId
  }

  // ------------------------------------------------------------ handshake

  /** The NEW_GAME request buildGameForClient writes on every attempt. */
  const NewGameRequest := Frame(VERSION, 0, GAME_ON, 0, NEW_GAME, 0, 0)

  /** What recvTimeLimit did on one attempt: it resent `bufferSend` without
      reading (the receive buffer stays zero-filled), or it left `frame` in
      the receive buffer (zero bytes where nothing was read). */
  datatype RecvOutcome = Resent | Received(frame: Frame)

  function ReplyOf(o: RecvOutcome): Frame {
    match o
    case Resent => ZeroFrame
    case Received(f) => f
  }

  /** A reply that ends the handshake: sequence number exactly 1 and a
      status other than GAME_ERROR. */
  predicate Accepts(f: Frame) {
    f.sequenceNum == 1 && f.status != GAME_ERROR
  }

  /** The frames written on one attempt. */
  function AttemptFrames(o: RecvOutcome): seq<Frame> {
    [NewGameRequest] + (if o.Resent? then [BufferSend] else [])
  }

  /** The frames written by the first n attempts. */
  function Prefix(outcomes: seq<RecvOutcome>, n: nat): seq<Frame>
    requires n <= |outcomes|
  {
    if n == 0 then [] else Prefix(outcomes, n - 1) + AttemptFrames(outcomes[n - 1])
  }

  /** The number of attempts the handshake makes. */
  function Attempts(outcomes: seq<RecvOutcome>): (n: nat)
    requires |outcomes| >= MAX_TRY + 1
    ensures 1 <= n <= MAX_TRY + 1
  {
    var k := FirstAccepted(outcomes, 0);
    if k <= MAX_TRY then k + 1 else MAX_TRY + 1
  }

  /** The first attempt from i on whose reply is accepted, or MAX_TRY + 1. */
  function FirstAccepted(outcomes: seq<RecvOutcome>, i: nat): (k: nat)
    requires |outcomes| >= MAX_TRY + 1 && i <= MAX_TRY + 1
    ensures i <= k <= MAX_TRY + 1
    ensures k <= MAX_TRY ==> Accepts(ReplyOf(outcomes[k]))
    ensures forall j :: i <= j < k ==> !Accepts(ReplyOf(outcomes[j]))
    decreases MAX_TRY + 1 - i
  {
    if i == MAX_TRY + 1 || Accepts(ReplyOf(outcomes[i])) then i else FirstAccepted(outcomes, i + 1)
  }

  /** The number of NEW_GAME requests among `s`. */
  function Requests(s: seq<Frame>): nat {
    if s == [] then 0 else (if s[0] == NewGameRequest then 1 else 0) + Requests(s[1..])
  }

  /** buildGameForClient: at most MAX_TRY + 1 attempts, each writing a
      NEW_GAME request and reading one reply. The MALFORMED_REQUEST and
      TIME_OUT tests on recvTimeLimit's result never hold (it returns
      LOOP_CONTINUE or LOOP_BREAK), so every reply is inspected. */
  method BuildGameForClient(outcomes: seq<RecvOutcome>) returns (gameId: int, sent: seq<Frame>)
    requires |outcomes| >= MAX_TRY + 1
    ensures var k := FirstAccepted(outcomes, 0);
      gameId == if k <= MAX_TRY then ReplyOf(outcomes[k]).gameId else -1
    ensures sent == Prefix(outcomes, Attempts(outcomes))
  {
    sent := [];
    for i := 0 to MAX_TRY + 1
      invariant sent == Prefix(outcomes, i)
      invariant forall j :: 0 <= j < i ==> !Accepts(ReplyOf(outcomes[j]))
    {
      // the request, then whatever recvTimeLimit wrote and left to read
      sent := sent + AttemptFrames(outcomes[i]);
      var bufferRecv := ReplyOf(outcomes[i]);
      var recvSequenceNum := bufferRecv.sequenceNum;
      if recvSequenceNum < 1 {
        continue;
      }
      if recvSequenceNum > 1 {
        continue;
      }
      if bufferRecv.status != GAME_ERROR {
        FirstAcceptedIs(outcomes, i);
        return bufferRecv.gameId, sent;
      }
      // parseGeneralError only reports the error; the loop retries
    }
    FirstAcceptedIs(outcomes, MAX_TRY + 1);
    return -1, sent;
  }

  /** FirstAccepted is the attempt with no accepted reply before it that
      is accepted itself or is past the last attempt. */
  lemma FirstAcceptedIs(outcomes: seq<RecvOutcome>, k: nat)
    requires |outcomes| >= MAX_TRY + 1 && k <= MAX_TRY + 1
    requires forall j :: 0 <= j < k ==> !Accepts(ReplyOf(outcomes[j]))
    requires k <= MAX_TRY ==> Accepts(ReplyOf(outcomes[k]))
    ensures FirstAccepted(outcomes, 0) == k
  {
  }

  // ------------------------------------------------------------ the client

  class Client {
    /** `board[ROWS][COLUMNS]` of playClient. */
    const board: array<char>
    /** `sequenceNum`, updated through `sequenceNumPtr`. */
    var sequenceNum: byte
    /** `resendCount`, updated through `resendCountPtr`. */
    var resendCount: int
    /** Every frame written to the server. */
    var outbox: seq<Frame>

    ghost predicate Sized()
      reads this
    {
      board.Length == 9
    }

    function Snapshot(): Peer
      requires Sized()
      reads this, board
    {
      Peer(board[..], sequenceNum, resendCount, outbox)
    }

    ghost predicate Valid()
      reads this, board
    {
      Sized() && PeerOk(Snapshot())
    }

    /** playClient's set-up once the game is built: a fresh board, sequence
        number 2 for the first move, no resend counted. */
    constructor ()
      ensures Sized() && fresh(board)
      ensures Snapshot() == Peer(InitialBoard, 2, 0, [])
      ensures Valid()
    {
      board := new char[9];
      sequenceNum := 2;
      resendCount := 0;
      outbox := [];
      new;
      InitBoard(board, 0);
      assert board[..] == InitialBoard;
      InitialBoardFacts(CLIENT_MARK);
    }

    /** playClient's first move: `choice` (from clientMakeChoice, hence
        valid) is marked with CLIENT_MARK and sent with the current
        sequence number; GAME_ERROR when the write fails. */
    method FirstMove(choice: byte, gameId: byte, sendOk: bool) returns (r: byte)
      requires Valid() && IsMoveValid(board[..], choice)
      modifies this, board
      ensures Sized()
      ensures var b := Place(old(board[..]), choice, CLIENT_MARK);
        Snapshot() == old(Snapshot()).(board := b,
                                       outbox := old(outbox) + [MoveFrame(b, choice, gameId, sequenceNum, CLIENT_MARK)])
      ensures r == if sendOk then GAME_ON else GAME_ERROR
      ensures Valid()
    {
      PlaceKeepsWellFormed(board[..], choice, CLIENT_MARK);
      var frame;
      frame, r := SendMoveWithChoice(board, 0, choice, gameId, sequenceNum, CLIENT_MARK, sendOk);
      assert board[..] == BoardAt(board[..], 0);
      outbox := outbox + [frame];
    }

    /** receiveMoveClient. */
    method ReceiveMoveClient(sendSequenceNum: byte, buffer: Frame, typed: byte) returns (r: int)
      requires Sized() && Answers(board[..], buffer, typed)
      modifies this, board
      ensures Sized()
      ensures (Snapshot(), r) == ReceiveMoveClientStep(old(Snapshot()), sendSequenceNum, buffer, typed)
    {
      ghost var p := Snapshot();
      var gameId := buffer.gameId;
      if buffer.status > 2 {
        outbox := outbox + [InvalidRequestFrame(sendSequenceNum, gameId)];
        return LOOP_BREAK;
      }
      if buffer.status == GAME_ERROR {
        // parseGeneralError only reports the error
        return LOOP_BREAK;
      }
      var choice := buffer.choice;
      if !IsMoveValid(board[..], choice) {
        outbox := outbox + [InvalidRequestFrame(sendSequenceNum, gameId)];
        return LOOP_BREAK;
      }
      var row := (choice - 1) / ROWS;
      var column := (choice - 1) % COLUMNS;
      board[row * COLUMNS + column] := SERVER_MARK;
      assert Snapshot() == p.(board := Place(p.board, choice, SERVER_MARK));
      r := AnswerServerMove(sendSequenceNum, buffer, typed);
    }

    /** The tail of receiveMoveClient, once the server's move is written:
        the next move, the END_GAME acknowledgement or MALFORMED_REQUEST. */
    method AnswerServerMove(sendSequenceNum: byte, buffer: Frame, typed: byte) returns (r: int)
      requires Sized()
      requires buffer.status == GAME_ON && CheckWin(board[..], SERVER_MARK) == GAME_ON ==>
               IsMoveValid(board[..], typed)
      modifies this, board
      ensures Sized()
      ensures (Snapshot(), r) == MarkedClientStep(old(Snapshot()), sendSequenceNum, buffer, typed)
    {
      ghost var q := Snapshot();
      var gameId := buffer.gameId;
      var result := CheckWin(board[..], SERVER_MARK);
      assert result == CheckWin(q.board, SERVER_MARK);
      if buffer.status == GAME_ON {
        if result == GAME_ON {
          var newChoice := typed;
          var frame, _ := SendMoveWithChoice(board, 0, newChoice, gameId, sendSequenceNum, SERVER_MARK, true);
          assert BoardAt(board[..], 0) == board[..];
          outbox := outbox + [frame];
          return LOOP_CONTINUE;
        }
        outbox := outbox + [InvalidRequestFrame(sendSequenceNum, gameId)];
        return LOOP_BREAK;
      }
      if result != buffer.modifier {
        outbox := outbox + [InvalidRequestFrame(sendSequenceNum, gameId)];
        return LOOP_BREAK;
      }
      outbox := outbox + [EndGameFrame(result, gameId, sendSequenceNum)];
      return LOOP_BREAK;
    }

    /** processBufferClient for the frame just read, in game `gameId`. */
    method ProcessBufferClient(gameId: byte, buffer: Frame, typed: byte) returns (r: int)
      requires Valid() && Answers(board[..], buffer, typed)
      modifies this, board
      ensures Sized()
      ensures (Snapshot(), r) == ProcessClientStep(old(Snapshot()), gameId, buffer, typed)
      ensures Valid()
    {
      ClientStepKeepsOk(Snapshot(), gameId, buffer, typed);
      var recvSequenceNum: int := buffer.sequenceNum;
      var expectedRecvSeqNum: int := (sequenceNum + 1) % 256;
      var sendSequenceNum: byte := (expectedRecvSeqNum + 1) % 256;
      if buffer.version != VERSION {
        outbox := outbox + [InvalidRequestFrame(sendSequenceNum, gameId)];
        return LOOP_BREAK;
      }
      var gameType := buffer.msgType;
      if gameType < 1 || gameType > 2 {
        outbox := outbox + [InvalidRequestFrame(sendSequenceNum, gameId)];
        return LOOP_BREAK;
      }
      if gameId != buffer.gameId {
        outbox := outbox + [InvalidRequestFrame(sendSequenceNum, gameId)];
        return LOOP_BREAK;
      }
      if recvSequenceNum < expectedRecvSeqNum {
        if resendCount < MAX_TRY {
          resendCount := resendCount + 1;
          outbox := outbox + [BufferSend];
          return LOOP_CONTINUE;
        }
        return LOOP_BREAK;
      }
      if recvSequenceNum > expectedRecvSeqNum {
        outbox := outbox + [InvalidRequestFrame(sendSequenceNum, gameId)];
        return LOOP_BREAK;
      }
      sequenceNum := sendSequenceNum;
      if gameType == END_GAME {
        var result := CheckWin(board[..], SERVER_MARK);
        if result == GAME_ON || result == WIN {
          outbox := outbox + [InvalidRequestFrame(sendSequenceNum, gameId)];
          return LOOP_BREAK;
        }
        return LOOP_BREAK;
      }
      r := ReceiveMoveClient(sendSequenceNum, buffer, typed);
    }
  }

  // ------------------------------------------------------------ invariant

  lemma ReceiveMoveKeepsOk(p: Peer, send: byte, buffer: Frame, typed: byte)
    requires PeerOk(p) && Answers(p.board, buffer, typed)
    ensures PeerOk(ReceiveMoveClientStep(p, send, buffer, typed).0)
  {
    if buffer.status <= 1 && IsMoveValid(p.board, buffer.choice) {
      var b := Place(p.board, buffer.choice, SERVER_MARK);
      PlaceKeepsWellFormed(p.board, buffer.choice, SERVER_MARK);
      if buffer.status == GAME_ON && CheckWin(b, SERVER_MARK) == GAME_ON {
        PlaceKeepsWellFormed(b, typed, SERVER_MARK);
      }
    }
  }

  /** processBufferClient keeps the client's invariant. */
  lemma ClientStepKeepsOk(p: Peer, gameId: byte, buffer: Frame, typed: byte)
    requires PeerOk(p) && Answers(p.board, buffer, typed)
    ensures PeerOk(ProcessClientStep(p, gameId, buffer, typed).0)
  {
    var expected: int := (p.sequenceNum + 1) % 256;
    var send: byte := (expected + 1) % 256;
    if HeaderOk(gameId, buffer) && buffer.sequenceNum == expected && buffer.msgType == MOVE {
      ReceiveMoveKeepsOk(p.(sequenceNum := send), send, buffer, typed);
    }
  }

  // ------------------------------------------------------------- properties

  /** A wrong version, a message type other than MOVE or END_GAME (so a
      NEW_GAME too) or a foreign game id is answered with MALFORMED_REQUEST
      carrying the last sent sequence number plus two; the loop stops and
      nothing else changes. */
  lemma ClientBadHeaderAnswered(p: Peer, gameId: byte, buffer: Frame, typed: byte)
    requires Answers(p.board, buffer, typed) && !HeaderOk(gameId, buffer)
    ensures ProcessClientStep(p, gameId, buffer, typed) ==
            (Emit(p, InvalidRequestFrame((p.sequenceNum + 2) % 256, gameId)), LOOP_BREAK)
  {
  }

  /** A duplicate (a sequence number below the expected one) is answered
      by resending `bufferSend` and counting the resend, while fewer than
      MAX_TRY were counted; otherwise the loop stops with nothing sent. */
  lemma ClientDuplicateResent(p: Peer, gameId: byte, buffer: Frame, typed: byte)
    requires Answers(p.board, buffer, typed) && HeaderOk(gameId, buffer)
    requires buffer.sequenceNum < (p.sequenceNum + 1) % 256
    ensures var (q, c) := ProcessClientStep(p, gameId, buffer, typed);
      && q.board == p.board && q.sequenceNum == p.sequenceNum
      && (p.resendCount < MAX_TRY ==>
            c == LOOP_CONTINUE && q.resendCount == p.resendCount + 1 && q.outbox == p.outbox + [ZeroFrame])
      && (p.resendCount >= MAX_TRY ==> c == LOOP_BREAK && q == p)
  {
  }

  /** A sequence number beyond the expected one is answered with
      MALFORMED_REQUEST; sequence number, counter and board are kept. */
  lemma ClientAheadAnswered(p: Peer, gameId: byte, buffer: Frame, typed: byte)
    requires Answers(p.board, buffer, typed) && HeaderOk(gameId, buffer)
    requires buffer.sequenceNum > (p.sequenceNum + 1) % 256
    ensures ProcessClientStep(p, gameId, buffer, typed) ==
            (Emit(p, InvalidRequestFrame((p.sequenceNum + 2) % 256, gameId)), LOOP_BREAK)
  {
  }

  /** An in-order frame moves the stored sequence number on by two, and
      whatever is answered to it carries that new number. */
  lemma ClientInOrderAdvances(p: Peer, gameId: byte, buffer: Frame, typed: byte)
    requires Answers(p.board, buffer, typed) && HeaderOk(gameId, buffer)
    requires buffer.sequenceNum == (p.sequenceNum + 1) % 256
    ensures var (q, c) := ProcessClientStep(p, gameId, buffer, typed);
      && q.sequenceNum == (p.sequenceNum + 2) % 256
      && q.resendCount == p.resendCount
      && |p.outbox| <= |q.outbox| <= |p.outbox| + 1
      && q.outbox[..|p.outbox|] == p.outbox
      && (|q.outbox| > |p.outbox| ==> q.outbox[|p.outbox|].sequenceNum == q.sequenceNum)
  {
  }

  /** END_GAME always stops the loop and leaves the board alone; it is
      answered with MALFORMED_REQUEST exactly when the local board shows
      the game still on or won by the server's mark. */
  lemma ClientEndGameHandled(p: Peer, gameId: byte, buffer: Frame, typed: byte)
    requires Answers(p.board, buffer, typed) && HeaderOk(gameId, buffer)
    requires buffer.sequenceNum == (p.sequenceNum + 1) % 256 && buffer.msgType == END_GAME
    ensures var (q, c) := ProcessClientStep(p, gameId, buffer, typed);
      var result := CheckWin(p.board, SERVER_MARK);
      && c == LOOP_BREAK && q.board == p.board
      && q.outbox == (if result == GAME_ON || result == WIN
                      then p.outbox + [InvalidRequestFrame(q.sequenceNum, gameId)]
                      else p.outbox)
  {
  }

  /** An invalid choice is answered with MALFORMED_REQUEST and the board
      is left as it was. */
  lemma ClientInvalidMoveRejected(p: Peer, send: byte, buffer: Frame, typed: byte)
    requires Answers(p.board, buffer, typed)
    requires buffer.status <= 1 && !IsMoveValid(p.board, buffer.choice)
    ensures ReceiveMoveClientStep(p, send, buffer, typed) ==
            (Emit(p, InvalidRequestFrame(send, buffer.gameId)), LOOP_BREAK)
  {
  }

  /** A status above GAME_ERROR is answered with MALFORMED_REQUEST before
      the choice is looked at; the board is left as it was. */
  lemma ClientBadStatusAnswered(p: Peer, send: byte, buffer: Frame, typed: byte)
    requires buffer.status > GAME_ERROR
    ensures ReceiveMoveClientStep(p, send, buffer, typed) ==
            (Emit(p, InvalidRequestFrame(send, buffer.gameId)), LOOP_BREAK)
  {
  }

  /** A GAME_ERROR report is only reported: nothing is written, the board
      and the counter are kept, and the loop stops. */
  lemma ClientErrorStatusStops(p: Peer, send: byte, buffer: Frame, typed: byte)
    requires buffer.status == GAME_ERROR
    ensures ReceiveMoveClientStep(p, send, buffer, typed) == (p, LOOP_BREAK)
  {
  }

  /** A valid choice is written with SERVER_MARK whatever happens next;
      the only other cell that may change is the typed choice, also marked
      with SERVER_MARK, when the loop goes on. */
  lemma ClientMovePlaced(p: Peer, send: byte, buffer: Frame, typed: byte)
    requires Answers(p.board, buffer, typed)
    requires buffer.status <= 1 && IsMoveValid(p.board, buffer.choice)
    ensures var (q, c) := ReceiveMoveClientStep(p, send, buffer, typed);
      && q.board[buffer.choice - 1] == SERVER_MARK
      && (c == LOOP_CONTINUE <==> Prompted(p.board, buffer))
      && (c == LOOP_CONTINUE ==> q.board[typed - 1] == SERVER_MARK && typed != buffer.choice)
      && (forall k :: 0 <= k < 9 && k != buffer.choice - 1 && (c == LOOP_BREAK || k != typed - 1) ==>
            q.board[k] == p.board[k])
  {
  }

  /** The client's own moves after the first carry SERVER_MARK: the loop
      never writes CLIENT_MARK. */
  lemma NoClientMarkWritten(p: Peer, gameId: byte, buffer: Frame, typed: byte)
    requires Answers(p.board, buffer, typed)
    ensures var q := ProcessClientStep(p, gameId, buffer, typed).0;
      forall k :: 0 <= k < 9 && q.board[k] == CLIENT_MARK ==> p.board[k] == CLIENT_MARK
  {
  }

  /** On the prompt path the client writes a MOVE frame for the board with
      both new marks, its status and modifier judged for SERVER_MARK. */
  lemma ClientAnswersMove(p: Peer, send: byte, buffer: Frame, typed: byte)
    requires Answers(p.board, buffer, typed) && Prompted(p.board, buffer)
    ensures var (q, c) := ReceiveMoveClientStep(p, send, buffer, typed);
      var b := Place(Place(p.board, buffer.choice, SERVER_MARK), typed, SERVER_MARK);
      && c == LOOP_CONTINUE && q.board == b
      && q.outbox == p.outbox + [MoveFrame(b, typed, buffer.gameId, send, SERVER_MARK)]
  {
  }

  /** A GAME_COMPLETE report that agrees with the local result is
      acknowledged with END_GAME, LOSE when the server won and DRAW
      otherwise; a disagreeing one, or a GAME_ON report on a finished
      board, is answered with MALFORMED_REQUEST. The loop stops either way. */
  lemma ClientCompleteHandled(p: Peer, send: byte, buffer: Frame, typed: byte)
    requires Answers(p.board, buffer, typed)
    requires buffer.status <= 1 && IsMoveValid(p.board, buffer.choice) && !Prompted(p.board, buffer)
    ensures var (q, c) := ReceiveMoveClientStep(p, send, buffer, typed);
      var b := Place(p.board, buffer.choice, SERVER_MARK);
      var result := CheckWin(b, SERVER_MARK);
      && c == LOOP_BREAK && q.board == b
      && q.outbox == p.outbox + [if buffer.status == GAME_COMPLETE && result == buffer.modifier
                                 then Frame(VERSION, 0, GAME_COMPLETE, if result == WIN then LOSE else DRAW,
                                            END_GAME, buffer.gameId, send)
                                 else InvalidRequestFrame(send, buffer.gameId)]
  {
  }

  // --------------------------------------------------------- resend bound

  /** The number of resends of `bufferSend` among `s`. */
  function Resends(s: seq<Frame>): nat {
    if s == [] then 0 else (if s[0] == BufferSend then 1 else 0) + Resends(s[1..])
  }

  lemma {:induction false} ResendsAppend(a: seq<Frame>, b: seq<Frame>)
    ensures Resends(a + b) == Resends(a) + Resends(b)
  {
    if a == [] {
      assert a + b == b;
    } else {
      assert (a + b)[0] == a[0];
      assert (a + b)[1..] == a[1..] + b;
      ResendsAppend(a[1..], b);
    }
  }

  /** One step writes at most one frame; it is a resend exactly when the
      counter goes up, and the counter goes up only to MAX_TRY. */
  lemma ResendStep(p: Peer, gameId: byte, buffer: Frame, typed: byte)
    requires Answers(p.board, buffer, typed)
    ensures var q := ProcessClientStep(p, gameId, buffer, typed).0;
      && |p.outbox| <= |q.outbox| && q.outbox[..|p.outbox|] == p.outbox
      && Resends(q.outbox[|p.outbox|..]) == q.resendCount - p.resendCount
      && (q.resendCount == p.resendCount || q.resendCount == p.resendCount + 1 <= MAX_TRY)
  {
    var q := ProcessClientStep(p, gameId, buffer, typed).0;
    if |q.outbox| > |p.outbox| {
      var f := q.outbox[|p.outbox|];
      assert q.outbox[|p.outbox|..] == [f];
      assert Resends([f]) == if f == BufferSend then 1 else 0;
      forall b: Board, choice: byte, g: byte, s: byte, mark: char, result: byte, n: int {
        FramesAreVersioned(b, choice, g, s, mark, result, n);
      }
    }
  }

  /** The receive loop over frames read and choices typed: it stops at
      LOOP_BREAK, when the input runs out, or at an answer clientMakeChoice
      would not accept. */
  function Run(p: Peer, gameId: byte, inputs: seq<(Frame, byte)>): (r: Peer)
    ensures PeerOk(p) ==> PeerOk(r)
    decreases |inputs|
  {
    if inputs == [] || !Answers(p.board, inputs[0].0, inputs[0].1) then p
    else
      var (q, c) := ProcessClientStep(p, gameId, inputs[0].0, inputs[0].1);
      assert PeerOk(p) ==> PeerOk(q) by {
        if PeerOk(p) {
          ClientStepKeepsOk(p, gameId, inputs[0].0, inputs[0].1);
        }
      }
      if c == LOOP_BREAK then q else Run(q, gameId, inputs[1..])
  }

  /** However many duplicates arrive, the receive loop resends at most
      MAX_TRY times in all, fewer by the resends already counted; the
      counter records every one of them. */
  lemma {:induction false} ResendBound(p: Peer, gameId: byte, inputs: seq<(Frame, byte)>)
    requires p.resendCount >= 0
    ensures var r := Run(p, gameId, inputs);
      && |p.outbox| <= |r.outbox| && r.outbox[..|p.outbox|] == p.outbox
      && Resends(r.outbox[|p.outbox|..]) == r.resendCount - p.resendCount
      && Resends(r.outbox[|p.outbox|..]) <= if p.resendCount < MAX_TRY then MAX_TRY - p.resendCount else 0
    decreases |inputs|
  {
    var r := Run(p, gameId, inputs);
    if inputs == [] || !Answers(p.board, inputs[0].0, inputs[0].1) {
      assert r.outbox[|p.outbox|..] == [];
    } else {
      var (q, c) := ProcessClientStep(p, gameId, inputs[0].0, inputs[0].1);
      ResendStep(p, gameId, inputs[0].0, inputs[0].1);
      if c == LOOP_BREAK {
        assert r == q;
      } else {
        assert r == Run(q, gameId, inputs[1..]);
        ResendBound(q, gameId, inputs[1..]);
        assert r.outbox[|p.outbox|..] == q.outbox[|p.outbox|..] + r.outbox[|q.outbox|..];
        ResendsAppend(q.outbox[|p.outbox|..], r.outbox[|q.outbox|..]);
      }
    }
  }

  // ------------------------------------------------------------ handshake

  /** Every attempt writes one NEW_GAME request, followed by the zero
      header when recvTimeLimit resent instead of reading. */
  lemma {:induction false} PrefixRequests(outcomes: seq<RecvOutcome>, n: nat)
    requires n <= |outcomes|
    ensures Requests(Prefix(outcomes, n)) == n
    ensures n <= |Prefix(outcomes, n)| <= 2 * n
  {
    if n > 0 {
      PrefixRequests(outcomes, n - 1);
      var a := AttemptFrames(outcomes[n - 1]);
      assert Requests(a) == 1 by {
        assert a[0] == NewGameRequest;
        assert Requests([BufferSend]) == 0 by {
          assert BufferSend != NewGameRequest;
          assert [BufferSend][1..] == [];
        }
        if outcomes[n - 1].Resent? {
          assert a[1..] == [BufferSend];
        } else {
          assert a[1..] == [];
        }
      }
      RequestsAppend(Prefix(outcomes, n - 1), a);
    }
  }

  lemma {:induction false} RequestsAppend(a: seq<Frame>, b: seq<Frame>)
    ensures Requests(a + b) == Requests(a) + Requests(b)
  {
    if a == [] {
      assert a + b == b;
    } else {
      assert (a + b)[0] == a[0];
      assert (a + b)[1..] == a[1..] + b;
      RequestsAppend(a[1..], b);
    }
  }

  /** buildGameForClient writes one NEW_GAME request per attempt, at least
      one and at most MAX_TRY + 1. When attempt k is the first accepted, it
      makes k + 1 requests. So it makes all MAX_TRY + 1 exactly when no reply
      is accepted before the last attempt: either the last reply is the
      first accepted, or none is. A reply with a sequence number other than
      1, or an error reply such as the server's OUT_OF_RESOURCES, only costs
      an attempt. */
  lemma HandshakeOutcome(outcomes: seq<RecvOutcome>)
    requires |outcomes| >= MAX_TRY + 1
    ensures var k := FirstAccepted(outcomes, 0);
      var s := Prefix(outcomes, Attempts(outcomes));
      && 1 <= Requests(s) <= MAX_TRY + 1
      && (k <= MAX_TRY <==> exists j :: 0 <= j <= MAX_TRY && Accepts(ReplyOf(outcomes[j])))
      && (k > MAX_TRY ==> Requests(s) == MAX_TRY + 1)
      && (Requests(s) == MAX_TRY + 1 <==> k >= MAX_TRY)
      && (k <= MAX_TRY ==> Requests(s) == k + 1 && 0 <= ReplyOf(outcomes[k]).gameId < 256)
  {
    PrefixRequests(outcomes, Attempts(outcomes));
    var k := FirstAccepted(outcomes, 0);
    if k <= MAX_TRY {
      assert Accepts(ReplyOf(outcomes[k]));
    }
  }
}
