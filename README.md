# Tic-tac-toe over sockets: a Dafny model of the game core

This project models the core of a networked tic-tac-toe program written in C.
A server holds up to `MAX_BOARD` (10) games at once. A client connects,
asks for a game with a NEW_GAME frame, and the two sides then exchange
seven-byte frames: `[version, choice, status, statusModifier,
messageType, gameId, sequenceNum]`. The client plays `X` on its first
move. The server answers each move with `O` on the lowest free cell.
Either side checks the board after each move. A finished game is
acknowledged with END_GAME, and anything unexpected is answered with
GAME_ERROR / MALFORMED_REQUEST.

There are three modules, one per C file:

- `TicTacToe` (tictactoe.dfy, from tictactoe.c and tictactoe.h):
  - the protocol constants;
  - the board and the frames;
  - `checkWin`, with a reference definition through a table of lines;
  - `isMoveValid`;
  - `initBoard` and `sendMoveWithChoice`, as methods on an array of cells;
  - `parseGeneralError`, and `respondToInvalidRequest` as the frame
    `InvalidRequestFrame` that the client's steps write;
  - the three string validators. `isIpValid` is modelled together with the
    `strtok` splitting it relies on.
- `Server` (server.dfy, from server.c):
  - the `board_info` table and the 90 cells of the boards;
  - class `Server`, whose methods update them in place as the C code does.
    Each method is proved to perform exactly one step function over a value
    snapshot (`Table`). These step functions are `ProcessStep`,
    `NewGameStep`, `MoveStep`, `Sweep`, `AcceptStep` and `DisconnectStep`;
  - lemmas about those step functions:
    - the table invariant;
    - isolation of the other slots;
    - the answer given in each branch;
    - unbounded duplicate resends;
    - eviction of idle slots;
    - the lowest-free-slot allocation.
- `Client` (client.dfy, from client.c):
  - class `Client`, which holds the board array and the counters that the C
    code updates through pointers. Its methods are proved equal to
    `ProcessClientStep` and its parts;
  - the handshake `BuildGameForClient`, as a loop method over the outcome of
    each receive;
  - lemmas on:
    - the per-branch answers;
    - the resend bound of the receive loop;
    - the number of NEW_GAME attempts.

I/O is replaced by data:
- Every `write()` appends the frame, with its descriptor on the server
  side, to an `outbox` sequence. This happens whether or not the write
  succeeds.
- The result of the write is an input `sendOk`. It is consulted only where
  the C code looks at it.
- `time()` is an input `now`.
- What `recvTimeLimit` did on one attempt of the handshake is an input
  `RecvOutcome`.
- The number the user types in `clientMakeChoice` is an input `typed`. It
  comes with the precondition `Answers`: the prompt loop only returns a
  valid move.

The model follows the code as written, including these consequences of
it:

- The cached `sendBuffer` (server slot) and the static `bufferSend`
  (client) are never written. Every resend therefore writes a zero header
  (`SlotOk`, `BufferSend`, `ClientDuplicateResent`).
- The server's duplicate branches resend only while the slot's
  `resendCount` is below MAX_TRY. Once it reaches MAX_TRY they write
  nothing and return GAME_ERROR (server.c:73-82, server.c:265-272).
  playServer ignores that result (server.c:454-456), so the slot, its
  descriptor, its board and its number stay as they were
  (`DuplicateResent`). Only the timeout sweep raises that counter
  (server.c:327-329). A duplicate never does. So while the sweep leaves a
  slot alone, a client can trigger resends forever
  (`DuplicatesNeverExhaust`).
- A rejected complete report leaves the client's `X` on the server board
  (`ClaimMismatchRejected`).
- A disconnect resets `board_info` but not the board. The next client
  inherits the old board (`ReconnectInheritsBoard`).
- The timeout sweep sends to the listening descriptor it is given, not to
  the slot's client. This holds for both its resends and its TIMEOUT notices
  (`SweepSlotAt`). Its TIMEOUT notice for an expected sequence number 0
  carries 255 (`TimeoutSequenceNum`, `SweepNoticesAt`).
- The server answers a frame with a wrong version with that frame's own
  sequence number, not that number plus one (`BadHeaderAnswered`). The
  client answers it with its usual reply number, the expected number plus
  one, as for any bad header (`ClientBadHeaderAnswered`).
- A GAME_COMPLETE MOVE with modifier 0 on a board that is still on
  agrees with checkWin's GAME_ON. The server therefore acknowledges it
  with END_GAME / DRAW and releases the slot (`CompleteAcknowledged`).
- An agreed LOSE is acknowledged with DRAW as well. Only WIN is answered
  with LOSE (`EndGameFrame`).
- After the first move, the client marks its own moves with `SERVER_MARK`
  and judges them for `SERVER_MARK` (`NoClientMarkWritten`,
  `ClientAnswersMove`).
- Sequence numbers are compared as plain integers after the modulo-256
  reduction, not modularly.
- `isIpValid` never rejects a piece for its range, because the value is
  cast to `uint8_t` first. It also skips empty pieces
  (`OutOfRangePieceAccepted`, `EmptyPiecesSkipped`).
- The handshake tests `recvTimeLimit`'s result against MALFORMED_REQUEST
  and TIME_OUT, which that function never returns. Every reply is
  inspected.

## Model

| member | source | states |
|---|---|---|
| TicTacToe.IsMoveValid | tictactoe.c:208-212 | a move is valid exactly when the choice is 1..9 and its cell still holds its digit |
| TicTacToe.CheckWin | tictactoe.c:15-46 | the result is one of GAME_ON, DRAW, WIN, LOSE |
| TicTacToe.FirstComplete | tictactoe.c:16-39 | the first complete line at or after a position: it is complete and none before it is |
| TicTacToe.CheckWinMatchesLines | tictactoe.c:15-46 | checkWin agrees with the reference outcome: the first complete line decides WIN or LOSE by its mark, otherwise GAME_ON with a free cell and DRAW without |
| TicTacToe.CheckWinCases | tictactoe.c:15-46 | WIN/LOSE iff some line is complete; DRAW iff no complete line and no free cell; GAME_ON iff no complete line and a free cell; WIN only when the deciding line holds the mover's mark |
| TicTacToe.GameOnHasFree | tictactoe.c:40-45 | a game reported GAME_ON has a free cell |
| TicTacToe.CompleteLineIsMarked | tictactoe.c:16-39 | on a well-formed board a complete line consists of X or of O, never of digits |
| TicTacToe.InitialBoardFacts | tictactoe.c:222-230 | the initial board is well formed, every cell is free, every choice 1..9 is valid, and the game is on |
| TicTacToe.PlaceKeepsWellFormed | tictactoe.c:176-179 | writing a mark into a free cell keeps the board well formed, changes no other cell, and makes that choice invalid |
| TicTacToe.BoardAtSplice | server.c:365 | re-initialising one board of the 3-D array leaves every other board as it was |
| TicTacToe.BoardAtUpdate | server.c:151 | writing one cell changes that board in that cell and no other board |
| TicTacToe.LowestFree | server.c:27-40 | the server's choice is 1..9, valid when a cell is free, no lower choice is valid, and 9 when the board is full |
| TicTacToe.LowestFreeFrom | server.c:29-38 | the scan from a given choice stops at the first free cell, or at 9 |
| TicTacToe.LowestFreeIs | server.c:27-40 | the choice with no free cell below it that is free itself (or is 9) is the server's choice |
| TicTacToe.ParseGeneralError | tictactoe.c:75-93 | the result is 1 exactly for OUT_OF_RESOURCES and TRY_AGAIN, else 0 |
| TicTacToe.MoveFrame | tictactoe.c:182-189 | a MOVE frame for the chosen cell, game and number; its status is GAME_ON exactly when its modifier is, and a GAME_COMPLETE frame carries DRAW, WIN or LOSE |
| TicTacToe.MoveFrameReportsBoard | tictactoe.c:182-189 | a MOVE frame says GAME_ON exactly when no line is complete and a cell is free, DRAW exactly for a full board without a line, WIN or LOSE exactly when a line is complete |
| TicTacToe.InvalidRequestFrame | tictactoe.c:96-106 | a GAME_ERROR / MALFORMED_REQUEST MOVE frame with choice 0 for the game, which does not invite a retry; a number in 0..255 is carried unchanged, any other reduced modulo 256 |
| TicTacToe.FramesAreVersioned | tictactoe.c:187-189 | move, invalid-request and end-game frames carry VERSION and are never the zero header |
| TicTacToe.InitBoard | tictactoe.c:222-230 | the nine cells of the board receive the digits 1..9 and every other cell is unchanged |
| TicTacToe.SendMoveWithChoice | tictactoe.c:167-193 | exactly the chosen cell receives the mark; the frame carries the choice and checkWin's result as modifier, with status GAME_ON exactly when the result is; GAME_ERROR exactly when the write fails |
| TicTacToe.IsDigitValid | tictactoe.c:240-246 | true exactly when every character is a decimal digit |
| TicTacToe.IsPortNumValid | tictactoe.c:282-289 | true exactly when the string is non-empty, starts with 1..9 and continues with digits |
| TicTacToe.SkipDelims | tictactoe.c:260 | strtok's next token starts past the dots, at a non-dot or at the end |
| TicTacToe.TokenEnd | tictactoe.c:270 | a token ends at the next dot or at the end of the string |
| TicTacToe.TokensStep | tictactoe.c:264-272 | one strtok call returns the token at the position and continues after its dots |
| TicTacToe.IsIpValid | tictactoe.c:255-276 | accepts exactly the strings whose dot-separated non-empty pieces number four and are all digits |
| TicTacToe.RangeTestNeverFails | tictactoe.c:267-269 | the range test sees the piece's value cast to uint8_t: a value that fits in a long is tested modulo 256, so the test always passes |
| TicTacToe.WidePieceWraps | tictactoe.c:267-269 | the piece "999" reaches the range test as 231 |
| TicTacToe.OutOfRangePieceAccepted | tictactoe.c:267-269 | "999.1.2.3" is accepted: no piece is rejected for its range |
| TicTacToe.EmptyPiecesSkipped | tictactoe.c:260-271 | "1..2.3.4." is accepted: empty pieces are skipped |
| TicTacToe.TokensBound | tictactoe.c:261-276 | strtok on "." yields at most one piece more than the string has dots |
| TicTacToe.FewDotsRefused | tictactoe.c:275 | an address with fewer than three dots is refused: it cannot split into four pieces |
| Server.ServerMakeChoice | server.c:27-40 | the row-by-row scan returns the lowest free choice (9 on a full board) |
| Server.FirstFree | server.c:420-426 | the lowest slot with descriptor 0, all slots before it busy |
| Server.Server.constructor | server.c:368-371 | every slot is free and every board initial, nothing sent, invariant established |
| Server.Server.InitBoardInfo | server.c:15-21 | only slot g changes, to the zeroed board_info |
| Server.Server.ReleaseSlot | server.c:197-199 | slot g's board is initial and its board_info zeroed |
| Server.Server.RespondToInvalidRequestServer | server.c:46-56 | one MALFORMED_REQUEST frame to the slot's descriptor, and the slot's time refreshed |
| Server.Server.ReceiveNewGame | server.c:62-110 | the new state and result are those of NewGameStep |
| Server.Server.ReceiveMove | server.c:116-202 | the new state and result are those of MoveStep |
| Server.Server.ReceiveInOrder | server.c:287-311 | the new state and result are those of InOrderStep |
| Server.Server.ProcessBuffer | server.c:218-312 | the new state and result are those of ProcessStep, and the table invariant is kept |
| Server.Server.CheckBoardTimeOut | server.c:318-351 | the new state is that of Sweep, and the table invariant is kept |
| Server.Server.Accept | server.c:418-433 | the new state and slot are those of AcceptStep, invariant kept |
| Server.Server.Disconnect | server.c:441-443 | only slot g's board_info is reset, invariant kept |
| Server.InitialOk | server.c:368-371 | the set-up table satisfies the invariant |
| Server.FirstFreeIsLowest | server.c:420-426 | a slot that is free, with every earlier slot busy, is the one the loop picks |
| Server.ReleaseKeepsOk | server.c:197-199 | releasing a slot keeps the invariant, makes its board initial, and leaves the other boards alone |
| Server.MarkKeepsOk | server.c:151 | writing a mark on a free cell keeps the invariant and changes only that board |
| Server.MarkedKeepsOk | server.c:156-201 | the tail of receiveMove keeps the invariant |
| Server.MoveKeepsOk | server.c:116-202 | receiveMove keeps the invariant |
| Server.InOrderKeepsOk | server.c:287-311 | the in-order tail of processBuffer keeps the invariant |
| Server.NewGameKeepsOk | server.c:62-110 | receiveNewGame keeps the invariant when the next expected number is even |
| Server.ProcessKeepsOk | server.c:218-312 | processBuffer keeps the invariant: zero cached frame, bounded resend counter, even expected sequence number, well-formed boards |
| Server.SweepKeepsOk | server.c:318-351 | the timeout sweep keeps the invariant |
| Server.MarkElsewhere | server.c:151 | marking a cell of board g touches no other slot |
| Server.ReleaseElsewhere | server.c:197-199 | releasing slot g touches no other slot |
| Server.MarkedConfined | server.c:156-201 | the tail of receiveMove changes only slot g and writes at most one frame, to g's descriptor |
| Server.InOrderConfined | server.c:287-311 | the in-order tail changes only slot g and writes at most one frame, to g's descriptor |
| Server.NewGameConfined | server.c:62-110 | receiveNewGame changes only slot g and writes at most one frame, to g's descriptor |
| Server.ProcessInOrder | server.c:283-311 | an in-order MOVE or END_GAME frame advances the expected number by two and goes on to the in-order tail |
| Server.InOrderPathConfined | server.c:283-311 | on the in-order path processBuffer changes only slot g and writes at most one frame |
| Server.EarlyPathConfined | server.c:228-281 | on the header and sequence-check paths processBuffer changes only slot g and writes at most one frame |
| Server.ProcessConfined | server.c:218-312 | processBuffer for slot g changes no other slot or board and writes at most one frame, to g's descriptor |
| Server.MarkHere | server.c:151 | the marked board is the old one with the mark at the choice |
| Server.ReleaseHere | server.c:198 | the released board is the initial board |
| Server.BadHeaderAnswered | server.c:228-258 | a wrong version, a type above 2 or a foreign game id is answered with MALFORMED_REQUEST (the received number for a wrong version, else plus one), result 1, only the time refreshed |
| Server.DuplicateResent | server.c:261-273 | a duplicate MOVE/END_GAME resends the zero header, result 1, only the time refreshed, boards unchanged; with the counter at MAX_TRY the result is GAME_ERROR and nothing changes |
| Server.NewGameDuplicateResent | server.c:69-83 | a repeated NEW_GAME resends the zero header; only a successful write refreshes the time and gives 6, a failed one gives GAME_ERROR; with the counter at MAX_TRY nothing changes and the result is GAME_ERROR |
| Server.DuplicatesNeverExhaust | server.c:261-273 | any number n of duplicates sends n zero headers and never raises the resend counter: no error is ever reached |
| Server.AheadAnswered | server.c:275-281 | a sequence number ahead of the expected one is answered with MALFORMED_REQUEST (result 6 for NEW_GAME, else 1), boards unchanged |
| Server.NewGameAccepted | server.c:94-109 | an in-order NEW_GAME advances the expected number by two and is answered with a GAME_ON frame carrying the slot as game id |
| Server.InvalidMoveRejected | server.c:144-148 | an invalid choice is answered with MALFORMED_REQUEST and the board is unchanged |
| Server.BadStatusAnswered | server.c:125-128 | an in-order MOVE with a status above GAME_ERROR is answered with MALFORMED_REQUEST, the board unchanged and the expected number advanced |
| Server.ErrorStatusIgnored | server.c:131-134 | an in-order MOVE reporting GAME_ERROR writes nothing and leaves the board and time as they were; only the expected number has advanced, and the result is GAME_ERROR |
| TicTacToe.EndGameFrame | server.c:179-190 | the END_GAME acknowledgement is GAME_COMPLETE and carries LOSE exactly when the reported result is WIN, DRAW otherwise |
| Server.TimeoutFrame | server.c:342-344 | the TIMEOUT notice is a GAME_ERROR / TIME_OUT MOVE frame with choice 0 for the slot, carrying the given number; it does not invite a retry and differs from every MALFORMED_REQUEST frame |
| Server.OutOfResourcesInvitesRetry | server.c:427-429 | the refusal sent when every slot is taken is a GAME_ERROR frame for game 0 with number 1 that invites a retry, unlike the TIMEOUT and MALFORMED_REQUEST frames |
| Server.AnswerMoveValue | server.c:158-163 | after the client's mark, a game still on is answered by the server's mark on the lowest free cell and its MOVE frame |
| Server.ServerAnswersMove | server.c:151-163 | a valid GAME_ON move that leaves the game on gets X at its cell, O at the lowest free cell after it, and one MOVE frame for that board; result GAME_ON |
| Server.ClaimMismatchRejected | server.c:165-177 | a report whose status or modifier disagrees with the local result is answered with MALFORMED_REQUEST and the client's X stays on the board |
| Server.CompleteAcknowledged | server.c:179-201 | an agreeing GAME_COMPLETE report is acknowledged with END_GAME (LOSE or DRAW) and the slot released, unless the write fails |
| Server.EndGameHandled | server.c:289-308 | END_GAME releases the slot when the local result is DRAW or LOSE and is answered with MALFORMED_REQUEST when it is GAME_ON or WIN; result 1 |
| Server.TimeoutSequenceNum | server.c:335-344 | the TIMEOUT notice's sequence number is the expected one minus one, 255 for 0 |
| Server.SweepSlotAt | server.c:323-348 | one sweep iteration changes slot j only. A stale slot with budget left has its counter raised and its cached frame resent. Once its budget is spent it is released with a TIMEOUT notice. Each of these writes exactly one frame, to the descriptor the sweep is given. A slot that is not stale is left alone and nothing is written |
| Server.SweepInfoAt | server.c:322-350 | after n iterations exactly the slots below n are swept |
| Server.SweepBoardsAt | server.c:322-350 | after n iterations exactly the expired slots below n have initial boards |
| Server.SweepOutboxGrows | server.c:322-350 | the sweep only appends frames |
| Server.SweepNoticesAt | server.c:334-348 | every expired slot below n gets its TIMEOUT notice |
| Server.FreeStaysFree | server.c:322-324 | the sweeps never give a free slot a descriptor |
| Server.IdleSlotEvicted | server.c:322-348 | a busy slot that stays silent through MAX_SEND_COUNT + 2 - resendCount sweeps is freed |
| Server.AcceptLowestFree | server.c:418-433 | a new connection takes the lowest free slot, with a slot iff one is free; with none free it is refused with OUT_OF_RESOURCES on its own descriptor |
| Server.ReconnectInheritsBoard | server.c:441-443 | a client reconnecting into a disconnected slot gets that slot with the old board and a fresh board_info |
| Client.Attempts | client.c:250 | the handshake makes between 1 and MAX_TRY + 1 attempts |
| Client.FirstAccepted | client.c:258-277 | the first attempt whose reply has sequence number 1 and no error, all earlier replies refused |
| Client.FirstAcceptedIs | client.c:258-277 | an accepted attempt with no accepted one before it is the first accepted |
| Client.BuildGameForClient | client.c:248-283 | the game id of the first accepted reply, or -1 when none of the MAX_TRY + 1 is accepted; the frames written are one NEW_GAME per attempt plus the resends |
| Client.PrefixRequests | client.c:252-257 | n attempts write exactly n NEW_GAME requests and between n and 2n frames |
| Client.HandshakeOutcome | client.c:248-283 | one to MAX_TRY + 1 requests. When attempt k is the first accepted, k + 1 requests are made and the reply's game id is 0..255. When none is accepted, MAX_TRY + 1 requests are made. So all MAX_TRY + 1 are made exactly when k >= MAX_TRY |
| Client.Client.constructor | client.c:286-296 | a fresh initial board, sequence number 2, resend counter 0, nothing sent |
| Client.Client.FirstMove | client.c:298-307 | the first choice gets X and its MOVE frame is written with the stored sequence number (2 after the constructor); GAME_ERROR exactly when the write fails |
| Client.Client.ReceiveMoveClient | client.c:78-145 | the new state and result are those of ReceiveMoveClientStep |
| Client.Client.AnswerServerMove | client.c:110-144 | the new state and result are those of MarkedClientStep |
| Client.Client.ProcessBufferClient | client.c:166-242 | the new state and result are those of ProcessClientStep, and the client invariant is kept |
| Client.ReceiveMoveKeepsOk | client.c:78-145 | receiveMoveClient keeps the board well formed |
| Client.ClientStepKeepsOk | client.c:166-242 | processBufferClient keeps the board well formed and the counter non-negative |
| Client.ClientBadHeaderAnswered | client.c:182-203 | a wrong version, a type other than MOVE/END_GAME or a foreign game id is answered with MALFORMED_REQUEST carrying the last sent number plus two, and the loop stops |
| Client.ClientDuplicateResent | client.c:205-217 | a duplicate resends the zero header and counts it while fewer than MAX_TRY were counted, else stops with nothing sent |
| Client.ClientAheadAnswered | client.c:218-223 | a number ahead of the expected one is answered with MALFORMED_REQUEST and the loop stops |
| Client.ClientInOrderAdvances | client.c:178-241 | an in-order frame moves the stored number on by two and any answer carries the new number |
| Client.ClientEndGameHandled | client.c:229-239 | END_GAME stops the loop, leaves the board, and is answered with MALFORMED_REQUEST exactly when the local result is GAME_ON or WIN |
| Client.ClientBadStatusAnswered | client.c:82-86 | a status above GAME_ERROR is answered with MALFORMED_REQUEST and the loop stops, the board unchanged |
| Client.ClientErrorStatusStops | client.c:87-90 | a GAME_ERROR report stops the loop and changes nothing: no frame, same board, same counter |
| Client.Run | client.c:309-314 | the receive loop keeps the client well formed across any run of frames: every cell holds its digit or a mark, and the resend counter stays non-negative |
| Client.ClientInvalidMoveRejected | client.c:95-104 | an invalid choice is answered with MALFORMED_REQUEST and the board is unchanged |
| Client.ClientMovePlaced | client.c:95-124 | a valid choice gets O; the loop continues iff the user is prompted; only the typed cell may also change |
| Client.NoClientMarkWritten | client.c:107-118 | the receive step never writes X |
| Client.ClientAnswersMove | client.c:113-119 | on the prompt path the board gets both Os and one MOVE frame judged for O is written |
| Client.ClientCompleteHandled | client.c:120-144 | without a prompt the loop stops: an agreeing GAME_COMPLETE is acknowledged with END_GAME (LOSE or DRAW), anything else answered with MALFORMED_REQUEST |
| Client.ResendStep | client.c:205-217 | one step writes at most one frame, a resend exactly when the counter goes up, and only up to MAX_TRY |
| Client.ResendBound | client.c:309-314 | over any sequence of frames, the loop resends at most MAX_TRY times, minus those already counted, and the counter records each |

## Left out

- Sockets, `select`, `accept`, `read`, `close` and `perror`. Written frames are recorded in an outbox, the result of a write is an input, and a closed descriptor is not tracked.
- `time()`: the current time is a parameter `now`.
- `printf` and `printBoard`: output only.
- `clientMakeChoice`'s `scanf` loop. The typed number is an input constrained by `Answers` (a valid move). The `scanf("%s")` into one `char` writes past it, which C leaves undefined.
- `recvTimeLimit`. Its `select(...) == 0` test is inverted: it resends when data is ready and blocks on `read` otherwise. Its outcome is an input: `RecvOutcome` for the handshake and the frame read for the receive loop. Because of the inverted test, the usual receive-loop iteration reads nothing. It resends the zero header and raises `resendCount`. `processBufferClient` then processes the stale `bufferRecv` again. `Run` feeds a frame to every step and does not express that resend or that increase of the counter.
- Client.ResendBound: does not count the resends `recvTimeLimit` makes inside the receive loop, only those of `processBufferClient`, because the former happen outside the modelled step.
- The 993 bytes past the seven-byte header, uninitialised in `sendBuffer`'s copy, are not modelled; a frame is its header.
- The eleventh `boardInfo` entry (index MAX_BOARD) is declared but never used.
- TicTacToe.IsIpValid: requires at most 28 characters and no NUL, because `strcpy` into the 29-byte buffer overflows beyond that.
- playServer's and playClient's outer loops beyond one step. The server's loop is the composition of `Sweep`, `AcceptStep`, `DisconnectStep` and `ProcessStep`. The client's is `Run`, which stops at LOOP_BREAK.
- `sendChoice` is not part of this model. It is treated as `sendBuffer`, writing the seven-byte header.
- tictactoeClient.c and tictactoeServer.c (argument parsing and socket set-up) are not part of this model.
- Integer widths: `uint8_t` casts are written out as modulo 256 and C's `%` on negative numbers as a truncating remainder (`U8`, `CRem`). `int` overflow cannot occur on these values and is not modelled.
