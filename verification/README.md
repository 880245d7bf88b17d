# DIretrans in Dafny

DIretrans sends a file directly from one peer to another over UDP. This project models its protocol, its server and the
event machinery below them, and proves what they promise; the properties that turned out not to hold are proved to fail,
with the exact condition where there is one.

Let f be the shared file, N the number of its 1024-byte pieces, and piece k its bytes from 1024k on, empty from N on.

- `Pieces`, `Messages`: pieces, 32-bit offsets, messages.
- `SendFile`, `GetFile`: the classes that read and write the file, over streams with a position and a fail flag.
  `FileLedger` is the invariant of the file being received.
- `SendConn`, `GetConn`: the peers' state machines, as classes whose methods are proved against functions.
- `Transfer`: both peers joined by a network that drops, duplicates and reorders, with timers firing at any time and
  downloaders coming and going. An event list is the only source of choice, so a lemma about every list of possible
  events is a lemma about every run. On it stand `Peers` (who can change what, and when a session ends), `Window` (flow
  control), `Session` (no lost wake-up), `Progress` (termination), `Reuse` (what a download leaves behind for the next),
  `Recovery` (retransmission), `Unrecovered` (losses that waiting does not repair), `Rescue` (exactly which downloads
  can still be finished), `Heartbeats` (which make no difference to that) and `Witnesses` (runs that reach the states
  spoken of).
- `Crc32`: the checksum of section 8 of RFC 1952.
- `Registry`, `ShareCodes`, `SockAddr`: the server's four maps, its code allocator, its map key. `Offers` is what its
  answers owe to the messages it has received.
- `TimerQueue`, `EPoller`, `Buffer`, `EventLoop`: the reactor. `TimerRuns` is the life of a single timer.

What the code does differently from what one would expect, each with its lemma:

- A file whose last piece is short can be stored padded with zeros to a whole number of pieces although nothing was lost
  (`Witnesses.PaddingHappens`). It happens exactly if the empty piece N is taken in before the last piece
  (`FileLedger.PaddedIffOvertaken`, and for whole runs `Transfer.ExactIffNotOvertaken`), which takes a served
  retransmission request (`Transfer.ExactWithoutRetransmission`).
- Some losses are never repaired: a lost DOWNLOAD_START, a lost short last piece when nothing else is missing, and a
  loss of more than 1024 pieces in a row (`Unrecovered.NeverFinished`). A lost last piece of a file of whole pieces is
  listed as missing once the empty piece N arrives. `Rescue.FinishableIffRecoverable` gives the condition on the two
  peers that decides whether a download at rest can still be finished, heartbeats included. A sharer that does not send
  because its greeting was lost can: the next heartbeat greets again, and the answer starts it
  (`Witnesses.UngreetedHappens`, `Rescue.GreetsAgain`).
- FINISH and the reset after a silence rewind the stream but leave the queued closures on the event loop, and these use
  up the stream and the window of the next download: the sharer is as new if and only if nothing was queued
  (`Reuse.FreshIffNothingQueued`). The next download of a share, over a perfect network, is then done if and only if the
  stream is still at the start of the file and at most 20 places of the window are used, or what is left holds the whole
  file (`Reuse.NextCompletesIffRewound`). Two downloads in turn, with nothing lost, duplicated or late, can end with the
  second file empty for ever (`Witnesses.SecondStalls`).
- A sharer with 2^22 pieces or more sends wrong bytes after a retransmission
  (`SendFile.OversizedFileFallsOutOfStep`); the wrapped size check of the downloader is what keeps such files out.
- Two repeating timers of equal interval that come due in one batch get equal keys. The set refuses one: with assertions
  on, the program stops there; without, the timer never runs again (`TimerQueue.EqualIntervalsLoseATimer`).
- A channel that was disabled cannot be enabled again (`EPoller.EnabledIffNotDisabled`).
- With 99,999 codes in use the allocator need not end (`ShareCodes.DealerCanStarve`).
- A functor queued before `loop()` is called waits for the first poll (`EventLoop.QueuedBeforeLoopWaits`).

## Model

| member | source | states |
|---|---|---|
| Transfer.EndToEnd | client/GetConnManager.cpp:177-203 | in every run, every DATA_STREAM in flight carries piece k of f under a number k of at most N; a receiving downloader has its file open; a closed file holds f, with nothing listed as missing |
| Transfer.StepSafe | client/SendConnManager.cpp:85-249 | every event of either peer, of the network or of a timer keeps both peers' invariants and sends only genuine messages |
| Transfer.SafeAlways | client/GetFileManager.cpp:51-119 | the invariants of reader, window, queued closures, file ledger and messages in flight hold after every run |
| Transfer.ExactIffNotOvertaken | client/GetFileManager.cpp:61-77 | in every run a finished file is f byte for byte if and only if the downloader did not take the empty piece N into it before a short last piece |
| Transfer.ExactWithoutRetransmission | client/SendFileManager.cpp:61-100 | in a run in which no retransmission request reaches a sharer that is sending, a finished file is f byte for byte, with no padding |
| Peers.SharerMoves | client/SendConnManager.cpp:122-248 | the sharer's state changes by the code, by an announcement that finds it free, by the announced peer's reply or DOWNLOAD_START, and by FINISH while sending, and by no other message; its peer by such an announcement only; each time it keeps by the reply of the one it belongs to |
| Peers.SharerGreets | client/SendConnManager.cpp:124-183 | every greeting is answered and changes nothing; a downloader is greeted if and only if it is announced to a free sharer, and an announcement to a busy one changes nothing |
| Peers.SharerBeats | client/SendConnManager.cpp:327-346 | the heartbeat ends a session, rewinding the stream, exactly if the peer's last reply is more than 60 s old, and closes the share exactly if the server's is |
| Peers.SessionKept | client/SendConnManager.cpp:165-170 | in every run a session goes on with the same peer until FINISH or such a silence, whoever else asks for the file |
| Peers.SendsUntilInterrupted | client/SendConnManager.cpp:327-339 | a sharer that is sending goes on to the same peer if and only if no FINISH arrives and no heartbeat finds the peer's last reply, going by the messages of the run, more than 60 s old |
| Peers.DownloaderMoves | client/GetConnManager.cpp:109-213 | the downloader's state changes by the announcement it waits for, by the announced sharer's reply and by the piece that completes the file, and by nothing else; so do its peer, size, file and times |
| Peers.DownloaderAnswers | client/GetConnManager.cpp:118-144 | DOWNLOAD_START answers the announced sharer's reply if and only if the file fits, and nothing else; FINISH the completing piece; every greeting is answered |
| Peers.DownloaderBeats | client/GetConnManager.cpp:280-288 | the heartbeat closes the downloader exactly if the sharer's last reply is more than 60 s old, and changes nothing else |
| Peers.CreditsAfterSilence | client/GetConnManager.cpp:246-250 | the tick returns a window of credits exactly after more than 100 ms without data |
| Peers.DownloadKept | client/GetConnManager.cpp:154-158 | in every run a download goes on with the same sharer into the same open file until that is complete, and a complete one is not touched any more |
| Peers.OpenedIffFits | client/GetFileManager.cpp:29-33 | a file is opened if and only if it has at most 2^32 - 1024 bytes |
| Peers.TooLargeNeverMoves | client/GetConnManager.cpp:130-142 | of a larger file, in every run, no piece and no DOWNLOAD_START is ever sent, no downloader receives, and nothing is written |
| Peers.ReceivingFits | client/GetFileManager.cpp:29-33 | in every run, for files of any size, a downloader that receives has a file of at most 2^32 - 1024 bytes |
| Peers.TooLargeCloses | client/GetConnManager.cpp:139-142 | the announced sharer's reply closes the downloader of a larger file, in every run, without an answer |
| Session.QuiescenceImpliesCompletion | client/SendConnManager.cpp:263-286 | over a network that reorders but loses nothing, with heartbeats and ticks that find nobody silent, and whoever else asks for the file meanwhile, a download that starts from the start of the file with at most 20 places of the window used, as it does from a fresh sharer, the first of a share or a later one, is done when no message is in flight and no closure queued: the whole file is written and closed |
| Session.LateAnnouncement | client/SendConnManager.cpp:165-170 | a FILE_REQ to a sharer that is not waiting for one, and a FILE_DATA to such a downloader, change nothing at all |
| Session.NeverFarAhead | client/GetFileManager.cpp:61-67 | without losses every piece in flight is fewer than 30 ahead of the downloader, since all pieces between are in flight too and the window holds 30 |
| Session.NoHeavyLoss | client/GetFileManager.cpp:63-67 | in such a run, whatever part of the window was used at its start, writeToFile never returns LOSS_HEAVY for a piece in flight |
| Session.HandleAdvances | client/SendConnManager.cpp:184-228 | no credit, request or DOWNLOAD_START loses the wake-up: afterwards a stream closure is queued, or the window is full with the flag set, or the stream is at the end; the pieces emitted are the next ones in order or requested ones |
| Session.ClosureAdvances | client/SendConnManager.cpp:263-313 | the same for a turn of the event loop, and a loss closure never moves the sequential stream |
| Progress.WorkDecreases | client/SendConnManager.cpp:263-313 | every delivery and every turn of the loop strictly decreases a measure of the work left, in any safe state |
| Progress.RunsAreFinite | client/SendConnManager.cpp:285-312 | so the self-requeuing closures and the answers they cause cannot run forever: a run without ticks is no longer than the work it starts with and three events for each heartbeat or late announcement |
| Progress.EveryDownloadCompletes | client/GetConnManager.cpp:177-203 | total correctness of a download from the start of the file, without losses or ticks: at most 10N + 12 deliveries and turns of the loop, and two more for each heartbeat, announcements to others not counted; at rest the file is complete and closed if and only if at the start at most 20 places of the window were used or the rest of it held the whole file, which a fresh sharer always meets |
| Progress.NeverBlocked | client/SendConnManager.cpp:285 | after every run, until the system is at rest, some delivery or turn of the loop is possible, and it is no tick |
| Reuse.FreshIffNothingQueued | client/SendConnManager.cpp:229-239 | FINISH, and the reset after 60 s of silence, leave the sharer fresh once the event loop has come to rest - stream at the start, window empty, flag clear - if and only if no closure was queued |
| Reuse.LoopRests | client/SendConnManager.cpp:263-313 | and the event loop does come to rest, from every safe state |
| Reuse.ZerosUseWindow | client/SendConnManager.cpp:288-313 | the usual leftover, m zeros in front of a request, uses up m places of the window, sets the flag, and leaves the stream at the start |
| Reuse.NextCompletesIffRewound | client/SendConnManager.cpp:187-194 | the next download of a share, whatever earlier ones have left behind, without losses or ticks: the same bound on events, and at rest the file is complete and closed if and only if the stream was at the start of the file and the window had room |
| Reuse.StepMisses | client/SendConnManager.cpp:263-286 | a stream that is not at the start never sends piece 0 unless asked, so the downloader keeps missing it |
| Recovery.OneRound | client/GetConnManager.cpp:235-266 | one silence timeout answered without loss, no heartbeat coming in between, finishes the download or restores at least 15 missing pieces and leaves a state in which the timer can act again |
| Recovery.RequestArrives | client/SendConnManager.cpp:214-228 | a request is answered with the last piece asked for, not with one of the zeros that decoding puts in front |
| Recovery.LateIsServed | client/SendConnManager.cpp:219-225 | of the numbers a request decodes to the requested ones come before the zeros: after m sends the last m of those asked for have been sent |
| Recovery.LossTurn | client/SendConnManager.cpp:288-313 | each turn serves the next number from the back, and costs the window at most two pieces, the revived stream's empty piece included |
| Recovery.RoundExists | client/GetConnManager.cpp:235-266 | from every safe state a round can be made, with everything delivered in turn |
| Heartbeats.RecoveryCompletes | client/GetConnManager.cpp:235-266 | p missing pieces are recovered in at most p / 15 rounds, rounded up, with any number of heartbeats in each |
| Rescue.FinishableIffRecoverable | client/GetConnManager.cpp:235-266 | a download at rest can be finished by the network, the event loop, heartbeats, ticks and greetings from anywhere, as long as the server announces no new downloader to a sharer that is free, if and only if the sharer is sending or has greeted the downloader, and either the downloader has reached the last piece, or it has a piece to ask for or a stream waiting for credits, and the stream is at most 1024 pieces ahead |
| Heartbeats.RoundsFinish | client/GetConnManager.cpp:235-266 | a download that can be finished and whose sharer is sending is finished by every sequence of lossless rounds delivered in turn, with any number of heartbeats in each, however events interleave, within a bound given by the state |
| Heartbeats.StepCalm | client/SendConnManager.cpp:122-155 | a stuttering simulation: between connected peers, every event of a round does to both states and to the messages in flight, greetings and their times left out, what the same event does without greetings; a heartbeat and the arrival of a greeting do nothing |
| Heartbeats.RoundCalm | client/SendConnManager.cpp:251-261 | so every round with heartbeats is, its greetings taken out, a round without, with the same outcome |
| Heartbeats.BeatingRoundRestores | client/GetConnManager.cpp:235-266 | a round with heartbeats restores at least 15 missing pieces or finishes the download |
| Heartbeats.BeatingRoundDecreases | client/SendConnManager.cpp:195-228 | a round with heartbeats, delivered in turn, lowers the rank or finishes the download |
| Rescue.RoundDecreases | client/SendConnManager.cpp:195-228 | each such round, without heartbeats, finishes the download or leaves it recoverable with a smaller rank |
| Rescue.HandleMends | client/SendConnManager.cpp:195-228 | credits and requests keep the stream within the reach of the downloader and never leave the sharer failed and forgotten |
| Rescue.ClosureMends | client/SendConnManager.cpp:263-313 | and so does every turn of the loop |
| Rescue.GreetsAgain | client/SendConnManager.cpp:131-141 | a sharer that has greeted a downloader and not been answered sends after its next heartbeat and the answer to it; nothing else changes |
| Unrecovered.NeverFinished | client/GetConnManager.cpp:246-256 | a download whose sharer has ended the session, or whose downloader knows of nothing missing while credits set nothing off, or whose stream is more than 1024 pieces ahead, is not finished by any run in which the server announces no new downloader to a sharer that is free: deliveries, drops, duplications, turns of the loop, ticks, heartbeats, silences and greetings included; in the first two cases the file does not change |
| Unrecovered.OutOfReachKept | client/GetFileManager.cpp:63-67 | a stream more than 1024 pieces ahead stays out of reach, its pieces refused and requests reaching only pieces below, unless a silence ends the session, and then piece 1024 after the downloader's next one is missing for good |
| Unrecovered.CreditsIgnored | client/SendConnManager.cpp:200-211 | credits set nothing off if the stream has failed or the full flag is not set |
| Unrecovered.LacksKept | client/SendConnManager.cpp:327-339 | after a silence the window lets the closures left on the loop send no further than piece 29: a piece beyond, neither in flight nor listed, stays missing |
| Witnesses.SessionOpens | client/SendConnManager.cpp:122-194 | a share just announced and a downloader just started can be brought to the start of a download, with everything delivered in turn |
| Witnesses.StuckHappens | client/SendConnManager.cpp:263-286 | one dropped piece leads to a download that is stuck and recoverable |
| Witnesses.LostStartHappens | client/GetConnManager.cpp:131-138 | a dropped DOWNLOAD_START leads to one that is not recoverable |
| Witnesses.LostTailHappens | client/SendFileManager.cpp:72-84 | so does the drop of the only piece of a file shorter than a piece |
| Witnesses.OutOfReachHappens | client/GetFileManager.cpp:63-67 | so does the loss of the first 1025 pieces of a larger file |
| Witnesses.PaddingHappens | client/SendFileManager.cpp:87-100 | over a network that loses nothing and only reorders, a file of three pieces with a short last one can end 3072 bytes long |
| Witnesses.SecondStalls | client/SendConnManager.cpp:229-239 | two downloads of a share of two pieces, one after the other, everything delivered in turn and no timer fired: the first is done, the second comes to rest with an empty file that cannot be finished, because the first one's closure was queued when FINISH came |
| Witnesses.UngreetedHappens | client/SendConnManager.cpp:173-183 | a run ends at rest with a sharer that is not sending, its greeting lost, and a download that can be finished all the same |
| Window.WindowConserved | client/SendConnManager.cpp:195-213 | before FINISH, without duplication or silence timeouts, the window equals the pieces and credits in flight, astray or held, so no acknowledgement exceeds it and the saturating subtraction never saturates |
| Window.WindowBounded | client/SendConnManager.cpp:270-284 | in every run the window is at most 30 and at most what is accounted for |
| Window.StepAccounted | client/GetConnManager.cpp:187-192 | no event lets the window exceed what is accounted for; events that neither duplicate, nor time out, nor reset keep equality |
| Window.StepConserved | client/SendConnManager.cpp:195-213 | an event in which nothing goes astray keeps the window equal to what is in flight or held, over what the session found used |
| Window.RecverHandleCounts | client/GetConnManager.cpp:187-192 | the credits a downloader sends and those it still holds are together the pieces it has counted |
| FileLedger.WriteGenuine | client/GetFileManager.cpp:51-119 | a genuine piece keeps the ledger: missing pieces, byte count, slots, zeros past the end and position; WRITE_FINISH exactly when all pieces are on disk, LOSS exactly on a gap otherwise, LOSS_HEAVY exactly beyond 1024, never RECV_ERROR; the file is padded from the call on in which piece N meets a downloader that has not reached a short last piece, and from no other |
| FileLedger.PaddedIffOvertaken | client/GetFileManager.cpp:61-96 | for every sequence of arriving pieces the file is padded if and only if it was before or some accepted piece N overtook a short last piece |
| FileLedger.PlaceGenuine | client/GetFileManager.cpp:61-96 | storing a genuine piece keeps every slot, and the count reaches the announced size exactly when every piece is stored |
| FileLedger.CountIsExact | client/GetFileManager.cpp:99-107 | the byte count alone decides completion: it equals the announced size if and only if nothing is missing |
| FileLedger.CompleteDelivers | client/GetFileManager.cpp:99-112 | slots that hold their pieces make up f, followed by zeros at most |
| FileLedger.PlacedMissing | client/GetFileManager.cpp:78-89 | a retransmitted piece overwrites its own slot and nothing else, and the position returns to the end unless piece N has been passed |
| FileLedger.EmptyPiecePads | client/GetFileManager.cpp:69-77 | if the empty piece N overtakes a short last piece, the finished file is 1024N bytes long, more than f |
| GetFile.GetFileManager.constructor | client/GetFileManager.cpp:12-41 | a fresh file is open if and only if it has at most 2^32 - 1024 bytes, which is what the size check computed in 32 bits amounts to |
| GetFile.GetFileManager.WriteToFile | client/GetFileManager.cpp:51-119 | the zero-filling loop and the three branches have the effect and the result of the function Write, about which FileLedger speaks |
| GetFile.GetFileManager.GetLossPieces | client/GetFileManager.cpp:121-127 | the loop over the set lists it as Listed does |
| GetFile.WriteAnswers | client/GetFileManager.cpp:51-119 | whatever piece arrives with whatever content: the count grows by what is stored, exactly the announced size closes the file, more is reported as an error, and what is not stored changes nothing |
| GetFile.ClosedAtSize | client/GetFileManager.cpp:99-116 | for every sequence of arrivals, a file that is closed holds exactly the announced number of bytes by count, and is not written any more |
| GetFile.ListedIsAscending | client/GetFileManager.cpp:121-127 | the list has exactly the missing pieces, each once, ascending |
| Pieces.AcceptedOffsetsFit | client/GetFileManager.cpp:29-33 | the wrapped check accepts exactly the files of at most 2^32 - 1024 bytes, that is of fewer than 2^22 pieces, and then no offset up to that of piece N wraps |
| Pieces.PieceSize | utils/Header.h:13 | all pieces but the last are full, exactly those below N are non-empty, and each ends where the next begins |
| SendFile.NextPieceInStep | client/SendFileManager.cpp:61-85 | in step, the stream emits the pieces of f in order, then at most one empty piece, and fails only at the end |
| SendFile.PieceOfInStep | client/SendFileManager.cpp:87-100 | a read by number yields that piece whatever state the stream was in, leaves the sequential reader in step, and revives a failed stream exactly if the piece is full |
| SendFile.OversizedFileFallsOutOfStep | client/SendFileManager.cpp:95-98 | with 2^22 pieces or more the seek back wraps, and piece 2^22 is sent with the bytes of piece 0 |
| SendFile.SendFileManager.constructor | client/SendFileManager.cpp:31-49 | an opened file is read from its start |
| SendFile.SendFileManager.InitStatu | client/SendFileManager.cpp:51-59 | clearing before seeking rewinds the stream even if it had failed |
| SendFile.SendFileManager.GetNextPiece | client/SendFileManager.cpp:61-85 | over a stream whose reads fall short at the end, yields what NextPiece says |
| SendFile.SendFileManager.GetPieceOf | client/SendFileManager.cpp:87-100 | clear, seek, read, restore and seek back have the effect of PieceOf, wrapped offsets included |
| SendConn.SendConnManager.constructor | client/SendConnManager.cpp:41-73 | the state once the file is open and the server has been asked for a code |
| SendConn.SendConnManager.SendStream | client/SendConnManager.cpp:263-286 | one piece sent, counted and requeued, or the full flag set, as SendFileStream says |
| SendConn.SendConnManager.SendLoss | client/SendConnManager.cpp:288-313 | the last number served and the rest requeued, or the full flag set |
| SendConn.SendConnManager.ShareFileMsgHandle | client/SendConnManager.cpp:122-248 | new state, messages sent and closures queued for every message in every state; a FILE_REQ that finds the sharer busy changes nothing |
| SendConn.SendConnManager.Resend | client/SendConnManager.cpp:217-226 | the decoding loop yields as many zeros as there are pieces, then the pieces, and sending starts from the back |
| SendConn.SendConnManager.CheckAlive | client/SendConnManager.cpp:327-346 | 60 s of silence reset the session or close the share |
| SendConn.SendConnManager.RunPending | netlib/EventLoop.cpp:174-189 | the loop calls the oldest closure |
| GetConn.GetConnManager.constructor | client/GetConnManager.cpp:41-64 | the state once the server has been asked for the sharer |
| GetConn.GetConnManager.OnHelloReply | client/GetConnManager.cpp:118-144 | the expected peer's reply opens the file and starts the download, or closes the connection if the file is refused |
| GetConn.GetConnManager.OnDataStream | client/GetConnManager.cpp:177-203 | credits, file and state after a piece; the assertion that the file is open holds because receiving implies an open file |
| GetConn.GetConnManager.GetFileMsgHandle | client/GetConnManager.cpp:109-213 | new state and messages sent for every message in every state |
| GetConn.GetConnManager.SendRetranReq | client/GetConnManager.cpp:235-266 | 30 credits after 100 ms of silence, then the list of missing pieces if there are any |
| GetConn.GetConnManager.CheckAlive | client/GetConnManager.cpp:280-288 | 60 s of silence close the download |
| GetConn.ClosedByFinish | client/GetFileManager.cpp:99-112 | writing closes the file exactly when it reports WRITE_FINISH |
| Crc32.ByteStepIsEightShifts | utils/CRC32.cpp:12-37 | the table step for a byte equals eight steps of the shift register, for every state and byte |
| Crc32.FeedLowBits | utils/CRC32.cpp:13-23 | adding a word to the register and shifting n times is feeding its low n bits one at a time |
| Crc32.FeedByte | utils/CRC32.cpp:34-37 | feeding the bits of a byte is the program's step for that byte |
| Crc32.Crc32Table.GenerateCRCTable | utils/CRC32.cpp:12-25 | each entry is eight shifts of its index |
| Crc32.Crc32Table.CalculateCRC32 | utils/CRC32.cpp:28-39 | the result is the bitwise CRC-32 of the data, for every length |
| Crc32.Crc32Table.RunFile | utils/CRC32.cpp:53-71 | reading in blocks of 1024, with a short last block or none, feeds the whole content once |
| Crc32.Crc32Table.CalculateFileCRC32 | utils/CRC32.cpp:42-75 | the result is the CRC-32 of the whole file, or 0 if it cannot be opened |
| Crc32.CheckValue | utils/CRC32.cpp:12-39 | the nine digits 1 to 9 have the check value 0xCBF43926 of this CRC, which fixes polynomial, direction, start and final inversion |
| Crc32.FeedLinear | utils/CRC32.cpp:34-37 | the register is linear over XOR in its start and in the message together |
| Crc32.FeedInjective | utils/CRC32.cpp:34-37 | equal bytes that follow never undo a difference in the register |
| Crc32.BurstLeavesMark | utils/CRC32.cpp:34-37 | up to 32 bits, not all zero, leave a mark on a zero register |
| Crc32.DetectsBurst | utils/CRC32.cpp:28-39 | two different messages of equal length that agree outside some 32 consecutive bits have different checksums |
| Crc32.DetectsFourBytes | utils/CRC32.cpp:28-39 | in particular any change within four consecutive bytes |
| Registry.AlwaysConsistent | server/DiretransServer.cpp:120-276 | in every run codes and sharers correspond one to one, every sharer has a time, and the count of each ip is the number of its sharers, 0 to 10 |
| Registry.SweepExact | server/DiretransServer.cpp:249-276 | the sweep keeps exactly the sharers heard within 300 s, with code and file |
| Registry.ForgetOne | server/DiretransServer.cpp:258-274 | erasing silent clients one at a time while iterating, in any order, is erasing them together |
| Registry.LiveCodeResolves | server/DiretransServer.cpp:216-229 | a code resolves to the same file and sharer until a sweep finds that sharer silent |
| Registry.ShareConsistent | server/DiretransServer.cpp:146-187 | an accepted share keeps the maps in step, and the assertion that the sharer is new holds |
| Registry.DiretransServer.constructor | server/DiretransServer.cpp:39-43 | the empty registry is consistent |
| Registry.DiretransServer.HandleShareFile | server/DiretransServer.cpp:120-195 | refusals change nothing and say why, however many codes are in use; otherwise the maps gain the share under a code not in use |
| Registry.DiretransServer.HandleGetFile | server/DiretransServer.cpp:197-247 | a known code sends the file to the asker and the asker to its sharer, an unknown one ERROR_404 |
| Registry.DiretransServer.HandleMessage | server/DiretransServer.cpp:85-104 | the sender's time is the message's afterwards, and the request is handled as Apply says |
| Registry.DiretransServer.RemoveTimeoutConn | server/DiretransServer.cpp:249-276 | the loop has the effect of Sweep and keeps the maps consistent |
| Offers.KeptIffRecent | server/DiretransServer.cpp:258-274 | in every run a sweep keeps a sharer if and only if its last message, of whatever kind, is at most 300 s old |
| Offers.OfferedIffHeard | server/DiretransServer.cpp:258-274 | in every run a code, as long as it is not given out again, stands for its file and sharer if and only if every sweep found a message of the sharer at most 300 s old |
| Offers.ShareAnswered | server/DiretransServer.cpp:133-195 | a share is refused if it has no name or no bytes, or if the client shares a file already, or ten are shared from its ip, and gets its code otherwise |
| Offers.OfferAnswered | server/DiretransServer.cpp:216-244 | whoever asks for a code that was given out, after any run, gets the very file data and sharer of that share, and the sharer the asker's address, if and only if the sharer was heard in time; ERROR_404 otherwise |
| Offers.AnswersGoTo | server/DiretransServer.cpp:107-118 | a greeting is answered; answers go to the asker, and only the sharer of a code asked for hears of it besides |
| Offers.AlwaysAllFiles | server/DiretransServer.cpp:133-144 | in every run each file on offer has a name and at least one byte |
| ShareCodes.RandomCode.GetCode | server/DiretransServer.cpp:17-26 | deals the next code of the shuffle, reshuffling after 99,999; the last of each is never dealt |
| ShareCodes.RandomCode.GenCodes | server/DiretransServer.cpp:28-37 | a new shuffle, dealt from its start |
| ShareCodes.RandomCode.FreshCode | server/DiretransServer.cpp:174-177 | the retry loop ends with a free code from 100000 to 199999, within this shuffle or the next, if fewer than 99,999 codes are in use |
| ShareCodes.DistinctFit | server/DiretransServer.cpp:174-177 | the pigeonhole argument: different codes that are all in use are no more than the codes in use |
| ShareCodes.DealerCanStarve | server/DiretransServer.cpp:174-177 | the bound is exact: for any 99,999 codes in use some shuffle deals only codes in use |
| SockAddr.OperatorLess | server/DiretransServer.h:63-84 | the byte loop decides by the first difference |
| SockAddr.Trichotomy | server/DiretransServer.h:58-84 | of two addresses exactly one is less or they are equal, so the map key distinguishes what operator== does |
| SockAddr.Transitive | server/DiretransServer.h:63-84 | the order is transitive |
| SockAddr.FirstDifferenceDecides | server/DiretransServer.h:63-84 | the smaller family comes first, and within a family the smaller byte at the first difference |
| SockAddr.IpBehindPort | server/DiretransServer.cpp:51-56 | the quota's ip is the four address bytes, whatever the port |
| TimerQueue.NeverForgotten | netlib/TimerQueue.cpp:84-164 | in every run, while the queue has an entry the timerfd is armed no later than at the first of them |
| TimerQueue.HandleReadKeeps | netlib/TimerQueue.cpp:93-164 | after handleRead the front is held and, if its time is valid, the timerfd is armed for exactly that time |
| TimerQueue.DueTimersRun | netlib/TimerQueue.cpp:93-117 | exactly those timers run whose time is before now, that are still held, and that no callback run before them in the batch has cancelled |
| TimerQueue.DueExact | netlib/TimerQueue.cpp:119-130 | the entries split off are exactly those before now |
| TimerQueue.RepeatersReturnIffNoClash | netlib/TimerQueue.cpp:132-145 | every repeating timer that ran and is still held is queued for now plus its interval if and only if these times differ from each other and from the times queued |
| TimerQueue.GoneForGood | netlib/TimerQueue.cpp:93-164 | a timer that was cancelled, or that was not queued again, never runs again in any run |
| TimerQueue.EqualIntervalsLoseATimer | netlib/TimerQueue.cpp:166-180 | of two repeating timers of equal interval due in one batch, one is held but never runs again |
| TimerQueue.EqualIntervalsClash | netlib/TimerQueue.h:31-37 | two timers set a microsecond apart suffice |
| TimerQueue.PlaceExact | netlib/TimerQueue.cpp:166-180 | an insertion keeps the order, and takes the entry exactly if its time is not present |
| TimerQueue.DoAllKeeps | netlib/TimerQueue.cpp:84-91 | callbacks that add and cancel keep the queue sound and leave every older timer alone that they do not cancel |
| TimerQueue.TimerQueue.constructor | netlib/TimerQueue.cpp:62-70 | the empty queue is sound |
| TimerQueue.TimerQueue.Insert | netlib/TimerQueue.cpp:166-180 | the set stays in order and gains the timer exactly if no entry has its time; reported is whether it comes before all others |
| TimerQueue.TimerQueue.AddTimer | netlib/TimerQueue.cpp:72-91 | a new timer, held on the terms given, queued for its time unless that is taken, the timerfd armed for it if it is the first |
| TimerQueue.CancelledNeverRuns | netlib/TimerQueue.cpp:79-82 | after a cancel the timer runs in no run, although its entry may still be queued |
| TimerQueue.TimerQueue.GetExpired | netlib/TimerQueue.cpp:119-130 | the set is split, in order, into the entries before now and those at now or later |
| TimerQueue.TimerQueue.Reset | netlib/TimerQueue.cpp:132-164 | restart loop, pruning loop and arming have the effect of RestartAll and Arm |
| TimerQueue.TimerQueue.HandleReadEvent | netlib/TimerQueue.cpp:93-117 | the erase-while-iterating loop calls exactly the callbacks that HandleRead lists, in order |
| TimerRuns.AddedKeepsTerms | netlib/Timer.h:14-48 | in every run a timer that is still held has the interval and the repetition it was added with |
| TimerRuns.AddedWaits | netlib/TimerQueue.cpp:84-91 | a new timer is queued for the time given if and only if no entry has that time |
| TimerRuns.RunsWhenDue | netlib/TimerQueue.cpp:93-117 | a timer whose time has passed runs unless a callback before it in the batch cancels it |
| TimerRuns.NotDueWaits | netlib/TimerQueue.cpp:119-130 | one whose time has not passed does not run and waits on, whatever the callbacks add |
| TimerRuns.BackIffUnclashed | netlib/TimerQueue.cpp:132-145 | of a batch each surviving repeating timer is queued again if and only if its new time is not queued and no earlier timer of the batch has the same interval |
| TimerRuns.AddedReturns | netlib/TimerQueue.cpp:132-145 | in every run a timer that has run and is still held waits for one interval, as given when it was added, from then on if it repeats and that time is free, and never runs again otherwise |
| TimerRuns.RunsOnSchedule | netlib/TimerQueue.cpp:72-164 | in every run in which nobody cancels it and its times are free, a timer runs at exactly the calls its terms require: the first after its time, and if it repeats each first one after a further interval |
| TimerRuns.AlwaysArmedForFirst | netlib/TimerQueue.cpp:84-164 | in every run the timerfd is armed for exactly the time of the first entry, neither later nor earlier |
| TimerRuns.RunInOrder | netlib/TimerQueue.cpp:99-115 | the timers of one batch run in the order of their times |
| EPoller.EnabledIffNotDisabled | netlib/EPoller.cpp:69-88 | after an update with events the fd is watched if and only if it was new or not disabled |
| EPoller.DisabledForGood | netlib/EPoller.cpp:79-87 | once disabled, a channel gets no more events in any run until it is removed |
| EPoller.ReadyResolves | netlib/EPoller.cpp:52-135 | after every run the kernel watches exactly the registered fds whose slot is not disabled, and each such fd has one slot |
| EPoller.UpdateInStep | netlib/EPoller.cpp:52-89 | registering, changing or disabling keeps slots, indices and the kernel's set in step |
| EPoller.RemoveInStep | netlib/EPoller.cpp:91-118 | swap and pop repairs the moved channel's index, and no other channel loses its slot |
| EPoller.UpdateWatches | netlib/EPoller.cpp:52-89 | an update makes of its own channel what was asked for, new, watched for these events or disabled, and of every other nothing |
| EPoller.WatchedAsAsked | netlib/EPoller.cpp:52-118 | in every run the kernel watches each fd exactly as the operations on that fd alone require: for the events of its last update, from its first update until it is disabled |
| EPoller.EPoller.UpdateChannel | netlib/EPoller.cpp:52-89 | the new table is Update of the old one; a channel that was new, or not disabled and asks for events, is watched for the events it asks for |
| EPoller.EPoller.RemoveChannel | netlib/EPoller.cpp:91-118 | the new table is Remove of the old one |
| EPoller.EPoller.FillActiveChannels | netlib/EPoller.cpp:120-135 | each reported fd with an event resolves to its own registered channel, in order, with the events set |
| EPoller.EPoller.constructor | netlib/EPoller.cpp:19-23 | the empty table is in step |
| Buffer.Buffer.Play | netlib/Buffer.h:42-116 | any mix of appends, prepends, retrievals and reservations on a buffer, growing and moving as it may, has the outputs and the contents that it has on a byte sequence; it stops only at a retrieval of too much or a prepend beyond the headroom, which is never below 8 without an earlier prepend |
| Buffer.Buffer.Do | netlib/Buffer.h:42-95 | the same for one operation |
| Buffer.NoByteLost | netlib/Buffer.h:42-78 | without prepends, what such a run retrieved followed by what is left is what was there followed by what was appended |
| Buffer.Buffer.constructor | netlib/Buffer.h:17-24 | an empty buffer with 1024 bytes of room and 8 of headroom |
| Buffer.Buffer.Swap | netlib/Buffer.h:26-31 | the contents are exchanged |
| Buffer.Buffer.HasWritten | netlib/Buffer.h:40 | the bytes already put behind the contents become part of them |
| Buffer.Buffer.Retrieve | netlib/Buffer.h:42-46 | drops bytes from the front |
| Buffer.Buffer.RetrieveUntil | netlib/Buffer.h:48-53 | drops the bytes before a position |
| Buffer.Buffer.RetrieveAll | netlib/Buffer.h:55-59 | empties the buffer and restores the headroom |
| Buffer.Buffer.RetrieveAsString | netlib/Buffer.h:61-66 | yields the contents and empties the buffer |
| Buffer.Buffer.Append | netlib/Buffer.h:73-78 | the contents grow by the data, however room is made, and the headroom is not given away |
| Buffer.Buffer.Prepend | netlib/Buffer.h:80-86 | the data is put before the contents |
| Buffer.Buffer.EnsureWritableBytes | netlib/Buffer.h:88-95 | there is room, the contents are unchanged, and the storage is replaced exactly if moving the contents would not do |
| Buffer.Buffer.ExpendSpace | netlib/Buffer.h:101-116 | grows, or moves the contents down in place, where the assertion on the headroom holds |
| Buffer.Buffer.MoveDown | netlib/Buffer.h:111 | the overlapping copy, first byte first, moves the contents intact |
| EventLoop.FirstInFirstOut | netlib/EventLoop.cpp:66-80 | from an empty start every functor is called exactly once, in the order queued, whatever handlers and functors queue, and a functor pending when a turn begins is called in it |
| EventLoop.TurnKeepsReady | netlib/EventLoop.cpp:108-119 | after a turn, pending work means a readable eventfd, even though the turn's own wake-up reset it |
| EventLoop.PollsAwakeIffStartedAwake | netlib/EventLoop.cpp:66-80 | no poll is entered with work pending and the eventfd at zero, if and only if the first one is not |
| EventLoop.QueuedBeforeLoopWaits | netlib/EventLoop.cpp:108-119 | a functor queued from the loop's own thread before loop() makes the first poll wait |
| EventLoop.CallAllInOrder | netlib/EventLoop.cpp:174-189 | functors queued while a batch runs come after it, and wake the next poll |
| EventLoop.WakeupsExact | netlib/EventLoop.cpp:108-119 | after a turn the counter of the eventfd is the number of functors left, and what was not yet reported: it wakes the next poll exactly if there are functors left |
| EventLoop.QuitEndsLoop | netlib/EventLoop.cpp:66-80 | the loop ends after the turn in which a handler or functor quits, with all pending functors called, and for no other reason |
| EventLoop.FirstTurnCalls | netlib/EventLoop.cpp:58-66 | loop() calls what is pending when it starts even if quit() came before |
| EventLoop.EventLoop.constructor | netlib/EventLoop.cpp:27-50 | the empty loop |
| EventLoop.EventLoop.Enqueue | netlib/EventLoop.cpp:108-119 | appends, and wakes the poll while functors are being called |
| EventLoop.DoAllInOrder | netlib/EventLoop.cpp:108-119 | what is queued comes last, and raises the counter of the eventfd if and only if functors are being called |
| EventLoop.HandleAllInOrder | netlib/EventLoop.cpp:164-172 | handlers call no functor, and the counter is kept or reset |
| EventLoop.EventLoop.DoPendingFunctors | netlib/EventLoop.cpp:174-189 | swap and run |
| EventLoop.EventLoop.HandleEvents | netlib/EventLoop.cpp:68-79 | one turn: the handlers, then the pending functors |
| EventLoop.EventLoop.RunLoop | netlib/EventLoop.cpp:58-83 | turn after turn until quit |

## Left out

- Sockets, epoll, timerfd and eventfd calls, clocks, logging and random ports: replaced by messages in flight, a set of
  watched fds, an armed time, a counter, and times given as parameters. The shuffle is an arbitrary function.
- Malformed or forged packets, and the byte layout of messages: messages are values, DATA_STREAM, PACK_ACK, RETRAN,
  FINISH and DOWNLOAD_START come from the peer only, and the server announces the true size.
- A RETRAN that does not fit a UDP datagram (more than 16,374 missing pieces) is taken to be sendable.
- Wrap-around of piece + 1 and of curPiece_ + 1024 in 32 bits: no genuine piece number reaches 2^22.
- Files that do not exist or cannot be opened or created; the stream of an open file fails only by reading past the end.
- Chat, the client's commands and console, `main`, `ThreadPool`, `Poller`, hole punching, and use of the loop from other
  threads.
- Closing: an object that closes itself is flagged and goes on handling messages in the model, which allows more runs;
  its deletion and the cancelling of its timers are not modelled, and in a run a timer may fire at any time.
- Several downloaders at once: one replaces another. Addresses are compared, not routed to.
- The checksum comparison after a download, which is only logged.
- HandleShareFile: a share that is accepted requires fewer than 99,999 codes in use, beyond which the loop need not end,
  as `ShareCodes.DealerCanStarve` shows.
- HandleMessage: the same.
- FinishableIffRecoverable: while the download waits, no downloader takes its place and the server does not announce one
  to a sharer that is free; it would only do so for somebody who asks for the file again.
- RoundsFinish: a tick comes only at the start of a round, after a silence.
- RecoveryCompletes: the same.
- NextCompletesIffRewound: the closures left behind have run before the next downloader starts.
- Play: a driver for the buffer; the program's users of the buffer are not modelled.
- RemoveTimeoutConn: visits the clients in an arbitrary order instead of key order; the result is the same.
- FreshCode: the loop of handleShareFile, made a method of its own.
- DueTimersRun: an entry whose time equals now stays queued; with assertions on, the program stops there.
- Functors and callbacks: what each does to the loop or the timer queue is an arbitrary function of its identity.
- RetrieveUntil: the end is given as a position in the buffer, not as an address.
- Buffer sizes in size_t are unbounded.
