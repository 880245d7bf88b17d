/** Field by field, which messages and times can change a peer, and that nothing else does; what follows for whole runs:
    who is sent to, when a session ends, and what becomes of a file that is too large. */
module Peers {
  import opened Pieces
  import opened Messages
  import opened SendFile
  import opened GetFile
  import opened SendConn
  import opened GetConn
  import opened Transfer

  /** A message with the sign and the address it came under, and the time of its arrival. */
  datatype Letter = Letter(sign: Sign, from: Addr, time: int, m: Msg)

  function ToSharer(sys: Sys, e: Event): Option<Letter> {
    match e
    case ToSender(i, from, time) =>
      if i < |sys.toSender| then Some(Letter(ClientSign, from, time, sys.toSender[i])) else None
    case SenderHears(sign, from, time, m) => Some(Letter(sign, from, time, m))
    case _ => None
  }

  function ToDownloader(sys: Sys, e: Event): Option<Letter> {
    match e
    case ToRecver(i, from, time) =>
      if i < |sys.toRecver| then Some(Letter(ClientSign, from, time, sys.toRecver[i])) else None
    case RecverHears(sign, from, time, m) => Some(Letter(sign, from, time, m))
    case _ => None
  }

  // The sharer.

  /** The server gives out the code. */
  predicate Codes(s: Sender, l: Letter) { s.state == WaitCode && l.m.ShareCode? }

  /** The server announces a downloader, and the sharer is free. */
  predicate Announces(s: Sender, l: Letter) { s.state == WaitRecver && l.m.FileReq? }

  /** The announced downloader answers the greeting, or asks to start. */
  predicate Meets(s: Sender, l: Letter) {
    && s.state == ConnRecver
    && (l.m.DownloadStart? || (l.m.HelloReply? && l.sign == ClientSign && l.from == s.peer))
  }

  predicate Finishes(s: Sender, l: Letter) { s.state == SendingFile && l.m.Finish? }

  predicate RepliesFrom(l: Letter, from: Addr) { l.m.HelloReply? && l.from == from }

  predicate Refuses(l: Letter) { l.m.ErrorFormat? || l.m.ErrorLimit? }

  /** What a message makes of the sharer's state, peer, times and closing. */
  predicate Moved(s: Sender, l: Letter, s': Sender) {
    && s'.state == (if Codes(s, l) then WaitRecver else if Announces(s, l) then ConnRecver
                    else if Meets(s, l) then SendingFile else if Finishes(s, l) then WaitRecver else s.state)
    && s'.peer == (if Announces(s, l) then l.m.recver else s.peer) && s'.server == s.server
    && s'.serverHello == (if RepliesFrom(l, s.server) then l.time else s.serverHello)
    && s'.peerHello == (if RepliesFrom(l, s.peer) && s.peer != s.server then l.time
                        else if Finishes(s, l) then 0 else s.peerHello)
    && (s'.closed <==> s.closed || Refuses(l))
  }

  lemma StreamStays(f: seq<Byte>, s: Sender)
    ensures var s' := SendFileStream(f, s).0;
      s' == s.(reader := s'.reader, window := s'.window, queue := s'.queue, full := s'.full)
  {
  }

  lemma LossStays(f: seq<Byte>, s: Sender, pieces: seq<nat>)
    ensures var s' := SendLossPieces(f, s, pieces).0;
      s' == s.(reader := s'.reader, window := s'.window, queue := s'.queue, full := s'.full)
  {
  }

  /** These kinds of message change these fields of the sharer, and no others: the code and the announcement while it
      waits for them, the meeting with the announced peer and its FINISH, replies, and refusals. */
  lemma SharerMoves(f: seq<Byte>, s: Sender, l: Letter)
    ensures Moved(s, l, SendConn.Handle(f, s, l.sign, l.from, l.time, l.m).0)
  {
    match l.m
    case DownloadStart => StreamStays(f, s.(state := SendingFile));
    case PackAck(nums) => StreamStays(f, s.(window := if nums <= s.window then s.window - nums else 0, full := false));
    case Retran(pieces) => LossStays(f, s, Decoded(pieces));
    case _ =>
    hide SendFileStream, SendLossPieces;
  }

  /** It greets a downloader that is announced while it is free, and none announced otherwise, and answers every
      greeting. */
  lemma SharerGreets(f: seq<Byte>, s: Sender, l: Letter)
    ensures var (s', out) := SendConn.Handle(f, s, l.sign, l.from, l.time, l.m);
      && (l.m.FileReq? ==> out == if Announces(s, l) then [Hello] else [])
      && (l.m.FileReq? && !Announces(s, l) ==> s' == s)
      && (l.m.Hello? ==> out == [HelloReply] && s' == s)
      && (Hello in out ==> l.m.FileReq?) && (HelloReply in out ==> l.m.Hello?)
  {
    hide Piece, NextPiece, PieceOf, Decoded;
  }

  /** The heartbeat finds that the downloader has not answered for more than 60 seconds. */
  predicate FoundSilent(s: Sender, now: int) {
    s.state == SendingFile && s.peerHello > 0 && now > s.peerHello + 60_000_000
  }

  lemma SharerBeats(s: Sender, now: int)
    ensures var s' := SendConn.CheckPeerAlive(s, now);
      && s'.state == (if FoundSilent(s, now) then WaitRecver else s.state)
      && s' == s.(state := s'.state, reader := s'.reader, window := s'.window, full := s'.full, closed := s'.closed)
      && (FoundSilent(s, now) ==> s'.reader == Live(0, 0) && s'.window == 0 && !s'.full)
      && (!FoundSilent(s, now) ==> s'.reader == s.reader && s'.window == s.window && s'.full == s.full)
      && (s'.closed <==> s.closed || (s.serverHello > 0 && now > s.serverHello + 60_000_000))
  {
  }

  /** The events that end a session. */
  predicate Ends(sys: Sys, e: Event) {
    || (ToSharer(sys, e).Some? && Finishes(sys.s, ToSharer(sys, e).value))
    || (e.SenderTimer? && FoundSilent(sys.s, e.now))
  }

  /** What an event makes of the sharer: a message or a heartbeat does what is said above, anything else nothing. */
  lemma SharerStep(f: seq<Byte>, sys: Sys, e: Event)
    requires Enabled(f, sys, e)
    ensures var s, s', l := sys.s, Apply(f, sys, e).s, ToSharer(sys, e);
      && (l.Some? ==> Moved(s, l.value, s'))
      && (l.None? && !e.SenderTimer? ==>
            s' == s.(reader := s'.reader, window := s'.window, full := s'.full, queue := s'.queue))
      && (e.SenderTimer? ==> s' == SendConn.CheckPeerAlive(s, e.now))
  {
    var l := ToSharer(sys, e);
    if l.Some? {
      SharerMoves(f, sys.s, l.value);
    }
    hide SendConn.Handle, GetConn.Handle, RetranReq, Moved, SendConn.CheckPeerAlive;
    if e.RunLoop? {
      StreamStays(f, sys.s.(queue := sys.s.queue[1..]));
      hide SendFileStream, PieceOf;
    }
  }

  /** No event of the run ends a session. */
  predicate NoneEnds(f: seq<Byte>, sys: Sys, run: seq<Event>)
    requires Possible(f, sys, run)
    decreases |run|
  {
    run == [] || (!Ends(sys, run[0]) && NoneEnds(f, Apply(f, sys, run[0]), run[1..]))
  }

  /** A session goes on with the same peer until FINISH or a silence ends it, whoever else asks for the file. */
  lemma {:induction false} SessionKept(f: seq<Byte>, sys: Sys, run: seq<Event>)
    requires Possible(f, sys, run) && NoneEnds(f, sys, run)
    requires sys.s.state == ConnRecver || sys.s.state == SendingFile
    ensures var end := After(f, sys, run);
      && end.s.peer == sys.s.peer && (end.s.state == ConnRecver || end.s.state == SendingFile)
      && (sys.s.state == SendingFile ==> end.s.state == SendingFile)
    decreases |run|
  {
    if run == [] {
    } else {
      SharerStep(f, sys, run[0]);
      hide Apply;
      SessionKept(f, Apply(f, sys, run[0]), run[1..]);
    }
  }

  /** When the peer last replied, going by the messages alone. */
  function LastReply(h: int, sys: Sys, e: Event, peer: Addr): int {
    if ToSharer(sys, e).Some? && RepliesFrom(ToSharer(sys, e).value, peer) && peer != sys.s.server
    then ToSharer(sys, e).value.time else h
  }

  /** A FINISH arrives, or a heartbeat comes more than 60 seconds after the last reply from the peer. */
  predicate Interrupted(f: seq<Byte>, sys: Sys, run: seq<Event>, peer: Addr, h: int)
    requires Possible(f, sys, run)
    decreases |run|
  {
    && run != []
    && var e := run[0];
    || (ToSharer(sys, e).Some? && ToSharer(sys, e).value.m.Finish?)
    || (e.SenderTimer? && h > 0 && e.now > h + 60_000_000)
    || Interrupted(f, Apply(f, sys, e), run[1..], peer, LastReply(h, sys, e, peer))
  }

  /** A sharer that is sending goes on sending to the same peer as long as no FINISH arrives and the heartbeats find
      replies from the peer that are at most 60 seconds old, and no longer. */
  lemma {:induction false} SendsUntilInterrupted(f: seq<Byte>, sys: Sys, run: seq<Event>)
    requires Possible(f, sys, run) && sys.s.state == SendingFile
    ensures NoneEnds(f, sys, run) <==> !Interrupted(f, sys, run, sys.s.peer, sys.s.peerHello)
    ensures NoneEnds(f, sys, run) ==>
      After(f, sys, run).s.state == SendingFile && After(f, sys, run).s.peer == sys.s.peer
    decreases |run|
  {
    if run == [] {
    } else {
      SharerStep(f, sys, run[0]);
      hide Apply;
      if !Ends(sys, run[0]) {
        SendsUntilInterrupted(f, Apply(f, sys, run[0]), run[1..]);
      }
    }
  }

  // The downloader.

  /** The server announces the sharer and the size of the file. */
  predicate Finds(r: Receiver, l: Letter) { r.state == WaitSender && l.m.FileData? }

  /** The announced sharer answers the greeting. */
  predicate Connects(r: Receiver, l: Letter) {
    r.state == ConnSender && l.m.HelloReply? && l.sign == ClientSign && l.from == r.peer
  }

  /** A piece arrives for an open file. */
  predicate Takes(r: Receiver, l: Letter) { r.state == RecvFile && r.writer.Some? && l.m.DataStream? }

  predicate Completes(r: Receiver, l: Letter) {
    Takes(r, l) && Write(r.writer.value, l.m.data, l.m.pieceNum).1 == WRITE_FINISH
  }

  predicate NotFound(l: Letter) { l.m.ErrorFormat? || l.m.Error404? }

  /** At most 2^32 - 1024 bytes. */
  predicate Fits(size: nat) { size <= 0x1_0000_0000 - 1024 }

  /** What a message makes of the downloader's state, peer, size, file, times and closing. */
  predicate Turned(r: Receiver, l: Letter, r': Receiver) {
    && r'.state == (if Finds(r, l) then ConnSender else if Connects(r, l) && Fits(r.fileBytes) then RecvFile
                    else if Completes(r, l) then Idle else r.state)
    && r'.peer == (if Finds(r, l) then l.m.sharer else r.peer) && r'.server == r.server
    && r'.fileBytes == (if Finds(r, l) then l.m.fileBytes else r.fileBytes)
    && r'.writer == (if Connects(r, l) then Some(NewWriter(r.fileBytes))
                     else if Takes(r, l) then Some(Write(r.writer.value, l.m.data, l.m.pieceNum).0) else r.writer)
    && r'.lastData == (if Takes(r, l) then l.time else r.lastData)
    && r'.serverHello == (if RepliesFrom(l, r.server) then l.time else r.serverHello)
    && r'.peerHello == (if RepliesFrom(l, r.peer) && r.peer != r.server then l.time else r.peerHello)
    && (r'.closed <==> r.closed || NotFound(l) || Completes(r, l) || (Connects(r, l) && !Fits(r.fileBytes)))
  }

  /** A file is opened if and only if it has at most 2^32 - 1024 bytes. */
  lemma OpenedIffFits(size: nat)
    ensures NewWriter(size).open <==> Fits(size)
    ensures NewWriter(size).out.bytes == [] && NewWriter(size).size == size
    ensures NewWriter(size).cur == 0 && NewWriter(size).loss == {} && NewWriter(size).written == 0
  {
  }

  /** These kinds of message change the downloader and no others: the announcement while it waits for it, the answer of
      the announced sharer, pieces while its file is open, replies, and refusals. */
  lemma DownloaderMoves(r: Receiver, l: Letter)
    ensures Turned(r, l, GetConn.Handle(r, l.sign, l.from, l.time, l.m).0)
  {
    OpenedIffFits(r.fileBytes);
    hide Write;
  }

  /** The announced sharer's answer starts the download if the file fits, and closes the downloader, without a message,
      if not. It greets the sharer announced to it, and answers every greeting. */
  lemma DownloaderAnswers(r: Receiver, l: Letter)
    ensures var out := GetConn.Handle(r, l.sign, l.from, l.time, l.m).1;
      && (DownloadStart in out <==> Connects(r, l) && Fits(r.fileBytes))
      && (l.m.HelloReply? ==> out == if Connects(r, l) && Fits(r.fileBytes) then [DownloadStart] else [])
      && (l.m.FileData? ==> out == if Finds(r, l) then [Hello] else [])
      && (l.m.Hello? ==> out == [HelloReply])
      && (Finish in out <==> Completes(r, l))
  {
    OpenedIffFits(r.fileBytes);
    hide Write;
  }

  lemma DownloaderBeats(r: Receiver, now: int)
    ensures var r' := GetConn.CheckPeerAlive(r, now);
      && r' == r.(closed := r'.closed)
      && (r'.closed <==> r.closed || (r.peerHello > 0 && now > r.peerHello + 60_000_000))
  {
  }

  /** The tick returns credits exactly after more than 100 ms without data. */
  lemma CreditsAfterSilence(r: Receiver, now: int)
    ensures PackAck(30) in RetranReq(r, now) <==>
      r.state == RecvFile && r.writer.Some? && now > r.lastData + 100_000
  {
    hide Listed;
  }

  lemma DownloaderStep(f: seq<Byte>, sys: Sys, e: Event)
    requires Enabled(f, sys, e)
    ensures var r, r', l := sys.r, Apply(f, sys, e).r, ToDownloader(sys, e);
      && (l.Some? ==> Turned(r, l.value, r'))
      && (l.None? && !e.RecverTimer? && !e.NewRecver? ==> r' == r)
      && (e.RecverTimer? ==> r' == GetConn.CheckPeerAlive(r, e.now))
  {
    var l := ToDownloader(sys, e);
    if l.Some? {
      DownloaderMoves(sys.r, l.value);
    }
    hide SendConn.Handle, GetConn.Handle, RetranReq, RunClosure, Turned;
  }

  predicate NoneReplaced(run: seq<Event>) { forall e :: e in run ==> !e.NewRecver? }

  /** A download goes on with the same sharer and into the same file until that is complete, whatever else is
      announced. */
  lemma {:induction false} DownloadKept(f: seq<Byte>, sys: Sys, run: seq<Event>)
    requires Possible(f, sys, run) && NoneReplaced(run)
    requires (sys.r.state == RecvFile && sys.r.writer.Some? && sys.r.writer.value.open) || sys.r.state == Idle
    ensures var r, r' := sys.r, After(f, sys, run).r;
      && r'.peer == r.peer && r'.fileBytes == r.fileBytes
      && (r'.state == RecvFile || r'.state == Idle) && (r.state == Idle ==> r'.state == Idle && r'.writer == r.writer)
      && (r'.state == RecvFile ==> r'.writer.Some? && r'.writer.value.open)
    decreases |run|
  {
    if run == [] {
    } else {
      DownloaderStep(f, sys, run[0]);
      assert run[0] in run;
      if ToDownloader(sys, run[0]).Some? && Takes(sys.r, ToDownloader(sys, run[0]).value) {
        var m := ToDownloader(sys, run[0]).value.m;
        ClosedByFinish(sys.r.writer.value, m.data, m.pieceNum);
      }
      hide Apply, Write, NewWriter;
      DownloadKept(f, Apply(f, sys, run[0]), run[1..]);
    }
  }

  // Files of any size.

  predicate OnlyGreetings(ms: seq<Msg>) { forall i :: 0 <= i < |ms| ==> ms[i].Hello? || ms[i].HelloReply? }

  /** A file too large, which never moves: the peers do no more than greet each other. */
  predicate Still(f: seq<Byte>, sys: Sys) {
    && sys.s.reader == Live(0, 0) && !sys.s.full && sys.s.queue == []
    && OnlyGreetings(sys.toSender) && OnlyGreetings(sys.toRecver)
    && sys.r.state != RecvFile && (sys.r.state == ConnSender ==> sys.r.fileBytes == |f|)
    && (sys.r.writer.Some? ==> !sys.r.writer.value.open && sys.r.writer.value.out.bytes == [])
  }

  lemma SharerStill(f: seq<Byte>, s: Sender, l: Letter)
    requires s.reader == Live(0, 0) && !s.full && s.queue == [] && (Handshake(f, l.m) || l.m.Hello? || l.m.HelloReply?)
    ensures var (s', out) := SendConn.Handle(f, s, l.sign, l.from, l.time, l.m);
      s'.reader == Live(0, 0) && !s'.full && s'.queue == [] && OnlyGreetings(out)
  {
  }

  lemma DownloaderStill(f: seq<Byte>, r: Receiver, l: Letter)
    requires !Fits(|f|) && (Handshake(f, l.m) || l.m.Hello? || l.m.HelloReply?)
    requires r.state != RecvFile && (r.state == ConnSender ==> r.fileBytes == |f|)
    requires r.writer.Some? ==> !r.writer.value.open && r.writer.value.out.bytes == []
    ensures var (r', out) := GetConn.Handle(r, l.sign, l.from, l.time, l.m);
      && OnlyGreetings(out) && r'.state != RecvFile && (r'.state == ConnSender ==> r'.fileBytes == |f|)
      && (r'.writer.Some? ==> !r'.writer.value.open && r'.writer.value.out.bytes == [])
  {
    OpenedIffFits(r.fileBytes);
  }

  lemma StepStill(f: seq<Byte>, sys: Sys, e: Event)
    requires !Fits(|f|) && Still(f, sys) && Enabled(f, sys, e)
    ensures Still(f, Apply(f, sys, e))
  {
    if ToSharer(sys, e).Some? {
      SharerStill(f, sys.s, ToSharer(sys, e).value);
    }
    if ToDownloader(sys, e).Some? {
      DownloaderStill(f, sys.r, ToDownloader(sys, e).value);
    }
    hide SendConn.Handle, GetConn.Handle;
  }

  lemma {:induction false} AlwaysStill(f: seq<Byte>, sys: Sys, run: seq<Event>)
    requires !Fits(|f|) && Still(f, sys) && Possible(f, sys, run)
    ensures Still(f, After(f, sys, run))
    decreases |run|
  {
    if run == [] {
    } else {
      StepStill(f, sys, run[0]);
      hide Still, Apply;
      AlwaysStill(f, Apply(f, sys, run[0]), run[1..]);
    }
  }

  /** Of a file of more than 2^32 - 1024 bytes nothing is ever sent or written, in any run: no DOWNLOAD_START, no piece,
      and no downloader that receives. */
  lemma TooLargeNeverMoves(f: seq<Byte>, sys: Sys, run: seq<Event>)
    requires |f| > 0x1_0000_0000 - 1024 && Initial(sys) && Possible(f, sys, run)
    ensures var end := After(f, sys, run);
      && OnlyGreetings(end.toSender) && OnlyGreetings(end.toRecver) && end.r.state != RecvFile
      && (end.r.writer.Some? ==> !end.r.writer.value.open && end.r.writer.value.out.bytes == [])
  {
    AlwaysStill(f, sys, run);
  }

  /** So in every run a downloader receives only files of at most 2^32 - 1024 bytes. */
  lemma ReceivingFits(f: seq<Byte>, sys: Sys, run: seq<Event>)
    requires Initial(sys) && Possible(f, sys, run) && After(f, sys, run).r.state == RecvFile
    ensures |f| <= 0x1_0000_0000 - 1024
  {
    if |f| > 0x1_0000_0000 - 1024 {
      TooLargeNeverMoves(f, sys, run);
    }
  }

  /** When the sharer answers, a downloader of a larger file closes. */
  lemma TooLargeCloses(f: seq<Byte>, sys: Sys, run: seq<Event>, time: int)
    requires |f| > 0x1_0000_0000 - 1024 && Initial(sys) && Possible(f, sys, run)
    requires After(f, sys, run).r.state == ConnSender
    ensures var mid := After(f, sys, run);
      var end := Apply(f, mid, RecverHears(ClientSign, mid.r.peer, time, HelloReply));
      end.r.closed && end.toSender == mid.toSender && end.r.state == ConnSender
  {
    AlwaysStill(f, sys, run);
    var mid := After(f, sys, run);
    var l := Letter(ClientSign, mid.r.peer, time, HelloReply);
    DownloaderMoves(mid.r, l);
    DownloaderAnswers(mid.r, l);
    hide GetConn.Handle, After;
  }
}
