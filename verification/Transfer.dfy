/** Sharer and downloader joined by a network that drops, duplicates and reorders, with timers firing at any time
    and downloaders coming and going. The events below are the only source of choice. */
module Transfer {
  import opened Pieces
  import opened Messages
  import opened SendFile
  import opened GetFile
  import opened FileLedger
  import opened SendConn
  import opened GetConn

  /** The two peers, the messages in flight in each direction, and a count of what has gone astray: pieces and
      credits dropped, or delivered to a peer that ignored them. */
  datatype Sys = Sys(s: Sender, r: Receiver, toSender: seq<Msg>, toRecver: seq<Msg>, lostData: nat, lostCredits: nat)

  datatype Event =
    | ToSender(i: nat, from: Addr, time: int) | DropToSender(i: nat) | DupToSender(i: nat)
    | ToRecver(i: nat, from: Addr, time: int) | DropToRecver(i: nat) | DupToRecver(i: nat)
    | RunLoop
    | SenderHears(sign: Sign, from: Addr, time: int, m: Msg)
    | RecverHears(sign: Sign, from: Addr, time: int, m: Msg)
    | SenderTimer(now: int) | RecverTimer(now: int) | RetranTimer(now: int)
    | NewRecver(server: Addr)

  /** Messages that may come from anywhere; all others only from the peer. The server announces the true size. */
  predicate Handshake(f: seq<Byte>, m: Msg) {
    match m
    case FileData(n, _) => n == |f|
    case DataStream(_, _) => false
    case DownloadStart => false
    case PackAck(_) => false
    case Retran(_) => false
    case Finish => false
    case _ => true
  }

  predicate Enabled(f: seq<Byte>, sys: Sys, e: Event) {
    match e
    case ToSender(i, _, _) => i < |sys.toSender|
    case DropToSender(i) => i < |sys.toSender|
    case DupToSender(i) => i < |sys.toSender|
    case ToRecver(i, _, _) => i < |sys.toRecver|
    case DropToRecver(i) => i < |sys.toRecver|
    case DupToRecver(i) => i < |sys.toRecver|
    case RunLoop => sys.s.queue != []
    case SenderHears(_, _, _, m) => Handshake(f, m)
    case RecverHears(_, _, _, m) => Handshake(f, m)
    case _ => true
  }

  function Without<T>(ms: seq<T>, i: nat): seq<T>
    requires i < |ms|
  {
    ms[..i] + ms[i + 1..]
  }

  function Data(m: Msg): nat { if m.DataStream? then 1 else 0 }

  function Credits(m: Msg): nat { if m.PackAck? then m.nums else 0 }

  function SenderDid(sys: Sys, did: (Sender, seq<Msg>)): Sys { sys.(s := did.0, toRecver := sys.toRecver + did.1) }

  function RecverDid(sys: Sys, did: (Receiver, seq<Msg>)): Sys { sys.(r := did.0, toSender := sys.toSender + did.1) }

  function Apply(f: seq<Byte>, sys: Sys, e: Event): Sys
    requires Enabled(f, sys, e)
  {
    match e
    case ToSender(i, from, time) =>
      var m := sys.toSender[i];
      var astray := if sys.s.state == SendingFile then 0 else Credits(m);
      SenderDid(sys.(toSender := Without(sys.toSender, i), lostCredits := sys.lostCredits + astray),
                SendConn.Handle(f, sys.s, ClientSign, from, time, m))
    case ToRecver(i, from, time) =>
      var m := sys.toRecver[i];
      var astray := if sys.r.state == RecvFile && sys.r.writer.Some? then 0 else Data(m);
      RecverDid(sys.(toRecver := Without(sys.toRecver, i), lostData := sys.lostData + astray),
                GetConn.Handle(sys.r, ClientSign, from, time, m))
    case DropToSender(i) =>
      sys.(toSender := Without(sys.toSender, i), lostCredits := sys.lostCredits + Credits(sys.toSender[i]))
    case DropToRecver(i) =>
      sys.(toRecver := Without(sys.toRecver, i), lostData := sys.lostData + Data(sys.toRecver[i]))
    case DupToSender(i) => sys.(toSender := sys.toSender + [sys.toSender[i]])
    case DupToRecver(i) => sys.(toRecver := sys.toRecver + [sys.toRecver[i]])
    case RunLoop => SenderDid(sys, RunClosure(f, sys.s))
    case SenderHears(sign, from, time, m) => SenderDid(sys, SendConn.Handle(f, sys.s, sign, from, time, m))
    case RecverHears(sign, from, time, m) => RecverDid(sys, GetConn.Handle(sys.r, sign, from, time, m))
    case SenderTimer(now) => SenderDid(sys, (SendConn.CheckPeerAlive(sys.s, now), [Hello]))
    case RecverTimer(now) => RecverDid(sys, (GetConn.CheckPeerAlive(sys.r, now), [Hello]))
    case RetranTimer(now) => RecverDid(sys, (sys.r, RetranReq(sys.r, now)))
    case NewRecver(server) =>
      sys.(r := Receiver(WaitSender, None, 0, 0, server, 0, 0, 0, 0, false), lostData := sys.lostData + sys.r.window)
  }

  /** What the delivery of message i to the sharer does. */
  lemma SharerHandles(f: seq<Byte>, sys: Sys, i: nat, from: Addr, time: int)
    requires i < |sys.toSender|
    ensures var m := sys.toSender[i];
      var did := SendConn.Handle(f, sys.s, ClientSign, from, time, m);
      Apply(f, sys, ToSender(i, from, time)) ==
        sys.(s := did.0, toSender := Without(sys.toSender, i), toRecver := sys.toRecver + did.1,
             lostCredits := sys.lostCredits + if sys.s.state == SendingFile then 0 else Credits(m))
  {
    hide SendConn.Handle;
  }

  /** What the delivery of message i to the downloader does. */
  lemma DownloaderHandles(f: seq<Byte>, sys: Sys, i: nat, from: Addr, time: int)
    requires i < |sys.toRecver|
    ensures var m := sys.toRecver[i];
      var did := GetConn.Handle(sys.r, ClientSign, from, time, m);
      Apply(f, sys, ToRecver(i, from, time)) ==
        sys.(r := did.0, toRecver := Without(sys.toRecver, i), toSender := sys.toSender + did.1,
             lostData := sys.lostData + if sys.r.state == RecvFile && sys.r.writer.Some? then 0 else Data(m))
  {
    hide GetConn.Handle;
  }

  /** A sequence of events that can happen one after the other, and the state it leads to. */
  predicate Possible(f: seq<Byte>, sys: Sys, run: seq<Event>)
    decreases |run|
  {
    run == [] || (Enabled(f, sys, run[0]) && Possible(f, Apply(f, sys, run[0]), run[1..]))
  }

  function After(f: seq<Byte>, sys: Sys, run: seq<Event>): Sys
    requires Possible(f, sys, run)
    decreases |run|
  {
    if run == [] then sys else After(f, Apply(f, sys, run[0]), run[1..])
  }

  /** A share that has just been announced, and a downloader that has just asked for it. */
  predicate Initial(sys: Sys) {
    && sys.s == Sender(WaitCode, Live(0, 0), 0, false, [], sys.s.server, 0, 0, 0, false)
    && sys.r == Receiver(WaitSender, None, 0, 0, sys.r.server, 0, 0, 0, 0, false)
    && sys.toSender == [] && sys.toRecver == [] && sys.lostData == 0 && sys.lostCredits == 0
  }

  /** DATA_STREAM carries a piece of f under its number, RETRAN asks for pieces of f; FILE_DATA is not for peers
      to send. */
  predicate Genuine(f: seq<Byte>, m: Msg) {
    && (m.DataStream? ==> m.pieceNum <= PieceCount(f) && m.data == Piece(f, m.pieceNum))
    && (m.Retran? ==> Requestable(f, m.pieces))
    && !m.FileData?
  }

  predicate Requestable(f: seq<Byte>, pieces: seq<nat>) { forall i :: 0 <= i < |pieces| ==> pieces[i] < PieceCount(f) }

  predicate AllGenuine(f: seq<Byte>, ms: seq<Msg>) { forall i :: 0 <= i < |ms| ==> Genuine(f, ms[i]) }

  predicate SenderOk(f: seq<Byte>, s: Sender) {
    && InStep(f, s.reader) && s.window <= 30
    && forall i :: 0 <= i < |s.queue| && s.queue[i].LossNext? ==> Requestable(f, s.queue[i].pieces)
  }

  ghost predicate RecverOk(f: seq<Byte>, r: Receiver) {
    && r.window < 10
    && (r.state == ConnSender ==> r.fileBytes == |f|)
    && (r.writer.Some? ==> Ledger(f, r.writer.value))
    && (r.state == RecvFile ==> r.writer.Some? && r.writer.value.open)
  }

  ghost predicate Safe(f: seq<Byte>, sys: Sys) {
    SenderOk(f, sys.s) && RecverOk(f, sys.r) && AllGenuine(f, sys.toSender) && AllGenuine(f, sys.toRecver)
  }

  lemma StreamSafe(f: seq<Byte>, s: Sender)
    requires Accepted(f) && SenderOk(f, s)
    ensures var (s', out) := SendFileStream(f, s); SenderOk(f, s') && AllGenuine(f, out)
  {
    if s.reader.Live? {
      NextPieceInStep(f, s.reader);
    }
  }

  lemma LossSafe(f: seq<Byte>, s: Sender, pieces: seq<nat>)
    requires Accepted(f) && SenderOk(f, s) && Requestable(f, pieces)
    ensures var (s', out) := SendLossPieces(f, s, pieces); SenderOk(f, s') && AllGenuine(f, out)
  {
    if pieces != [] {
      PieceOfInStep(f, s.reader, pieces[|pieces| - 1]);
    }
  }

  lemma DecodedRequestable(f: seq<Byte>, pieces: seq<nat>)
    requires f != [] && Requestable(f, pieces)
    ensures Requestable(f, Decoded(pieces))
  {
  }

  lemma SenderHandleSafe(f: seq<Byte>, s: Sender, sign: Sign, from: Addr, time: int, m: Msg)
    requires Accepted(f) && SenderOk(f, s) && (Genuine(f, m) || Handshake(f, m))
    ensures var (s', out) := SendConn.Handle(f, s, sign, from, time, m); SenderOk(f, s') && AllGenuine(f, out)
  {
    match m
    case DownloadStart => StreamSafe(f, s.(state := SendingFile));
    case PackAck(nums) =>
      StreamSafe(f, s.(window := if nums <= s.window then s.window - nums else 0, full := false));
    case Retran(pieces) =>
      DecodedRequestable(f, pieces);
      LossSafe(f, s, Decoded(pieces));
    case _ =>
  }

  lemma RunClosureSafe(f: seq<Byte>, s: Sender)
    requires Accepted(f) && SenderOk(f, s) && s.queue != []
    ensures var (s', out) := RunClosure(f, s); SenderOk(f, s') && AllGenuine(f, out)
  {
    var s1 := s.(queue := s.queue[1..]);
    match s.queue[0]
    case StreamNext => StreamSafe(f, s1);
    case LossNext(pieces) => LossSafe(f, s1, pieces);
  }

  lemma RecverHandleSafe(f: seq<Byte>, r: Receiver, sign: Sign, from: Addr, time: int, m: Msg)
    requires Accepted(f) && RecverOk(f, r) && (Genuine(f, m) || Handshake(f, m))
    ensures var (r', out) := GetConn.Handle(r, sign, from, time, m); RecverOk(f, r') && AllGenuine(f, out)
  {
    hide Counted, Write;
    match m
    case HelloReply => NewWriterLedger(f);
    case DataStream(piece, data) =>
      if r.state == RecvFile {
        WriteGenuine(f, r.writer.value, piece);
      }
    case _ =>
  }

  lemma RetranReqSafe(f: seq<Byte>, r: Receiver, now: int)
    requires RecverOk(f, r)
    ensures AllGenuine(f, RetranReq(r, now))
  {
    if r.writer.Some? {
      var w := r.writer.value;
      ListedIsAscending(w.loss, w.cur);
      var pieces := Listed(w.loss, w.cur);
      assert forall i :: 0 <= i < |pieces| ==> pieces[i] in w.loss;
    }
  }

  lemma StepSafe(f: seq<Byte>, sys: Sys, e: Event)
    requires Accepted(f) && Safe(f, sys) && Enabled(f, sys, e)
    ensures Safe(f, Apply(f, sys, e))
  {
    match e
    case ToSender(i, from, time) => SenderHandleSafe(f, sys.s, ClientSign, from, time, sys.toSender[i]);
    case ToRecver(i, from, time) => RecverHandleSafe(f, sys.r, ClientSign, from, time, sys.toRecver[i]);
    case RunLoop => RunClosureSafe(f, sys.s);
    case SenderHears(sign, from, time, m) => SenderHandleSafe(f, sys.s, sign, from, time, m);
    case RecverHears(sign, from, time, m) => RecverHandleSafe(f, sys.r, sign, from, time, m);
    case RetranTimer(now) => RetranReqSafe(f, sys.r, now);
    case _ =>
  }

  lemma {:induction false} SafeAlways(f: seq<Byte>, sys: Sys, run: seq<Event>)
    requires Accepted(f) && Safe(f, sys) && Possible(f, sys, run)
    ensures Safe(f, After(f, sys, run))
    decreases |run|
  {
    if run == [] {
    } else {
      StepSafe(f, sys, run[0]);
      SafeAlways(f, Apply(f, sys, run[0]), run[1..]);
    }
  }

  /** End-to-end safety. Whatever the network and the timers do, every DATA_STREAM in flight carries piece k of f
      under a number k of at most PieceCount(f); a downloader that is receiving has its file open; and once a
      downloader has closed its file, nothing is listed as missing and the file on disk starts with f. */
  lemma EndToEnd(f: seq<Byte>, sys: Sys, run: seq<Event>)
    requires Accepted(f) && Initial(sys) && Possible(f, sys, run)
    ensures var end := After(f, sys, run);
      && (forall m :: m in end.toRecver && m.DataStream? ==>
           m.pieceNum <= PieceCount(f) && m.data == Piece(f, m.pieceNum))
      && (end.r.state == RecvFile ==> end.r.writer.Some? && end.r.writer.value.open)
      && (end.r.writer.Some? && !end.r.writer.value.open ==>
           end.r.writer.value.loss == {} && Delivered(f, end.r.writer.value))
  {
    SafeAlways(f, sys, run);
    var end := After(f, sys, run);
    assert forall m :: m in end.toRecver ==> Genuine(f, m);
    if end.r.writer.Some? && !end.r.writer.value.open {
      CompleteDelivers(f, end.r.writer.value);
    }
  }

  /** A retransmission request reaches a sharer that is sending; in any other state it is ignored. */
  predicate Serves(sys: Sys, e: Event) {
    sys.s.state == SendingFile && e.ToSender? && e.i < |sys.toSender| && sys.toSender[e.i].Retran?
  }

  /** No event of the run has the sharer serve a retransmission request. */
  predicate NoneServed(f: seq<Byte>, sys: Sys, run: seq<Event>)
    requires Possible(f, sys, run)
    decreases |run|
  {
    run == [] || (!Serves(sys, run[0]) && NoneServed(f, Apply(f, sys, run[0]), run[1..]))
  }

  /** The sharer has nothing queued or left to read that would send the empty piece. */
  predicate SendsNoEmptyPiece(f: seq<Byte>, s: Sender) {
    && (s.reader.Live? ==> s.reader.cur < PieceCount(f))
    && forall i :: 0 <= i < |s.queue| ==> s.queue[i].StreamNext?
  }

  predicate NoneEmpty(f: seq<Byte>, ms: seq<Msg>) {
    forall i :: 0 <= i < |ms| && ms[i].DataStream? ==> ms[i].pieceNum < PieceCount(f)
  }

  /** Unless the last piece is full, the empty piece after it is never sent. */
  predicate NoEmptyPiece(f: seq<Byte>, sys: Sys) {
    && SendsNoEmptyPiece(f, sys.s) && NoneEmpty(f, sys.toRecver)
    && (sys.r.writer.Some? ==> sys.r.writer.value.cur <= PieceCount(f))
  }

  lemma StreamNoEmptyPiece(f: seq<Byte>, s: Sender)
    requires Accepted(f) && |f| % 1024 != 0 && SenderOk(f, s) && SendsNoEmptyPiece(f, s)
    ensures var (s', out) := SendFileStream(f, s); SendsNoEmptyPiece(f, s') && NoneEmpty(f, out)
  {
    if s.reader.Live? {
      NextPieceInStep(f, s.reader);
      PieceSize(f, s.reader.cur);
    }
  }

  lemma SenderHandleNoEmptyPiece(f: seq<Byte>, s: Sender, sign: Sign, from: Addr, time: int, m: Msg)
    requires Accepted(f) && |f| % 1024 != 0 && SenderOk(f, s) && SendsNoEmptyPiece(f, s)
    requires !(m.Retran? && s.state == SendingFile)
    ensures var (s', out) := SendConn.Handle(f, s, sign, from, time, m); SendsNoEmptyPiece(f, s') && NoneEmpty(f, out)
  {
    match m
    case DownloadStart => StreamNoEmptyPiece(f, s.(state := SendingFile));
    case PackAck(nums) =>
      StreamNoEmptyPiece(f, s.(window := if nums <= s.window then s.window - nums else 0, full := false));
    case _ =>
  }

  lemma RecverNoEmptyPiece(f: seq<Byte>, r: Receiver, sign: Sign, from: Addr, time: int, m: Msg)
    requires Accepted(f) && RecverOk(f, r) && (Genuine(f, m) || Handshake(f, m))
    requires (m.DataStream? ==> m.pieceNum < PieceCount(f)) && (r.writer.Some? ==> r.writer.value.cur <= PieceCount(f))
    ensures var r' := GetConn.Handle(r, sign, from, time, m).0;
      r'.writer.Some? ==> r'.writer.value.cur <= PieceCount(f)
  {
    hide Counted;
    if m.DataStream? && r.state == RecvFile {
      WriteGenuine(f, r.writer.value, m.pieceNum);
    }
  }

  lemma NoEmptyPieceKept(f: seq<Byte>, sys: Sys, e: Event)
    requires Accepted(f) && |f| % 1024 != 0 && Safe(f, sys) && NoEmptyPiece(f, sys) && Enabled(f, sys, e)
    requires !Serves(sys, e)
    ensures NoEmptyPiece(f, Apply(f, sys, e))
  {
    hide SendConn.Handle, GetConn.Handle, Ledger, InStep;
    match e
    case ToSender(i, from, time) => SenderHandleNoEmptyPiece(f, sys.s, ClientSign, from, time, sys.toSender[i]);
    case SenderHears(sign, from, time, m) => SenderHandleNoEmptyPiece(f, sys.s, sign, from, time, m);
    case RunLoop => StreamNoEmptyPiece(f, sys.s.(queue := sys.s.queue[1..]));
    case ToRecver(i, from, time) => RecverNoEmptyPiece(f, sys.r, ClientSign, from, time, sys.toRecver[i]);
    case RecverHears(sign, from, time, m) => RecverNoEmptyPiece(f, sys.r, sign, from, time, m);
    case _ =>
  }

  lemma {:induction false} NoEmptyPieceAlways(f: seq<Byte>, sys: Sys, run: seq<Event>)
    requires Accepted(f) && |f| % 1024 != 0 && Safe(f, sys) && NoEmptyPiece(f, sys)
    requires Possible(f, sys, run) && NoneServed(f, sys, run)
    ensures NoEmptyPiece(f, After(f, sys, run))
    decreases |run|
  {
    if run == [] {
    } else {
      StepSafe(f, sys, run[0]);
      NoEmptyPieceKept(f, sys, run[0]);
      NoEmptyPieceAlways(f, Apply(f, sys, run[0]), run[1..]);
    }
  }

  /** In a run in which no retransmission request is served, a finished download is f itself, byte for byte and
      without padding. */
  lemma ExactWithoutRetransmission(f: seq<Byte>, sys: Sys, run: seq<Event>)
    requires Accepted(f) && Initial(sys) && Possible(f, sys, run) && NoneServed(f, sys, run)
    ensures var end := After(f, sys, run);
      end.r.writer.Some? && !end.r.writer.value.open ==> end.r.writer.value.out.bytes == f
  {
    EndToEnd(f, sys, run);
    SafeAlways(f, sys, run);
    if |f| % 1024 == 0 {
      assert Offset(PieceCount(f)) == |f|;
    } else {
      NoEmptyPieceAlways(f, sys, run);
    }
  }

  // Padding, in every run.

  /** The downloader takes in the empty piece N before a short last piece. */
  predicate TakesEmptyFirst(f: seq<Byte>, sys: Sys, e: Event)
    requires Enabled(f, sys, e)
  {
    && e.ToRecver? && sys.r.state == RecvFile && sys.r.writer.Some?
    && var m, w := sys.toRecver[e.i], sys.r.writer.value;
    m.DataStream? && m.pieceNum <= w.cur + 1024 && Overtakes(f, w, m.pieceNum)
  }

  /** The downloader starts a file, or a new downloader takes its place. */
  predicate StartsAfresh(f: seq<Byte>, sys: Sys, e: Event)
    requires Enabled(f, sys, e)
  {
    e.NewRecver? || (sys.r.state != RecvFile && Apply(f, sys, e).r.state == RecvFile)
  }

  /** In the run the empty piece N was taken in before a short last piece, into the file the downloader has at the
      end. */
  predicate OvertakenIn(f: seq<Byte>, sys: Sys, run: seq<Event>, before: bool)
    requires Possible(f, sys, run)
    decreases |run|
  {
    if run == [] then before
    else
      var e := run[0];
      OvertakenIn(f, Apply(f, sys, e), run[1..], (before || TakesEmptyFirst(f, sys, e)) && !StartsAfresh(f, sys, e))
  }

  predicate HasPadded(f: seq<Byte>, r: Receiver) { r.writer.Some? && Padded(f, r.writer.value) }

  lemma RecverPads(f: seq<Byte>, r: Receiver, sign: Sign, from: Addr, time: int, m: Msg)
    requires Accepted(f) && RecverOk(f, r) && (Genuine(f, m) || Handshake(f, m))
    ensures var r' := GetConn.Handle(r, sign, from, time, m).0;
      HasPadded(f, r') <==>
        && (r.state != RecvFile ==> r'.state != RecvFile)
        && (HasPadded(f, r)
            || (r.state == RecvFile && m.DataStream? && m.pieceNum <= r.writer.value.cur + 1024
                && Overtakes(f, r.writer.value, m.pieceNum)))
  {
    hide Counted, Write;
    match m
    case HelloReply => NewWriterLedger(f);
    case DataStream(piece, _) =>
      if r.state == RecvFile {
        WriteGenuine(f, r.writer.value, piece);
      }
    case _ =>
  }

  lemma StepPads(f: seq<Byte>, sys: Sys, e: Event)
    requires Accepted(f) && Safe(f, sys) && Enabled(f, sys, e)
    ensures HasPadded(f, Apply(f, sys, e).r) <==>
      (HasPadded(f, sys.r) || TakesEmptyFirst(f, sys, e)) && !StartsAfresh(f, sys, e)
  {
    hide SendConn.Handle, GetConn.Handle, RunClosure, RetranReq, Ledger, Padded, Overtakes, SenderOk;
    match e
    case ToRecver(i, from, time) => RecverPads(f, sys.r, ClientSign, from, time, sys.toRecver[i]);
    case RecverHears(sign, from, time, m) => RecverPads(f, sys.r, sign, from, time, m);
    case _ =>
  }

  lemma {:induction false} RunPads(f: seq<Byte>, sys: Sys, run: seq<Event>)
    requires Accepted(f) && Safe(f, sys) && Possible(f, sys, run)
    ensures HasPadded(f, After(f, sys, run).r) <==> OvertakenIn(f, sys, run, HasPadded(f, sys.r))
    decreases |run|
  {
    if run == [] {
    } else {
      StepSafe(f, sys, run[0]);
      StepPads(f, sys, run[0]);
      hide Safe, HasPadded, TakesEmptyFirst, StartsAfresh, Apply;
      RunPads(f, Apply(f, sys, run[0]), run[1..]);
    }
  }

  /** In every run a finished file is f itself if and only if the empty piece N was not taken in before a short last
      piece. */
  lemma ExactIffNotOvertaken(f: seq<Byte>, sys: Sys, run: seq<Event>)
    requires Accepted(f) && Initial(sys) && Possible(f, sys, run)
    ensures var end := After(f, sys, run);
      end.r.writer.Some? && !end.r.writer.value.open ==>
        (end.r.writer.value.out.bytes == f <==> !OvertakenIn(f, sys, run, false))
  {
    RunPads(f, sys, run);
    EndToEnd(f, sys, run);
  }
}
