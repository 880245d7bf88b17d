/** The losses that waiting does not repair: the network, the event loop and all timers go on for ever and the file is
    never finished, unless somebody asks the server for it again. There are three kinds, and Rescue shows that there are
    no others. */
module Unrecovered {
  import opened Pieces
  import opened Messages
  import opened SendFile
  import opened GetFile
  import opened FileLedger
  import opened SendConn
  import opened GetConn
  import opened Transfer
  import opened Session

  /** Everything but a new downloader, and the server's announcement of one to a sharer that is free. */
  predicate Waiting(sys: Sys, e: Event) {
    !e.NewRecver? && !(e.SenderHears? && e.m.FileReq? && sys.s.state == WaitRecver)
  }

  predicate AllWaiting(f: seq<Byte>, sys: Sys, run: seq<Event>)
    requires Possible(f, sys, run)
    decreases |run|
  {
    run == [] || (Waiting(sys, run[0]) && AllWaiting(f, Apply(f, sys, run[0]), run[1..]))
  }

  /** Nobody asks for the file, whatever the state of the sharer. */
  predicate NobodyAsks(run: seq<Event>) {
    forall i :: 0 <= i < |run| ==> !run[i].NewRecver? && !(run[i].SenderHears? && run[i].m.FileReq?)
  }

  lemma {:induction false} NobodyAsksWaits(f: seq<Byte>, sys: Sys, run: seq<Event>)
    requires Possible(f, sys, run) && NobodyAsks(run)
    ensures AllWaiting(f, sys, run)
    decreases |run|
  {
    if run == [] {
    } else {
      hide Apply;
      NobodyAsksWaits(f, Apply(f, sys, run[0]), run[1..]);
    }
  }

  /** The sharer is sending, or will be when the downloader answers its greeting. */
  predicate Engaged(s: Sender) { s.state == SendingFile || s.state == ConnRecver }

  predicate NoPieces(ms: seq<Msg>) { forall i :: 0 <= i < |ms| ==> !ms[i].DataStream? }

  predicate NoneAnnounced(ms: seq<Msg>) { forall i :: 0 <= i < |ms| ==> !ms[i].FileReq? }

  predicate CreditsOrGreetings(ms: seq<Msg>) { forall i :: 0 <= i < |ms| ==> ms[i].PackAck? || Greeting(ms[i]) }

  /** Credits, greetings, and requests for pieces below cur. */
  predicate CreditsOrBelow(ms: seq<Msg>, cur: nat) {
    forall i :: 0 <= i < |ms| ==> ms[i].PackAck? || Greeting(ms[i]) || (ms[i].Retran? && Below(ms[i].pieces, cur))
  }

  /** The sharer has ended the session, and waits for the server to announce a downloader. */
  predicate Unheard(sys: Sys) {
    !Engaged(sys.s) && sys.s.queue == [] && NoPieces(sys.toRecver) && NoneAnnounced(sys.toSender)
  }

  /** The downloader misses nothing below its next piece and waits for that, so it only returns credits; they set off
      nothing, since the sharer's stream has failed or has never been started. */
  predicate Silenced(f: seq<Byte>, sys: Sys) {
    && Engaged(sys.s) && (sys.s.reader.Failed? || !sys.s.full) && sys.s.queue == []
    && NoPieces(sys.toRecver) && CreditsOrGreetings(sys.toSender)
    && sys.r.writer.Some? && sys.r.writer.value.cur < PieceCount(f) && sys.r.writer.value.loss == {}
  }

  /** No piece is in flight, and none is going to be sent. */
  predicate Mute(f: seq<Byte>, sys: Sys) { Unheard(sys) || Silenced(f, sys) }

  predicate Beyond(k: nat, cur: nat) { k < cur || k > cur + 1024 }

  predicate AllBeyond(ms: seq<Msg>, cur: nat) {
    forall i :: 0 <= i < |ms| && ms[i].DataStream? ==> Beyond(ms[i].pieceNum, cur)
  }

  predicate LossesBelow(queue: seq<Closure>, cur: nat) {
    forall i :: 0 <= i < |queue| && queue[i].LossNext? ==> Below(queue[i].pieces, cur)
  }

  /** The sharer's stream is more than 1024 pieces ahead: whatever it sends is refused as LOSS_HEAVY, and requests
      reach only pieces below the downloader's next one. */
  predicate OutOfReach(f: seq<Byte>, sys: Sys) {
    && Engaged(sys.s) && sys.r.writer.Some?
    && var cur := sys.r.writer.value.cur;
    && cur < PieceCount(f) && sys.s.reader.cur > cur + 1024 && CreditsOrBelow(sys.toSender, cur)
    && AllBeyond(sys.toRecver, cur) && LossesBelow(sys.s.queue, cur)
  }

  predicate NoneNumbered(ms: seq<Msg>, p: nat) {
    forall i :: 0 <= i < |ms| && ms[i].DataStream? ==> ms[i].pieceNum != p
  }

  /** What is left on the event loop of a session that has ended will not send piece p: the stream has started again,
      and the window lets it go no further than piece 29. */
  predicate WillNotSend(s: Sender, p: nat) {
    && !Engaged(s) && s.reader.cur <= s.window && p >= 30
    && forall i :: 0 <= i < |s.queue| && s.queue[i].LossNext? ==> p !in s.queue[i].pieces
  }

  /** Piece p is missing, not in flight, and will not be sent. */
  predicate Lacks(f: seq<Byte>, sys: Sys, p: nat) {
    && p < PieceCount(f) && WillNotSend(sys.s, p) && NoneNumbered(sys.toRecver, p) && NoneAnnounced(sys.toSender)
    && sys.r.writer.Some? && !Held(sys.r.writer.value, p)
  }

  /** What OutOfReach becomes when the sharer finds the downloader silent. */
  ghost predicate Abandoned(f: seq<Byte>, sys: Sys) { exists p: nat :: Lacks(f, sys, p) }

  ghost predicate Hopeless(f: seq<Byte>, sys: Sys) {
    sys.r.state == RecvFile && (Mute(f, sys) || OutOfReach(f, sys) || Abandoned(f, sys))
  }

  // What the peers do with a message, with a closure and with a tick.

  lemma {:induction false} NothingListed(n: nat)
    ensures Listed({}, n) == []
  {
    if n == 0 {
    } else {
      NothingListed(n - 1);
    }
  }

  lemma AsksBelow(f: seq<Byte>, r: Receiver, now: int)
    requires RecverOk(f, r) && r.writer.Some?
    ensures CreditsOrBelow(RetranReq(r, now), r.writer.value.cur) && NoneAnnounced(RetranReq(r, now))
    ensures r.writer.value.loss == {} ==> CreditsOrGreetings(RetranReq(r, now))
  {
    var w := r.writer.value;
    ListedBelow(f, w, w.cur);
    if w.loss == {} {
      NothingListed(w.cur);
    }
    hide Ledger, Listed;
  }

  /** What is not a piece leaves the file alone. */
  lemma FileUntouched(r: Receiver, sign: Sign, from: Addr, time: int, m: Msg)
    requires r.state == RecvFile && !m.DataStream?
    ensures var (r', out) := GetConn.Handle(r, sign, from, time, m);
      r'.state == RecvFile && r'.writer == r.writer && (out == [] || out == [HelloReply])
  {
  }

  /** A greeting, or a message of the server other than a FILE_REQ that finds the sharer free, leaves its stream
      alone. */
  lemma SmallTalk(f: seq<Byte>, s: Sender, sign: Sign, from: Addr, time: int, m: Msg)
    requires Handshake(f, m) && !(m.FileReq? && s.state == WaitRecver)
    ensures var (s', out) := SendConn.Handle(f, s, sign, from, time, m);
      && s'.reader == s.reader && s'.window == s.window && s'.full == s.full && s'.queue == s.queue
      && (Engaged(s) <==> Engaged(s')) && (out == [] || out == [HelloReply])
  {
  }

  /** A sharer that is not engaged leaves its stream alone whatever the downloader sends. */
  lemma UnheardTalk(f: seq<Byte>, s: Sender, sign: Sign, from: Addr, time: int, m: Msg)
    requires !Engaged(s) && !(m.FileReq? && s.state == WaitRecver)
    ensures var (s', out) := SendConn.Handle(f, s, sign, from, time, m);
      && s'.reader == s.reader && s'.window == s.window && s'.full == s.full && s'.queue == s.queue
      && !Engaged(s') && (out == [] || out == [HelloReply])
  {
  }

  /** Credits set nothing off. */
  lemma CreditsIgnored(f: seq<Byte>, s: Sender, from: Addr, time: int, nums: nat)
    requires Engaged(s) && (s.reader.Failed? || !s.full)
    ensures var (s', out) := SendConn.Handle(f, s, ClientSign, from, time, PackAck(nums));
      out == [] && Engaged(s') && s'.reader == s.reader && s'.queue == s.queue && (!s.full ==> !s'.full)
  {
  }

  // Nothing is in flight and nothing is going to be sent.

  lemma UnheardKept(f: seq<Byte>, sys: Sys, e: Event)
    requires Safe(f, sys) && sys.r.state == RecvFile && Unheard(sys) && Enabled(f, sys, e) && Waiting(sys, e)
    ensures var sys' := Apply(f, sys, e);
      Unheard(sys') && sys'.r.state == RecvFile && sys'.r.writer == sys.r.writer
  {
    hide SendConn.Handle, GetConn.Handle, RetranReq, Ledger;
    match e
    case ToSender(i, from, time) => UnheardTalk(f, sys.s, ClientSign, from, time, sys.toSender[i]);
    case SenderHears(sign, from, time, m) => UnheardTalk(f, sys.s, sign, from, time, m);
    case ToRecver(i, from, time) => FileUntouched(sys.r, ClientSign, from, time, sys.toRecver[i]);
    case RecverHears(sign, from, time, m) => FileUntouched(sys.r, sign, from, time, m);
    case RetranTimer(now) => AsksBelow(f, sys.r, now);
    case _ =>
  }

  lemma SilencedHears(f: seq<Byte>, sys: Sys, i: nat, from: Addr, time: int)
    requires sys.r.state == RecvFile && Silenced(f, sys) && i < |sys.toSender|
    ensures var sys' := Apply(f, sys, ToSender(i, from, time)); Silenced(f, sys') && sys'.r == sys.r
  {
    hide SendConn.Handle, Engaged;
    var m := sys.toSender[i];
    if m.PackAck? {
      CreditsIgnored(f, sys.s, from, time, m.nums);
    } else {
      SmallTalk(f, sys.s, ClientSign, from, time, m);
    }
  }

  lemma SilencedKept(f: seq<Byte>, sys: Sys, e: Event)
    requires Safe(f, sys) && sys.r.state == RecvFile && Silenced(f, sys) && Enabled(f, sys, e) && Waiting(sys, e)
    ensures var sys' := Apply(f, sys, e);
      Mute(f, sys') && sys'.r.state == RecvFile && sys'.r.writer == sys.r.writer
  {
    hide SendConn.Handle, GetConn.Handle, RetranReq, Ledger;
    match e
    case ToSender(i, from, time) => SilencedHears(f, sys, i, from, time);
    case SenderHears(sign, from, time, m) => SmallTalk(f, sys.s, sign, from, time, m);
    case ToRecver(i, from, time) => FileUntouched(sys.r, ClientSign, from, time, sys.toRecver[i]);
    case RecverHears(sign, from, time, m) => FileUntouched(sys.r, sign, from, time, m);
    case RetranTimer(now) => AsksBelow(f, sys.r, now);
    case _ =>
  }

  lemma MuteKept(f: seq<Byte>, sys: Sys, e: Event)
    requires Safe(f, sys) && sys.r.state == RecvFile && Mute(f, sys) && Enabled(f, sys, e) && Waiting(sys, e)
    ensures var sys' := Apply(f, sys, e); Mute(f, sys') && sys'.r.state == RecvFile && sys'.r.writer == sys.r.writer
  {
    if Unheard(sys) {
      UnheardKept(f, sys, e);
    } else {
      SilencedKept(f, sys, e);
    }
    hide Apply, Safe, Waiting, Unheard, Silenced;
  }

  // The stream is too far ahead.

  /** What a sharer out of reach can still do: the stream goes on ahead, and requests are answered below cur. */
  predicate StaysAhead(s: Sender, out: seq<Msg>, cur: nat) {
    Engaged(s) && s.reader.cur > cur + 1024 && AllBeyond(out, cur) && LossesBelow(s.queue, cur)
  }

  lemma StreamStaysAhead(f: seq<Byte>, s: Sender, cur: nat)
    requires StaysAhead(s, [], cur)
    ensures var (s', out) := SendFileStream(f, s); StaysAhead(s', out, cur)
  {
  }

  lemma LossStaysAhead(f: seq<Byte>, s: Sender, pieces: seq<nat>, cur: nat)
    requires StaysAhead(s, [], cur) && Below(pieces, cur)
    ensures var (s', out) := SendLossPieces(f, s, pieces); StaysAhead(s', out, cur)
  {
  }

  lemma HandleStaysAhead(f: seq<Byte>, s: Sender, from: Addr, time: int, m: Msg, cur: nat)
    requires StaysAhead(s, [], cur)
    requires m.PackAck? || Greeting(m) || (m.Retran? && Below(m.pieces, cur))
    ensures var (s', out) := SendConn.Handle(f, s, ClientSign, from, time, m); StaysAhead(s', out, cur)
  {
    hide SendFileStream, SendLossPieces;
    match m
    case PackAck(nums) =>
      StreamStaysAhead(f, s.(window := if nums <= s.window then s.window - nums else 0, full := false), cur);
    case Retran(pieces) =>
      assert pieces != [] ==> pieces[0] < cur;
      LossStaysAhead(f, s, Decoded(pieces), cur);
    case _ =>
  }

  lemma ClosureStaysAhead(f: seq<Byte>, s: Sender, cur: nat)
    requires StaysAhead(s, [], cur) && s.queue != []
    ensures var (s', out) := RunClosure(f, s); StaysAhead(s', out, cur)
  {
    hide SendFileStream, SendLossPieces;
    var s1 := s.(queue := s.queue[1..]);
    match s.queue[0]
    case StreamNext => StreamStaysAhead(f, s1, cur);
    case LossNext(pieces) => LossStaysAhead(f, s1, pieces, cur);
  }

  /** A piece that is not the next one, nor within reach, leaves the downloader where it is. */
  lemma RefusedOrOld(f: seq<Byte>, r: Receiver, from: Addr, time: int, m: Msg)
    requires Accepted(f) && RecverOk(f, r) && r.state == RecvFile && Genuine(f, m) && m.DataStream?
    requires r.writer.value.cur < PieceCount(f) && Beyond(m.pieceNum, r.writer.value.cur)
    ensures var (r', out) := GetConn.Handle(r, ClientSign, from, time, m);
      && r'.state == RecvFile && r'.writer.Some? && r'.writer.value.cur == r.writer.value.cur
      && forall i :: 0 <= i < |out| ==> out[i].PackAck?
  {
    WriteGenuine(f, r.writer.value, m.pieceNum);
    hide Counted, Padded, Overtakes, Delivered, Write;
  }

  lemma OutOfReachReceives(f: seq<Byte>, sys: Sys, i: nat, from: Addr, time: int)
    requires Accepted(f) && Safe(f, sys) && sys.r.state == RecvFile && OutOfReach(f, sys) && i < |sys.toRecver|
    ensures var sys' := Apply(f, sys, ToRecver(i, from, time)); OutOfReach(f, sys') && sys'.r.state == RecvFile
  {
    var m := sys.toRecver[i];
    if m.DataStream? {
      RefusedOrOld(f, sys.r, from, time, m);
    } else {
      FileUntouched(sys.r, ClientSign, from, time, m);
    }
    hide GetConn.Handle, Ledger, InStep, Engaged;
  }

  /** A silence ends the session, and then the piece 1024 after the downloader's next one is not going to be sent. */
  lemma SilenceAbandons(f: seq<Byte>, sys: Sys, now: int)
    requires Safe(f, sys) && sys.r.state == RecvFile && OutOfReach(f, sys)
    ensures var sys' := Apply(f, sys, SenderTimer(now)); OutOfReach(f, sys') || Abandoned(f, sys')
  {
    var sys', p := Apply(f, sys, SenderTimer(now)), sys.r.writer.value.cur + 1024;
    if sys'.s.state == WaitRecver {
      assert Lacks(f, sys', p);
    }
  }

  lemma OutOfReachKept(f: seq<Byte>, sys: Sys, e: Event)
    requires Accepted(f) && Safe(f, sys) && sys.r.state == RecvFile && OutOfReach(f, sys)
    requires Enabled(f, sys, e) && Waiting(sys, e)
    ensures var sys' := Apply(f, sys, e);
      (OutOfReach(f, sys') || (e.SenderTimer? && Abandoned(f, sys'))) && sys'.r.state == RecvFile
  {
    hide SendConn.Handle, GetConn.Handle, RunClosure, RetranReq, Ledger, InStep, Lacks;
    var cur := sys.r.writer.value.cur;
    match e
    case ToSender(i, from, time) => HandleStaysAhead(f, sys.s, from, time, sys.toSender[i], cur);
    case SenderHears(sign, from, time, m) => SmallTalk(f, sys.s, sign, from, time, m);
    case RunLoop => ClosureStaysAhead(f, sys.s, cur);
    case ToRecver(i, from, time) => OutOfReachReceives(f, sys, i, from, time);
    case RecverHears(sign, from, time, m) => FileUntouched(sys.r, sign, from, time, m);
    case RetranTimer(now) => AsksBelow(f, sys.r, now);
    case SenderTimer(now) => SilenceAbandons(f, sys, now);
    case _ =>
  }

  // What a silence leaves on the event loop.

  lemma ClosureWillNotSend(f: seq<Byte>, s: Sender, p: nat)
    requires WillNotSend(s, p) && s.queue != []
    ensures var (s', out) := RunClosure(f, s); WillNotSend(s', p) && NoneNumbered(out, p)
  {
  }

  /** While a piece is missing the file stays open. */
  lemma OtherPiece(f: seq<Byte>, r: Receiver, from: Addr, time: int, m: Msg, p: nat)
    requires Accepted(f) && RecverOk(f, r) && r.state == RecvFile && Genuine(f, m) && m.DataStream? && m.pieceNum != p
    requires p < PieceCount(f) && !Held(r.writer.value, p)
    ensures var (r', out) := GetConn.Handle(r, ClientSign, from, time, m);
      && r'.state == RecvFile && r'.writer.Some? && !Held(r'.writer.value, p)
      && forall i :: 0 <= i < |out| ==> out[i].PackAck?
  {
    WriteGenuine(f, r.writer.value, m.pieceNum);
    hide Counted, Padded, Overtakes, Delivered, Write;
  }

  lemma LacksReceives(f: seq<Byte>, sys: Sys, i: nat, from: Addr, time: int, p: nat)
    requires Accepted(f) && Safe(f, sys) && sys.r.state == RecvFile && Lacks(f, sys, p) && i < |sys.toRecver|
    ensures var sys' := Apply(f, sys, ToRecver(i, from, time)); Lacks(f, sys', p) && sys'.r.state == RecvFile
  {
    var m := sys.toRecver[i];
    if m.DataStream? {
      OtherPiece(f, sys.r, from, time, m, p);
    } else {
      FileUntouched(sys.r, ClientSign, from, time, m);
    }
    hide GetConn.Handle, Ledger, InStep, WillNotSend;
  }

  lemma LacksKept(f: seq<Byte>, sys: Sys, e: Event, p: nat)
    requires Accepted(f) && Safe(f, sys) && sys.r.state == RecvFile && Lacks(f, sys, p)
    requires Enabled(f, sys, e) && Waiting(sys, e)
    ensures var sys' := Apply(f, sys, e); Lacks(f, sys', p) && sys'.r.state == RecvFile
  {
    hide SendConn.Handle, GetConn.Handle, RunClosure, RetranReq, Ledger, InStep;
    match e
    case ToSender(i, from, time) => UnheardTalk(f, sys.s, ClientSign, from, time, sys.toSender[i]);
    case SenderHears(sign, from, time, m) => UnheardTalk(f, sys.s, sign, from, time, m);
    case RunLoop => ClosureWillNotSend(f, sys.s, p);
    case ToRecver(i, from, time) => LacksReceives(f, sys, i, from, time, p);
    case RecverHears(sign, from, time, m) => FileUntouched(sys.r, sign, from, time, m);
    case RetranTimer(now) => AsksBelow(f, sys.r, now);
    case _ =>
  }

  lemma HopelessKept(f: seq<Byte>, sys: Sys, e: Event)
    requires Accepted(f) && Safe(f, sys) && Hopeless(f, sys) && Enabled(f, sys, e) && Waiting(sys, e)
    ensures var sys' := Apply(f, sys, e);
      Safe(f, sys') && Hopeless(f, sys') && (Mute(f, sys) ==> Mute(f, sys') && sys'.r.writer == sys.r.writer)
  {
    StepSafe(f, sys, e);
    hide Safe, Apply, Mute, Lacks, OutOfReach, Waiting;
    if Mute(f, sys) {
      MuteKept(f, sys, e);
    } else if OutOfReach(f, sys) {
      OutOfReachKept(f, sys, e);
    } else {
      var p: nat :| Lacks(f, sys, p);
      LacksKept(f, sys, e, p);
    }
  }

  /** A hopeless download is never finished by waiting, whatever the network does and however often the timers fire. If
      the sharer is mute, the file on disk does not even change. */
  lemma {:induction false} NeverFinished(f: seq<Byte>, sys: Sys, run: seq<Event>)
    requires Accepted(f) && Safe(f, sys) && Hopeless(f, sys) && Possible(f, sys, run) && AllWaiting(f, sys, run)
    ensures var end := After(f, sys, run);
      && Safe(f, end) && Hopeless(f, end) && !Done(f, end)
      && end.r.writer.Some? && end.r.writer.value.open && !Complete(f, end.r.writer.value)
      && (Mute(f, sys) ==> end.r.writer == sys.r.writer)
    decreases |run|
  {
    if run == [] {
    } else {
      HopelessKept(f, sys, run[0]);
      hide Hopeless, Safe, Mute, Apply, Waiting;
      NeverFinished(f, Apply(f, sys, run[0]), run[1..]);
    }
  }
}
