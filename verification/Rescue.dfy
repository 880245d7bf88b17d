/** Which downloads at rest the timer can finish: a condition on the two peers that is necessary and sufficient. */
module Rescue {
  import opened Pieces
  import opened Messages
  import opened SendFile
  import opened GetFile
  import opened FileLedger
  import opened SendConn
  import opened GetConn
  import opened Transfer
  import opened Session
  import opened Recovery
  import opened Unrecovered

  /** A download at rest with the file incomplete. */
  ghost predicate Resting(f: seq<Byte>, sys: Sys) { Safe(f, sys) && Quiescent(sys) && sys.r.state == RecvFile }

  /** The downloader knows of every piece that is missing, or it can set the sharer off and the stream goes on within
      its reach: it has a piece to ask for, or the stream waits for credits. */
  predicate Promising(f: seq<Byte>, sys: Sys) {
    && sys.r.writer.Some?
    && var w := sys.r.writer.value;
    || w.cur >= PieceCount(f)
    || ((w.loss != {} || (sys.s.full && sys.s.reader.Live?)) && sys.s.reader.cur <= w.cur + 1024)
  }

  /** The timer can finish the download: the sharer is sending. */
  predicate Mendable(f: seq<Byte>, sys: Sys) { sys.s.state == SendingFile && Promising(f, sys) }

  /** The download can be finished: the sharer is sending, or will be when the downloader answers its greeting. */
  predicate Recoverable(f: seq<Byte>, sys: Sys) { Engaged(sys.s) && Promising(f, sys) }

  // What the pieces in flight will do, delivered in order.

  function Bump(cur: nat, m: Msg): nat { if m.DataStream? && m.pieceNum >= cur then m.pieceNum + 1 else cur }

  /** The downloader's next piece when ms has been delivered. */
  function Promised(ms: seq<Msg>, cur: nat): nat {
    if ms == [] then cur else Promised(ms[1..], Bump(cur, ms[0]))
  }

  /** No piece of ms will be refused. */
  predicate InReach(ms: seq<Msg>, cur: nat) {
    ms == [] || (ms[0].DataStream? && ms[0].pieceNum <= cur + 1024 && InReach(ms[1..], Bump(cur, ms[0])))
  }

  lemma {:induction false} PromisedGrows(ms: seq<Msg>, cur: nat)
    ensures Promised(ms, cur) >= cur
  {
    if ms == [] {
    } else {
      PromisedGrows(ms[1..], Bump(cur, ms[0]));
    }
  }

  lemma {:induction false} PromisedAppend(ms: seq<Msg>, m: Msg, cur: nat)
    requires InReach(ms, cur)
    ensures Promised(ms + [m], cur) == Bump(Promised(ms, cur), m)
    ensures m.DataStream? && m.pieceNum <= Promised(ms, cur) + 1024 ==> InReach(ms + [m], cur)
  {
    if ms == [] {
      assert [m][1..] == [];
    } else {
      PromisedAppend(ms[1..], m, Bump(cur, ms[0]));
      assert (ms + [m])[1..] == ms[1..] + [m];
    }
  }

  // One round.

  /** Credits, and requests for pieces below cur. */
  predicate OnlyPleas(ms: seq<Msg>, cur: nat) {
    forall i :: 0 <= i < |ms| ==> ms[i].PackAck? || (ms[i].Retran? && Below(ms[i].pieces, cur))
  }

  /** A request that has not reached the sharer. */
  predicate Asked(ms: seq<Msg>) { exists i :: 0 <= i < |ms| && ms[i].Retran? && ms[i].pieces != [] }

  /** The sharer's part of the invariant of a round, c being the downloader's promised next piece: the stream is within
      reach; what is asked for lies below c; the stream has failed only at the end or before the request; and the sharer
      is at work, or waits for credits, or has the request to come. */
  ghost predicate Mending(f: seq<Byte>, s: Sender, c: nat, asked: bool) {
    && SenderOk(f, s) && s.state == SendingFile && s.reader.cur <= c + 1024
    && (forall i :: 0 <= i < |s.queue| && s.queue[i].LossNext? ==> Below(s.queue[i].pieces, c))
    && (s.reader.Failed? ==> c >= PieceCount(f) || (asked && s.window < 30))
    && (s.full || s.queue != [] || asked)
  }

  /** At most one piece is sent, within reach of c. */
  ghost predicate SendsWithin(f: seq<Byte>, out: seq<Msg>, c: nat) {
    out == [] || (|out| == 1 && out[0].DataStream? && out[0].pieceNum <= c + 1024)
  }

  function Raised(out: seq<Msg>, c: nat): nat { if out == [] then c else Bump(c, out[0]) }

  lemma StreamMends(f: seq<Byte>, s: Sender, c: nat, asked: bool)
    requires Accepted(f) && Mending(f, s.(full := true), c, asked)
    ensures var (s', out) := SendFileStream(f, s);
      SendsWithin(f, out, c) && Mending(f, s', Raised(out, c), asked) && s'.reader.cur >= s.reader.cur
  {
    StreamSafe(f, s);
    if s.reader.Live? {
      NextPieceInStep(f, s.reader);
    }
  }

  lemma LossMends(f: seq<Byte>, s: Sender, pieces: seq<nat>, c: nat, asked: bool)
    requires Accepted(f) && Mending(f, s.(full := true), c, asked) && Requestable(f, pieces) && Below(pieces, c)
    ensures var (s', out) := SendLossPieces(f, s, pieces);
      && SendsWithin(f, out, c) && Mending(f, s', Raised(out, c), asked) && s'.reader.cur == s.reader.cur
      && (pieces != [] ==> Mending(f, s', Raised(out, c), false))
      && (pieces != [] && s.window < 30 ==> InFlight(f, out, pieces[|pieces| - 1]))
  {
    LossSafe(f, s, pieces);
    if pieces != [] {
      PieceOfInStep(f, s.reader, pieces[|pieces| - 1]);
    }
  }

  /** A credit or a request reaches the sharer. */
  lemma HandleMends(f: seq<Byte>, s: Sender, from: Addr, time: int, m: Msg, c: nat, asked: bool)
    requires Accepted(f) && Mending(f, s, c, asked || (m.Retran? && m.pieces != []))
    requires m.PackAck? || (m.Retran? && Below(m.pieces, c) && Requestable(f, m.pieces))
    ensures var (s', out) := SendConn.Handle(f, s, ClientSign, from, time, m);
      SendsWithin(f, out, c) && Mending(f, s', Raised(out, c), asked) && s'.reader.cur >= s.reader.cur
  {
    hide SendFileStream, SendLossPieces, InStep;
    match m
    case PackAck(nums) =>
      if s.full {
        StreamMends(f, s.(window := if nums <= s.window then s.window - nums else 0, full := false), c, asked);
      }
    case Retran(pieces) =>
      assert pieces != [] ==> pieces[0] < c;
      DecodedRequestable(f, pieces);
      LossMends(f, s, Decoded(pieces), c, asked || pieces != []);
  }

  lemma ClosureMends(f: seq<Byte>, s: Sender, c: nat, asked: bool)
    requires Accepted(f) && Mending(f, s, c, asked) && s.queue != []
    ensures var (s', out) := RunClosure(f, s);
      SendsWithin(f, out, c) && Mending(f, s', Raised(out, c), asked) && s'.reader.cur >= s.reader.cur
  {
    hide SendFileStream, SendLossPieces, InStep;
    var s1 := s.(queue := s.queue[1..]);
    match s.queue[0]
    case StreamNext => StreamMends(f, s1, c, asked);
    case LossNext(pieces) => LossMends(f, s1, pieces, c, asked);
  }

  /** The invariant of a round, from the arrival of the credits on. */
  ghost predicate Answered(f: seq<Byte>, sys: Sys) {
    && Safe(f, sys) && sys.r.state == RecvFile && InReach(sys.toRecver, sys.r.writer.value.cur)
    && var c := Promised(sys.toRecver, sys.r.writer.value.cur);
    OnlyPleas(sys.toSender, c) && Mending(f, sys.s, c, Asked(sys.toSender))
  }

  /** What a round achieves: the stream goes on from piece n, or the downloader's next piece moves on from n, or piece
      p is restored; in flight it is as good as achieved. */
  datatype Goal = Begun | StreamOn(n: nat) | MovedOn(n: nat) | Restored(p: nat)

  ghost predicate Achieved(f: seq<Byte>, sys: Sys, g: Goal)
    requires sys.r.writer.Some?
  {
    match g
    case Begun => true
    case StreamOn(n) => sys.s.reader.cur > n
    case MovedOn(n) => Promised(sys.toRecver, sys.r.writer.value.cur) > n
    case Restored(p) => Held(sys.r.writer.value, p) || (p < sys.r.writer.value.cur && InFlight(f, sys.toRecver, p))
  }

  /** What has happened since the sharer was at piece cur0 and the downloader's file was w0. */
  ghost predicate Since(sys: Sys, cur0: nat, w0: Writer)
    requires sys.r.writer.Some?
  {
    var w := sys.r.writer.value;
    sys.s.reader.cur >= cur0 && w.cur >= w0.cur && (w.cur == w0.cur ==> w.loss <= w0.loss)
  }

  /** A goal that means progress from sys on. */
  predicate Aims(sys: Sys, g: Goal)
    requires sys.r.writer.Some?
  {
    match g
    case Begun => true
    case StreamOn(n) => n == sys.s.reader.cur
    case MovedOn(n) => n == sys.r.writer.value.cur
    case Restored(p) => p in sys.r.writer.value.loss
  }

  lemma SenderMoves(f: seq<Byte>, sys: Sys, sys': Sys, out: seq<Msg>, g: Goal, cur0: nat, w0: Writer)
    requires Answered(f, sys) && Achieved(f, sys, g) && Since(sys, cur0, w0) && Safe(f, sys')
    requires sys'.r == sys.r && sys'.toRecver == sys.toRecver + out && sys'.s.reader.cur >= sys.s.reader.cur
    requires var c := Promised(sys.toRecver, sys.r.writer.value.cur);
      && OnlyPleas(sys'.toSender, c) && SendsWithin(f, out, c)
      && Mending(f, sys'.s, Raised(out, c), Asked(sys'.toSender))
    ensures Answered(f, sys') && Achieved(f, sys', g) && Since(sys', cur0, w0)
  {
    var cur := sys.r.writer.value.cur;
    if out == [] {
      assert sys'.toRecver == sys.toRecver;
    } else {
      assert out == [out[0]];
      PromisedAppend(sys.toRecver, out[0], cur);
    }
    hide Safe, Mending, InReach, Promised, Asked;
  }

  lemma AskedRest(ms: seq<Msg>)
    requires ms != []
    ensures Asked(ms) <==> (ms[0].Retran? && ms[0].pieces != []) || Asked(ms[1..])
  {
    if Asked(ms) {
      var i :| 0 <= i < |ms| && ms[i].Retran? && ms[i].pieces != [];
      assert i > 0 ==> ms[1..][i - 1] == ms[i];
    }
    if Asked(ms[1..]) {
      var i :| 0 <= i < |ms[1..]| && ms[1..][i].Retran? && ms[1..][i].pieces != [];
      assert ms[i + 1] == ms[1..][i];
    }
  }

  lemma ToSenderMends(f: seq<Byte>, sys: Sys, from: Addr, time: int, g: Goal, cur0: nat, w0: Writer)
    requires Accepted(f) && Answered(f, sys) && Achieved(f, sys, g) && Since(sys, cur0, w0) && sys.toSender != []
    ensures var sys' := Apply(f, sys, ToSender(0, from, time));
      Answered(f, sys') && Achieved(f, sys', g) && Since(sys', cur0, w0)
  {
    var e, m, rest := ToSender(0, from, time), sys.toSender[0], sys.toSender[1..];
    var c := Promised(sys.toRecver, sys.r.writer.value.cur);
    StepSafe(f, sys, e);
    AskedRest(sys.toSender);
    assert m in sys.toSender && Genuine(f, m);
    HandleMends(f, sys.s, from, time, m, c, Asked(rest));
    var did, sys' := SendConn.Handle(f, sys.s, ClientSign, from, time, m), Apply(f, sys, e);
    assert Without(sys.toSender, 0) == rest;
    assert sys' ==
      sys.(s := did.0, toSender := rest, toRecver := sys.toRecver + did.1, lostCredits := sys'.lostCredits);
    hide SendConn.Handle, Safe, Apply, Asked, Promised, InReach, Mending, SendsWithin;
    SenderMoves(f, sys, sys', did.1, g, cur0, w0);
  }

  lemma RunLoopMends(f: seq<Byte>, sys: Sys, g: Goal, cur0: nat, w0: Writer)
    requires Accepted(f) && Answered(f, sys) && Achieved(f, sys, g) && Since(sys, cur0, w0) && sys.s.queue != []
    ensures var sys' := Apply(f, sys, RunLoop); Answered(f, sys') && Achieved(f, sys', g) && Since(sys', cur0, w0)
  {
    var c := Promised(sys.toRecver, sys.r.writer.value.cur);
    StepSafe(f, sys, RunLoop);
    ClosureMends(f, sys.s, c, Asked(sys.toSender));
    var did, sys' := RunClosure(f, sys.s), Apply(f, sys, RunLoop);
    assert sys' == sys.(s := did.0, toRecver := sys.toRecver + did.1);
    hide RunClosure, Safe, Apply, Asked, Promised, InReach, Mending, SendsWithin;
    SenderMoves(f, sys, sys', did.1, g, cur0, w0);
  }

  lemma CreditsOnly(ms: seq<Msg>, out: seq<Msg>, c: nat)
    requires OnlyPleas(ms, c) && OnlyCredits(out)
    ensures OnlyPleas(ms + out, c) && (Asked(ms + out) <==> Asked(ms))
  {
    if Asked(ms) {
      var i :| 0 <= i < |ms| && ms[i].Retran? && ms[i].pieces != [];
      assert (ms + out)[i] == ms[i];
    }
    if Asked(ms + out) {
      var i :| 0 <= i < |ms + out| && (ms + out)[i].Retran? && (ms + out)[i].pieces != [];
      assert i < |ms|;
    }
  }

  /** A piece is written in turn: the goal and the losses. */
  lemma PieceHelps(f: seq<Byte>, sys: Sys, w': Writer, g: Goal, cur0: nat, w0: Writer)
    requires sys.r.writer.Some? && sys.toRecver != [] && sys.toRecver[0].DataStream? && Achieved(f, sys, g)
    requires Since(sys, cur0, w0) && forall p :: p in sys.r.writer.value.loss ==> p < sys.r.writer.value.cur
    requires var w, k := sys.r.writer.value, sys.toRecver[0].pieceNum;
      w'.cur == Bump(w.cur, sys.toRecver[0]) && w'.loss == MissingAfter(w, k)
    ensures w'.cur >= w0.cur && (w'.cur == w0.cur ==> w'.loss <= w0.loss)
    ensures g.Restored? ==> Held(w', g.p) || (g.p < w'.cur && InFlight(f, sys.toRecver[1..], g.p))
  {
    var w, k := sys.r.writer.value, sys.toRecver[0].pieceNum;
    if g.Restored? && !Held(w, g.p) && k != g.p {
      assert DataStream(g.p, Piece(f, g.p)) in sys.toRecver[1..] by {
        assert sys.toRecver == [sys.toRecver[0]] + sys.toRecver[1..];
      }
    }
  }

  lemma ToRecverMends(f: seq<Byte>, sys: Sys, from: Addr, time: int, g: Goal, cur0: nat, w0: Writer)
    requires Accepted(f) && Answered(f, sys) && Achieved(f, sys, g) && Since(sys, cur0, w0) && sys.toRecver != []
    ensures var sys' := Apply(f, sys, ToRecver(0, from, time));
      Done(f, sys') || (Answered(f, sys') && Achieved(f, sys', g) && Since(sys', cur0, w0))
  {
    var e, m, rest, w := ToRecver(0, from, time), sys.toRecver[0], sys.toRecver[1..], sys.r.writer.value;
    StepSafe(f, sys, e);
    assert m in sys.toRecver && Genuine(f, m);
    PieceTaken(f, sys.r, from, time, m.pieceNum);
    var did, sys' := GetConn.Handle(sys.r, ClientSign, from, time, m), Apply(f, sys, e);
    assert Without(sys.toRecver, 0) == rest;
    assert sys' == sys.(r := did.0, toRecver := rest, toSender := sys.toSender + did.1);
    hide GetConn.Handle, Apply, Asked, Mending, Write;
    if sys'.r.state == RecvFile {
      CreditsOnly(sys.toSender, did.1, Promised(sys.toRecver, w.cur));
      PieceHelps(f, sys, sys'.r.writer.value, g, cur0, w0);
    }
  }

  lemma StepMends(f: seq<Byte>, sys: Sys, e: Event, g: Goal, cur0: nat, w0: Writer)
    requires Accepted(f) && Answered(f, sys) && Achieved(f, sys, g) && Since(sys, cur0, w0)
    requires Enabled(f, sys, e) && InTurn(e)
    ensures var sys' := Apply(f, sys, e);
      Done(f, sys') || (Answered(f, sys') && Achieved(f, sys', g) && Since(sys', cur0, w0))
  {
    match e
    case ToSender(_, from, time) => ToSenderMends(f, sys, from, time, g, cur0, w0);
    case ToRecver(_, from, time) => ToRecverMends(f, sys, from, time, g, cur0, w0);
    case RunLoop => RunLoopMends(f, sys, g, cur0, w0);
  }

  lemma {:induction false} RunMends(f: seq<Byte>, sys: Sys, run: seq<Event>, g: Goal, cur0: nat, w0: Writer)
    requires Accepted(f) && Possible(f, sys, run) && forall i :: 0 <= i < |run| ==> InTurn(run[i])
    requires Done(f, sys) || (Answered(f, sys) && Achieved(f, sys, g) && Since(sys, cur0, w0))
    ensures var end := After(f, sys, run);
      Done(f, end) || (Answered(f, end) && Achieved(f, end, g) && Since(end, cur0, w0))
    decreases |run|
  {
    if run == [] {
    } else {
      if Done(f, sys) {
        DoneKept(f, sys, run[0]);
      } else {
        StepMends(f, sys, run[0], g, cur0, w0);
      }
      hide Done, Answered, Achieved, Since, Apply;
      RunMends(f, Apply(f, sys, run[0]), run[1..], g, cur0, w0);
    }
  }

  /** The stream is at the end, and so is the downloader's next piece. */
  predicate AtTail(f: seq<Byte>, sys: Sys)
    requires sys.r.writer.Some?
  {
    sys.s.reader.cur == PieceCount(f) && sys.r.writer.value.cur >= PieceCount(f)
  }

  function Asks(w: Writer): seq<Msg> {
    var list := Listed(w.loss, w.cur);
    if list == [] then [] else [Retran(list)]
  }

  /** If the stream waits for credits, it goes on when the timer's arrive; if not, there is something to ask for. */
  lemma CreditsRouse(f: seq<Byte>, s: Sender, w: Writer, from: Addr, time: int) returns (g: Goal)
    requires Accepted(f) && Ledger(f, w) && w.open && SenderOk(f, s) && s.state == SendingFile && s.queue == []
    requires s.reader.cur <= w.cur + 1024 && (s.reader.cur < PieceCount(f) || w.cur < PieceCount(f))
    requires w.cur >= PieceCount(f) || w.loss != {} || (s.full && s.reader.Live?)
    ensures var (s', out) := SendConn.Handle(f, s, ClientSign, from, time, PackAck(30));
      && SendsWithin(f, out, w.cur) && Mending(f, s', Raised(out, w.cur), w.loss != {}) && s'.reader.cur >= s.reader.cur
      && match g
         case Begun => out == [] && s'.queue == [] && s'.window < 30 && w.loss != {}
         case StreamOn(n) => n == s.reader.cur && s'.reader.cur > n
         case MovedOn(n) => n == w.cur && Raised(out, w.cur) > n
         case Restored(_) => false
  {
    var s1 := s.(window := 0, full := false);
    if s.full && s.reader.Live? {
      StreamMends(f, s1, w.cur, w.loss != {});
      NextPieceInStep(f, s.reader);
      g := if s.reader.cur < PieceCount(f) then StreamOn(s.reader.cur) else MovedOn(w.cur);
    } else {
      g := Begun;
    }
  }

  lemma AsksListed(f: seq<Byte>, w: Writer)
    requires Ledger(f, w)
    ensures Asked(Asks(w)) <==> w.loss != {}
    ensures OnlyPleas(Asks(w), w.cur)
    ensures w.loss != {} ==> Asks(w) == [Retran(Listed(w.loss, w.cur))] && Listed(w.loss, w.cur) != []
  {
    ListedIsAscending(w.loss, w.cur);
    ListedBelow(f, w, w.cur);
    hide Ledger, Listed;
    if w.loss != {} {
      assert Asks(w)[0].Retran?;
    }
  }

  lemma TimerFires(f: seq<Byte>, sys: Sys, now: int)
    requires Accepted(f) && Resting(f, sys) && TimedOut(sys.r, now)
    ensures Apply(f, sys, RetranTimer(now)) == sys.(toSender := [PackAck(30)] + Asks(sys.r.writer.value))
    ensures Safe(f, Apply(f, sys, RetranTimer(now)))
  {
    StepSafe(f, sys, RetranTimer(now));
    hide Ledger, Listed;
  }

  lemma CreditsArriveFirst(f: seq<Byte>, sys: Sys, rest: seq<Msg>, from: Addr, time: int)
    requires Accepted(f) && Safe(f, sys) && sys.toSender == [PackAck(30)] + rest
    ensures var sys', did := Apply(f, sys, ToSender(0, from, time)),
                             SendConn.Handle(f, sys.s, ClientSign, from, time, PackAck(30));
      && Safe(f, sys') && sys'.s == did.0 && sys'.r == sys.r
      && sys'.toSender == rest && sys'.toRecver == sys.toRecver + did.1
  {
    StepSafe(f, sys, ToSender(0, from, time));
    hide SendConn.Handle, Safe;
    assert Without(sys.toSender, 0) == rest;
  }

  lemma FirstSend(f: seq<Byte>, out: seq<Msg>, c: nat)
    requires SendsWithin(f, out, c)
    ensures InReach(out, c) && Promised(out, c) == Raised(out, c)
  {
    if out != [] {
      assert out[1..] == [];
    }
  }

  /** The timer fires and its credits reach the sharer. */
  lemma RoundBegins(f: seq<Byte>, sys: Sys, now: int, from: Addr, time: int) returns (g: Goal)
    requires Accepted(f) && Resting(f, sys) && Mendable(f, sys) && !AtTail(f, sys) && TimedOut(sys.r, now)
    ensures var w, sys1 := sys.r.writer.value, Apply(f, sys, RetranTimer(now));
      && sys1.toSender == [PackAck(30)] + Asks(w) && sys1.toRecver == [] && sys1.s.queue == []
      && var sys2 := Apply(f, sys1, ToSender(0, from, time));
      && Answered(f, sys2) && Achieved(f, sys2, g) && Since(sys2, sys.s.reader.cur, w)
      && sys2.toSender == Asks(w) && sys2.r == sys.r && Aims(sys, g)
      && (g == Begun ==> w.loss != {} && sys2.toRecver == [] && sys2.s.queue == [] && sys2.s.window < 30)
  {
    var w := sys.r.writer.value;
    TimerFires(f, sys, now);
    var sys1 := Apply(f, sys, RetranTimer(now));
    CreditsArriveFirst(f, sys1, Asks(w), from, time);
    AsksListed(f, w);
    g := CreditsRouse(f, sys.s, w, from, time);
    var did := SendConn.Handle(f, sys.s, ClientSign, from, time, PackAck(30));
    FirstSend(f, did.1, w.cur);
    assert [] + did.1 == did.1;
    hide Apply, SendConn.Handle, Asked, Asks, Mending, Safe, InReach, Promised, OnlyPleas;
  }

  lemma LastAsked(f: seq<Byte>, w: Writer) returns (list: seq<nat>)
    requires Ledger(f, w) && w.loss != {}
    ensures Asks(w) == [Retran(list)] && list != [] && list[|list| - 1] in w.loss && Requestable(f, list)
  {
    list := Listed(w.loss, w.cur);
    ListedIsAscending(w.loss, w.cur);
    hide Listed;
    assert forall i :: 0 <= i < |list| ==> list[i] in list;
  }

  lemma RequestArrivesFirst(f: seq<Byte>, sys: Sys, list: seq<nat>, from: Addr, time: int)
    requires sys.toSender == [Retran(list)] && sys.toRecver == []
    ensures var sys' := Apply(f, sys, ToSender(0, from, time));
      sys'.toRecver == SendConn.Handle(f, sys.s, ClientSign, from, time, Retran(list)).1 && sys'.r == sys.r
  {
    hide SendConn.Handle;
  }

  /** Where the credits did not set off the stream, the request is answered with the last piece asked for. */
  lemma RequestServed(f: seq<Byte>, sys: Sys, cur0: nat, from: Addr, time: int) returns (g: Goal)
    requires Accepted(f) && Answered(f, sys) && Since(sys, cur0, sys.r.writer.value)
    requires sys.toRecver == [] && sys.s.window < 30
    requires sys.r.writer.value.loss != {} && sys.toSender == Asks(sys.r.writer.value)
    ensures sys.toSender != []
    ensures var sys', w := Apply(f, sys, ToSender(0, from, time)), sys.r.writer.value;
      Answered(f, sys') && Achieved(f, sys', g) && Since(sys', cur0, w) && g.Restored? && g.p in w.loss
  {
    var w := sys.r.writer.value;
    var list := LastAsked(f, w);
    g := Restored(list[|list| - 1]);
    ServedAtOnce(f, sys.s, list, w.cur, from, time);
    assert g.p < w.cur;
    hide Apply, SendConn.Handle, Asks, Ledger, Mending, InReach, Promised;
    RequestArrivesFirst(f, sys, list, from, time);
    ToSenderMends(f, sys, from, time, Begun, cur0, w);
    hide Answered, Since;
  }

  lemma ServedAtOnce(f: seq<Byte>, s: Sender, list: seq<nat>, c: nat, from: Addr, time: int)
    requires Accepted(f) && SenderOk(f, s) && s.state == SendingFile && s.window < 30
    requires list != [] && Requestable(f, list)
    ensures InFlight(f, SendConn.Handle(f, s, ClientSign, from, time, Retran(list)).1, list[|list| - 1])
  {
    PieceOfInStep(f, s.reader, list[|list| - 1]);
  }

  // The measure that rounds decrease.

  function Left(a: nat, b: nat): nat { if a < b then b - a else 0 }

  function Times(a: nat, n: nat): nat { if a == 0 then 0 else Times(a - 1, n) + n }

  /** Rounds that a download at rest may need: at the tail, one for each missing piece at most; before, the stream or
      the downloader's next piece may have to move on first. */
  function Rank(f: seq<Byte>, sys: Sys): nat
    requires sys.r.writer.Some?
  {
    var n, w := PieceCount(f), sys.r.writer.value;
    if AtTail(f, sys) then |w.loss|
    else n + 1 + Left(sys.s.reader.cur, n) + Times(Left(w.cur, n + 1), n + 1) + |w.loss|
  }

  lemma {:induction false} SpanSize(n: nat)
    ensures |Span(0, n)| == n
  {
    if n == 0 {
    } else {
      SpanSize(n - 1);
    }
  }

  lemma SubsetSize(a: set<nat>, b: set<nat>)
    requires a <= b
    ensures |a| <= |b| && (a != b ==> |a| < |b|)
  {
    assert b == a + (b - a);
  }

  lemma LossSize(f: seq<Byte>, w: Writer)
    requires Ledger(f, w)
    ensures |w.loss| <= PieceCount(f)
  {
    SpanSize(PieceCount(f));
    SubsetSize(w.loss, Span(0, PieceCount(f)));
  }

  lemma {:induction false} TimesGrows(a: nat, b: nat, n: nat)
    requires a < b
    ensures Times(a, n) + n <= Times(b, n)
  {
    if a + 1 == b {
    } else {
      TimesGrows(a, b - 1, n);
    }
  }

  /** The stream or the downloader is further on, or pieces are restored. */
  lemma SumFalls(n: nat, at: nat, at': nat, cur: nat, cur': nat, loss: nat, loss': nat)
    requires at <= at' <= n && cur <= cur' <= n + 1 && loss' <= n
    requires cur' > cur || (loss' <= loss && (at' > at || loss' < loss))
    ensures Left(at', n) + Times(Left(cur', n + 1), n + 1) + loss' < Left(at, n) + Times(Left(cur, n + 1), n + 1) + loss
  {
    if cur' > cur {
      TimesGrows(Left(cur', n + 1), Left(cur, n + 1), n + 1);
    }
  }

  lemma RankFalls(f: seq<Byte>, sys: Sys, end: Sys)
    requires Safe(f, sys) && sys.r.writer.Some? && !AtTail(f, sys) && Safe(f, end) && end.r.writer.Some?
    requires Since(end, sys.s.reader.cur, sys.r.writer.value)
    requires var w, w' := sys.r.writer.value, end.r.writer.value;
      end.s.reader.cur > sys.s.reader.cur || w'.cur > w.cur || w'.loss != w.loss
    ensures Rank(f, end) < Rank(f, sys)
  {
    var n, w, w' := PieceCount(f), sys.r.writer.value, end.r.writer.value;
    LossSize(f, w');
    assert w'.cur <= n + 1 && end.s.reader.cur <= n;
    if w'.cur == w.cur {
      SubsetSize(w'.loss, w.loss);
    }
    hide Safe, Ledger, AtTail, PieceCount, Left, Times;
    SumFalls(n, sys.s.reader.cur, end.s.reader.cur, w.cur, w'.cur, |w.loss|, |w'.loss|);
  }

  /** At rest after a round, the download is recoverable again. */
  lemma RestsMendable(f: seq<Byte>, sys: Sys)
    requires Answered(f, sys) && Quiescent(sys)
    ensures Resting(f, sys) && Mendable(f, sys)
  {
  }

  lemma GoalsAtRest(f: seq<Byte>, sys: Sys, end: Sys, g: Goal)
    requires sys.r.writer.Some? && end.r.writer.Some? && Quiescent(end) && Achieved(f, end, g) && g != Begun
    requires Aims(sys, g)
    ensures var w, w' := sys.r.writer.value, end.r.writer.value;
      end.s.reader.cur > sys.s.reader.cur || w'.cur > w.cur || w'.loss != w.loss
  {
  }

  /** What is left of a round once its goal is set. */
  lemma RoundEnds(f: seq<Byte>, sys: Sys, now: Sys, rest: seq<Event>, g: Goal)
    requires Accepted(f) && Resting(f, sys) && !AtTail(f, sys) && g != Begun
    requires Answered(f, now) && Achieved(f, now, g) && Since(now, sys.s.reader.cur, sys.r.writer.value)
    requires Aims(sys, g)
    requires Possible(f, now, rest) && Quiescent(After(f, now, rest)) && forall i :: 0 <= i < |rest| ==> InTurn(rest[i])
    ensures var end := After(f, now, rest);
      Done(f, end) || (Resting(f, end) && Mendable(f, end) && Rank(f, end) < Rank(f, sys))
  {
    RunMends(f, now, rest, g, sys.s.reader.cur, sys.r.writer.value);
    var end := After(f, now, rest);
    hide Possible, After, Done, Rank, Achieved, Mendable;
    if !Done(f, end) {
      RestsMendable(f, end);
      GoalsAtRest(f, sys, end, g);
      hide Answered, Since;
      RankFalls(f, sys, end);
    }
  }

  /** With nothing in flight to the downloader and no closure queued, the next event is the arrival at the sharer. */
  lemma SharerNext(f: seq<Byte>, sys: Sys, run: seq<Event>)
    requires sys.toRecver == [] && sys.s.queue == [] && sys.toSender != []
    requires Possible(f, sys, run) && Quiescent(After(f, sys, run)) && forall i :: 0 <= i < |run| ==> InTurn(run[i])
    ensures run != [] && run[0].ToSender? && run[0].i == 0
    ensures var next := Apply(f, sys, run[0]);
      Possible(f, next, run[1..]) && After(f, sys, run) == After(f, next, run[1..])
  {
    hide Apply;
    assert run != [] ==> InTurn(run[0]);
  }

  /** A round in which everything is delivered in turn finishes a recoverable download, or leaves it recoverable with a
      smaller rank. */
  lemma RoundDecreases(f: seq<Byte>, sys: Sys, run: seq<Event>)
    requires Accepted(f) && Resting(f, sys) && Mendable(f, sys) && Round(f, sys, run) && AllInTurn(run)
    ensures var end := After(f, sys, run);
      Done(f, end) || (Resting(f, end) && Mendable(f, end) && Rank(f, end) < Rank(f, sys))
  {
    if AtTail(f, sys) {
      OneRound(f, sys, run);
    } else {
      FreshRound(f, sys, run);
    }
  }

  lemma FreshRound(f: seq<Byte>, sys: Sys, run: seq<Event>)
    requires Accepted(f) && Resting(f, sys) && Mendable(f, sys) && Round(f, sys, run) && AllInTurn(run)
    requires !AtTail(f, sys)
    ensures var end := After(f, sys, run);
      Done(f, end) || (Resting(f, end) && Mendable(f, end) && Rank(f, end) < Rank(f, sys))
  {
    var run1 := run[1..];
    var sys1 := Apply(f, sys, run[0]);
    assert forall i :: 0 <= i < |run1| ==> run1[i] == run[i + 1];
    assert Possible(f, sys1, run1) && After(f, sys, run) == After(f, sys1, run1);
    TimerFires(f, sys, run[0].now);
    hide Apply, Answered, Achieved, Since, Rank, Mendable, Done, AtTail, Safe;
    SharerNext(f, sys1, run1);
    var g := RoundBegins(f, sys, run[0].now, run1[0].from, run1[0].time);
    AnsweredRound(f, sys, Apply(f, sys1, run1[0]), run1[1..], g);
  }

  lemma AnsweredRound(f: seq<Byte>, sys: Sys, now: Sys, rest: seq<Event>, g: Goal)
    requires Accepted(f) && Resting(f, sys) && sys.r.writer.Some? && !AtTail(f, sys) && Aims(sys, g)
    requires Answered(f, now) && Achieved(f, now, g) && now.r == sys.r
    requires Since(now, sys.s.reader.cur, sys.r.writer.value)
    requires g == Begun ==>
      && sys.r.writer.value.loss != {} && now.toSender == Asks(sys.r.writer.value)
      && now.toRecver == [] && now.s.queue == [] && now.s.window < 30
    requires Possible(f, now, rest) && Quiescent(After(f, now, rest)) && forall i :: 0 <= i < |rest| ==> InTurn(rest[i])
    ensures var end := After(f, now, rest);
      Done(f, end) || (Resting(f, end) && Mendable(f, end) && Rank(f, end) < Rank(f, sys))
  {
    hide Apply, Achieved, Since, Rank, Mendable, Done, AtTail, Answered;
    if g == Begun {
      RequestWaits(f, now);
      SharerNext(f, now, rest);
      var h := RequestServed(f, now, sys.s.reader.cur, rest[0].from, rest[0].time);
      RoundEnds(f, sys, Apply(f, now, rest[0]), rest[1..], h);
    } else {
      RoundEnds(f, sys, now, rest, g);
    }
  }

  lemma RequestWaits(f: seq<Byte>, sys: Sys)
    requires Answered(f, sys) && sys.r.writer.value.loss != {} && sys.toSender == Asks(sys.r.writer.value)
    ensures sys.toSender != []
  {
    AsksListed(f, sys.r.writer.value);
  }

  /** One more event in front of a run. */
  lemma EventThenRun(f: seq<Byte>, sys: Sys, e: Event, rest: seq<Event>)
    requires Enabled(f, sys, e) && Possible(f, Apply(f, sys, e), rest)
    ensures Possible(f, sys, [e] + rest) && After(f, sys, [e] + rest) == After(f, Apply(f, sys, e), rest)
  {
    hide Apply;
    assert ([e] + rest)[1..] == rest;
  }

  lemma FirstEvent(f: seq<Byte>, sys: Sys, run: seq<Event>)
    requires Possible(f, sys, run) && run != []
    ensures Enabled(f, sys, run[0])
    ensures var next := Apply(f, sys, run[0]);
      Possible(f, next, run[1..]) && After(f, sys, run) == After(f, next, run[1..])
  {
    hide Apply, Enabled;
  }

  lemma Regrouped<T>(a: seq<T>, b: seq<T>)
    requires a != []
    ensures a + b == [a[0]] + (a[1..] + b)
  {
  }

  lemma {:induction false} RunThenRun(f: seq<Byte>, sys: Sys, a: seq<Event>, b: seq<Event>)
    requires Possible(f, sys, a) && Possible(f, After(f, sys, a), b)
    ensures Possible(f, sys, a + b) && After(f, sys, a + b) == After(f, After(f, sys, a), b)
    decreases |a|
  {
    if a == [] {
      assert a + b == b;
    } else {
      FirstEvent(f, sys, a);
      var next := Apply(f, sys, a[0]);
      hide Apply, Possible, After, Enabled;
      RunThenRun(f, next, a[1..], b);
      EventThenRun(f, sys, a[0], a[1..] + b);
      Regrouped(a, b);
    }
  }

  lemma RoundWaits(f: seq<Byte>, sys: Sys, run: seq<Event>)
    requires Round(f, sys, run) && AllInTurn(run)
    ensures NobodyAsks(run)
  {
    forall i | 0 <= i < |run| ensures !run[i].NewRecver? && !run[i].SenderHears? {
      assert i > 0 ==> InTurn(run[i]);
    }
  }

  lemma MendableFinishes(f: seq<Byte>, sys: Sys) returns (run: seq<Event>)
    requires Accepted(f) && Resting(f, sys) && Mendable(f, sys)
    ensures Possible(f, sys, run) && NobodyAsks(run) && Done(f, After(f, sys, run))
    decreases Rank(f, sys)
  {
    run := RoundExists(f, sys, sys.r.lastData + 100 * 1000 + 1);
    RoundWaits(f, sys, run);
    RoundDecreases(f, sys, run);
    var end := After(f, sys, run);
    if Done(f, end) {
    } else {
      var rest := MendableFinishes(f, end);
      RunThenRun(f, sys, run, rest);
      run := run + rest;
    }
  }

  lemma HeartbeatGreets(f: seq<Byte>, sys: Sys, now: int)
    requires sys.s.state == ConnRecver && !Silent(sys.s.serverHello, now) && sys.toRecver == []
    ensures Apply(f, sys, SenderTimer(now)) == sys.(toRecver := [Hello])
  {
  }

  lemma GreetingAnswered(f: seq<Byte>, sys: Sys, time: int)
    requires sys.toRecver == [Hello] && sys.toSender == []
    ensures Apply(f, sys, ToRecver(0, 0, time)) == sys.(toRecver := [], toSender := [HelloReply])
  {
    assert Without([Hello], 0) == [];
  }

  lemma AnswerStarts(f: seq<Byte>, sys: Sys, time: int)
    requires sys.s.state == ConnRecver && sys.toSender == [HelloReply] && sys.toRecver == [] && sys.s.queue == []
    ensures var sys' := Apply(f, sys, ToSender(0, sys.s.peer, time));
      && sys'.s.state == SendingFile && Quiescent(sys') && sys'.r == sys.r
      && sys'.s.full == sys.s.full && sys'.s.reader == sys.s.reader
  {
    assert Without([HelloReply], 0) == [];
  }

  lemma StillPromising(f: seq<Byte>, sys: Sys, sys': Sys)
    requires Promising(f, sys) && sys'.r == sys.r && sys'.s.full == sys.s.full && sys'.s.reader == sys.s.reader
    ensures Promising(f, sys')
  {
  }

  /** A sharer whose greeting was lost greets again ten seconds later; the answer sets it sending. */
  lemma GreetsAgain(f: seq<Byte>, sys: Sys, now: int, time: int) returns (run: seq<Event>)
    requires Accepted(f) && Resting(f, sys) && sys.s.state == ConnRecver && Promising(f, sys)
    requires !Silent(sys.s.serverHello, now)
    ensures Possible(f, sys, run) && NobodyAsks(run)
    ensures Resting(f, After(f, sys, run)) && Mendable(f, After(f, sys, run))
  {
    var e1, e2, e3 := SenderTimer(now), ToRecver(0, 0, time), ToSender(0, sys.s.peer, time);
    hide Safe, Promising, SendConn.Handle, GetConn.Handle, SendConn.CheckPeerAlive;
    HeartbeatGreets(f, sys, now);
    var s1 := Apply(f, sys, e1);
    GreetingAnswered(f, s1, time);
    var s2 := Apply(f, s1, e2);
    AnswerStarts(f, s2, time);
    var s3 := Apply(f, s2, e3);
    StillPromising(f, sys, s3);
    hide Apply;
    EventThenRun(f, s2, e3, []);
    EventThenRun(f, s1, e2, [e3] + []);
    EventThenRun(f, sys, e1, [e2] + ([e3] + []));
    run := [e1] + ([e2] + ([e3] + []));
    SafeAlways(f, sys, run);
  }

  /** A run that finishes a recoverable download. */
  lemma Finishes(f: seq<Byte>, sys: Sys) returns (run: seq<Event>)
    requires Accepted(f) && Resting(f, sys) && Recoverable(f, sys)
    ensures Possible(f, sys, run) && NobodyAsks(run) && Done(f, After(f, sys, run))
  {
    if sys.s.state == SendingFile {
      run := MendableFinishes(f, sys);
    } else {
      var a := GreetsAgain(f, sys, sys.s.serverHello, 0);
      hide Resting, Mendable, Done, After, Possible;
      var b := MendableFinishes(f, After(f, sys, a));
      RunThenRun(f, sys, a, b);
      run := a + b;
    }
  }

  /** A download that is not recoverable is hopeless. */
  lemma OtherwiseHopeless(f: seq<Byte>, sys: Sys)
    requires Resting(f, sys) && !Recoverable(f, sys)
    ensures Hopeless(f, sys)
  {
  }

  /** Exactly the recoverable downloads can be finished by the network, the event loop and the timers of both peers,
      heartbeats included. The condition is a test of both peers' fields. */
  lemma FinishableIffRecoverable(f: seq<Byte>, sys: Sys)
    requires Accepted(f) && Resting(f, sys)
    ensures Recoverable(f, sys) <==>
      exists run :: Possible(f, sys, run) && AllWaiting(f, sys, run) && Done(f, After(f, sys, run))
  {
    if Recoverable(f, sys) {
      var run := Finishes(f, sys);
      NobodyAsksWaits(f, sys, run);
    } else {
      OtherwiseHopeless(f, sys);
      forall run | Possible(f, sys, run) && AllWaiting(f, sys, run) ensures !Done(f, After(f, sys, run)) {
        NeverFinished(f, sys, run);
      }
    }
  }
}
