/** Between timer ticks the transfer always comes to rest: every delivery and every turn of the event loop uses up
    some of a finite amount of work. */
module Progress {
  import opened Pieces
  import opened Messages
  import opened SendFile
  import opened GetFile
  import opened FileLedger
  import opened SendConn
  import opened GetConn
  import opened Transfer
  import opened Window
  import opened Session

  /** Deliveries and turns of the event loop. */
  predicate Working(e: Event) { e.ToSender? || e.ToRecver? || e.RunLoop? }

  /** The ten-second heartbeats, and announcements of the server. */
  predicate Aside(e: Event) { e.SenderTimer? || e.RecverTimer? || e.SenderHears? || e.RecverHears? }

  /** The downloader's one-second timer does not fire. */
  predicate NoTicks(run: seq<Event>) { forall i :: 0 <= i < |run| ==> Working(run[i]) || Aside(run[i]) }

  function Asides(run: seq<Event>): nat { if run == [] then 0 else (if Aside(run[0]) then 1 else 0) + Asides(run[1..]) }

  /** What a FINISH can set off: the sharer rewinds its reader. */
  function Rewind(f: seq<Byte>): nat { 5 * (PieceCount(f) + 1) + 1 }

  /** The work a message can cause. A request for p pieces decodes to 2p numbers, and each piece served may revive
      the stream for one more empty piece. */
  function Weight(f: seq<Byte>, m: Msg): nat {
    match m
    case DataStream(_, _) => 3
    case Hello => 2
    case FileReq(_) => 3
    case Retran(pieces) => 20 * |pieces| + 1
    case Finish => Rewind(f)
    case _ => 1
  }

  function Weigh(f: seq<Byte>): Msg -> nat { (m: Msg) => Weight(f, m) }

  /** The sends a queue of closures can still make. */
  function QueueSends(queue: seq<Closure>): nat {
    if queue == [] then 0
    else (if queue[0].LossNext? then 2 * |queue[0].pieces| else 0) + QueueSends(queue[1..])
  }

  function ReaderSends(f: seq<Byte>, r: Reader): nat
    requires r.cur <= PieceCount(f)
  {
    PieceCount(f) - r.cur + if r.Live? then 1 else 0
  }

  function SenderWork(f: seq<Byte>, s: Sender): nat
    requires s.reader.cur <= PieceCount(f)
  {
    5 * (ReaderSends(f, s.reader) + QueueSends(s.queue)) + |s.queue|
  }

  function RecverWork(f: seq<Byte>, r: Receiver): nat {
    match r.state
    case RecvFile => Rewind(f)
    case ConnSender => Rewind(f) + 2
    case _ => 0
  }

  function Work(f: seq<Byte>, sys: Sys): nat
    requires sys.s.reader.cur <= PieceCount(f)
  {
    SenderWork(f, sys.s) + RecverWork(f, sys.r) + Total(Weigh(f), sys.toSender) + Total(Weigh(f), sys.toRecver)
  }

  lemma {:induction false} QueueSendsConcat(a: seq<Closure>, b: seq<Closure>)
    ensures QueueSends(a + b) == QueueSends(a) + QueueSends(b)
  {
    if a == [] {
      assert a + b == b;
    } else {
      QueueSendsConcat(a[1..], b);
      assert (a + b)[1..] == a[1..] + b;
    }
  }

  lemma TotalOne(f: seq<Byte>, m: Msg)
    ensures Total(Weigh(f), [m]) == Weight(f, m)
  {
  }

  lemma StreamWork(f: seq<Byte>, s: Sender)
    requires InStep(f, s.reader)
    ensures var (s', out) := SendFileStream(f, s);
      && s'.reader.cur <= PieceCount(f)
      && SenderWork(f, s') + Total(Weigh(f), out) <= SenderWork(f, s)
  {
    if s.reader.Live? && s.window < 30 {
      NextPieceInStep(f, s.reader);
      QueueSendsConcat(s.queue, [StreamNext]);
    }
  }

  /** The numbers to be sent are paid for in advance, two sends for each. */
  lemma LossWork(f: seq<Byte>, s: Sender, pieces: seq<nat>)
    requires Accepted(f) && InStep(f, s.reader) && Requestable(f, pieces)
    ensures var (s', out) := SendLossPieces(f, s, pieces);
      && s'.reader.cur <= PieceCount(f)
      && SenderWork(f, s') + Total(Weigh(f), out) <= SenderWork(f, s) + 10 * |pieces|
  {
    if pieces != [] && s.window < 30 {
      PieceOfInStep(f, s.reader, pieces[|pieces| - 1]);
      QueueSendsConcat(s.queue, [LossNext(pieces[..|pieces| - 1])]);
    }
  }

  /** What handling m may cost the sharer. */
  ghost predicate PaidFor(f: seq<Byte>, s: Sender, m: Msg, did: (Sender, seq<Msg>)) {
    && did.0.reader.cur <= PieceCount(f) && s.reader.cur <= PieceCount(f)
    && SenderWork(f, did.0) + Total(Weigh(f), did.1) < SenderWork(f, s) + Weight(f, m)
  }

  lemma StartWork(f: seq<Byte>, s: Sender, from: Addr, time: int)
    requires InStep(f, s.reader)
    ensures PaidFor(f, s, DownloadStart, SendConn.Handle(f, s, ClientSign, from, time, DownloadStart))
  {
    hide SendFileStream;
    StreamWork(f, s.(state := SendingFile));
  }

  lemma CreditWork(f: seq<Byte>, s: Sender, from: Addr, time: int, nums: nat)
    requires InStep(f, s.reader)
    ensures PaidFor(f, s, PackAck(nums), SendConn.Handle(f, s, ClientSign, from, time, PackAck(nums)))
  {
    hide SendFileStream;
    StreamWork(f, s.(window := if nums <= s.window then s.window - nums else 0, full := false));
  }

  lemma RequestWork(f: seq<Byte>, s: Sender, from: Addr, time: int, pieces: seq<nat>)
    requires Accepted(f) && InStep(f, s.reader) && Requestable(f, pieces)
    ensures PaidFor(f, s, Retran(pieces), SendConn.Handle(f, s, ClientSign, from, time, Retran(pieces)))
  {
    hide SendLossPieces;
    DecodedRequestable(f, pieces);
    LossWork(f, s, Decoded(pieces));
  }

  lemma FinishWork(f: seq<Byte>, s: Sender, from: Addr, time: int)
    requires InStep(f, s.reader)
    ensures PaidFor(f, s, Finish, SendConn.Handle(f, s, ClientSign, from, time, Finish))
  {
  }

  lemma GreetingWork(f: seq<Byte>, s: Sender, from: Addr, time: int, m: Msg)
    requires InStep(f, s.reader) && !m.DownloadStart? && !m.PackAck? && !m.Retran? && !m.Finish?
    ensures PaidFor(f, s, m, SendConn.Handle(f, s, ClientSign, from, time, m))
  {
    TotalOne(f, HelloReply);
    TotalOne(f, Hello);
  }

  lemma SenderHandleWork(f: seq<Byte>, s: Sender, from: Addr, time: int, m: Msg)
    requires Accepted(f) && SenderOk(f, s) && Genuine(f, m)
    ensures var (s', out) := SendConn.Handle(f, s, ClientSign, from, time, m);
      && s'.reader.cur <= PieceCount(f)
      && SenderWork(f, s') + Total(Weigh(f), out) < SenderWork(f, s) + Weight(f, m)
  {
    assert InStep(f, s.reader);
    hide SendConn.Handle, SenderWork, Weight, InStep;
    match m
    case DownloadStart => StartWork(f, s, from, time);
    case PackAck(nums) => CreditWork(f, s, from, time, nums);
    case Retran(pieces) => RequestWork(f, s, from, time, pieces);
    case Finish => FinishWork(f, s, from, time);
    case _ => GreetingWork(f, s, from, time, m);
  }

  lemma RunClosureWork(f: seq<Byte>, s: Sender)
    requires Accepted(f) && SenderOk(f, s) && s.queue != []
    ensures var (s', out) := RunClosure(f, s);
      && s'.reader.cur <= PieceCount(f)
      && SenderWork(f, s') + Total(Weigh(f), out) < SenderWork(f, s)
  {
    var s1 := s.(queue := s.queue[1..]);
    match s.queue[0]
    case StreamNext => StreamWork(f, s1);
    case LossNext(pieces) => LossWork(f, s1, pieces);
  }

  lemma DataStreamWork(f: seq<Byte>, r: Receiver, time: int, piece: nat, data: seq<Byte>)
    ensures var (r', out) := HandleDataStream(r, time, piece, data);
      RecverWork(f, r') + Total(Weigh(f), out) <= RecverWork(f, r) + 1
  {
    hide Write;
    var acks := if r.window + 1 >= 10 then [PackAck(r.window + 1)] else [];
    assert Total(Weigh(f), acks) <= 1 by { TotalOne(f, PackAck(r.window + 1)); }
    TotalConcat(Weigh(f), acks, [Finish]);
    TotalOne(f, Finish);
  }

  lemma RecverHandleWork(f: seq<Byte>, r: Receiver, from: Addr, time: int, m: Msg)
    requires Genuine(f, m)
    ensures var (r', out) := GetConn.Handle(r, ClientSign, from, time, m);
      RecverWork(f, r') + Total(Weigh(f), out) < RecverWork(f, r) + Weight(f, m)
  {
    hide HandleDataStream;
    match m
    case DataStream(piece, data) => DataStreamWork(f, r, time, piece, data);
    case Hello => TotalOne(f, HelloReply);
    case HelloReply => TotalOne(f, DownloadStart);
    case _ =>
  }

  /** Every delivery and every turn of the loop uses up work. */
  lemma WorkDecreases(f: seq<Byte>, sys: Sys, e: Event)
    requires Accepted(f) && Safe(f, sys) && Enabled(f, sys, e) && Working(e)
    ensures Safe(f, Apply(f, sys, e)) && Work(f, Apply(f, sys, e)) < Work(f, sys)
  {
    StepSafe(f, sys, e);
    hide SendConn.Handle, GetConn.Handle, RunClosure, Ledger, InStep;
    match e
    case ToSender(i, from, time) =>
      SenderHandleWork(f, sys.s, from, time, sys.toSender[i]);
      TotalWithout(Weigh(f), sys.toSender, i);
      TotalConcat(Weigh(f), sys.toRecver, SendConn.Handle(f, sys.s, ClientSign, from, time, sys.toSender[i]).1);
    case ToRecver(i, from, time) =>
      RecverHandleWork(f, sys.r, from, time, sys.toRecver[i]);
      TotalWithout(Weigh(f), sys.toRecver, i);
      TotalConcat(Weigh(f), sys.toSender, GetConn.Handle(sys.r, ClientSign, from, time, sys.toRecver[i]).1);
    case RunLoop =>
      RunClosureWork(f, sys.s);
      TotalConcat(Weigh(f), sys.toRecver, RunClosure(f, sys.s).1);
  }

  /** A heartbeat adds the work of a greeting, a late announcement nothing. */
  lemma AsideWork(f: seq<Byte>, sys: Sys, e: Event)
    requires Accepted(f) && Safe(f, sys) && Enabled(f, sys, e) && Aside(e) && Quiet(sys, e)
    ensures Safe(f, Apply(f, sys, e)) && Work(f, Apply(f, sys, e)) <= Work(f, sys) + 2
  {
    if e.SenderHears? || e.RecverHears? {
      LateAnnouncement(f, sys, e);
    }
    StepSafe(f, sys, e);
    hide Ledger;
    TotalOne(f, Hello);
    TotalConcat(Weigh(f), sys.toRecver, [Hello]);
    TotalConcat(Weigh(f), sys.toSender, [Hello]);
  }

  /** Without timer ticks a run is no longer than the work it starts with, and three for each heartbeat or
      late announcement. */
  lemma {:induction false} RunsAreFinite(f: seq<Byte>, sys: Sys, run: seq<Event>)
    requires Accepted(f) && Safe(f, sys) && Possible(f, sys, run) && NoTicks(run) && AllQuiet(f, sys, run)
    ensures Safe(f, After(f, sys, run)) && |run| + Work(f, After(f, sys, run)) <= Work(f, sys) + 3 * Asides(run)
    decreases |run|
  {
    if run == [] {
    } else {
      if Aside(run[0]) {
        AsideWork(f, sys, run[0]);
      } else {
        WorkDecreases(f, sys, run[0]);
      }
      hide Apply, Safe, Work, Quiet, Aside, Working;
      RunsAreFinite(f, Apply(f, sys, run[0]), run[1..]);
    }
  }

  lemma OpeningWork(f: seq<Byte>, sys: Sys)
    requires Accepted(f) && Reopening(f, sys)
    ensures Safe(f, sys) && Work(f, sys) == 10 * PieceCount(f) + 12
  {
    OpeningUnderway(f, sys);
    TotalOne(f, DownloadStart);
    assert Total(Weigh(f), sys.toRecver) == 0;
  }

  // A sharer that starts with little of its window left.

  /** Ten pieces, the first credits, fit what is left of the window; or the whole file does. */
  predicate HasRoom(f: seq<Byte>, used: nat) { used <= 20 || PieceCount(f) + used <= 30 }

  /** No credit has been returned: what has been sent is in flight or held, each piece once. */
  predicate Tallied(f: seq<Byte>, sys: Sys) {
    && (forall i :: 0 <= i < |sys.s.queue| ==> sys.s.queue[i].StreamNext?)
    && (forall i :: 0 <= i < |sys.toSender| ==> sys.toSender[i].DownloadStart? || Greeting(sys.toSender[i]))
    && var sent, cur := Total(Data, sys.toRecver) + sys.r.window, sys.s.reader.cur;
    cur <= sent && (cur < PieceCount(f) ==> sent == cur)
  }

  lemma StreamTallies(f: seq<Byte>, s: Sender)
    requires InStep(f, s.reader) && forall i :: 0 <= i < |s.queue| ==> s.queue[i].StreamNext?
    ensures var (s', out) := SendFileStream(f, s);
      && s'.reader.cur <= s.reader.cur + Total(Data, out)
      && (s.reader.cur < PieceCount(f) ==> s'.reader.cur == s.reader.cur + Total(Data, out))
      && (s.reader.cur == PieceCount(f) ==> s'.reader.cur == s.reader.cur)
      && forall i :: 0 <= i < |s'.queue| ==> s'.queue[i].StreamNext?
  {
    if s.reader.Live? {
      NextPieceInStep(f, s.reader);
    }
  }

  lemma SenderTallies(f: seq<Byte>, sys: Sys, sys': Sys, out: seq<Msg>)
    requires Tallied(f, sys) && InStep(f, sys.s.reader) && sys'.r == sys.r && sys'.toRecver == sys.toRecver + out
    requires forall i :: 0 <= i < |sys'.toSender| ==> sys'.toSender[i].DownloadStart? || Greeting(sys'.toSender[i])
    requires forall i :: 0 <= i < |sys'.s.queue| ==> sys'.s.queue[i].StreamNext?
    requires var cur, cur' := sys.s.reader.cur, sys'.s.reader.cur;
      && cur' <= cur + Total(Data, out)
      && (cur < PieceCount(f) ==> cur' == cur + Total(Data, out)) && (cur == PieceCount(f) ==> cur' == cur)
    ensures Tallied(f, sys')
  {
    TotalConcat(Data, sys.toRecver, out);
  }

  lemma ToSenderTallies(f: seq<Byte>, sys: Sys, i: nat, from: Addr, time: int)
    requires Tallied(f, sys) && InStep(f, sys.s.reader) && i < |sys.toSender|
    ensures Tallied(f, Apply(f, sys, ToSender(i, from, time)))
  {
    var m := sys.toSender[i];
    if m.DownloadStart? {
      StreamTallies(f, sys.s.(state := SendingFile));
    }
    hide SendFileStream, InStep;
    var did := SendConn.Handle(f, sys.s, ClientSign, from, time, m);
    var sys' := Apply(f, sys, ToSender(i, from, time));
    assert m.DownloadStart? || (Total(Data, did.1) == 0 && did.0.queue == sys.s.queue && did.0.reader == sys.s.reader);
    hide SendConn.Handle, Tallied;
    SenderTallies(f, sys, sys', did.1);
  }

  lemma RunLoopTallies(f: seq<Byte>, sys: Sys)
    requires Tallied(f, sys) && InStep(f, sys.s.reader) && sys.s.queue != []
    ensures Tallied(f, Apply(f, sys, RunLoop))
  {
    StreamTallies(f, sys.s.(queue := sys.s.queue[1..]));
    hide SendFileStream, InStep;
    SenderTallies(f, sys, Apply(f, sys, RunLoop), RunClosure(f, sys.s).1);
  }

  lemma GreetingTallies(f: seq<Byte>, sys: Sys, sys': Sys)
    requires Tallied(f, sys) && sys'.s.queue == sys.s.queue && sys'.s.reader == sys.s.reader
    requires sys'.r.window == sys.r.window && Total(Data, sys'.toRecver) == Total(Data, sys.toRecver)
    requires sys'.toSender == sys.toSender || sys'.toSender == sys.toSender + [Hello]
      || sys'.toSender == sys.toSender + [HelloReply]
    ensures Tallied(f, sys')
  {
  }

  lemma AsideTallies(f: seq<Byte>, sys: Sys, e: Event)
    requires Tallied(f, sys) && Enabled(f, sys, e) && Aside(e) && Quiet(sys, e)
    ensures Tallied(f, Apply(f, sys, e))
  {
    if e.SenderHears? || e.RecverHears? {
      LateAnnouncement(f, sys, e);
    }
    TotalConcat(Data, sys.toRecver, [Hello]);
    hide Tallied;
    GreetingTallies(f, sys, Apply(f, sys, e));
  }

  lemma GreetingToRecverTallies(f: seq<Byte>, sys: Sys, i: nat, from: Addr, time: int)
    requires Tallied(f, sys) && i < |sys.toRecver| && Greeting(sys.toRecver[i]) && sys.r.state == RecvFile
    ensures Tallied(f, Apply(f, sys, ToRecver(i, from, time)))
  {
    TotalWithout(Data, sys.toRecver, i);
    hide Tallied;
    GreetingTallies(f, sys, Apply(f, sys, ToRecver(i, from, time)));
  }

  /** A piece that is not the tenth is held without a credit. */
  lemma PieceHeld(f: seq<Byte>, r: Receiver, from: Addr, time: int, m: Msg)
    requires m.DataStream? && r.state == RecvFile && r.writer.Some? && r.window < 9
    ensures var (r', out) := GetConn.Handle(r, ClientSign, from, time, m);
      r'.state == RecvFile ==> out == [] && r'.window == r.window + 1
  {
    hide Write;
  }

  /** Fewer than ten pieces have been sent, so no credit is due. */
  lemma FewSent(sys: Sys, used: nat, i: nat)
    requires sys.s.window == InHand(sys) + used && sys.s.window <= 30 && used > 20
    requires i < |sys.toRecver| && sys.toRecver[i].DataStream?
    ensures sys.r.window < 9 && Total(Data, sys.toRecver) + sys.r.window + used <= 30
    ensures Total(Data, Without(sys.toRecver, i)) + 1 == Total(Data, sys.toRecver)
  {
    TotalWithout(Data, sys.toRecver, i);
  }

  lemma PieceTallies(f: seq<Byte>, sys: Sys, used: nat, i: nat, from: Addr, time: int)
    requires Accepted(f) && Underway(f, sys, used) && Tallied(f, sys) && used > 20
    requires i < |sys.toRecver| && !Greeting(sys.toRecver[i])
    ensures var sys' := Apply(f, sys, ToRecver(i, from, time));
      (sys'.r.state == RecvFile ==> Tallied(f, sys')) && (Done(f, sys') ==> HasRoom(f, used))
  {
    var e := ToRecver(i, from, time);
    PieceNext(f, sys, used, i);
    PieceUnderway(f, sys, used, i, from, time);
    PieceApplied(f, sys, used, i, from, time);
    StepSafe(f, sys, e);
    FewSent(sys, used, i);
    PieceHeld(f, sys.r, from, time, sys.toRecver[i]);
    var sys' := Apply(f, sys, e);
    hide GetConn.Handle, Apply, Safe, NothingLost, Delivered, InHand, Underway;
    if sys'.r.state == RecvFile {
      assert sys'.toSender == sys.toSender;
    } else {
      FinishedAtEnd(f, sys');
      hide Done;
    }
  }

  lemma FinishedAtEnd(f: seq<Byte>, sys: Sys)
    requires NothingLost(f, sys) && Safe(f, sys)
    ensures Done(f, sys) ==> sys.s.reader.cur == PieceCount(f)
  {
  }

  lemma StepTallies(f: seq<Byte>, sys: Sys, used: nat, e: Event)
    requires Accepted(f) && Underway(f, sys, used) && Tallied(f, sys) && used > 20
    requires Enabled(f, sys, e) && Quiet(sys, e) && (Working(e) || Aside(e))
    ensures var sys' := Apply(f, sys, e);
      (Underway(f, sys', used) && Tallied(f, sys')) || (Done(f, sys') && HasRoom(f, used))
  {
    QuietStep(f, sys, used, e);
    assert InStep(f, sys.s.reader);
    hide Tallied, InStep, Apply, HasRoom;
    match e
    case ToSender(i, from, time) => ToSenderTallies(f, sys, i, from, time);
    case RunLoop => RunLoopTallies(f, sys);
    case ToRecver(i, from, time) =>
      if Greeting(sys.toRecver[i]) {
        GreetingToRecverTallies(f, sys, i, from, time);
      } else {
        PieceTallies(f, sys, used, i, from, time);
      }
    case _ => AsideTallies(f, sys, e);
  }

  lemma {:induction false} RunTallies(f: seq<Byte>, sys: Sys, used: nat, run: seq<Event>)
    requires Accepted(f) && used > 20 && Possible(f, sys, run) && NoTicks(run) && AllQuiet(f, sys, run)
    requires (Underway(f, sys, used) && Tallied(f, sys)) || (Done(f, sys) && HasRoom(f, used))
    ensures var end := After(f, sys, run);
      (Underway(f, end, used) && Tallied(f, end)) || (Done(f, end) && HasRoom(f, used))
    decreases |run|
  {
    if run == [] {
    } else {
      if Done(f, sys) {
        DoneKept(f, sys, run[0]);
      } else {
        StepTallies(f, sys, used, run[0]);
      }
      hide Underway, Tallied, Done, Apply, HasRoom, Quiet, Working, Aside;
      RunTallies(f, Apply(f, sys, run[0]), used, run[1..]);
    }
  }

  /** With room a download does not stop before the stream's end; without, it stops. */
  lemma RestTallied(f: seq<Byte>, sys: Sys, used: nat)
    requires Accepted(f) && Underway(f, sys, used) && Tallied(f, sys) && Quiescent(sys)
    ensures !HasRoom(f, used)
  {
    if sys.s.reader.cur == PieceCount(f) {
      AllHeld(f, sys);
    }
  }

  /** Total correctness of a download that loses nothing and needs no tick. It takes at most 10N + 12 deliveries and
      turns of the loop, N being the number of pieces, and two more for each heartbeat; announcements cost nothing.
      When nothing is left to deliver or run, the downloader has closed a file that holds f, if and only if at the start
      the sharer had ten pieces of its window left or room for the whole file. A fresh sharer always has. */
  lemma EveryDownloadCompletes(f: seq<Byte>, sys: Sys, run: seq<Event>)
    requires Accepted(f) && Reopening(f, sys) && Possible(f, sys, run) && NoTicks(run) && AllQuiet(f, sys, run)
    ensures |run| <= 10 * PieceCount(f) + 12 + 3 * Asides(run)
    ensures Quiescent(After(f, sys, run)) ==> (Done(f, After(f, sys, run)) <==> HasRoom(f, sys.s.window))
  {
    OpeningWork(f, sys);
    RunsAreFinite(f, sys, run);
    var end, used := After(f, sys, run), sys.s.window;
    if Quiescent(end) {
      if used <= 20 {
        QuiescenceImpliesCompletion(f, sys, run);
      } else {
        OpeningUnderway(f, sys);
        assert Total(Data, sys.toRecver) == 0 && Tallied(f, sys);
        RunTallies(f, sys, used, run);
        hide Possible, After, AllQuiet;
        if Underway(f, end, used) && Tallied(f, end) {
          RestTallied(f, end, used);
        }
      }
    }
  }

  /** Something that can happen when the system is not at rest. */
  function Next(sys: Sys): Event
    requires !Quiescent(sys)
  {
    if sys.s.queue != [] then RunLoop else if sys.toSender != [] then ToSender(0, 0, 0) else ToRecver(0, 0, 0)
  }

  lemma {:induction false} PossibleThen(f: seq<Byte>, sys: Sys, run: seq<Event>, e: Event)
    requires Possible(f, sys, run) && Enabled(f, After(f, sys, run), e)
    ensures Possible(f, sys, run + [e])
    decreases |run|
  {
    if run == [] {
      assert ([] + [e])[1..] == [];
    } else {
      PossibleThen(f, Apply(f, sys, run[0]), run[1..], e);
      assert (run + [e])[1..] == run[1..] + [e];
    }
  }

  /** Until the system is at rest there is always another delivery or turn of the loop to make. */
  lemma NeverBlocked(f: seq<Byte>, sys: Sys, run: seq<Event>)
    requires Possible(f, sys, run) && !Quiescent(After(f, sys, run))
    ensures exists e :: Working(e) && Possible(f, sys, run + [e]) && (NoTicks(run) ==> NoTicks(run + [e]))
  {
    var e := Next(After(f, sys, run));
    PossibleThen(f, sys, run, e);
  }
}
