/** What a download leaves behind for the next one. A session ends with FINISH, or with 60 seconds of silence: the
    sharer's reader, window and flag are reset, but the closures queued on the event loop are not taken off it. */
module Reuse {
  import opened Messages
  import opened Pieces
  import opened SendFile
  import opened FileLedger
  import opened SendConn
  import opened GetConn
  import opened Transfer
  import opened Window
  import opened Session
  import opened Progress
  import opened Unrecovered

  /** The events that end a session for the sharer. */
  predicate EndsSession(sys: Sys, e: Event) {
    && sys.s.state == SendingFile
    && match e
       case ToSender(i, _, _) => i < |sys.toSender| && sys.toSender[i].Finish?
       case SenderTimer(now) => Silent(sys.s.peerHello, now)
       case _ => false
  }

  predicate OnlyLoop(run: seq<Event>) { forall i :: 0 <= i < |run| ==> run[i].RunLoop? }

  /** A closure that runs is queued again, or sets the flag. */
  lemma ClosureLeavesTrace(f: seq<Byte>, s: Sender)
    requires s.queue != []
    ensures var s' := RunClosure(f, s).0; (s'.full || s'.queue != []) && (s.full ==> s'.full) && s'.state == s.state
  {
  }

  lemma {:induction false} LoopLeavesTrace(f: seq<Byte>, sys: Sys, run: seq<Event>)
    requires Possible(f, sys, run) && OnlyLoop(run) && (sys.s.full || sys.s.queue != [])
    ensures var end := After(f, sys, run); (end.s.full || end.s.queue != []) && end.s.state == sys.s.state
    decreases |run|
  {
    if run == [] {
    } else {
      ClosureLeavesTrace(f, sys.s);
      hide RunClosure;
      LoopLeavesTrace(f, Apply(f, sys, run[0]), run[1..]);
    }
  }

  lemma SessionEnded(f: seq<Byte>, sys: Sys, e: Event)
    requires Enabled(f, sys, e) && EndsSession(sys, e)
    ensures var s' := Apply(f, sys, e).s;
      s'.reader == Live(0, 0) && s'.window == 0 && !s'.full && s'.queue == sys.s.queue && s'.state == WaitRecver
  {
  }

  /** When the session has ended and the event loop has come to rest, the sharer is fresh if and only if no closure was
      queued when the session ended. */
  lemma FreshIffNothingQueued(f: seq<Byte>, sys: Sys, e: Event, run: seq<Event>)
    requires Enabled(f, sys, e) && EndsSession(sys, e)
    requires Possible(f, Apply(f, sys, e), run) && OnlyLoop(run) && After(f, Apply(f, sys, e), run).s.queue == []
    ensures Fresh(After(f, Apply(f, sys, e), run).s) <==> sys.s.queue == []
    ensures After(f, Apply(f, sys, e), run).s.state == WaitRecver
  {
    SessionEnded(f, sys, e);
    if sys.s.queue == [] {
      assert run == [];
    } else {
      LoopLeavesTrace(f, Apply(f, sys, e), run);
    }
  }

  /** The event loop does come to rest. */
  lemma LoopRests(f: seq<Byte>, sys: Sys) returns (run: seq<Event>)
    requires Accepted(f) && Safe(f, sys)
    ensures Possible(f, sys, run) && OnlyLoop(run) && After(f, sys, run).s.queue == []
    decreases Work(f, sys)
  {
    if sys.s.queue == [] {
      run := [];
    } else {
      WorkDecreases(f, sys, RunLoop);
      var rest := LoopRests(f, Apply(f, sys, RunLoop));
      run := [RunLoop] + rest;
      assert run[1..] == rest;
    }
  }

  function ZerosLeft(m: nat): seq<nat> { seq(m, i => 0) }

  /** The usual leftover: the zeros that decoding put in front of a request. Each is served with piece 0 and uses up a
      place in the window, and the stream stays at the start of the file. */
  lemma {:induction false} ZerosUseWindow(f: seq<Byte>, sys: Sys, m: nat) returns (run: seq<Event>)
    requires |f| >= 1024 && sys.s.reader == Live(0, 0) && sys.s.queue == [LossNext(ZerosLeft(m))]
    requires sys.s.window + m <= 30
    ensures Possible(f, sys, run) && OnlyLoop(run)
    ensures After(f, sys, run).s == sys.s.(window := sys.s.window + m, full := true, queue := [])
    decreases m
  {
    var next := Apply(f, sys, RunLoop);
    if m == 0 {
      run := [RunLoop];
      assert run[1..] == [];
    } else {
      assert ZerosLeft(m)[..m - 1] == ZerosLeft(m - 1) && ZerosLeft(m)[m - 1] == 0;
      assert |Piece(f, 0)| == 1024;
      hide Piece;
      assert next.s == sys.s.(window := sys.s.window + 1, queue := [LossNext(ZerosLeft(m - 1))]);
      hide Apply;
      var rest := ZerosUseWindow(f, next, m - 1);
      run := [RunLoop] + rest;
      assert run[1..] == rest;
    }
  }

  // The next download.

  /** The stream is not at the start of the file, so piece 0, never asked for, is not going to be sent. */
  predicate StartMissed(sys: Sys) {
    && Engaged(sys.s) && (sys.s.reader.Failed? || sys.s.reader.cur > 0)
    && (forall i :: 0 <= i < |sys.s.queue| ==> sys.s.queue[i].StreamNext?)
    && (forall i :: 0 <= i < |sys.toSender| ==> Unasking(sys.toSender[i]))
    && NoneNumbered(sys.toRecver, 0)
    && sys.r.state == RecvFile && sys.r.writer.Some? && !Held(sys.r.writer.value, 0)
  }

  predicate Unasking(m: Msg) { m.PackAck? || m.DownloadStart? || Greeting(m) }

  /** The sharer's part. */
  predicate GoneAhead(s: Sender, out: seq<Msg>) {
    && Engaged(s) && (s.reader.Failed? || s.reader.cur > 0)
    && (forall i :: 0 <= i < |s.queue| ==> s.queue[i].StreamNext?)
    && NoneNumbered(out, 0)
  }

  lemma StreamGoesAhead(f: seq<Byte>, s: Sender)
    requires GoneAhead(s, [])
    ensures var (s', out) := SendFileStream(f, s); GoneAhead(s', out)
  {
  }

  lemma HandleGoesAhead(f: seq<Byte>, s: Sender, from: Addr, time: int, m: Msg)
    requires GoneAhead(s, []) && Unasking(m)
    ensures var (s', out) := SendConn.Handle(f, s, ClientSign, from, time, m); GoneAhead(s', out)
  {
    hide SendFileStream;
    match m
    case DownloadStart => StreamGoesAhead(f, s.(state := SendingFile));
    case PackAck(nums) =>
      StreamGoesAhead(f, s.(window := if nums <= s.window then s.window - nums else 0, full := false));
    case _ =>
  }

  lemma PieceMisses(f: seq<Byte>, sys: Sys, i: nat, from: Addr, time: int)
    requires Accepted(f) && Safe(f, sys) && StartMissed(sys) && i < |sys.toRecver|
    ensures StartMissed(Apply(f, sys, ToRecver(i, from, time)))
  {
    var m := sys.toRecver[i];
    if m.DataStream? {
      OtherPiece(f, sys.r, from, time, m, 0);
    } else {
      FileUntouched(sys.r, ClientSign, from, time, m);
    }
    hide GetConn.Handle, Ledger, InStep;
  }

  lemma StepMisses(f: seq<Byte>, sys: Sys, e: Event)
    requires Accepted(f) && Safe(f, sys) && StartMissed(sys) && Enabled(f, sys, e)
    requires Quiet(sys, e) && (Working(e) || Aside(e))
    ensures Safe(f, Apply(f, sys, e)) && StartMissed(Apply(f, sys, e))
  {
    StepSafe(f, sys, e);
    if e.SenderHears? || e.RecverHears? {
      LateAnnouncement(f, sys, e);
    }
    hide SendConn.Handle, GetConn.Handle, SendFileStream, Ledger, InStep, Safe;
    match e
    case ToSender(i, from, time) => HandleGoesAhead(f, sys.s, from, time, sys.toSender[i]);
    case ToRecver(i, from, time) => PieceMisses(f, sys, i, from, time);
    case RunLoop => StreamGoesAhead(f, sys.s.(queue := sys.s.queue[1..]));
    case _ =>
  }

  lemma {:induction false} RunMisses(f: seq<Byte>, sys: Sys, run: seq<Event>)
    requires Accepted(f) && Safe(f, sys) && StartMissed(sys)
    requires Possible(f, sys, run) && NoTicks(run) && AllQuiet(f, sys, run)
    ensures !Done(f, After(f, sys, run))
    decreases |run|
  {
    if run == [] {
    } else {
      StepMisses(f, sys, run[0]);
      hide StartMissed, Safe, Apply, Quiet, Working, Aside;
      RunMisses(f, Apply(f, sys, run[0]), run[1..]);
    }
  }

  lemma NextWork(f: seq<Byte>, sys: Sys)
    requires Accepted(f) && Safe(f, sys) && Connected(f, sys)
    ensures Work(f, sys) <= 10 * PieceCount(f) + 12
  {
    TotalOne(f, DownloadStart);
    assert Total(Weigh(f), sys.toRecver) == 0;
  }

  /** The next download of a share, whatever the ones before have left behind, over a network that loses nothing and
      without a tick: it comes to rest within the same bound as the first, and then it is done if and only if it found
      the stream at the start of the file and the window with room. */
  lemma NextCompletesIffRewound(f: seq<Byte>, sys: Sys, run: seq<Event>)
    requires Accepted(f) && Safe(f, sys) && Connected(f, sys)
    requires Possible(f, sys, run) && NoTicks(run) && AllQuiet(f, sys, run)
    ensures |run| <= 10 * PieceCount(f) + 12 + 3 * Asides(run)
    ensures Quiescent(After(f, sys, run)) ==>
      (Done(f, After(f, sys, run)) <==> sys.s.reader == Live(0, 0) && HasRoom(f, sys.s.window))
  {
    NextWork(f, sys);
    RunsAreFinite(f, sys, run);
    if sys.s.reader == Live(0, 0) {
      EveryDownloadCompletes(f, sys, run);
    } else {
      RunMisses(f, sys, run);
    }
  }
}
