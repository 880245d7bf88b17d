/** Runs that reach the states the other modules speak of. */
module Witnesses {
  import opened Pieces
  import opened Messages
  import opened SendFile
  import opened GetFile
  import opened FileLedger
  import opened SendConn
  import opened GetConn
  import opened Transfer
  import opened Session
  import opened Recovery
  import opened Unrecovered
  import opened Rescue

  /** Nothing is lost, duplicated or late: everything is delivered in turn, and no timer fires. */
  predicate Smooth(e: Event) { InTurn(e) || e.SenderHears? || e.RecverHears? || e.NewRecver? }

  predicate AllSmooth(run: seq<Event>) { forall i :: 0 <= i < |run| ==> Smooth(run[i]) }

  // The handshake.

  /** The sharer waits for the server to announce a downloader, and a downloader has asked for its file. */
  predicate Apart(sys: Sys) {
    && sys.s.state == WaitRecver && sys.s.queue == []
    && sys.r == Receiver(WaitSender, None, 0, 0, sys.r.server, 0, 0, 0, 0, false)
    && sys.toSender == [] && sys.toRecver == []
  }

  /** Each peer has been told of the other, and has greeted it. */
  predicate Introduced(f: seq<Byte>, sys: Sys, sharer: Addr, recver: Addr) {
    && sys.s.state == ConnRecver && sys.s.peer == recver && sys.s.queue == []
    && sys.r.state == ConnSender && sys.r.peer == sharer && sys.r.fileBytes == |f| && sys.r.window == 0
    && sys.toSender == [Hello] && sys.toRecver == [Hello]
  }

  predicate SameStream(s: Sender, s': Sender) {
    s'.reader == s.reader && s'.window == s.window && s'.full == s.full
  }

  /** The server announces the file to the downloader and the downloader to the sharer. */
  lemma ServerIntroduces(f: seq<Byte>, sys: Sys, sharer: Addr, recver: Addr, time: int) returns (run: seq<Event>)
    requires Apart(sys)
    ensures Possible(f, sys, run) && AllSmooth(run)
    ensures Introduced(f, After(f, sys, run), sharer, recver) && SameStream(sys.s, After(f, sys, run).s)
  {
    var e1 := RecverHears(ServerSign, sys.r.server, time, FileData(|f|, sharer));
    var e2 := SenderHears(ServerSign, sys.s.server, time, FileReq(recver));
    var s1 := Apply(f, sys, e1);
    assert s1.r.state == ConnSender && s1.s == sys.s && s1.toSender == [Hello] && s1.toRecver == [];
    assert Introduced(f, Apply(f, s1, e2), sharer, recver) && SameStream(sys.s, Apply(f, s1, e2).s);
    hide Apply, Introduced, SameStream;
    EventThenRun(f, s1, e2, []);
    EventThenRun(f, sys, e1, [e2] + []);
    run := [e1] + ([e2] + []);
  }

  /** The peers answer each other's greeting; the downloader opens its file. */
  lemma PeersConnect(f: seq<Byte>, sys: Sys, sharer: Addr, recver: Addr, time: int) returns (run: seq<Event>)
    requires Accepted(f) && Introduced(f, sys, sharer, recver)
    ensures Possible(f, sys, run) && AllSmooth(run)
    ensures Connected(f, After(f, sys, run)) && SameStream(sys.s, After(f, sys, run).s)
  {
    var e1, e2, e3 := ToSender(0, recver, time), ToRecver(0, sharer, time), ToSender(0, recver, time);
    var s1 := Apply(f, sys, e1);
    assert s1.toSender == [] && s1.toRecver == [Hello, HelloReply] && s1.r == sys.r && s1.s == sys.s;
    var s2 := Apply(f, s1, e2);
    assert s2.toSender == [HelloReply] && s2.toRecver == [HelloReply] && s2.r == sys.r && s2.s == sys.s;
    var s3 := Apply(f, s2, e2);
    assert s3.toSender == [HelloReply, DownloadStart] && s3.toRecver == [] && s3.r.state == RecvFile && s3.s == sys.s;
    var s4 := Apply(f, s3, e3);
    assert Connected(f, s4) && SameStream(sys.s, s4.s);
    hide Apply, Connected, SameStream;
    EventThenRun(f, s3, e3, []);
    EventThenRun(f, s2, e2, [e3] + []);
    EventThenRun(f, s1, e2, [e2] + ([e3] + []));
    EventThenRun(f, sys, e1, [e2] + ([e2] + ([e3] + [])));
    run := [e1] + ([e2] + ([e2] + ([e3] + [])));
  }

  /** Introduction and greetings in one run. */
  lemma Connects(f: seq<Byte>, sys: Sys) returns (run: seq<Event>)
    requires Accepted(f) && Apart(sys)
    ensures Possible(f, sys, run) && AllSmooth(run)
    ensures Connected(f, After(f, sys, run)) && SameStream(sys.s, After(f, sys, run).s)
  {
    hide Possible, After, Connected, Apart, Introduced, Smooth;
    var a := ServerIntroduces(f, sys, 1, 2, 1);
    var b := PeersConnect(f, After(f, sys, a), 1, 2, 1);
    RunThenRun(f, sys, a, b);
    run := a + b;
  }

  /** A share that is announced and a downloader that asks for it can be brought together. */
  lemma SessionOpens(f: seq<Byte>, sys: Sys) returns (run: seq<Event>)
    requires Accepted(f) && Initial(sys)
    ensures Possible(f, sys, run) && AllSmooth(run) && Opening(f, After(f, sys, run))
  {
    var e := SenderHears(ServerSign, sys.s.server, 1, ShareCode(100_000));
    var s1 := Apply(f, sys, e);
    assert Apart(s1) && SameStream(sys.s, s1.s);
    hide Apply, Possible, After, Apart;
    var rest := Connects(f, s1);
    EventThenRun(f, sys, e, rest);
    run := [e] + rest;
  }

  // The stream and the network, one event at a time.

  /** The sharer when its stream has sent piece n. */
  function Streamed(f: seq<Byte>, s: Sender, n: nat): Sender {
    s.(reader := NextPiece(f, Live(n, n)).0, window := s.window + 1, queue := [StreamNext])
  }

  lemma StartStreams(f: seq<Byte>, sys: Sys, from: Addr, time: int)
    requires Opening(f, sys)
    ensures Apply(f, sys, ToSender(0, from, time)) ==
      sys.(s := Streamed(f, sys.s.(state := SendingFile), 0), toSender := [], toRecver := [DataStream(0, Piece(f, 0))])
  {
    hide Piece;
  }

  lemma LoopStreams(f: seq<Byte>, sys: Sys, n: nat)
    requires sys.s.queue == [StreamNext] && sys.s.reader == Live(n, n) && sys.s.window < 30
    ensures Apply(f, sys, RunLoop) ==
      sys.(s := Streamed(f, sys.s, n), toRecver := sys.toRecver + [DataStream(n, Piece(f, n))])
  {
    hide Piece;
  }

  lemma LoopStops(f: seq<Byte>, sys: Sys)
    requires sys.s.queue == [StreamNext] && (sys.s.reader.Failed? || sys.s.window >= 30)
    ensures Apply(f, sys, RunLoop) == sys.(s := sys.s.(queue := [], full := true))
  {
  }

  lemma PieceDropped(f: seq<Byte>, sys: Sys, m: Msg)
    requires sys.toRecver == [m] && m.DataStream?
    ensures Apply(f, sys, DropToRecver(0)) == sys.(toRecver := [], lostData := sys.lostData + 1)
  {
  }

  lemma ShortOrFull(f: seq<Byte>, n: nat)
    requires n < PieceCount(f)
    ensures n + 1 < PieceCount(f) ==> NextPiece(f, Live(n, n)).0 == Live(n + 1, n + 1)
    ensures n + 1 == PieceCount(f) && |f| % 1024 != 0 ==> NextPiece(f, Live(n, n)).0 == Failed(n + 1)
  {
    PieceSize(f, n);
  }

  // Losses.

  /** The stream sends both pieces of a file and stops; the first is dropped. */
  lemma FirstDropped(f: seq<Byte>, sys: Sys, from: Addr, time: int) returns (run: seq<Event>)
    requires 1024 < |f| < 2048 && Opening(f, sys)
    ensures Possible(f, sys, run) && NobodyAsks(run)
    ensures var end := After(f, sys, run);
      && end.s.state == SendingFile && end.s.reader == Failed(2) && end.s.queue == [] && end.s.window == 2
      && end.r == sys.r && end.toSender == [] && end.toRecver == [DataStream(1, Piece(f, 1))]
  {
    var e1, e2 := ToSender(0, from, time), DropToRecver(0);
    ShortOrFull(f, 0);
    ShortOrFull(f, 1);
    StartStreams(f, sys, from, time);
    var s1 := Apply(f, sys, e1);
    PieceDropped(f, s1, DataStream(0, Piece(f, 0)));
    var s2 := Apply(f, s1, e2);
    LoopStreams(f, s2, 1);
    var s3 := Apply(f, s2, RunLoop);
    LoopStops(f, s3);
    hide Piece, Apply, NextPiece;
    EventThenRun(f, s3, RunLoop, []);
    EventThenRun(f, s2, RunLoop, [RunLoop] + []);
    EventThenRun(f, s1, e2, [RunLoop] + ([RunLoop] + []));
    EventThenRun(f, sys, e1, [e2] + ([RunLoop] + ([RunLoop] + [])));
    run := [e1] + ([e2] + ([RunLoop] + ([RunLoop] + [])));
  }

  /** A file of two pieces whose first is dropped: the download is stuck, and recoverable. */
  lemma StuckHappens(f: seq<Byte>, sys: Sys, from: Addr, time: int) returns (run: seq<Event>)
    requires 1024 < |f| < 2048 && Opening(f, sys)
    ensures Possible(f, sys, run) && NobodyAsks(run)
    ensures var end := After(f, sys, run);
      && Stuck(f, end) && Recoverable(f, end) && end.s.window == 2 && end.r.window == 1
      && end.r.writer.value.cur == 2 && end.r.writer.value.loss == {0}
  {
    OpeningUnderway(f, sys);
    var a := FirstDropped(f, sys, from, time);
    SafeAlways(f, sys, a);
    var mid, e := After(f, sys, a), ToRecver(0, from, time);
    SecondArrives(f, mid, from, time);
    StepSafe(f, mid, e);
    EventThenRun(f, mid, e, []);
    hide Apply, Safe, Ledger, Opening, Possible;
    assert After(f, Apply(f, mid, e), []) == Apply(f, mid, e);
    hide After;
    RunThenRun(f, sys, a, [e] + []);
    run := a + ([e] + []);
  }

  lemma SecondArrives(f: seq<Byte>, sys: Sys, from: Addr, time: int)
    requires Accepted(f) && PieceCount(f) == 2 && sys.r.state == RecvFile && sys.r.writer == Some(NewWriter(|f|))
    requires sys.r.window == 0 && RecverOk(f, sys.r)
    requires sys.toRecver == [DataStream(1, Piece(f, 1))] && sys.toSender == [] && sys.s.queue == []
    ensures var sys' := Apply(f, sys, ToRecver(0, from, time));
      && Quiescent(sys') && sys'.s == sys.s && sys'.r.state == RecvFile && sys'.r.writer.Some?
      && sys'.r.window == 1 && sys'.r.writer.value.cur == 2 && sys'.r.writer.value.loss == {0}
  {
    WriteGenuine(f, sys.r.writer.value, 1);
    assert MissingAfter(sys.r.writer.value, 1) == {0};
  }

  /** The only DOWNLOAD_START is dropped: the stream is never started, and the timer does not start it. */
  lemma LostStartHappens(f: seq<Byte>, sys: Sys)
    requires Accepted(f) && Opening(f, sys)
    ensures Possible(f, sys, [DropToSender(0)])
    ensures var end := After(f, sys, [DropToSender(0)]); Resting(f, end) && Hopeless(f, end) && !Recoverable(f, end)
  {
    OpeningUnderway(f, sys);
    var e := DropToSender(0);
    StepSafe(f, sys, e);
    EventThenRun(f, sys, e, []);
    assert [e] + [] == [e];
    hide Safe;
  }

  /** The stream sends the only piece of a file and stops; the piece is dropped. */
  lemma OnlyDropped(f: seq<Byte>, sys: Sys, from: Addr, time: int) returns (run: seq<Event>)
    requires 0 < |f| < 1024 && Opening(f, sys)
    ensures Possible(f, sys, run) && NobodyAsks(run)
    ensures var end := After(f, sys, run);
      end.s.state == SendingFile && end.s.reader == Failed(1) && Quiescent(end) && end.r == sys.r
  {
    var e1, e2 := ToSender(0, from, time), DropToRecver(0);
    ShortOrFull(f, 0);
    StartStreams(f, sys, from, time);
    var s1 := Apply(f, sys, e1);
    PieceDropped(f, s1, DataStream(0, Piece(f, 0)));
    var s2 := Apply(f, s1, e2);
    LoopStops(f, s2);
    hide Piece, Apply, NextPiece, NewWriter;
    EventThenRun(f, s2, RunLoop, []);
    EventThenRun(f, s1, e2, [RunLoop] + []);
    EventThenRun(f, sys, e1, [e2] + ([RunLoop] + []));
    run := [e1] + ([e2] + ([RunLoop] + []));
  }

  /** The only piece of a short file is dropped: the stream has failed at the end, and the downloader does not know. */
  lemma LostTailHappens(f: seq<Byte>, sys: Sys, from: Addr, time: int) returns (run: seq<Event>)
    requires 0 < |f| < 1024 && Opening(f, sys)
    ensures Possible(f, sys, run) && NobodyAsks(run)
    ensures var end := After(f, sys, run); Resting(f, end) && Silenced(f, end) && !Recoverable(f, end)
  {
    OpeningUnderway(f, sys);
    run := OnlyDropped(f, sys, from, time);
    SafeAlways(f, sys, run);
    hide Safe, Possible;
  }

  /** Every piece so far is lost, and the last one about to be. */
  predicate Burning(f: seq<Byte>, sys: Sys, n: nat) {
    && sys.s.state == SendingFile && sys.s.reader == Live(n, n) && sys.s.queue == [StreamNext] && sys.s.window <= 30
    && n > 0 && sys.toRecver == [DataStream(n - 1, Piece(f, n - 1))] && sys.toSender == []
    && sys.r.state == RecvFile && sys.r.writer == Some(NewWriter(|f|))
  }

  /** The timer returns 30 credits to a stream that waits for them, and the stream goes on. */
  lemma CreditsResume(f: seq<Byte>, sys: Sys, n: nat, now: int)
    requires sys.s.state == SendingFile && sys.s.reader == Live(n, n) && sys.s.queue == [] && sys.s.window <= 30
    requires sys.s.full && sys.toSender == [] && sys.toRecver == [] && TimedOut(sys.r, now)
    requires sys.r.state == RecvFile && sys.r.writer == Some(NewWriter(|f|))
    ensures Apply(f, sys, RetranTimer(now)).toSender == [PackAck(30)]
    ensures Apply(f, Apply(f, sys, RetranTimer(now)), ToSender(0, 0, 0)) ==
      sys.(s := Streamed(f, sys.s.(window := 0, full := false), n), toRecver := [DataStream(n, Piece(f, n))])
  {
    hide Piece;
    var s1 := Apply(f, sys, RetranTimer(now));
    assert s1 == sys.(toSender := [PackAck(30)]);
    assert Without([PackAck(30)], 0) == [];
  }

  /** One more piece is lost. */
  lemma BurnsOn(f: seq<Byte>, sys: Sys, n: nat) returns (run: seq<Event>)
    requires Burning(f, sys, n) && n + 1 < PieceCount(f)
    ensures Possible(f, sys, run) && NobodyAsks(run) && Burning(f, After(f, sys, run), n + 1)
  {
    var e := DropToRecver(0);
    ShortOrFull(f, n);
    PieceDropped(f, sys, DataStream(n - 1, Piece(f, n - 1)));
    var s1 := Apply(f, sys, e);
    if s1.s.window < 30 {
      LoopStreams(f, s1, n);
      hide Apply, Piece, NextPiece, NewWriter;
      EventThenRun(f, s1, RunLoop, []);
      EventThenRun(f, sys, e, [RunLoop] + []);
      run := [e] + ([RunLoop] + []);
    } else {
      LoopStops(f, s1);
      var s2 := Apply(f, s1, RunLoop);
      var e3, e4 := RetranTimer(s2.r.lastData + 100 * 1000 + 1), ToSender(0, 0, 0);
      CreditsResume(f, s2, n, e3.now);
      var s3 := Apply(f, s2, e3);
      hide Apply, Piece, NextPiece, NewWriter;
      EventThenRun(f, s3, e4, []);
      EventThenRun(f, s2, e3, [e4] + []);
      EventThenRun(f, s1, RunLoop, [e3] + ([e4] + []));
      EventThenRun(f, sys, e, [RunLoop] + ([e3] + ([e4] + [])));
      run := [e] + ([RunLoop] + ([e3] + ([e4] + [])));
    }
  }

  lemma {:induction false} BurnsUntil(f: seq<Byte>, sys: Sys, n: nat, m: nat) returns (run: seq<Event>)
    requires Burning(f, sys, n) && n <= m < PieceCount(f)
    ensures Possible(f, sys, run) && NobodyAsks(run) && Burning(f, After(f, sys, run), m)
    decreases m - n
  {
    if n == m {
      run := [];
    } else {
      var a := BurnsOn(f, sys, n);
      hide Burning, Apply;
      var b := BurnsUntil(f, After(f, sys, a), n + 1, m);
      RunThenRun(f, sys, a, b);
      run := a + b;
    }
  }

  /** The first 1025 pieces of a larger file are lost: from then on every piece is refused. */
  lemma OutOfReachHappens(f: seq<Byte>, sys: Sys) returns (run: seq<Event>)
    requires Accepted(f) && Opening(f, sys) && PieceCount(f) > 1026
    ensures Possible(f, sys, run) && NobodyAsks(run)
    ensures Safe(f, After(f, sys, run)) && OutOfReach(f, After(f, sys, run)) && Hopeless(f, After(f, sys, run))
  {
    var e := ToSender(0, 0, 0);
    OpeningUnderway(f, sys);
    ShortOrFull(f, 0);
    StartStreams(f, sys, 0, 0);
    var s1 := Apply(f, sys, e);
    assert Burning(f, s1, 1);
    hide Apply, Safe, Piece, NextPiece;
    var rest := BurnsUntil(f, s1, 1, 1026);
    EventThenRun(f, sys, e, rest);
    run := [e] + rest;
    SafeAlways(f, sys, run);
  }

  // Padding without loss.

  lemma FirstQuiet(f: seq<Byte>, sys: Sys, e: Event, rest: seq<Event>)
    requires Enabled(f, sys, e) && Quiet(sys, e)
    requires Possible(f, Apply(f, sys, e), rest) && AllQuiet(f, Apply(f, sys, e), rest)
    ensures Possible(f, sys, [e] + rest) && AllQuiet(f, sys, [e] + rest)
    ensures After(f, sys, [e] + rest) == After(f, Apply(f, sys, e), rest)
  {
    EventThenRun(f, sys, e, rest);
    hide Apply, Quiet, Enabled, After;
    assert ([e] + rest)[1..] == rest;
  }

  lemma Unrolled(f: seq<Byte>, sys: Sys, run: seq<Event>)
    requires Possible(f, sys, run) && AllQuiet(f, sys, run)
    ensures run == [] ==> After(f, sys, run) == sys
    ensures run != [] ==>
      && Enabled(f, sys, run[0]) && Quiet(sys, run[0])
      && var next := Apply(f, sys, run[0]);
      && Possible(f, next, run[1..]) && AllQuiet(f, next, run[1..]) && After(f, sys, run) == After(f, next, run[1..])
  {
    hide Apply, Quiet, Enabled;
  }

  lemma {:induction false} QuietThenQuiet(f: seq<Byte>, sys: Sys, a: seq<Event>, b: seq<Event>)
    requires Possible(f, sys, a) && AllQuiet(f, sys, a)
    requires Possible(f, After(f, sys, a), b) && AllQuiet(f, After(f, sys, a), b)
    ensures Possible(f, sys, a + b) && AllQuiet(f, sys, a + b)
    ensures After(f, sys, a + b) == After(f, After(f, sys, a), b)
    decreases |a|
  {
    hide Apply, Possible, After, Enabled, Quiet, AllQuiet;
    Unrolled(f, sys, a);
    if a == [] {
      assert a + b == b;
    } else {
      var next := Apply(f, sys, a[0]);
      QuietThenQuiet(f, next, a[1..], b);
      FirstQuiet(f, sys, a[0], a[1..] + b);
      assert a + b == [a[0]] + (a[1..] + b);
    }
  }

  function PieceMsg(f: seq<Byte>, k: nat): Msg { DataStream(k, Piece(f, k)) }

  /** All three pieces of a file are in flight, and the stream has a closure left. */
  predicate ThreeSent(f: seq<Byte>, sys: Sys) {
    && sys.s.state == SendingFile && sys.s.reader == Failed(3) && sys.s.queue == [StreamNext] && sys.s.window == 3
    && sys.toSender == [] && sys.toRecver == [PieceMsg(f, 0), PieceMsg(f, 1), PieceMsg(f, 2)]
    && sys.r.state == RecvFile && sys.r.writer == Some(NewWriter(|f|)) && sys.r.window == 0
  }

  lemma SendsThree(f: seq<Byte>, sys: Sys) returns (run: seq<Event>)
    requires 2048 < |f| < 3072 && Opening(f, sys)
    ensures Possible(f, sys, run) && AllQuiet(f, sys, run) && ThreeSent(f, After(f, sys, run))
  {
    var e := ToSender(0, 0, 0);
    ShortOrFull(f, 0);
    ShortOrFull(f, 1);
    ShortOrFull(f, 2);
    StartStreams(f, sys, 0, 0);
    var s1 := Apply(f, sys, e);
    LoopStreams(f, s1, 1);
    var s2 := Apply(f, s1, RunLoop);
    LoopStreams(f, s2, 2);
    assert ThreeSent(f, Apply(f, s2, RunLoop));
    hide Piece, Apply, NextPiece, ThreeSent;
    FirstQuiet(f, s2, RunLoop, []);
    FirstQuiet(f, s1, RunLoop, [RunLoop] + []);
    FirstQuiet(f, sys, e, [RunLoop] + ([RunLoop] + []));
    run := [e] + ([RunLoop] + ([RunLoop] + []));
  }

  lemma Taken(f: seq<Byte>, r: Receiver, time: int, m: Msg)
    requires Accepted(f) && RecverOk(f, r) && r.state == RecvFile && r.window < 9
    requires Genuine(f, m) && m.DataStream? && m.pieceNum <= r.writer.value.cur + 1024
    ensures var (r', out) := GetConn.Handle(r, ClientSign, 0, time, m);
      && r'.writer.Some? && r'.window == r.window + 1
      && var k, w, w' := m.pieceNum, r.writer.value, r'.writer.value;
      && w'.cur == (if k < w.cur then w.cur else k + 1) && w'.loss == MissingAfter(w, k)
      && (Padded(f, w') <==> Padded(f, w) || Overtakes(f, w, k)) && (w'.open <==> !Complete(f, w'))
      && (w'.open ==> r'.state == RecvFile && r'.lastData == time && out == [])
  {
    WriteGenuine(f, r.writer.value, m.pieceNum);
    hide Counted, Padded, Overtakes, Write, MissingAfter, Complete;
  }

  /** The downloader takes in the piece at place i. */
  lemma TakesIn(f: seq<Byte>, sys: Sys, i: nat, time: int)
    requires Accepted(f) && Safe(f, sys) && sys.r.state == RecvFile && sys.r.window < 9 && i < |sys.toRecver|
    requires sys.toRecver[i].DataStream? && sys.toRecver[i].pieceNum <= sys.r.writer.value.cur + 1024
    ensures var sys' := Apply(f, sys, ToRecver(i, 0, time));
      && Safe(f, sys') && sys'.s == sys.s && sys'.toRecver == Without(sys.toRecver, i) && sys'.r.writer.Some?
      && sys'.r.window == sys.r.window + 1
      && var k, w, w' := sys.toRecver[i].pieceNum, sys.r.writer.value, sys'.r.writer.value;
      && w'.cur == (if k < w.cur then w.cur else k + 1) && w'.loss == MissingAfter(w, k)
      && (Padded(f, w') <==> Padded(f, w) || Overtakes(f, w, k)) && (w'.open <==> !Complete(f, w'))
      && (w'.open ==> sys'.r.state == RecvFile && sys'.r.lastData == time && sys'.toSender == sys.toSender)
  {
    var e, m := ToRecver(i, 0, time), sys.toRecver[i];
    assert Genuine(f, m);
    StepSafe(f, sys, e);
    Taken(f, sys.r, time, m);
    hide Safe, GetConn.Handle, Padded, Overtakes, Complete, MissingAfter;
    var did := GetConn.Handle(sys.r, ClientSign, 0, time, m);
    assert Apply(f, sys, e) == sys.(r := did.0, toRecver := Without(sys.toRecver, i), toSender := sys.toSender + did.1);
  }

  /** Piece 1 has overtaken piece 0, which is asked for. */
  ghost predicate FirstAsked(f: seq<Byte>, sys: Sys) {
    && Safe(f, sys) && sys.s.state == SendingFile && sys.s.reader == Failed(3) && sys.s.queue == [StreamNext]
    && sys.s.window == 3 && sys.toSender == [Retran([0])] && sys.toRecver == [PieceMsg(f, 0), PieceMsg(f, 2)]
    && sys.r.state == RecvFile && sys.r.writer.Some? && sys.r.window == 1
    && sys.r.writer.value.cur == 2 && sys.r.writer.value.loss == {0}
  }

  lemma AsksFirst(f: seq<Byte>, sys: Sys, time: int) returns (run: seq<Event>)
    requires 2048 < |f| < 3072 && Safe(f, sys) && ThreeSent(f, sys)
    ensures Possible(f, sys, run) && AllQuiet(f, sys, run) && FirstAsked(f, After(f, sys, run))
  {
    var e1, e2 := ToRecver(1, 0, time), RetranTimer(time);
    TakesIn(f, sys, 1, time);
    var s1 := Apply(f, sys, e1);
    assert s1.r.writer.value.loss == {0} by { assert MissingAfter(NewWriter(|f|), 1) == {0}; }
    assert s1.toRecver == [PieceMsg(f, 0), PieceMsg(f, 2)];
    assert !Complete(f, s1.r.writer.value);
    StepSafe(f, s1, e2);
    assert Listed({0}, 2) == [0] by { assert Listed({0}, 1) == [0] && Listed({0}, 0) == []; }
    var s2 := Apply(f, s1, e2);
    assert s2.toSender == [Retran([0])];
    hide Piece, Apply, Safe, Listed;
    FirstQuiet(f, s1, e2, []);
    FirstQuiet(f, sys, e1, [e2] + []);
    run := [e1] + ([e2] + []);
  }

  /** The request has revived the stream, which has sent the empty piece 3. */
  ghost predicate EmptySent(f: seq<Byte>, sys: Sys) {
    && Safe(f, sys) && sys.toRecver == [PieceMsg(f, 0), PieceMsg(f, 2), PieceMsg(f, 0), PieceMsg(f, 3)]
    && sys.r.state == RecvFile && sys.r.writer.Some? && sys.r.window == 1
    && sys.r.writer.value.cur == 2 && sys.r.writer.value.loss == {0}
  }

  lemma RequestRevives(f: seq<Byte>, sys: Sys)
    requires 2048 < |f| < 3072 && FirstAsked(f, sys)
    ensures var s1 := Apply(f, sys, ToSender(0, 0, 0));
      && Safe(f, s1) && s1.r == sys.r && s1.toRecver == [PieceMsg(f, 0), PieceMsg(f, 2), PieceMsg(f, 0)]
      && s1.s.state == SendingFile && s1.s.reader == Live(3, 3)
      && s1.s.queue == [StreamNext, LossNext([0])] && s1.s.window == 4
  {
    PieceSize(f, 0);
    assert Decoded([0]) == [0, 0] && [0, 0][..1] == [0];
    StepSafe(f, sys, ToSender(0, 0, 0));
    hide Piece, Safe;
  }

  lemma RevivesStream(f: seq<Byte>, sys: Sys) returns (run: seq<Event>)
    requires 2048 < |f| < 3072 && FirstAsked(f, sys)
    ensures Possible(f, sys, run) && AllQuiet(f, sys, run) && EmptySent(f, After(f, sys, run))
  {
    var e := ToSender(0, 0, 0);
    RequestRevives(f, sys);
    var s1 := Apply(f, sys, e);
    StepSafe(f, s1, RunLoop);
    assert EmptySent(f, Apply(f, s1, RunLoop)) by {
      hide Safe;
    }
    hide Piece, Apply, Safe, EmptySent;
    FirstQuiet(f, s1, RunLoop, []);
    FirstQuiet(f, sys, e, [RunLoop] + []);
    run := [e] + ([RunLoop] + []);
  }

  /** The empty piece arrives before piece 2; then the others arrive. */
  lemma EmptyArrivesFirst(f: seq<Byte>, sys: Sys) returns (run: seq<Event>)
    requires 2048 < |f| < 3072 && EmptySent(f, sys)
    ensures Possible(f, sys, run) && AllQuiet(f, sys, run)
    ensures var end := After(f, sys, run); Safe(f, end) && HasPadded(f, end.r) && !end.r.writer.value.open
  {
    var e1, e2, e3 := ToRecver(3, 0, 0), ToRecver(1, 0, 0), ToRecver(0, 0, 0);
    TakesIn(f, sys, 3, 0);
    var s1 := Apply(f, sys, e1);
    assert s1.toRecver == [PieceMsg(f, 0), PieceMsg(f, 2), PieceMsg(f, 0)];
    assert s1.r.writer.value.loss == {0, 2};
    TakesIn(f, s1, 1, 0);
    var s2 := Apply(f, s1, e2);
    assert s2.toRecver == [PieceMsg(f, 0), PieceMsg(f, 0)] && s2.r.writer.value.loss == {0};
    TakesIn(f, s2, 0, 0);
    assert Apply(f, s2, e3).r.writer.value.loss == {};
    hide Piece, Apply, Safe, Padded;
    FirstQuiet(f, s2, e3, []);
    FirstQuiet(f, s1, e2, [e3] + []);
    FirstQuiet(f, sys, e1, [e2] + ([e3] + []));
    run := [e1] + ([e2] + ([e3] + []));
  }

  /** A file of three pieces, the last one short, over a network that loses nothing and only reorders: the finished file
      is padded. */
  lemma PaddingHappens(f: seq<Byte>, sys: Sys) returns (run: seq<Event>)
    requires 2048 < |f| < 3072 && Opening(f, sys)
    ensures Possible(f, sys, run) && AllQuiet(f, sys, run)
    ensures var end := After(f, sys, run);
      end.r.writer.Some? && !end.r.writer.value.open && |end.r.writer.value.out.bytes| == 3072 > |f|
  {
    OpeningUnderway(f, sys);
    hide Opening, ThreeSent, FirstAsked, EmptySent, Apply, Safe;
    var a := SendsThree(f, sys);
    SafeAlways(f, sys, a);
    var b := AsksFirst(f, After(f, sys, a), 0);
    QuietThenQuiet(f, sys, a, b);
    var c := RevivesStream(f, After(f, sys, a + b));
    QuietThenQuiet(f, sys, a + b, c);
    var d := EmptyArrivesFirst(f, After(f, sys, a + b + c));
    QuietThenQuiet(f, sys, a + b + c, d);
    run := a + b + c + d;
    PaddedLength(f, After(f, sys, run));
  }

  lemma PaddedLength(f: seq<Byte>, sys: Sys)
    requires 2048 < |f| < 3072 && Safe(f, sys) && HasPadded(f, sys.r) && !sys.r.writer.value.open
    ensures |sys.r.writer.value.out.bytes| == 3072
  {
    CompleteDelivers(f, sys.r.writer.value);
  }

  // A download after another.

  /** The piece that completes the file. */
  lemma LastPieceTaken(f: seq<Byte>, r: Receiver, from: Addr, time: int, k: nat)
    requires Accepted(f) && RecverOk(f, r) && r.state == RecvFile && r.window < 9 && k <= PieceCount(f)
    requires var w := r.writer.value;
      k <= w.cur + 1024 && MissingAfter(w, k) == {} && (w.cur >= PieceCount(f) || k + 1 >= PieceCount(f))
    ensures var (r', out) := GetConn.Handle(r, ClientSign, from, time, DataStream(k, Piece(f, k)));
      && r'.state == Idle && r'.writer.Some? && !r'.writer.value.open && Delivered(f, r'.writer.value)
      && out == [Finish]
  {
    WriteGenuine(f, r.writer.value, k);
    hide Counted, Padded, Overtakes, Delivered, Write;
  }

  lemma LastArrives(f: seq<Byte>, sys: Sys, k: nat, from: Addr, time: int)
    requires Accepted(f) && Safe(f, sys) && sys.r.state == RecvFile && sys.r.window < 9 && sys.toSender == []
    requires sys.toRecver == [PieceMsg(f, k)] && k <= PieceCount(f)
    requires var w := sys.r.writer.value;
      k <= w.cur + 1024 && MissingAfter(w, k) == {} && (w.cur >= PieceCount(f) || k + 1 >= PieceCount(f))
    ensures var sys' := Apply(f, sys, ToRecver(0, from, time));
      Done(f, sys') && sys'.toSender == [Finish] && sys'.toRecver == [] && sys'.s == sys.s
  {
    LastPieceTaken(f, sys.r, from, time, k);
    hide GetConn.Handle, Safe, Ledger, Delivered, Piece, MissingAfter;
    assert Without(sys.toRecver, 0) == [];
  }

  /** FINISH arrives, and what is queued stays. */
  lemma FinishArrives(f: seq<Byte>, sys: Sys, from: Addr, time: int)
    requires sys.s.state == SendingFile && sys.toSender == [Finish]
    ensures Apply(f, sys, ToSender(0, from, time)) == sys.(s := Reset(sys.s).(peerHello := 0), toSender := [])
  {
    assert Without([Finish], 0) == [];
  }

  /** A downloader that has finished ignores a piece. */
  lemma PieceComesLate(f: seq<Byte>, sys: Sys, from: Addr, time: int)
    requires sys.r.state == Idle && sys.toRecver != [] && sys.toRecver[0].DataStream?
    ensures Apply(f, sys, ToRecver(0, from, time)) ==
      sys.(toRecver := sys.toRecver[1..], lostData := sys.lostData + 1)
  {
    assert Without(sys.toRecver, 0) == sys.toRecver[1..];
  }

  /** Another downloader asks for the file, and both come to the point where it has opened its own. */
  lemma NextConnects(f: seq<Byte>, sys: Sys) returns (run: seq<Event>)
    requires Accepted(f) && sys.s.state == WaitRecver && Quiescent(sys)
    ensures Possible(f, sys, run) && AllSmooth(run)
    ensures Connected(f, After(f, sys, run)) && SameStream(sys.s, After(f, sys, run).s)
  {
    var e := NewRecver(0);
    var s1 := Apply(f, sys, e);
    assert Apart(s1) && s1.s == sys.s;
    hide Apply, Possible, After, Apart;
    var rest := Connects(f, s1);
    EventThenRun(f, sys, e, rest);
    run := [e] + rest;
  }

  // The stream goes on after FINISH.

  /** The sharer has sent both pieces, and its closure is still queued. */
  predicate BothSent(f: seq<Byte>, sys: Sys) {
    && sys.s.reader == Failed(2) && sys.s.window == 2 && sys.s.queue == [StreamNext]
    && sys.toSender == [] && sys.toRecver == [PieceMsg(f, 0), PieceMsg(f, 1)]
  }

  lemma SendsBoth(f: seq<Byte>, sys: Sys) returns (run: seq<Event>)
    requires 1024 < |f| < 2048 && Opening(f, sys)
    ensures Possible(f, sys, run) && AllSmooth(run)
    ensures var end := After(f, sys, run); BothSent(f, end) && end.s.state == SendingFile && end.r == sys.r
  {
    var e := ToSender(0, 0, 0);
    ShortOrFull(f, 0);
    ShortOrFull(f, 1);
    StartStreams(f, sys, 0, 0);
    var s1 := Apply(f, sys, e);
    LoopStreams(f, s1, 1);
    hide Piece, Apply, NextPiece, NewWriter;
    EventThenRun(f, s1, RunLoop, []);
    EventThenRun(f, sys, e, [RunLoop] + []);
    run := [e] + ([RunLoop] + []);
  }

  /** Both pieces arrive, and the download is done. */
  lemma TakesBoth(f: seq<Byte>, sys: Sys) returns (run: seq<Event>)
    requires 1024 < |f| < 2048 && Safe(f, sys) && BothSent(f, sys)
    requires sys.r.state == RecvFile && sys.r.writer == Some(NewWriter(|f|)) && sys.r.window == 0
    ensures Possible(f, sys, run) && AllSmooth(run)
    ensures var end := After(f, sys, run);
      Done(f, end) && end.toSender == [Finish] && end.toRecver == [] && end.s == sys.s
  {
    var e := ToRecver(0, 0, 0);
    TakesIn(f, sys, 0, 0);
    var s1 := Apply(f, sys, e);
    assert s1.toRecver == [PieceMsg(f, 1)];
    assert MissingAfter(NewWriter(|f|), 0) == {};
    assert s1.r.writer.value.loss == {} && s1.r.writer.value.cur == 1;
    assert MissingAfter(s1.r.writer.value, 1) == {};
    hide Piece, Apply, Safe, Padded, Delivered;
    LastArrives(f, s1, 1, 0, 0);
    EventThenRun(f, s1, e, []);
    EventThenRun(f, sys, e, [e] + []);
    run := [e] + ([e] + []);
  }

  /** A file of two pieces is downloaded; the sharer's closure was still queued when FINISH arrived. */
  lemma FirstCompletes(f: seq<Byte>, sys: Sys) returns (run: seq<Event>)
    requires 1024 < |f| < 2048 && Opening(f, sys)
    ensures Possible(f, sys, run) && AllSmooth(run)
    ensures var end := After(f, sys, run);
      && Done(f, end) && Safe(f, end) && end.toSender == [Finish] && end.toRecver == []
      && end.s.state == SendingFile && end.s.queue == [StreamNext]
  {
    OpeningUnderway(f, sys);
    var a := SendsBoth(f, sys);
    SafeAlways(f, sys, a);
    hide Safe, Possible, After, Apply, Done, NewWriter;
    var b := TakesBoth(f, After(f, sys, a));
    RunThenRun(f, sys, a, b);
    run := a + b;
    SafeAlways(f, sys, run);
  }

  /** A closure that finds the stream at the start sends both pieces of the file. */
  lemma StreamsWhole(f: seq<Byte>, sys: Sys) returns (run: seq<Event>)
    requires 1024 < |f| < 2048 && sys.s.reader == Live(0, 0) && sys.s.window == 0 && sys.s.queue == [StreamNext]
    requires sys.toRecver == []
    ensures Possible(f, sys, run) && AllSmooth(run)
    ensures After(f, sys, run) ==
      sys.(s := sys.s.(reader := Failed(2), window := 2, full := true, queue := []),
           toRecver := [PieceMsg(f, 0), PieceMsg(f, 1)])
  {
    ShortOrFull(f, 0);
    ShortOrFull(f, 1);
    LoopStreams(f, sys, 0);
    var s1 := Apply(f, sys, RunLoop);
    LoopStreams(f, s1, 1);
    var s2 := Apply(f, s1, RunLoop);
    LoopStops(f, s2);
    hide Piece, Apply, NextPiece;
    EventThenRun(f, s2, RunLoop, []);
    EventThenRun(f, s1, RunLoop, [RunLoop] + []);
    EventThenRun(f, sys, RunLoop, [RunLoop] + ([RunLoop] + []));
    run := [RunLoop] + ([RunLoop] + ([RunLoop] + []));
  }

  /** FINISH rewinds the stream, and the closure sends the whole file to nobody. */
  lemma StreamsToNobody(f: seq<Byte>, sys: Sys) returns (run: seq<Event>)
    requires 1024 < |f| < 2048 && Done(f, sys) && sys.toSender == [Finish] && sys.toRecver == []
    requires sys.s.state == SendingFile && sys.s.queue == [StreamNext]
    ensures Possible(f, sys, run) && AllSmooth(run)
    ensures var end := After(f, sys, run);
      && end.s.state == WaitRecver && end.s.reader == Failed(2) && end.s.full && end.s.queue == [] && end.s.window == 2
      && end.toSender == [] && end.toRecver == [PieceMsg(f, 0), PieceMsg(f, 1)] && end.r == sys.r
  {
    var e := ToSender(0, 0, 0);
    FinishArrives(f, sys, 0, 0);
    hide Apply, Possible, After, Done, Piece;
    var rest := StreamsWhole(f, Apply(f, sys, e));
    EventThenRun(f, sys, e, rest);
    run := [e] + rest;
  }

  /** Pieces that come after the end are ignored. */
  lemma {:induction false} LateOnes(f: seq<Byte>, sys: Sys) returns (run: seq<Event>)
    requires sys.r.state == Idle && forall i :: 0 <= i < |sys.toRecver| ==> sys.toRecver[i].DataStream?
    ensures Possible(f, sys, run) && AllSmooth(run)
    ensures var end := After(f, sys, run);
      end.toRecver == [] && end.s == sys.s && end.r == sys.r && end.toSender == sys.toSender
    decreases |sys.toRecver|
  {
    if sys.toRecver == [] {
      run := [];
    } else {
      var e := ToRecver(0, 0, 0);
      PieceComesLate(f, sys, 0, 0);
      hide Apply;
      var rest := LateOnes(f, Apply(f, sys, e));
      EventThenRun(f, sys, e, rest);
      run := [e] + rest;
    }
  }

  /** DOWNLOAD_START finds the stream at its end. */
  lemma StartsNothing(f: seq<Byte>, sys: Sys, from: Addr, time: int)
    requires Accepted(f) && Connected(f, sys) && sys.s.reader.Failed? && Safe(f, sys)
    ensures Enabled(f, sys, ToSender(0, from, time))
    ensures var end := Apply(f, sys, ToSender(0, from, time));
      Resting(f, end) && Hopeless(f, end) && !Recoverable(f, end) && end.r.writer == Some(NewWriter(|f|))
  {
    StepSafe(f, sys, ToSender(0, from, time));
    hide Safe, Ledger;
    assert Without(sys.toSender, 0) == [];
  }

  lemma OneMore(f: seq<Byte>, sys: Sys, run: seq<Event>, e: Event)
    requires Possible(f, sys, run) && Enabled(f, After(f, sys, run), e)
    ensures Possible(f, sys, run + [e]) && After(f, sys, run + [e]) == Apply(f, After(f, sys, run), e)
    ensures AllSmooth(run) && Smooth(e) ==> AllSmooth(run + [e])
  {
    var mid := After(f, sys, run);
    hide Apply, Enabled;
    assert [e][1..] == [] && After(f, mid, [e]) == After(f, Apply(f, mid, e), []);
    RunThenRun(f, sys, run, [e]);
  }

  lemma SmoothBoth(a: seq<Event>, b: seq<Event>)
    requires AllSmooth(a) && AllSmooth(b)
    ensures AllSmooth(a + b)
  {
  }

  lemma RestsThen(sys: Sys)
    requires sys.toSender == [] && sys.toRecver == [] && sys.s.queue == []
    ensures Quiescent(sys)
  {
  }

  /** The next downloader finds the stream at its end. */
  lemma NextConnectsTooLate(f: seq<Byte>, sys: Sys) returns (run: seq<Event>)
    requires 1024 < |f| < 2048 && Done(f, sys) && sys.toSender == [Finish] && sys.toRecver == []
    requires sys.s.state == SendingFile && sys.s.queue == [StreamNext]
    ensures Possible(f, sys, run) && AllSmooth(run)
    ensures Connected(f, After(f, sys, run)) && After(f, sys, run).s.reader.Failed?
  {
    assert Accepted(f) && sys.r.state == Idle;
    var a := StreamsToNobody(f, sys);
    var mid := After(f, sys, a);
    assert forall i :: 0 <= i < |mid.toRecver| ==> mid.toRecver[i].DataStream?;
    assert mid.r.state == Idle;
    hide *;
    var b := LateOnes(f, mid);
    RunThenRun(f, sys, a, b);
    RestsThen(After(f, mid, b));
    var c := NextConnects(f, After(f, sys, a + b));
    RunThenRun(f, sys, a + b, c);
    SmoothBoth(a, b);
    SmoothBoth(a + b, c);
    run := a + b + c;
  }

  /** What follows after a first download whose sharer has a closure queued. */
  lemma NextStalls(f: seq<Byte>, sys: Sys) returns (run: seq<Event>)
    requires 1024 < |f| < 2048 && Done(f, sys) && Safe(f, sys) && sys.toSender == [Finish] && sys.toRecver == []
    requires sys.s.state == SendingFile && sys.s.queue == [StreamNext]
    ensures Possible(f, sys, run) && AllSmooth(run)
    ensures var end := After(f, sys, run);
      && Resting(f, end) && Hopeless(f, end) && !Recoverable(f, end)
      && end.r.writer == Some(NewWriter(|f|))
  {
    var e := ToSender(0, 0, 0);
    assert Smooth(e) && Accepted(f);
    hide *;
    var a := NextConnectsTooLate(f, sys);
    SafeAlways(f, sys, a);
    StartsNothing(f, After(f, sys, a), 0, 0);
    OneMore(f, sys, a, e);
    run := a + [e];
  }

  /** Two downloads of one share, one after the other, nothing lost, duplicated or late: the first is done, the second
      comes to rest with an empty file and is hopeless. */
  lemma SecondStalls(f: seq<Byte>, sys: Sys) returns (first: seq<Event>, second: seq<Event>)
    requires 1024 < |f| < 2048 && Opening(f, sys)
    ensures Possible(f, sys, first) && AllSmooth(first) && Done(f, After(f, sys, first))
    ensures Possible(f, After(f, sys, first), second) && AllSmooth(second)
    ensures var end := After(f, After(f, sys, first), second);
      && Resting(f, end) && Hopeless(f, end) && !Recoverable(f, end)
      && end.r.writer.Some? && end.r.writer.value.out.bytes == []
  {
    first := FirstCompletes(f, sys);
    second := NextStalls(f, After(f, sys, first));
    hide Safe, Possible, After, Done, Opening, Hopeless, Recoverable, Resting, Smooth, AllSmooth;
  }

  // A greeting that is lost.

  /** The round that finishes a stuck download leaves a zero on the event loop. */
  lemma RequestLeavesZero(f: seq<Byte>, sys: Sys, from: Addr, time: int)
    requires |f| >= 1024 && Accepted(f) && sys.s.state == SendingFile && sys.s.window < 30 && sys.s.queue == []
    requires sys.toSender == [Retran([0])] && sys.toRecver == []
    ensures var sys' := Apply(f, sys, ToSender(0, from, time));
      && sys'.s == sys.s.(reader := PieceOf(f, sys.s.reader, 0).0, window := sys.s.window + 1, queue := [LossNext([0])])
      && sys'.toSender == [] && sys'.toRecver == [PieceMsg(f, 0)] && sys'.r == sys.r
  {
    assert Decoded([0]) == [0, 0] && [0, 0][..1] == [0];
    hide Piece;
  }

  lemma AsksForFirst(f: seq<Byte>, sys: Sys)
    requires sys.r.state == RecvFile && sys.r.writer.Some? && sys.toSender == []
    requires sys.r.writer.value.cur == 2 && sys.r.writer.value.loss == {0}
    ensures Apply(f, sys, RetranTimer(sys.r.lastData)) == sys.(toSender := [Retran([0])])
  {
    assert Listed({0}, 2) == [0] by { assert Listed({0}, 1) == [0] && Listed({0}, 0) == []; }
    hide Listed;
  }

  /** The tick that asks, and the answer. */
  lemma AsksAndServes(f: seq<Byte>, sys: Sys) returns (run: seq<Event>)
    requires 1024 < |f| < 2048 && Stuck(f, sys) && sys.s.window == 2
    requires sys.r.writer.value.cur == 2 && sys.r.writer.value.loss == {0}
    ensures Possible(f, sys, run) && NobodyAsks(run)
    ensures var end := After(f, sys, run);
      && end.r == sys.r && end.s.state == SendingFile && end.s.queue == [LossNext([0])]
      && end.toSender == [] && end.toRecver == [PieceMsg(f, 0)]
  {
    var e1, e2 := RetranTimer(sys.r.lastData), ToSender(0, 0, 0);
    AsksForFirst(f, sys);
    var s1 := Apply(f, sys, e1);
    RequestLeavesZero(f, s1, 0, 0);
    hide Apply, Safe, Piece;
    EventThenRun(f, s1, e2, []);
    EventThenRun(f, sys, e1, [e2] + []);
    run := [e1] + ([e2] + []);
  }

  /** The answer completes the file. */
  lemma AnswerCompletes(f: seq<Byte>, sys: Sys) returns (run: seq<Event>)
    requires 1024 < |f| < 2048 && Stuck(f, sys) && sys.s.window == 2 && sys.r.window == 1
    requires sys.r.writer.value.cur == 2 && sys.r.writer.value.loss == {0}
    ensures Possible(f, sys, run) && NobodyAsks(run)
    ensures var end := After(f, sys, run);
      && Safe(f, end) && Done(f, end) && end.s.state == SendingFile && end.s.queue == [LossNext([0])]
      && end.toSender == [Finish] && end.toRecver == []
  {
    assert Accepted(f) && Safe(f, sys) && PieceCount(f) == 2 && sys.r.state == RecvFile;
    var e := ToRecver(0, 0, 0);
    var a := AsksAndServes(f, sys);
    SafeAlways(f, sys, a);
    assert MissingAfter(sys.r.writer.value, 0) == {};
    assert NobodyAsks(a + [e]);
    hide Apply, Safe, Stuck, Piece, Possible, After, MissingAfter, NobodyAsks, Done;
    LastArrives(f, After(f, sys, a), 0, 0, 0);
    OneMore(f, sys, a, e);
    run := a + [e];
    SafeAlways(f, sys, run);
  }

  lemma ZeroServed(f: seq<Byte>, sys: Sys)
    requires |f| >= 1024 && sys.s.reader == Live(0, 0) && sys.s.queue == [LossNext([0])] && sys.s.window < 29
    requires sys.toRecver == []
    ensures var s1 := Apply(f, sys, RunLoop);
      && s1.s.queue == [LossNext([])]
      && Apply(f, s1, RunLoop) ==
           sys.(s := sys.s.(window := sys.s.window + 1, full := true, queue := []), toRecver := [PieceMsg(f, 0)])
  {
    assert |Piece(f, 0)| == 1024;
    assert [0][..0] == [];
    hide Piece;
  }

  /** FINISH finds the zero queued: it is served, and the stream is at the start of the file with the full flag set. */
  lemma ZeroLeft(f: seq<Byte>, sys: Sys) returns (run: seq<Event>)
    requires 1024 < |f| < 2048 && Done(f, sys) && sys.s.state == SendingFile && sys.s.queue == [LossNext([0])]
    requires sys.toSender == [Finish] && sys.toRecver == []
    ensures Possible(f, sys, run)
    ensures var end := After(f, sys, run);
      && end.s.state == WaitRecver && end.s.reader == Live(0, 0) && end.s.full && Quiescent(end)
  {
    var e1, e2 := ToSender(0, 0, 0), ToRecver(0, 0, 0);
    FinishArrives(f, sys, 0, 0);
    var s1 := Apply(f, sys, e1);
    ZeroServed(f, s1);
    var s2 := Apply(f, s1, RunLoop);
    var s3 := Apply(f, s2, RunLoop);
    PieceComesLate(f, s3, 0, 0);
    assert Quiescent(Apply(f, s3, e2));
    hide Apply, Piece, Delivered;
    EventThenRun(f, s3, e2, []);
    EventThenRun(f, s2, RunLoop, [e2] + []);
    EventThenRun(f, s1, RunLoop, [RunLoop] + ([e2] + []));
    EventThenRun(f, sys, e1, [RunLoop] + ([RunLoop] + ([e2] + [])));
    run := [e1] + ([RunLoop] + ([RunLoop] + ([e2] + [])));
  }

  /** The greeting to the downloader is lost, and so is its DOWNLOAD_START. */
  lemma LosesBoth(f: seq<Byte>, sys: Sys, sharer: Addr, recver: Addr) returns (run: seq<Event>)
    requires Accepted(f) && Introduced(f, sys, sharer, recver)
    ensures Possible(f, sys, run)
    ensures var end := After(f, sys, run);
      && end.s.state == ConnRecver && SameStream(sys.s, end.s) && Quiescent(end)
      && end.r.state == RecvFile && end.r.writer == Some(NewWriter(|f|))
  {
    var e1, e2, e3, e4 := DropToRecver(0), ToSender(0, recver, 0), ToRecver(0, sharer, 0), DropToSender(0);
    var s1 := Apply(f, sys, e1);
    assert s1.s == sys.s && s1.r == sys.r && s1.toSender == [Hello] && s1.toRecver == [];
    var s2 := Apply(f, s1, e2);
    assert s2.s == sys.s && s2.r == sys.r && s2.toSender == [] && s2.toRecver == [HelloReply];
    var s3 := Apply(f, s2, e3);
    assert s3.s == sys.s && s3.toSender == [DownloadStart] && s3.toRecver == [];
    var s4 := Apply(f, s3, e4);
    assert s4.s == sys.s && Quiescent(s4) && s4.r.writer == Some(NewWriter(|f|));
    hide Apply, NewWriter;
    EventThenRun(f, s3, e4, []);
    EventThenRun(f, s2, e3, [e4] + []);
    EventThenRun(f, s1, e2, [e3] + ([e4] + []));
    EventThenRun(f, sys, e1, [e2] + ([e3] + ([e4] + [])));
    run := [e1] + ([e2] + ([e3] + ([e4] + [])));
  }

  /** After a first download that has left a zero, a second whose greeting and DOWNLOAD_START are lost. */
  lemma NextUngreeted(f: seq<Byte>, sys: Sys) returns (run: seq<Event>)
    requires Accepted(f) && Safe(f, sys) && Quiescent(sys)
    requires sys.s.state == WaitRecver && sys.s.reader == Live(0, 0) && sys.s.full
    ensures Possible(f, sys, run)
    ensures var end := After(f, sys, run); Resting(f, end) && end.s.state == ConnRecver && Recoverable(f, end)
  {
    var e := NewRecver(0);
    var s1 := Apply(f, sys, e);
    assert Apart(s1) && s1.s == sys.s;
    hide Apply, Possible, After, Apart, Introduced, Safe, NewWriter, Smooth;
    var a := ServerIntroduces(f, s1, 1, 2, 1);
    EventThenRun(f, sys, e, a);
    var b := LosesBoth(f, After(f, s1, a), 1, 2);
    RunThenRun(f, sys, [e] + a, b);
    run := [e] + a + b;
    SafeAlways(f, sys, run);
  }

  /** A download of a file of two pieces whose first was lost, up to FINISH. */
  lemma CompletesWithZero(f: seq<Byte>, sys: Sys) returns (run: seq<Event>)
    requires 1024 < |f| < 2048 && Opening(f, sys)
    ensures Possible(f, sys, run)
    ensures var end := After(f, sys, run);
      && Safe(f, end) && Done(f, end) && end.s.state == SendingFile && end.s.queue == [LossNext([0])]
      && end.toSender == [Finish] && end.toRecver == []
  {
    var a := StuckHappens(f, sys, 0, 0);
    hide Possible, After, Opening, Done, Stuck, Safe, Recoverable, NobodyAsks;
    var b := AnswerCompletes(f, After(f, sys, a));
    RunThenRun(f, sys, a, b);
    run := a + b;
  }

  lemma NextAfterZero(f: seq<Byte>, sys: Sys) returns (run: seq<Event>)
    requires 1024 < |f| < 2048 && Safe(f, sys) && Done(f, sys) && sys.toSender == [Finish] && sys.toRecver == []
    requires sys.s.state == SendingFile && sys.s.queue == [LossNext([0])]
    ensures Possible(f, sys, run)
    ensures var end := After(f, sys, run); Resting(f, end) && end.s.state == ConnRecver && Recoverable(f, end)
  {
    assert Accepted(f);
    hide *;
    var a := ZeroLeft(f, sys);
    SafeAlways(f, sys, a);
    var b := NextUngreeted(f, After(f, sys, a));
    RunThenRun(f, sys, a, b);
    run := a + b;
  }

  /** A download at rest whose sharer is not sending and yet recoverable: a heartbeat is what it takes. */
  lemma UngreetedHappens(f: seq<Byte>, sys: Sys) returns (run: seq<Event>)
    requires 1024 < |f| < 2048 && Opening(f, sys)
    ensures Possible(f, sys, run)
    ensures var end := After(f, sys, run); Resting(f, end) && end.s.state == ConnRecver && Recoverable(f, end)
  {
    var a := CompletesWithZero(f, sys);
    hide Possible, After, Opening, Done, Safe, Resting, Recoverable;
    var b := NextAfterZero(f, After(f, sys, a));
    RunThenRun(f, sys, a, b);
    run := a + b;
  }
}
