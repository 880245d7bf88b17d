/** One download over a network that may reorder and delay but loses nothing: it cannot come to rest with the file
    incomplete. */
module Session {
  import opened Pieces
  import opened Messages
  import opened SendFile
  import opened GetFile
  import opened FileLedger
  import opened SendConn
  import opened GetConn
  import opened Transfer
  import opened Window

  predicate Greeting(m: Msg) { m.Hello? || m.HelloReply? }

  /** Delivery in any order, the event loop, heartbeats and retransmission ticks, none of which finds the other side
      silent, and what the server announces to a peer that is not waiting for it, as when others ask for the file. */
  predicate Quiet(sys: Sys, e: Event) {
    match e
    case ToSender(_, _, _) => true
    case ToRecver(_, _, _) => true
    case RunLoop => true
    case RetranTimer(now) => !TimedOut(sys.r, now)
    case SenderTimer(now) => !Silent(sys.s.peerHello, now) && !Silent(sys.s.serverHello, now)
    case RecverTimer(now) => !Silent(sys.r.peerHello, now)
    case SenderHears(_, _, _, m) => m.FileReq? && sys.s.state != WaitRecver
    case RecverHears(_, _, _, m) => m.FileData? && sys.r.state != WaitSender
    case _ => false
  }

  /** An announcement to a peer that is not waiting for it changes nothing. */
  lemma LateAnnouncement(f: seq<Byte>, sys: Sys, e: Event)
    requires Enabled(f, sys, e) && Quiet(sys, e) && (e.SenderHears? || e.RecverHears?)
    ensures Apply(f, sys, e) == sys
  {
  }

  predicate AllQuiet(f: seq<Byte>, sys: Sys, run: seq<Event>)
    requires Possible(f, sys, run)
    decreases |run|
  {
    run == [] || (Quiet(sys, run[0]) && AllQuiet(f, Apply(f, sys, run[0]), run[1..]))
  }

  /** A sharer that has not sent anything, or has left no trace of what it has sent. */
  predicate Fresh(s: Sender) { s.reader == Live(0, 0) && s.window == 0 && !s.full && s.queue == [] }

  /** The downloader has opened its file and sent DOWNLOAD_START, and nothing else is on its way. */
  predicate Connected(f: seq<Byte>, sys: Sys) {
    && (sys.s.state == ConnRecver || sys.s.state == SendingFile) && sys.s.queue == []
    && sys.r.state == RecvFile && sys.r.writer == Some(NewWriter(|f|)) && sys.r.window == 0
    && sys.toSender == [DownloadStart] && sys.toRecver == []
  }

  /** The start of a download, the sharer's stream being at the start of the file; earlier downloads may have left it
      with part of its window used and the full flag set. */
  predicate Reopening(f: seq<Byte>, sys: Sys) {
    Connected(f, sys) && sys.s.reader == Live(0, 0) && sys.s.window <= 30
  }

  /** The start of a download from a fresh sharer, the first of a share or a later one. */
  predicate Opening(f: seq<Byte>, sys: Sys) { Reopening(f, sys) && Fresh(sys.s) }

  predicate Quiescent(sys: Sys) { sys.toSender == [] && sys.toRecver == [] && sys.s.queue == [] }

  predicate Held(w: Writer, k: nat) { k < w.cur && k !in w.loss }

  predicate InFlight(f: seq<Byte>, ms: seq<Msg>, k: nat) { DataStream(k, Piece(f, k)) in ms }

  /** Only pieces already streamed are asked for. */
  predicate Below(pieces: seq<nat>, n: nat) { forall i :: 0 <= i < |pieces| ==> pieces[i] < n }

  /** A stream that has come to piece cur may have emitted piece k: one before cur, or the empty one at the end. */
  predicate Emitted(f: seq<Byte>, cur: nat, k: nat) { k < cur || k == cur == PieceCount(f) }

  /** Nothing the stream has emitted is lost, and it has emitted everything that is about. */
  ghost predicate NothingLost(f: seq<Byte>, sys: Sys) {
    && sys.r.writer.Some?
    && var cur, w := sys.s.reader.cur, sys.r.writer.value;
    && (forall m :: m in sys.toRecver ==> Greeting(m) || (m.DataStream? && Emitted(f, cur, m.pieceNum)))
    && (w.cur <= cur || (w.cur == PieceCount(f) + 1 && cur == PieceCount(f)))
    && (forall k: nat :: k < cur ==> Held(w, k) || InFlight(f, sys.toRecver, k))
  }

  /** Only credits, requests for streamed pieces, DOWNLOAD_START and greetings are on their way to the sharer. */
  predicate Requests(ms: seq<Msg>, cur: nat) {
    forall i :: 0 <= i < |ms| ==>
      match ms[i]
      case PackAck(nums) => nums > 0
      case Retran(pieces) => Below(pieces, cur)
      case DownloadStart => true
      case m => Greeting(m)
  }

  predicate OnlyCredits(ms: seq<Msg>) { forall i :: 0 <= i < |ms| ==> ms[i].PackAck? && ms[i].nums > 0 }

  predicate LossBelow(s: Sender) {
    forall i :: 0 <= i < |s.queue| && s.queue[i].LossNext? ==> Below(s.queue[i].pieces, s.reader.cur)
  }

  predicate AtRest(f: seq<Byte>, s: Sender) {
    StreamNext in s.queue || (s.full && (s.reader.cur == PieceCount(f) || s.window >= 30))
  }

  /** No lost wake-up: the stream is about to start, or about to continue, or waiting for a credit with a full
      window, or at the end of the file. */
  predicate Awake(f: seq<Byte>, sys: Sys) { DownloadStart in sys.toSender || AtRest(f, sys.s) }

  /** What the window counts is in flight or held, over what the session found used: nothing has gone astray. */
  predicate Conserved(sys: Sys, used: nat) { sys.s.window == InHand(sys) + used }

  /** Before the sharer is sending, nothing has been sent. */
  predicate Started(sys: Sys) {
    || sys.s.state == SendingFile
    || (sys.s.state == ConnRecver && sys.s.reader.cur == 0 && sys.s.queue == []
        && forall i :: 0 <= i < |sys.toSender| ==> sys.toSender[i].DownloadStart? || Greeting(sys.toSender[i]))
  }

  predicate StreamOk(f: seq<Byte>, s: Sender) {
    InStep(f, s.reader) && LossBelow(s) && (s.reader.Failed? ==> s.reader.cur == PieceCount(f))
  }

  ghost predicate Underway(f: seq<Byte>, sys: Sys, used: nat) {
    && Safe(f, sys) && sys.r.state == RecvFile && Conserved(sys, used) && Started(sys)
    && NothingLost(f, sys) && Requests(sys.toSender, sys.s.reader.cur) && StreamOk(f, sys.s) && Awake(f, sys)
  }

  lemma StillThere<T>(ms: seq<T>, i: nat, x: T)
    requires i < |ms| && x in ms && x != ms[i]
    ensures x in Without(ms, i)
  {
    var j :| 0 <= j < |ms| && ms[j] == x;
    assert x == Without(ms, i)[if j < i then j else j - 1];
  }

  /** n different pieces in flight are n messages. */
  lemma {:induction false} Pigeonhole(f: seq<Byte>, ms: seq<Msg>, a: nat, b: nat)
    requires a <= b && forall k: nat :: a <= k < b ==> InFlight(f, ms, k)
    ensures b - a <= Total(Data, ms)
  {
    if a == b {
    } else {
      assert InFlight(f, ms, b - 1);
      var x := DataStream(b - 1, Piece(f, b - 1));
      var i :| 0 <= i < |ms| && ms[i] == x;
      forall k: nat | a <= k < b - 1 ensures InFlight(f, Without(ms, i), k) {
        assert InFlight(f, ms, k);
        StillThere(ms, i, DataStream(k, Piece(f, k)));
      }
      Pigeonhole(f, Without(ms, i), a, b - 1);
      TotalWithout(Data, ms, i);
    }
  }

  /** Without losses, a piece in flight is fewer than 30 ahead of the downloader, so LOSS_HEAVY cannot happen:
      everything from the downloader's next piece up to it is in flight, and the window holds 30. */
  lemma NeverFarAhead(f: seq<Byte>, sys: Sys, used: nat, m: Msg)
    requires Underway(f, sys, used) && m in sys.toRecver && m.DataStream?
    ensures m.pieceNum < sys.r.writer.value.cur + 30
  {
    hide Ledger, Requests, Awake, Started, StreamOk;
    var cur := sys.r.writer.value.cur;
    if m.pieceNum > cur {
      forall k: nat | cur <= k < m.pieceNum + 1 ensures InFlight(f, sys.toRecver, k) {
        assert k == m.pieceNum || k < sys.s.reader.cur;
        assert Genuine(f, m);
      }
      Pigeonhole(f, sys.toRecver, cur, m.pieceNum + 1);
    }
  }

  /** What a step of the sharer contributes: it emits the next pieces in order, or pieces asked for again, or answers a
      greeting. */
  ghost predicate Advances(f: seq<Byte>, s: Sender, s': Sender, out: seq<Msg>) {
    && s.reader.cur <= s'.reader.cur
    && (forall m :: m in out ==> Greeting(m) || (m.DataStream? && Emitted(f, s'.reader.cur, m.pieceNum)))
    && (forall k: nat :: s.reader.cur <= k < s'.reader.cur ==> InFlight(f, out, k))
  }

  /** After sendFileStream the stream is waiting on the loop, or for a credit, or has reached the end. */
  lemma StreamAdvances(f: seq<Byte>, s: Sender)
    requires StreamOk(f, s)
    ensures var (s', out) := SendFileStream(f, s);
      Advances(f, s, s', out) && StreamOk(f, s') && AtRest(f, s') && s'.state == s.state
  {
    if s.reader.Live? {
      NextPieceInStep(f, s.reader);
      if s.window < 30 {
        var (s', out) := SendFileStream(f, s);
        assert out == [DataStream(s.reader.cur, Piece(f, s.reader.cur))];
        assert s'.queue[|s.queue|] == StreamNext;
      }
    }
  }

  /** Sending a piece again leaves the stream as it was; only a short last piece fails it, and then the stream had
      reached the end. */
  lemma LossAdvances(f: seq<Byte>, s: Sender, pieces: seq<nat>)
    requires Accepted(f) && StreamOk(f, s)
    requires Below(pieces, s.reader.cur)
    ensures var (s', out) := SendLossPieces(f, s, pieces);
      && Advances(f, s, s', out) && StreamOk(f, s') && s'.state == s.state
      && s'.reader.cur == s.reader.cur && s.queue <= s'.queue && s.window <= s'.window && (s.full ==> s'.full)
  {
    if pieces != [] {
      PieceOfInStep(f, s.reader, pieces[|pieces| - 1]);
    }
  }

  lemma SenderMoved(f: seq<Byte>, sys: Sys, sys': Sys, out: seq<Msg>)
    requires NothingLost(f, sys) && Advances(f, sys.s, sys'.s, out) && sys'.s.reader.cur <= PieceCount(f)
    requires sys'.r == sys.r && sys'.toRecver == sys.toRecver + out
    ensures NothingLost(f, sys')
  {
    forall k: nat | k < sys'.s.reader.cur ensures Held(sys.r.writer.value, k) || InFlight(f, sys'.toRecver, k) {
      if k < sys.s.reader.cur {
        assert Held(sys.r.writer.value, k) || InFlight(f, sys.toRecver, k);
      } else {
        assert InFlight(f, out, k);
      }
    }
  }

  predicate Expected(s: Sender, m: Msg) {
    match m
    case PackAck(nums) => 0 < nums <= s.window && s.state == SendingFile
    case Retran(pieces) => Below(pieces, s.reader.cur) && s.state == SendingFile
    case m => (m.DownloadStart? || Greeting(m)) && (s.state == SendingFile || s.state == ConnRecver)
  }

  lemma HandleAdvances(f: seq<Byte>, s: Sender, from: Addr, time: int, m: Msg)
    requires Accepted(f) && StreamOk(f, s)
    requires Expected(s, m)
    ensures var (s', out) := SendConn.Handle(f, s, ClientSign, from, time, m);
      && Advances(f, s, s', out) && StreamOk(f, s')
      && (s'.state == SendingFile
          || (Greeting(m) && s'.state == s.state && s'.reader == s.reader && s'.queue == s.queue))
      && (AtRest(f, s) || m == DownloadStart ==> AtRest(f, s'))
  {
    match m
    case DownloadStart => StreamAdvances(f, s.(state := SendingFile));
    case PackAck(nums) => StreamAdvances(f, s.(window := s.window - nums, full := false));
    case Retran(pieces) =>
      assert Below(Decoded(pieces), s.reader.cur) by {
        assert pieces != [] ==> pieces[0] < s.reader.cur;
      }
      LossAdvances(f, s, Decoded(pieces));
    case _ =>
  }

  lemma ClosureAdvances(f: seq<Byte>, s: Sender)
    requires Accepted(f) && StreamOk(f, s)
    requires s.queue != []
    ensures var (s', out) := RunClosure(f, s);
      && Advances(f, s, s', out) && StreamOk(f, s') && s'.state == s.state
      && (AtRest(f, s) ==> AtRest(f, s'))
  {
    var s1 := s.(queue := s.queue[1..]);
    match s.queue[0]
    case StreamNext => StreamAdvances(f, s1);
    case LossNext(pieces) =>
      LossAdvances(f, s1, pieces);
      if StreamNext in s.queue {
        StillThere(s.queue, 0, StreamNext);
      }
  }

  lemma RequestsKept(ms: seq<Msg>, cur: nat, cur': nat)
    requires Requests(ms, cur) && cur <= cur'
    ensures Requests(ms, cur') && forall i: nat :: i < |ms| ==> Requests(Without(ms, i), cur')
  {
  }

  lemma RequestsAppended(ms: seq<Msg>, out: seq<Msg>, cur: nat)
    requires Requests(ms, cur) && (Requests(out, cur) || OnlyCredits(out))
    ensures Requests(ms + out, cur)
  {
  }

  lemma ExpectedNext(sys: Sys, i: nat, used: nat)
    requires i < |sys.toSender| && Conserved(sys, used) && Started(sys) && Requests(sys.toSender, sys.s.reader.cur)
    ensures Expected(sys.s, sys.toSender[i]) && !sys.toSender[i].Finish?
    ensures sys.s.state == ConnRecver ==> Credits(sys.toSender[i]) == 0
  {
    TotalWithout(Credits, sys.toSender, i);
  }

  lemma ToSenderUnderway(f: seq<Byte>, sys: Sys, used: nat, i: nat, from: Addr, time: int)
    requires Accepted(f) && Underway(f, sys, used) && i < |sys.toSender|
    ensures Underway(f, Apply(f, sys, ToSender(i, from, time)), used)
  {
    var e, m := ToSender(i, from, time), sys.toSender[i];
    ExpectedNext(sys, i, used);
    StepSafe(f, sys, e);
    StepConserved(f, sys, e, used);
    HandleAdvances(f, sys.s, from, time, m);
    var did, sys' := SendConn.Handle(f, sys.s, ClientSign, from, time, m), Apply(f, sys, e);
    assert sys' == sys.(s := did.0, toSender := Without(sys.toSender, i), toRecver := sys.toRecver + did.1,
                        lostCredits := sys'.lostCredits);
    hide Apply, SendConn.Handle, Safe, InHand, Requests, NothingLost, Expected, StreamOk;
    SenderMoved(f, sys, sys', did.1);
    RequestsKept(sys.toSender, sys.s.reader.cur, sys'.s.reader.cur);
    if DownloadStart in sys.toSender && m != DownloadStart {
      StillThere(sys.toSender, i, DownloadStart);
    }
  }

  lemma RunLoopUnderway(f: seq<Byte>, sys: Sys, used: nat)
    requires Accepted(f) && Underway(f, sys, used) && sys.s.queue != []
    ensures Underway(f, Apply(f, sys, RunLoop), used)
  {
    StepSafe(f, sys, RunLoop);
    StepConserved(f, sys, RunLoop, used);
    ClosureAdvances(f, sys.s);
    var did, sys' := RunClosure(f, sys.s), Apply(f, sys, RunLoop);
    assert sys' == sys.(s := did.0, toRecver := sys.toRecver + did.1);
    hide Safe, InHand, NothingLost, Apply, RunClosure, StreamOk;
    SenderMoved(f, sys, sys', did.1);
    RequestsKept(sys.toSender, sys.s.reader.cur, sys'.s.reader.cur);
  }

  lemma ListedBelow(f: seq<Byte>, w: Writer, n: nat)
    requires Ledger(f, w) && (w.cur <= n || PieceCount(f) <= n)
    ensures Below(Listed(w.loss, w.cur), n)
  {
    ListedIsAscending(w.loss, w.cur);
    var pieces := Listed(w.loss, w.cur);
    assert forall i :: 0 <= i < |pieces| ==> pieces[i] in w.loss;
  }

  lemma TickRequests(f: seq<Byte>, sys: Sys, used: nat, now: int)
    requires Accepted(f) && Underway(f, sys, used) && !TimedOut(sys.r, now)
    ensures Requests(RetranReq(sys.r, now), sys.s.reader.cur)
    ensures sys.s.state == ConnRecver ==> RetranReq(sys.r, now) == []
  {
    hide Counted, StreamOk, Conserved;
    ListedBelow(f, sys.r.writer.value, sys.s.reader.cur);
  }

  lemma RetranTimerUnderway(f: seq<Byte>, sys: Sys, used: nat, now: int)
    requires Accepted(f) && Underway(f, sys, used) && !TimedOut(sys.r, now)
    ensures Underway(f, Apply(f, sys, RetranTimer(now)), used)
  {
    var e := RetranTimer(now);
    StepSafe(f, sys, e);
    StepConserved(f, sys, e, used);
    TickRequests(f, sys, used, now);
    var out, sys' := RetranReq(sys.r, now), Apply(f, sys, e);
    assert sys' == sys.(toSender := sys.toSender + out);
    hide Apply, InHand, Safe, StreamOk, RetranReq, Requests;
    RequestsAppended(sys.toSender, out, sys.s.reader.cur);
  }

  /** What changes when one side is greeted or greets: nothing that a download depends on. */
  predicate Greeted(sys: Sys, sys': Sys) {
    && sys'.s == sys.s && sys'.r == sys.r.(serverHello := sys'.r.serverHello, peerHello := sys'.r.peerHello)
    && (sys'.toSender == sys.toSender || sys'.toSender == sys.toSender + [Hello]
        || sys'.toSender == sys.toSender + [HelloReply])
  }

  /** Greetings come and go on the way to the downloader. */
  predicate SamePieces(ms: seq<Msg>, ms': seq<Msg>) {
    || ms' == ms
    || ms' == ms + [Hello]
    || exists i :: 0 <= i < |ms| && Greeting(ms[i]) && ms' == Without(ms, i)
  }

  lemma SamePiecesSame(ms: seq<Msg>, ms': seq<Msg>, m: Msg)
    requires SamePieces(ms, ms')
    ensures m.DataStream? ==> (m in ms <==> m in ms')
    ensures m in ms' ==> Greeting(m) || m in ms
  {
    if ms' != ms && ms' != ms + [Hello] {
      var i :| 0 <= i < |ms| && Greeting(ms[i]) && ms' == Without(ms, i);
      if m.DataStream? && m in ms {
        StillThere(ms, i, m);
      }
    }
  }

  lemma GreetedNothingLost(f: seq<Byte>, sys: Sys, sys': Sys)
    requires NothingLost(f, sys) && Greeted(sys, sys') && SamePieces(sys.toRecver, sys'.toRecver)
    ensures NothingLost(f, sys')
  {
    forall m: Msg ensures m.DataStream? ==> (m in sys.toRecver <==> m in sys'.toRecver)
      ensures m in sys'.toRecver ==> Greeting(m) || m in sys.toRecver
    {
      SamePiecesSame(sys.toRecver, sys'.toRecver, m);
    }
    hide SamePieces, Piece, Held;
    forall k: nat | k < sys.s.reader.cur ensures Held(sys'.r.writer.value, k) || InFlight(f, sys'.toRecver, k) {
      assert Held(sys.r.writer.value, k) || InFlight(f, sys.toRecver, k);
    }
  }

  lemma GreetedUnderway(f: seq<Byte>, sys: Sys, sys': Sys, used: nat)
    requires Underway(f, sys, used) && Safe(f, sys') && Conserved(sys', used) && Greeted(sys, sys')
    requires SamePieces(sys.toRecver, sys'.toRecver)
    ensures Underway(f, sys', used)
  {
    GreetedNothingLost(f, sys, sys');
    hide Safe, InHand, StreamOk, NothingLost, SamePieces;
  }

  lemma HeartbeatUnderway(f: seq<Byte>, sys: Sys, used: nat, e: Event)
    requires Accepted(f) && Underway(f, sys, used) && (e.SenderTimer? || e.RecverTimer?) && Quiet(sys, e)
    ensures Underway(f, Apply(f, sys, e), used)
  {
    StepSafe(f, sys, e);
    StepConserved(f, sys, e, used);
    hide Safe, InHand, NothingLost, StreamOk;
    GreetedUnderway(f, sys, Apply(f, sys, e), used);
  }

  lemma GreetingToRecverUnderway(f: seq<Byte>, sys: Sys, used: nat, i: nat, from: Addr, time: int)
    requires Accepted(f) && Underway(f, sys, used) && i < |sys.toRecver| && Greeting(sys.toRecver[i])
    ensures Underway(f, Apply(f, sys, ToRecver(i, from, time)), used)
  {
    var e := ToRecver(i, from, time);
    StepSafe(f, sys, e);
    StepConserved(f, sys, e, used);
    hide Safe, InHand, NothingLost, StreamOk;
    GreetedUnderway(f, sys, Apply(f, sys, e), used);
  }

  /** The downloader has closed its file, with all of f in it. */
  predicate Done(f: seq<Byte>, sys: Sys) {
    sys.r.state == Idle && sys.r.writer.Some? && !sys.r.writer.value.open && Delivered(f, sys.r.writer.value)
  }

  /** The downloader takes in a piece no more than 1024 ahead. */
  lemma PieceTaken(f: seq<Byte>, r: Receiver, from: Addr, time: int, k: nat)
    requires Accepted(f) && RecverOk(f, r) && r.state == RecvFile
    requires k <= PieceCount(f) && k <= r.writer.value.cur + 1024
    ensures var (r', out) := GetConn.Handle(r, ClientSign, from, time, DataStream(k, Piece(f, k)));
      && r'.writer.Some?
      && var w, w' := r.writer.value, r'.writer.value;
      && w'.cur == (if k < w.cur then w.cur else k + 1) && w'.loss == MissingAfter(w, k)
      && (r'.state == RecvFile || (r'.state == Idle && !w'.open && Delivered(f, w')))
      && (r'.state == RecvFile ==> OnlyCredits(out))
  {
    WriteGenuine(f, r.writer.value, k);
  }

  lemma RecverMoved(f: seq<Byte>, sys: Sys, sys': Sys, i: nat, k: nat)
    requires NothingLost(f, sys) && i < |sys.toRecver| && sys.toRecver[i] == DataStream(k, Piece(f, k))
    requires sys'.s == sys.s && sys'.toRecver == Without(sys.toRecver, i) && sys'.r.writer.Some?
    requires var w, w' := sys.r.writer.value, sys'.r.writer.value;
      w'.cur == (if k < w.cur then w.cur else k + 1) && w'.loss == MissingAfter(w, k)
    ensures NothingLost(f, sys')
  {
    var w, w' := sys.r.writer.value, sys'.r.writer.value;
    assert sys.toRecver[i] in sys.toRecver;
    forall j: nat | j < sys.s.reader.cur ensures Held(w', j) || InFlight(f, sys'.toRecver, j) {
      if j != k && !Held(w, j) {
        StillThere(sys.toRecver, i, DataStream(j, Piece(f, j)));
      }
    }
  }

  /** A piece in flight to the downloader is the next or an earlier piece of f, never far ahead. */
  lemma PieceNext(f: seq<Byte>, sys: Sys, used: nat, i: nat)
    requires Underway(f, sys, used) && i < |sys.toRecver| && !Greeting(sys.toRecver[i])
    ensures var m := sys.toRecver[i];
      && m.DataStream? && m == DataStream(m.pieceNum, Piece(f, m.pieceNum))
      && m.pieceNum <= PieceCount(f) && m.pieceNum < sys.r.writer.value.cur + 30
      && RecverOk(f, sys.r)
  {
    assert sys.toRecver[i] in sys.toRecver;
    NeverFarAhead(f, sys, used, sys.toRecver[i]);
  }

  /** A sharer from which a piece has come is sending. */
  lemma SendingBy(f: seq<Byte>, sys: Sys, used: nat, i: nat)
    requires f != [] && Underway(f, sys, used) && i < |sys.toRecver| && !Greeting(sys.toRecver[i])
    ensures sys.s.state == SendingFile
  {
    assert sys.toRecver[i] in sys.toRecver;
  }

  lemma PieceApplied(f: seq<Byte>, sys: Sys, used: nat, i: nat, from: Addr, time: int)
    requires Accepted(f) && Underway(f, sys, used) && i < |sys.toRecver| && !Greeting(sys.toRecver[i])
    ensures var e, did := ToRecver(i, from, time), GetConn.Handle(sys.r, ClientSign, from, time, sys.toRecver[i]);
      && Apply(f, sys, e) ==
           sys.(r := did.0, toRecver := Without(sys.toRecver, i), toSender := sys.toSender + did.1)
      && Plain(sys, e) && Kept(sys, e)
  {
    PieceNext(f, sys, used, i);
    hide GetConn.Handle, Safe, NothingLost;
  }

  lemma PieceUnderway(f: seq<Byte>, sys: Sys, used: nat, i: nat, from: Addr, time: int)
    requires Accepted(f) && Underway(f, sys, used) && i < |sys.toRecver| && !Greeting(sys.toRecver[i])
    ensures var sys' := Apply(f, sys, ToRecver(i, from, time));
      && (Underway(f, sys', used) || Done(f, sys'))
      && NothingLost(f, sys') && sys'.s == sys.s
  {
    var e, k := ToRecver(i, from, time), sys.toRecver[i].pieceNum;
    var sys' := Apply(f, sys, e);
    PieceNext(f, sys, used, i);
    SendingBy(f, sys, used, i);
    PieceApplied(f, sys, used, i, from, time);
    StepSafe(f, sys, e);
    PieceTaken(f, sys.r, from, time, k);
    var did := GetConn.Handle(sys.r, ClientSign, from, time, sys.toRecver[i]);
    hide InHand, Safe, GetConn.Handle, NothingLost, RecverOk, Apply, StreamOk, Requests, OnlyCredits, Plain, Kept;
    StepConserved(f, sys, e, used);
    RecverMoved(f, sys, sys', i, k);
    if sys'.r.state == RecvFile {
      RequestsAppended(sys.toSender, did.1, sys.s.reader.cur);
    }
  }

  lemma OpeningUnderway(f: seq<Byte>, sys: Sys)
    requires Accepted(f) && Reopening(f, sys)
    ensures Underway(f, sys, sys.s.window)
  {
    NewWriterLedger(f);
    assert sys.toSender[0] == DownloadStart;
    assert Total(Credits, sys.toSender) == 0;
  }

  /** A finished download stays finished. */
  lemma DoneKept(f: seq<Byte>, sys: Sys, e: Event)
    requires Done(f, sys) && Enabled(f, sys, e) && Quiet(sys, e)
    ensures Done(f, Apply(f, sys, e))
  {
    hide SendConn.Handle, RunClosure, Delivered;
  }

  lemma QuietStep(f: seq<Byte>, sys: Sys, used: nat, e: Event)
    requires Accepted(f) && (Underway(f, sys, used) || Done(f, sys)) && Enabled(f, sys, e) && Quiet(sys, e)
    ensures Underway(f, Apply(f, sys, e), used) || Done(f, Apply(f, sys, e))
  {
    if Done(f, sys) {
      DoneKept(f, sys, e);
    } else {
      hide Underway, Done, Apply;
      match e
      case ToSender(i, from, time) => ToSenderUnderway(f, sys, used, i, from, time);
      case ToRecver(i, from, time) =>
        if Greeting(sys.toRecver[i]) {
          GreetingToRecverUnderway(f, sys, used, i, from, time);
        } else {
          PieceUnderway(f, sys, used, i, from, time);
        }
      case RunLoop => RunLoopUnderway(f, sys, used);
      case RetranTimer(now) => RetranTimerUnderway(f, sys, used, now);
      case SenderTimer(_) => HeartbeatUnderway(f, sys, used, e);
      case RecverTimer(_) => HeartbeatUnderway(f, sys, used, e);
      case _ => LateAnnouncement(f, sys, e);
    }
  }

  lemma {:induction false} QuietRun(f: seq<Byte>, sys: Sys, used: nat, run: seq<Event>)
    requires Accepted(f) && (Underway(f, sys, used) || Done(f, sys)) && Possible(f, sys, run) && AllQuiet(f, sys, run)
    ensures Underway(f, After(f, sys, run), used) || Done(f, After(f, sys, run))
    decreases |run|
  {
    if run == [] {
    } else {
      QuietStep(f, sys, used, run[0]);
      hide Underway, Done, Apply, Quiet;
      QuietRun(f, Apply(f, sys, run[0]), used, run[1..]);
    }
  }

  /** If the stream has reached the end and nothing is in flight, every piece is held. */
  lemma AllHeld(f: seq<Byte>, sys: Sys)
    requires f != [] && NothingLost(f, sys) && sys.toRecver == [] && sys.s.reader.cur == PieceCount(f)
    requires forall p :: p in sys.r.writer.value.loss ==> p < PieceCount(f)
    ensures Complete(f, sys.r.writer.value)
  {
    var w := sys.r.writer.value;
    forall k: nat | k < PieceCount(f) ensures Held(w, k) {
      assert Held(w, k) || InFlight(f, sys.toRecver, k);
    }
    assert Held(w, PieceCount(f) - 1);
    assert forall p :: p in w.loss ==> !Held(w, p);
  }

  /** At rest the downloader holds fewer than 10 of the pieces that the window counts; with no more than 20 used before,
      the window is not full, so the stream has reached the end, and then the downloader has every piece and has closed
      its file. */
  lemma RestIsNotUnderway(f: seq<Byte>, sys: Sys, used: nat)
    requires Accepted(f) && Quiescent(sys) && used <= 20
    ensures !Underway(f, sys, used)
  {
    if Underway(f, sys, used) {
      AllHeld(f, sys);
    }
  }

  /** Quiescence implies completion: a download over a network that reorders but loses nothing, with any number of
      retransmission ticks and heartbeats, cannot come to rest with the file incomplete, unless more than 20 pieces of
      the window were in use from the start. */
  lemma QuiescenceImpliesCompletion(f: seq<Byte>, sys: Sys, run: seq<Event>)
    requires Accepted(f) && Reopening(f, sys) && sys.s.window <= 20
    requires Possible(f, sys, run) && AllQuiet(f, sys, run) && Quiescent(After(f, sys, run))
    ensures Done(f, After(f, sys, run))
  {
    OpeningUnderway(f, sys);
    QuietRun(f, sys, sys.s.window, run);
    RestIsNotUnderway(f, After(f, sys, run), sys.s.window);
  }

  /** In such a run, whatever the window at the start, no piece reaches an open file from 30 or more ahead, so
      LOSS_HEAVY never occurs. */
  lemma NoHeavyLoss(f: seq<Byte>, sys: Sys, run: seq<Event>, m: Msg)
    requires Accepted(f) && Reopening(f, sys) && Possible(f, sys, run) && AllQuiet(f, sys, run)
    requires After(f, sys, run).r.state == RecvFile && m in After(f, sys, run).toRecver && m.DataStream?
    ensures After(f, sys, run).r.writer.Some?
    ensures m.pieceNum < After(f, sys, run).r.writer.value.cur + 30
    ensures Write(After(f, sys, run).r.writer.value, m.data, m.pieceNum).1 != LOSS_HEAVY
  {
    OpeningUnderway(f, sys);
    QuietRun(f, sys, sys.s.window, run);
    hide Possible, After, AllQuiet;
    NeverFarAhead(f, After(f, sys, run), sys.s.window, m);
  }
}
