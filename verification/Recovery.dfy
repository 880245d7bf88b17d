/** Recovery of lost pieces. When a transfer has come to rest with pieces missing, the downloader's timer returns a
    whole window of credits and asks for the missing pieces; the sharer answers from the back of the list. */
module Recovery {
  import opened Pieces
  import opened Messages
  import opened SendFile
  import opened GetFile
  import opened SendConn
  import opened GetConn
  import opened Transfer
  import opened Session
  import opened Progress

  /** At rest with the stream at its end, and the last piece either written or known to be missing. */
  ghost predicate Stuck(f: seq<Byte>, sys: Sys) {
    && Safe(f, sys) && Quiescent(sys) && sys.s.state == SendingFile && sys.s.reader.cur == PieceCount(f)
    && sys.r.state == RecvFile && sys.r.writer.value.cur >= PieceCount(f)
  }

  /** Deliveries and turns of the loop, with the messages to the sharer delivered in order. */
  predicate InOrder(e: Event) { e.ToRecver? || e.RunLoop? || (e.ToSender? && e.i == 0) }

  /** Everything is delivered in the order in which it was sent. */
  predicate InTurn(e: Event) { e.RunLoop? || (e.ToSender? && e.i == 0) || (e.ToRecver? && e.i == 0) }

  predicate AllInTurn(run: seq<Event>) { forall i :: 1 <= i < |run| ==> InTurn(run[i]) }

  /** One round: the timer fires after a silence, and the answers arrive without loss until the system is at rest. */
  predicate Round(f: seq<Byte>, sys: Sys, run: seq<Event>) {
    && run != [] && run[0].RetranTimer? && TimedOut(sys.r, run[0].now)
    && (forall i :: 1 <= i < |run| ==> InOrder(run[i]))
    && Possible(f, sys, run) && Quiescent(After(f, sys, run))
  }

  /** How far the answer to a request has come: the credits are in flight, or the request is, or the last m of the
      numbers it decodes to have been sent. */
  datatype Phase = AwaitCredits | AwaitRequest | Sent(m: nat)

  predicate OnlyStream(queue: seq<Closure>) { forall i :: 0 <= i < |queue| ==> queue[i].StreamNext? }

  predicate OnlyData(f: seq<Byte>, ms: seq<Msg>) {
    forall m :: m in ms ==> m.DataStream? && m.pieceNum <= PieceCount(f) && m.data == Piece(f, m.pieceNum)
  }

  /** Closure i is the loss closure with the given numbers still to send, and all others continue the stream. */
  predicate LossAt(queue: seq<Closure>, pieces: seq<nat>, i: nat) {
    && i < |queue| && queue[i] == LossNext(pieces)
    && forall j :: 0 <= j < |queue| && j != i ==> queue[j].StreamNext?
  }

  ghost predicate OneLoss(queue: seq<Closure>, pieces: seq<nat>) { exists i: nat :: LossAt(queue, pieces, i) }

  /** The window, plus one if the stream could send once more. */
  function Load(s: Sender): nat { s.window + if s.reader.Live? then 1 else 0 }

  /** The closures and messages of each phase. A number served costs the window at most two: the piece, and the empty
      piece that the stream, revived, may send after it. So 15 numbers at least are served before the window
      is full. */
  ghost predicate InPhase(s: Sender, toSender: seq<Msg>, list: seq<nat>, ph: Phase) {
    var all := Decoded(list);
    match ph
    case AwaitCredits => toSender == [PackAck(30), Retran(list)] && s.queue == []
    case AwaitRequest =>
      toSender != [] && toSender[0] == Retran(list) && OnlyCredits(toSender[1..]) && OnlyStream(s.queue) && Load(s) <= 1
    case Sent(m) =>
      && m <= |all| && OnlyCredits(toSender) && Load(s) <= 1 + 2 * m
      && (OneLoss(s.queue, all[..|all| - m]) || (OnlyStream(s.queue) && (m == |all| || m >= 15)))
  }

  predicate AtEnd(f: seq<Byte>, s: Sender) {
    SenderOk(f, s) && s.state == SendingFile && s.reader.cur == PieceCount(f)
  }

  /** The numbers sent so far: the last m. */
  predicate Served(all: seq<nat>, ph: Phase, p: nat) {
    ph.Sent? && ph.m <= |all| && p in all[|all| - ph.m..]
  }

  /** What has been served has been written or is in flight. */
  ghost predicate Answering(f: seq<Byte>, sys: Sys, list: seq<nat>, ph: Phase) {
    && Safe(f, sys) && AtEnd(f, sys.s) && sys.r.state == RecvFile && sys.r.writer.value.cur >= PieceCount(f)
    && InPhase(sys.s, sys.toSender, list, ph) && OnlyData(f, sys.toRecver)
    && (forall p :: p in sys.r.writer.value.loss ==> p in list)
    && (forall p :: p in sys.r.writer.value.loss && Served(Decoded(list), ph, p) ==> InFlight(f, sys.toRecver, p))
  }

  lemma StreamAtEnd(f: seq<Byte>, s: Sender)
    requires Accepted(f) && AtEnd(f, s)
    ensures var (s', out) := SendFileStream(f, s);
      && AtEnd(f, s') && Load(s') <= Load(s) && OnlyData(f, out)
      && (s'.queue == s.queue || s'.queue == s.queue + [StreamNext])
  {
    StreamSafe(f, s);
    if s.reader.Live? {
      NextPieceInStep(f, s.reader);
    }
  }

  lemma OneLossMore(queue: seq<Closure>, pieces: seq<nat>)
    requires OneLoss(queue, pieces)
    ensures OneLoss(queue + [StreamNext], pieces)
  {
    var i: nat :| LossAt(queue, pieces, i);
    assert LossAt(queue + [StreamNext], pieces, i);
  }

  lemma OneLossNew(queue: seq<Closure>, pieces: seq<nat>)
    requires OnlyStream(queue)
    ensures OneLoss(queue + [LossNext(pieces)], pieces)
  {
    assert LossAt(queue + [LossNext(pieces)], pieces, |queue|);
  }

  lemma OneLossPlus(queue: seq<Closure>, pieces: seq<nat>)
    ensures OneLoss(queue, pieces) ==> OneLoss(queue + [StreamNext], pieces)
    ensures OnlyStream(queue) ==> OneLoss(queue + [LossNext(pieces)], pieces)
  {
    hide OneLoss, OnlyStream;
    if OneLoss(queue, pieces) {
      OneLossMore(queue, pieces);
    }
    if OnlyStream(queue) {
      OneLossNew(queue, pieces);
    }
  }

  lemma OneLossHead(queue: seq<Closure>, pieces: seq<nat>)
    requires OneLoss(queue, pieces)
    ensures queue != []
    ensures queue[0].StreamNext? ==> OneLoss(queue[1..], pieces)
    ensures queue[0].LossNext? ==> queue[0] == LossNext(pieces) && OnlyStream(queue[1..])
  {
    var i: nat :| LossAt(queue, pieces, i);
    if i > 0 {
      assert LossAt(queue[1..], pieces, i - 1);
    }
  }

  lemma LossAtEnd(f: seq<Byte>, s: Sender, pieces: seq<nat>)
    requires Accepted(f) && AtEnd(f, s) && Requestable(f, pieces)
    ensures var (s', out) := SendLossPieces(f, s, pieces);
      && AtEnd(f, s') && OnlyData(f, out)
      && (pieces == [] || s.window >= 30 ==> s'.queue == s.queue && Load(s') == Load(s))
      && (pieces != [] && s.window < 30 ==>
           && s'.queue == s.queue + [LossNext(pieces[..|pieces| - 1])] && Load(s') <= Load(s) + 2
           && InFlight(f, out, pieces[|pieces| - 1]))
  {
    LossSafe(f, s, pieces);
    if pieces != [] {
      PieceOfInStep(f, s.reader, pieces[|pieces| - 1]);
    }
  }

  /** The whole window of credits reaches the sharer: its window is empty. */
  lemma WindowReturned(f: seq<Byte>, s: Sender, list: seq<nat>, from: Addr, time: int)
    requires Accepted(f) && AtEnd(f, s) && s.queue == []
    ensures var (s', out) := SendConn.Handle(f, s, ClientSign, from, time, PackAck(30));
      AtEnd(f, s') && OnlyData(f, out) && InPhase(s', [Retran(list)], list, AwaitRequest)
  {
    StreamAtEnd(f, s.(window := 0, full := false));
    hide OnlyData, SendFileStream;
  }

  lemma AwaitedMeans(s: Sender, toSender: seq<Msg>, list: seq<nat>)
    requires InPhase(s, [Retran(list)] + toSender, list, AwaitRequest)
    ensures OnlyCredits(toSender) && OnlyStream(s.queue) && Load(s) <= 1 && s.window < 30
  {
    assert ([Retran(list)] + toSender)[1..] == toSender;
  }

  /** The numbers still to be sent when the last m have been. */
  function LeftOf(list: seq<nat>, m: nat): seq<nat>
    requires m <= |Decoded(list)|
  {
    Decoded(list)[..|Decoded(list)| - m]
  }

  lemma SentMeans(s: Sender, toSender: seq<Msg>, list: seq<nat>, m: nat)
    ensures InPhase(s, toSender, list, Sent(m)) <==>
      && m <= |Decoded(list)| && OnlyCredits(toSender) && Load(s) <= 1 + 2 * m
      && (OneLoss(s.queue, LeftOf(list, m)) || (OnlyStream(s.queue) && (m == |Decoded(list)| || m >= 15)))
  {
  }

  lemma RestOfCredits(nums: nat, toSender: seq<Msg>)
    requires OnlyCredits([PackAck(nums)] + toSender)
    ensures OnlyCredits(toSender)
  {
    assert forall i :: 0 <= i < |toSender| ==> ([PackAck(nums)] + toSender)[i + 1] == toSender[i];
  }

  /** Credits leave the sharer as it is, with a smaller window, or resume the stream. */
  lemma CreditsHandled(f: seq<Byte>, s: Sender, nums: nat, from: Addr, time: int)
    requires Accepted(f) && AtEnd(f, s)
    ensures var (s', out) := SendConn.Handle(f, s, ClientSign, from, time, PackAck(nums));
      && AtEnd(f, s') && Load(s') <= Load(s) && OnlyData(f, out)
      && (s'.queue == s.queue || s'.queue == s.queue + [StreamNext])
  {
    assert OnlyData(f, []);
    var s1 := s.(window := if nums <= s.window then s.window - nums else 0, full := false);
    StreamAtEnd(f, s1);
    hide OnlyData, SendFileStream, InStep;
  }

  lemma QueueKept(queue: seq<Closure>, queue': seq<Closure>, left: seq<nat>)
    requires queue' == queue || queue' == queue + [StreamNext]
    ensures (OneLoss(queue, left) ==> OneLoss(queue', left)) && (OnlyStream(queue) ==> OnlyStream(queue'))
  {
    OneLossPlus(queue, left);
  }

  /** Further credits reach the sharer, which may resume the stream but sends no number again. */
  lemma CreditsArrive(f: seq<Byte>, s: Sender, nums: nat, toSender: seq<Msg>, list: seq<nat>, m: nat,
                      from: Addr, time: int)
    requires Accepted(f) && AtEnd(f, s) && InPhase(s, [PackAck(nums)] + toSender, list, Sent(m))
    ensures var (s', out) := SendConn.Handle(f, s, ClientSign, from, time, PackAck(nums));
      AtEnd(f, s') && OnlyData(f, out) && InPhase(s', toSender, list, Sent(m))
  {
    hide *;
    SentMeans(s, [PackAck(nums)] + toSender, list, m);
    RestOfCredits(nums, toSender);
    CreditsHandled(f, s, nums, from, time);
    var s' := SendConn.Handle(f, s, ClientSign, from, time, PackAck(nums)).0;
    QueueKept(s.queue, s'.queue, LeftOf(list, m));
    SentMeans(s', toSender, list, m);
  }

  lemma LeftAfter(list: seq<nat>, m: nat)
    requires m <= |Decoded(list)|
    ensures LeftOf(list, m) == [] <==> m == |Decoded(list)|
    ensures m < |Decoded(list)| ==>
      && LeftOf(list, m)[|LeftOf(list, m)| - 1] == Decoded(list)[|Decoded(list)| - (m + 1)]
      && LeftOf(list, m)[..|LeftOf(list, m)| - 1] == LeftOf(list, m + 1)
  {
  }

  lemma LeftRequestable(f: seq<Byte>, list: seq<nat>, m: nat)
    requires f != [] && Requestable(f, list) && m <= |Decoded(list)|
    ensures Requestable(f, LeftOf(list, m))
  {
    DecodedRequestable(f, list);
    hide Decoded;
  }

  /** The loop runs a stream closure. */
  lemma StreamTurn(f: seq<Byte>, s: Sender, toSender: seq<Msg>, list: seq<nat>, ph: Phase)
    requires Accepted(f) && AtEnd(f, s) && InPhase(s, toSender, list, ph) && s.queue != [] && s.queue[0].StreamNext?
    ensures var (s', out) := RunClosure(f, s); AtEnd(f, s') && OnlyData(f, out) && InPhase(s', toSender, list, ph)
  {
    var s1 := s.(queue := s.queue[1..]);
    StreamAtEnd(f, s1);
    hide AtEnd, OnlyData, SendFileStream, Decoded, OneLoss;
    if ph.Sent? {
      var left := Decoded(list)[..|Decoded(list)| - ph.m];
      if OneLoss(s.queue, left) {
        OneLossHead(s.queue, left);
        OneLossPlus(s1.queue, left);
      }
    }
  }

  lemma LossMeans(s: Sender, toSender: seq<Msg>, list: seq<nat>, m: nat)
    requires InPhase(s, toSender, list, Sent(m)) && s.queue != [] && s.queue[0].LossNext?
    ensures m <= |Decoded(list)| && OnlyCredits(toSender) && Load(s) <= 1 + 2 * m
    ensures s.queue[0] == LossNext(LeftOf(list, m)) && OnlyStream(s.queue[1..])
  {
    SentMeans(s, toSender, list, m);
    OneLossHead(s.queue, LeftOf(list, m));
    hide Decoded, OneLoss;
  }

  lemma LossRuns(f: seq<Byte>, s: Sender)
    requires s.queue != [] && s.queue[0].LossNext?
    ensures RunClosure(f, s) == SendLossPieces(f, s.(queue := s.queue[1..]), s.queue[0].pieces)
    ensures Load(s.(queue := s.queue[1..])) == Load(s)
    ensures AtEnd(f, s) ==> AtEnd(f, s.(queue := s.queue[1..]))
  {
    hide SendLossPieces, InStep;
    assert forall i :: 0 <= i < |s.queue[1..]| ==> s.queue[1..][i] == s.queue[i + 1];
  }

  lemma LossServes(f: seq<Byte>, s: Sender, toSender: seq<Msg>, list: seq<nat>, m: nat)
    requires Accepted(f) && AtEnd(f, s) && Load(s) <= 1 + 2 * m && s.window < 30 && OnlyStream(s.queue)
    requires OnlyCredits(toSender) && Requestable(f, list) && m < |Decoded(list)|
    ensures var (s', out) := SendLossPieces(f, s, LeftOf(list, m));
      && AtEnd(f, s') && OnlyData(f, out) && InPhase(s', toSender, list, Sent(m + 1))
      && InFlight(f, out, Decoded(list)[|Decoded(list)| - (m + 1)])
  {
    assert f != [];
    hide *;
    LeftRequestable(f, list, m);
    LeftAfter(list, m);
    LossAtEnd(f, s, LeftOf(list, m));
    OneLossPlus(s.queue, LeftOf(list, m + 1));
    SentMeans(SendLossPieces(f, s, LeftOf(list, m)).0, toSender, list, m + 1);
  }

  lemma LossStops(f: seq<Byte>, s: Sender, toSender: seq<Msg>, list: seq<nat>, m: nat)
    requires Accepted(f) && AtEnd(f, s) && Load(s) <= 1 + 2 * m && OnlyStream(s.queue)
    requires OnlyCredits(toSender) && Requestable(f, list) && m <= |Decoded(list)|
    requires s.window >= 30 || m == |Decoded(list)|
    ensures var (s', out) := SendLossPieces(f, s, LeftOf(list, m));
      AtEnd(f, s') && OnlyData(f, out) && InPhase(s', toSender, list, Sent(m))
  {
    assert f != [] && (s.window >= 30 ==> m >= 15);
    hide *;
    LeftRequestable(f, list, m);
    LeftAfter(list, m);
    LossAtEnd(f, s, LeftOf(list, m));
    SentMeans(SendLossPieces(f, s, LeftOf(list, m)).0, toSender, list, m);
  }

  /** The loop runs the loss closure, which serves another number or stops. */
  lemma LossTurn(f: seq<Byte>, s: Sender, toSender: seq<Msg>, list: seq<nat>, m: nat) returns (m': nat)
    requires Accepted(f) && AtEnd(f, s) && InPhase(s, toSender, list, Sent(m)) && s.queue != [] && s.queue[0].LossNext?
    requires Requestable(f, list)
    ensures var (s', out) := RunClosure(f, s);
      && AtEnd(f, s') && OnlyData(f, out) && InPhase(s', toSender, list, Sent(m'))
      && (m' == m || (m' == m + 1 <= |Decoded(list)| && InFlight(f, out, Decoded(list)[|Decoded(list)| - m'])))
  {
    hide *;
    LossMeans(s, toSender, list, m);
    LossRuns(f, s);
    var s1 := s.(queue := s.queue[1..]);
    if m < |Decoded(list)| && s.window < 30 {
      m' := m + 1;
      LossServes(f, s1, toSender, list, m);
    } else {
      m' := m;
      LossStops(f, s1, toSender, list, m);
    }
  }

  lemma RequestHandled(f: seq<Byte>, s: Sender, list: seq<nat>, from: Addr, time: int)
    requires AtEnd(f, s) && list != []
    ensures |Decoded(list)| > 0 && Decoded(list)[|Decoded(list)| - 1] == list[|list| - 1]
    ensures SendConn.Handle(f, s, ClientSign, from, time, Retran(list)) == SendLossPieces(f, s, LeftOf(list, 0))
  {
    assert LeftOf(list, 0) == Decoded(list);
    hide SendLossPieces, InStep;
  }

  /** The request reaches the sharer, which serves its last number. */
  lemma RequestArrives(f: seq<Byte>, s: Sender, toSender: seq<Msg>, list: seq<nat>, from: Addr, time: int)
    requires Accepted(f) && AtEnd(f, s) && InPhase(s, [Retran(list)] + toSender, list, AwaitRequest)
    requires list != [] && Requestable(f, list)
    ensures var (s', out) := SendConn.Handle(f, s, ClientSign, from, time, Retran(list));
      && AtEnd(f, s') && OnlyData(f, out) && InPhase(s', toSender, list, Sent(1))
      && InFlight(f, out, list[|list| - 1])
  {
    hide *;
    RequestHandled(f, s, list, from, time);
    AwaitedMeans(s, toSender, list);
    LossServes(f, s, toSender, list, 0);
  }

  lemma SenderAnswers(f: seq<Byte>, sys: Sys, sys': Sys, out: seq<Msg>, list: seq<nat>, ph: Phase, ph': Phase)
    requires Answering(f, sys, list, ph) && Safe(f, sys') && AtEnd(f, sys'.s)
    requires sys'.r == sys.r && sys'.toRecver == sys.toRecver + out && OnlyData(f, out)
    requires InPhase(sys'.s, sys'.toSender, list, ph')
    requires forall p :: Served(Decoded(list), ph', p) ==>
      Served(Decoded(list), ph, p) || InFlight(f, out, p) || p !in list
    ensures Answering(f, sys', list, ph')
  {
    hide InPhase, AtEnd, Safe, Decoded, Served;
  }

  lemma ServedOne(all: seq<nat>, m: nat, p: nat)
    requires m + 1 <= |all|
    ensures Served(all, Sent(m + 1), p) ==> Served(all, Sent(m), p) || p == all[|all| - (m + 1)]
  {
    assert all[|all| - (m + 1)..] == [all[|all| - (m + 1)]] + all[|all| - m..];
  }

  lemma ServedFirst(list: seq<nat>)
    requires list != []
    ensures forall p :: Served(Decoded(list), Sent(1), p) ==> p == list[|list| - 1]
  {
    var all := Decoded(list);
    assert all[|all| - 1..] == [list[|list| - 1]];
  }

  /** The sharer has handled the first message to it. */
  lemma SharerAnswers(f: seq<Byte>, sys: Sys, list: seq<nat>, ph: Phase, from: Addr, time: int, ph': Phase)
    requires Accepted(f) && Answering(f, sys, list, ph) && sys.toSender != []
    requires var (s', out) := SendConn.Handle(f, sys.s, ClientSign, from, time, sys.toSender[0]);
      && AtEnd(f, s') && OnlyData(f, out) && InPhase(s', sys.toSender[1..], list, ph')
      && forall p :: Served(Decoded(list), ph', p) ==>
           Served(Decoded(list), ph, p) || InFlight(f, out, p) || p !in list
    ensures Answering(f, Apply(f, sys, ToSender(0, from, time)), list, ph')
  {
    var e := ToSender(0, from, time);
    StepSafe(f, sys, e);
    SharerHandles(f, sys, 0, from, time);
    assert Without(sys.toSender, 0) == sys.toSender[1..];
    hide Apply, SendConn.Handle, Safe, AtEnd, Decoded, Served, InPhase, OnlyData, InFlight;
    var did := SendConn.Handle(f, sys.s, ClientSign, from, time, sys.toSender[0]);
    SenderAnswers(f, sys, Apply(f, sys, e), did.1, list, ph, ph');
  }

  lemma FirstAndRest(ms: seq<Msg>)
    requires ms != []
    ensures ms == [ms[0]] + ms[1..]
  {
  }

  /** What is first on its way to the sharer. */
  lemma FirstToSharer(f: seq<Byte>, sys: Sys, list: seq<nat>, ph: Phase)
    requires Answering(f, sys, list, ph) && sys.toSender != []
    ensures AtEnd(f, sys.s)
    ensures match ph
      case AwaitCredits => sys.toSender == [PackAck(30), Retran(list)] && sys.s.queue == []
      case AwaitRequest => sys.toSender[0] == Retran(list)
      case Sent(_) => sys.toSender[0].PackAck?
    ensures InPhase(sys.s, sys.toSender, list, ph)
  {
    hide Safe, Decoded, OneLoss;
  }

  lemma ToSenderAnswers(f: seq<Byte>, sys: Sys, list: seq<nat>, ph: Phase, from: Addr, time: int) returns (ph': Phase)
    requires Accepted(f) && Answering(f, sys, list, ph) && sys.toSender != [] && list != [] && Requestable(f, list)
    ensures Answering(f, Apply(f, sys, ToSender(0, from, time)), list, ph') && ph' != AwaitCredits
  {
    FirstToSharer(f, sys, list, ph);
    FirstAndRest(sys.toSender);
    hide Answering, SendConn.Handle, AtEnd, Decoded, InPhase, Apply;
    match ph
    case AwaitCredits =>
      WindowReturned(f, sys.s, list, from, time);
      ph' := AwaitRequest;
      SharerAnswers(f, sys, list, ph, from, time, ph');
    case AwaitRequest =>
      RequestArrives(f, sys.s, sys.toSender[1..], list, from, time);
      ServedFirst(list);
      ph' := Sent(1);
      hide Served;
      SharerAnswers(f, sys, list, ph, from, time, ph');
    case Sent(m) =>
      CreditsArrive(f, sys.s, sys.toSender[0].nums, sys.toSender[1..], list, m, from, time);
      ph' := ph;
      SharerAnswers(f, sys, list, ph, from, time, ph');
  }

  lemma RunLoopAnswers(f: seq<Byte>, sys: Sys, list: seq<nat>, ph: Phase) returns (ph': Phase)
    requires Accepted(f) && Answering(f, sys, list, ph) && sys.s.queue != [] && Requestable(f, list)
    ensures Answering(f, Apply(f, sys, RunLoop), list, ph') && ph' != AwaitCredits
  {
    StepSafe(f, sys, RunLoop);
    var did, sys', all := RunClosure(f, sys.s), Apply(f, sys, RunLoop), Decoded(list);
    ph' := ph;
    match sys.s.queue[0]
    case StreamNext => StreamTurn(f, sys.s, sys.toSender, list, ph);
    case LossNext(_) =>
      var m := LossTurn(f, sys.s, sys.toSender, list, ph.m);
      forall p ensures m == ph.m + 1 && Served(all, Sent(m), p) ==> Served(all, ph, p) || p == all[|all| - m] {
        if m == ph.m + 1 { ServedOne(all, ph.m, p); }
      }
      ph' := Sent(m);
    assert sys' == sys.(s := did.0, toRecver := sys.toRecver + did.1);
    hide RunClosure, Safe, AtEnd, Apply, Decoded, Served, InPhase;
    SenderAnswers(f, sys, sys', did.1, list, ph, ph');
  }

  lemma MoreCredits(s: Sender, toSender: seq<Msg>, out: seq<Msg>, list: seq<nat>, ph: Phase)
    requires InPhase(s, toSender, list, ph) && OnlyCredits(out) && ph != AwaitCredits
    ensures InPhase(s, toSender + out, list, ph)
  {
    if ph.AwaitRequest? {
      assert (toSender + out)[1..] == toSender[1..] + out;
    }
  }

  lemma StillInFlight(f: seq<Byte>, ms: seq<Msg>, i: nat, k: nat, p: nat)
    requires i < |ms| && ms[i].DataStream? && ms[i].pieceNum == k && p != k && InFlight(f, ms, p)
    ensures InFlight(f, Without(ms, i), p)
  {
    StillThere(ms, i, DataStream(p, Piece(f, p)));
  }

  /** A piece reaches the downloader. Beyond the end of the stream it can only shorten the list of missing pieces. */
  lemma ToRecverAnswers(f: seq<Byte>, sys: Sys, i: nat, list: seq<nat>, ph: Phase, from: Addr, time: int)
    requires Accepted(f) && Answering(f, sys, list, ph) && i < |sys.toRecver| && ph != AwaitCredits
    ensures var sys' := Apply(f, sys, ToRecver(i, from, time)); Answering(f, sys', list, ph) || Done(f, sys')
  {
    var e, k := ToRecver(i, from, time), sys.toRecver[i].pieceNum;
    var sys' := Apply(f, sys, e);
    assert sys.toRecver[i] in sys.toRecver;
    StepSafe(f, sys, e);
    DownloaderHandles(f, sys, i, from, time);
    hide GetConn.Handle, Apply, InPhase, Decoded, Served, AtEnd, InFlight;
    PieceTaken(f, sys.r, from, time, k);
    if sys'.r.state == RecvFile {
      var out := GetConn.Handle(sys.r, ClientSign, from, time, sys.toRecver[i]).1;
      MoreCredits(sys.s, sys.toSender, out, list, ph);
      hide Safe, OnlyCredits;
      forall p | p in sys'.r.writer.value.loss && Served(Decoded(list), ph, p) ensures InFlight(f, sys'.toRecver, p) {
        StillInFlight(f, sys.toRecver, i, k, p);
      }
    }
  }

  lemma RoundStep(f: seq<Byte>, sys: Sys, e: Event, list: seq<nat>, ph: Phase) returns (ph': Phase)
    requires Accepted(f) && Answering(f, sys, list, ph) && list != [] && Requestable(f, list)
    requires ph == AwaitCredits ==> sys.toRecver == []
    requires Enabled(f, sys, e) && InOrder(e)
    ensures Answering(f, Apply(f, sys, e), list, ph') || Done(f, Apply(f, sys, e))
    ensures ph' != AwaitCredits
  {
    match e
    case ToSender(_, from, time) => ph' := ToSenderAnswers(f, sys, list, ph, from, time);
    case RunLoop => ph' := RunLoopAnswers(f, sys, list, ph);
    case ToRecver(i, from, time) =>
      ToRecverAnswers(f, sys, i, list, ph, from, time);
      ph' := ph;
  }

  lemma {:induction false} RoundRun(f: seq<Byte>, sys: Sys, run: seq<Event>, list: seq<nat>, ph: Phase)
    returns (ph': Phase)
    requires Accepted(f) && (Done(f, sys) || Answering(f, sys, list, ph)) && list != [] && Requestable(f, list)
    requires ph == AwaitCredits ==> sys.toRecver == []
    requires Possible(f, sys, run) && forall i :: 0 <= i < |run| ==> InOrder(run[i])
    ensures Done(f, After(f, sys, run)) || Answering(f, After(f, sys, run), list, ph')
    decreases |run|
  {
    hide Answering, Done, Apply;
    ph' := ph;
    if run == [] {
    } else {
      if Done(f, sys) {
        DoneKept(f, sys, run[0]);
        ph' := AwaitRequest;
      } else {
        ph' := RoundStep(f, sys, run[0], list, ph);
      }
      ph' := RoundRun(f, Apply(f, sys, run[0]), run[1..], list, ph');
    }
  }

  lemma {:induction false} AtMostItsLength(s: set<nat>, list: seq<nat>)
    requires forall p :: p in s ==> p in list
    ensures |s| <= |list|
  {
    if list == [] {
      assert s == {};
    } else {
      AtMostItsLength(s - {list[0]}, list[1..]);
      assert |s| <= |s - {list[0]}| + 1;
    }
  }

  lemma LateIsServed(list: seq<nat>, m: nat, i: nat)
    requires i < |list| && m <= 2 * |list| && i >= |list| - m
    ensures Served(Decoded(list), Sent(m), list[i])
  {
    var all := Decoded(list);
    assert all[|all| - m..][i + m - |list|] == all[|list| + i] == list[i];
  }

  /** At rest, the numbers served have been written: at least 15 of those asked for, or all of them. */
  lemma RestAfterAnswer(f: seq<Byte>, sys: Sys, list: seq<nat>, ph: Phase)
    requires Answering(f, sys, list, ph) && Quiescent(sys)
    ensures Stuck(f, sys)
    ensures sys.r.writer.value.loss == {} || |sys.r.writer.value.loss| + 15 <= |list|
  {
    var loss, n := sys.r.writer.value.loss, |list|;
    if loss != {} {
      forall p | p in loss ensures ph.m < n && p in list[..n - ph.m] {
        var i :| 0 <= i < n && list[i] == p;
        if i >= n - ph.m {
          LateIsServed(list, ph.m, i);
        }
      }
      AtMostItsLength(loss, list[..n - ph.m]);
    }
  }

  /** The timer asks for every missing piece. */
  lemma TimerAsks(f: seq<Byte>, sys: Sys, now: int) returns (list: seq<nat>)
    requires Accepted(f) && Stuck(f, sys) && TimedOut(sys.r, now)
    ensures list != [] && Requestable(f, list) && |list| == |sys.r.writer.value.loss|
    ensures Answering(f, Apply(f, sys, RetranTimer(now)), list, AwaitCredits)
    ensures Apply(f, sys, RetranTimer(now)).toRecver == []
  {
    StepSafe(f, sys, RetranTimer(now));
    var w := sys.r.writer.value;
    list := Listed(w.loss, w.cur);
    ListedIsAscending(w.loss, w.cur);
    assert w.loss != {};
    forall i | 0 <= i < |list| ensures list[i] < PieceCount(f) {
      assert list[i] in w.loss;
    }
  }

  /** A round restores at least 15 pieces, or finishes the download; otherwise it leaves the system stuck as before. */
  lemma OneRound(f: seq<Byte>, sys: Sys, run: seq<Event>)
    requires Accepted(f) && Stuck(f, sys) && Round(f, sys, run)
    ensures var end := After(f, sys, run);
      Done(f, end) || (Stuck(f, end) && |end.r.writer.value.loss| + 15 <= |sys.r.writer.value.loss|)
  {
    var e := run[0];
    var list := TimerAsks(f, sys, e.now);
    var ph := RoundRun(f, Apply(f, sys, e), run[1..], list, AwaitCredits);
    var end := After(f, sys, run);
    if !Done(f, end) {
      RestAfterAnswer(f, end, list, ph);
    }
  }

  /** Left alone, the system comes to rest, with all messages delivered in turn. */
  lemma Settles(f: seq<Byte>, sys: Sys) returns (run: seq<Event>)
    requires Accepted(f) && Safe(f, sys)
    ensures Possible(f, sys, run) && Quiescent(After(f, sys, run)) && forall i :: 0 <= i < |run| ==> InTurn(run[i])
    decreases Work(f, sys)
  {
    if Quiescent(sys) {
      run := [];
    } else {
      var e := Next(sys);
      WorkDecreases(f, sys, e);
      var rest := Settles(f, Apply(f, sys, e));
      run := [e] + rest;
      assert run[1..] == rest;
    }
  }

  /** A round can always be made: the timer fires once the silence is long enough. */
  lemma RoundExists(f: seq<Byte>, sys: Sys, now: int) returns (run: seq<Event>)
    requires Accepted(f) && Safe(f, sys) && TimedOut(sys.r, now)
    ensures Round(f, sys, run) && AllInTurn(run)
  {
    var e := RetranTimer(now);
    StepSafe(f, sys, e);
    var rest := Settles(f, Apply(f, sys, e));
    run := [e] + rest;
    assert run[1..] == rest;
  }
}
