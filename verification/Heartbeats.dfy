/** Heartbeats do not matter to a download at work: a run with greetings in it, the greetings taken out, is a run of the
    same downloads. So what is proved of rounds without heartbeats holds with them. */
module Heartbeats {
  import opened Pieces
  import opened Messages
  import opened SendFile
  import opened GetFile
  import opened FileLedger
  import opened SendConn
  import opened GetConn
  import opened Transfer
  import opened Session
  import opened Progress
  import opened Recovery
  import opened Unrecovered
  import opened Rescue

  // Greetings taken out.

  function Sans(ms: seq<Msg>): seq<Msg> {
    if ms == [] then [] else (if Greeting(ms[0]) then [] else [ms[0]]) + Sans(ms[1..])
  }

  function CalmSender(s: Sender): Sender { s.(serverHello := 0, peerHello := 0) }

  function CalmRecver(r: Receiver): Receiver { r.(serverHello := 0, peerHello := 0) }

  /** The state without its greetings and without the times of the last ones. */
  function Calm(sys: Sys): Sys {
    sys.(s := CalmSender(sys.s), r := CalmRecver(sys.r), toSender := Sans(sys.toSender), toRecver := Sans(sys.toRecver))
  }

  lemma SansFirst(ms: seq<Msg>)
    requires ms != []
    ensures Sans(ms) == (if Greeting(ms[0]) then [] else [ms[0]]) + Sans(ms[1..])
  {
  }

  lemma RestOfConcat<T>(a: seq<T>, b: seq<T>)
    requires a != []
    ensures a + b != [] && (a + b)[0] == a[0] && (a + b)[1..] == a[1..] + b
  {
  }

  lemma Associative<T>(a: seq<T>, b: seq<T>, c: seq<T>)
    ensures a + (b + c) == (a + b) + c
  {
  }

  lemma SansOfNone(b: seq<Msg>)
    ensures Sans([] + b) == Sans([]) + Sans(b)
  {
    assert [] + b == b;
  }

  lemma {:induction false} SansConcat(a: seq<Msg>, b: seq<Msg>)
    ensures Sans(a + b) == Sans(a) + Sans(b)
  {
    hide *;
    if a == [] {
      SansOfNone(b);
    } else {
      SansConcat(a[1..], b);
      SansFirst(a);
      RestOfConcat(a, b);
      SansFirst(a + b);
      Associative(if Greeting(a[0]) then [] else [a[0]], Sans(a[1..]), Sans(b));
    }
  }

  lemma SansOne(m: Msg)
    ensures Sans([m]) == if Greeting(m) then [] else [m]
  {
    assert [m][1..] == [];
  }

  /** The place of message i among those that are no greetings. */
  function PlaceAmong(ms: seq<Msg>, i: nat): nat
    requires i < |ms|
  {
    |Sans(ms[..i])|
  }

  lemma SansAround(a: seq<Msg>, m: Msg, b: seq<Msg>)
    ensures Sans(a + [m] + b) == Sans(a) + (if Greeting(m) then [] else [m]) + Sans(b)
    ensures Sans(a + b) == Sans(a) + Sans(b)
  {
    SansConcat(a + [m], b);
    SansConcat(a, [m]);
    SansConcat(a, b);
    SansOne(m);
  }

  lemma Middle<T>(a: seq<T>, x: T, b: seq<T>)
    ensures (a + [x] + b)[|a|] == x && Without(a + [x] + b, |a|) == a + b
  {
    assert (a + [x] + b)[..|a|] == a && (a + [x] + b)[|a| + 1..] == b;
  }

  lemma SansWithout(ms: seq<Msg>, i: nat)
    requires i < |ms|
    ensures Greeting(ms[i]) ==> Sans(Without(ms, i)) == Sans(ms)
    ensures !Greeting(ms[i]) ==>
      && PlaceAmong(ms, i) < |Sans(ms)| && Sans(ms)[PlaceAmong(ms, i)] == ms[i]
      && Sans(Without(ms, i)) == Without(Sans(ms), PlaceAmong(ms, i))
  {
    var a, m, b := ms[..i], ms[i], ms[i + 1..];
    assert ms == a + [m] + b && Without(ms, i) == a + b;
    hide Sans, Without, Greeting;
    SansAround(a, m, b);
    Middle(Sans(a), m, Sans(b));
    if Greeting(m) {
      assert Sans(a) + [] == Sans(a);
    }
  }

  /** Both peers have been connected, and the sharer knows of no other downloader. */
  predicate Settled(sys: Sys) {
    && sys.s.state != ConnRecver && (sys.r.state == RecvFile || sys.r.state == Idle)
    && NoneAnnounced(sys.toSender)
  }

  lemma SenderCalm(f: seq<Byte>, s: Sender, from: Addr, time: int, m: Msg)
    requires !Greeting(m) && !m.FileReq? && s.state != ConnRecver
    ensures var (s', out) := SendConn.Handle(f, s, ClientSign, from, time, m);
      && SendConn.Handle(f, CalmSender(s), ClientSign, from, time, m) == (CalmSender(s'), out)
      && Sans(out) == out && s'.state != ConnRecver
  {
    hide Piece, Decoded;
  }

  lemma ClosureCalm(f: seq<Byte>, s: Sender)
    requires s.queue != []
    ensures var (s', out) := RunClosure(f, s);
      RunClosure(f, CalmSender(s)) == (CalmSender(s'), out) && Sans(out) == out && s'.state == s.state
  {
    hide Piece;
  }

  lemma RecverCalm(r: Receiver, from: Addr, time: int, m: Msg)
    requires !Greeting(m) && (r.state == RecvFile || r.state == Idle)
    ensures var (r', out) := GetConn.Handle(r, ClientSign, from, time, m);
      && GetConn.Handle(CalmRecver(r), ClientSign, from, time, m) == (CalmRecver(r'), out)
      && Sans(out) == out && NoneAnnounced(out) && (r'.state == RecvFile || r'.state == Idle)
  {
    hide Write;
    if m.DataStream? {
      SansConcat(CountOne(r.window).1, [Finish]);
    }
  }

  /** What is left of an event: nothing of a heartbeat, a late announcement or the arrival of a greeting. */
  function Image(sys: Sys, e: Event): seq<Event> {
    match e
    case ToSender(i, from, time) =>
      if i >= |sys.toSender| || Greeting(sys.toSender[i]) then []
      else [ToSender(PlaceAmong(sys.toSender, i), from, time)]
    case ToRecver(i, from, time) =>
      if i >= |sys.toRecver| || Greeting(sys.toRecver[i]) then []
      else [ToRecver(PlaceAmong(sys.toRecver, i), from, time)]
    case RunLoop => [RunLoop]
    case _ => []
  }

  predicate InOrderOrAside(e: Event) { InOrder(e) || Aside(e) }

  predicate InTurnOrAside(e: Event) { InTurn(e) || Aside(e) }

  /** sys' is what sys becomes when its greetings are taken out and the image of an event happens. */
  predicate Follows(f: seq<Byte>, sys: Sys, sys': Sys, image: seq<Event>) {
    if image == [] then sys' == sys else |image| == 1 && Enabled(f, sys, image[0]) && sys' == Apply(f, sys, image[0])
  }

  lemma SenderGreeted(f: seq<Byte>, s: Sender, from: Addr, time: int, m: Msg)
    requires Greeting(m) && s.state != ConnRecver
    ensures var (s', out) := SendConn.Handle(f, s, ClientSign, from, time, m);
      CalmSender(s') == CalmSender(s) && s'.state == s.state && Sans(out) == []
  {
    SansOne(HelloReply);
  }

  lemma RecverGreeted(r: Receiver, from: Addr, time: int, m: Msg)
    requires Greeting(m) && (r.state == RecvFile || r.state == Idle)
    ensures var (r', out) := GetConn.Handle(r, ClientSign, from, time, m);
      CalmRecver(r') == CalmRecver(r) && r'.state == r.state && Sans(out) == [] && NoneAnnounced(out)
  {
    SansOne(HelloReply);
  }

  lemma GreetsSharer(f: seq<Byte>, sys: Sys, i: nat, from: Addr, time: int)
    requires Settled(sys) && i < |sys.toSender| && Greeting(sys.toSender[i])
    ensures var sys' := Apply(f, sys, ToSender(i, from, time)); Settled(sys') && Calm(sys') == Calm(sys)
  {
    var m := sys.toSender[i];
    SharerHandles(f, sys, i, from, time);
    SansWithout(sys.toSender, i);
    var did := SendConn.Handle(f, sys.s, ClientSign, from, time, m);
    SenderGreeted(f, sys.s, from, time, m);
    hide Apply, SendConn.Handle, CalmSender, Greeting, Sans, Without;
    SansConcat(sys.toRecver, did.1);
  }

  lemma GreetsDownloader(f: seq<Byte>, sys: Sys, i: nat, from: Addr, time: int)
    requires Settled(sys) && i < |sys.toRecver| && Greeting(sys.toRecver[i])
    ensures var sys' := Apply(f, sys, ToRecver(i, from, time)); Settled(sys') && Calm(sys') == Calm(sys)
  {
    var m := sys.toRecver[i];
    DownloaderHandles(f, sys, i, from, time);
    SansWithout(sys.toRecver, i);
    var did := GetConn.Handle(sys.r, ClientSign, from, time, m);
    RecverGreeted(sys.r, from, time, m);
    hide Apply, GetConn.Handle, CalmRecver, Greeting, Sans;
    SansConcat(sys.toSender, did.1);
  }

  lemma ReachesSharer(f: seq<Byte>, sys: Sys, i: nat, from: Addr, time: int)
    requires Settled(sys) && i < |sys.toSender| && !Greeting(sys.toSender[i])
    ensures var e, e' := ToSender(i, from, time), ToSender(PlaceAmong(sys.toSender, i), from, time);
      && Settled(Apply(f, sys, e)) && Enabled(f, Calm(sys), e')
      && Calm(Apply(f, sys, e)) == Apply(f, Calm(sys), e')
  {
    var m := sys.toSender[i];
    SharerHandles(f, sys, i, from, time);
    SansWithout(sys.toSender, i);
    SharerHandles(f, Calm(sys), PlaceAmong(sys.toSender, i), from, time);
    SenderCalm(f, sys.s, from, time, m);
    SansConcat(sys.toRecver, SendConn.Handle(f, sys.s, ClientSign, from, time, m).1);
    hide Apply, SendConn.Handle, PlaceAmong, Greeting, Sans;
  }

  lemma ReachesDownloader(f: seq<Byte>, sys: Sys, i: nat, from: Addr, time: int)
    requires Settled(sys) && i < |sys.toRecver| && !Greeting(sys.toRecver[i])
    ensures var e, e' := ToRecver(i, from, time), ToRecver(PlaceAmong(sys.toRecver, i), from, time);
      && Settled(Apply(f, sys, e)) && Enabled(f, Calm(sys), e')
      && Calm(Apply(f, sys, e)) == Apply(f, Calm(sys), e')
  {
    var m := sys.toRecver[i];
    DownloaderHandles(f, sys, i, from, time);
    SansWithout(sys.toRecver, i);
    DownloaderHandles(f, Calm(sys), PlaceAmong(sys.toRecver, i), from, time);
    RecverCalm(sys.r, from, time, m);
    SansConcat(sys.toSender, GetConn.Handle(sys.r, ClientSign, from, time, m).1);
    hide Apply, GetConn.Handle, PlaceAmong, Greeting, Sans;
  }

  lemma RunLoopCalm(f: seq<Byte>, sys: Sys)
    requires Settled(sys) && sys.s.queue != []
    ensures Settled(Apply(f, sys, RunLoop)) && Enabled(f, Calm(sys), RunLoop)
    ensures Calm(Apply(f, sys, RunLoop)) == Apply(f, Calm(sys), RunLoop)
  {
    ClosureCalm(f, sys.s);
    SansConcat(sys.toRecver, RunClosure(f, sys.s).1);
    hide Sans, RunClosure;
  }

  lemma AsideCalm(f: seq<Byte>, sys: Sys, e: Event)
    requires Settled(sys) && Enabled(f, sys, e) && Aside(e) && Quiet(sys, e)
    ensures Settled(Apply(f, sys, e)) && Calm(Apply(f, sys, e)) == Calm(sys)
  {
    if e.SenderHears? || e.RecverHears? {
      LateAnnouncement(f, sys, e);
    }
    SansOne(Hello);
    SansConcat(sys.toRecver, [Hello]);
    SansConcat(sys.toSender, [Hello]);
    hide Sans;
  }

  /** A stuttering simulation: every event of a round is, without the greetings, the same event or none. */
  lemma StepCalm(f: seq<Byte>, sys: Sys, e: Event)
    requires Settled(sys) && Enabled(f, sys, e) && InOrderOrAside(e) && Quiet(sys, e)
    ensures Settled(Apply(f, sys, e)) && Follows(f, Calm(sys), Calm(Apply(f, sys, e)), Image(sys, e))
    ensures forall x :: x in Image(sys, e) ==> InOrder(x) && (InTurnOrAside(e) ==> InTurn(x))
  {
    assert Sans([]) == [];
    hide Calm, Settled, Apply, Sans, Greeting;
    match e
    case ToSender(i, from, time) =>
      if Greeting(sys.toSender[i]) {
        GreetsSharer(f, sys, i, from, time);
      } else {
        ReachesSharer(f, sys, i, from, time);
      }
    case ToRecver(i, from, time) =>
      if Greeting(sys.toRecver[i]) {
        GreetsDownloader(f, sys, i, from, time);
      } else {
        ReachesDownloader(f, sys, i, from, time);
      }
    case RunLoop => RunLoopCalm(f, sys);
    case _ => AsideCalm(f, sys, e);
  }

  lemma FollowsRun(f: seq<Byte>, sys: Sys, next: Sys, image: seq<Event>, rest: seq<Event>)
    requires Follows(f, sys, next, image) && Possible(f, next, rest)
    ensures Possible(f, sys, image + rest) && After(f, sys, image + rest) == After(f, next, rest)
  {
    if image == [] {
      assert image + rest == rest;
    } else {
      assert image == [image[0]];
      EventThenRun(f, sys, image[0], rest);
    }
  }

  lemma {:induction false} RunCalm(f: seq<Byte>, sys: Sys, run: seq<Event>) returns (calm: seq<Event>)
    requires Settled(sys) && Possible(f, sys, run) && AllQuiet(f, sys, run)
    requires forall i :: 0 <= i < |run| ==> InOrderOrAside(run[i])
    ensures Possible(f, Calm(sys), calm) && After(f, Calm(sys), calm) == Calm(After(f, sys, run))
    ensures forall x :: x in calm ==> InOrder(x)
    ensures (forall i :: 0 <= i < |run| ==> InTurnOrAside(run[i])) ==> forall x :: x in calm ==> InTurn(x)
    decreases |run|
  {
    if run == [] {
      calm := [];
    } else {
      var e := run[0];
      StepCalm(f, sys, e);
      var next := Apply(f, sys, e);
      hide Apply, Calm, Settled, Follows, InOrder, InTurn, Quiet, Aside;
      var rest := RunCalm(f, next, run[1..]);
      FollowsRun(f, Calm(sys), Calm(next), Image(sys, e), rest);
      calm := Image(sys, e) + rest;
      hide Image, Possible, After;
    }
  }

  // Rounds with heartbeats.

  /** The timer fires after a silence, and the answers arrive without loss until the system is at rest; heartbeats and
      late announcements come in between, and no heartbeat finds the other side silent. */
  predicate BeatingRound(f: seq<Byte>, sys: Sys, run: seq<Event>) {
    && run != [] && run[0].RetranTimer? && TimedOut(sys.r, run[0].now)
    && (forall i :: 1 <= i < |run| ==> InOrderOrAside(run[i]))
    && Possible(f, sys, run) && AllQuiet(f, Apply(f, sys, run[0]), run[1..]) && Quiescent(After(f, sys, run))
  }

  predicate AllInTurnOrAside(run: seq<Event>) { forall i :: 1 <= i < |run| ==> InTurnOrAside(run[i]) }

  /** The download waits at rest, its sharer sending. */
  predicate AtWork(sys: Sys) { Quiescent(sys) && sys.s.state == SendingFile && sys.r.state == RecvFile }

  /** Credits and requests are no greetings. */
  lemma RequestsCalm(r: Receiver, now: int)
    requires r.state == RecvFile && r.writer.Some?
    ensures Sans(RetranReq(r, now)) == RetranReq(r, now) && NoneAnnounced(RetranReq(r, now))
  {
    var credits := if TimedOut(r, now) then [PackAck(30)] else [];
    SansConcat(credits, Asks(r.writer.value));
    SansOne(PackAck(30));
    SansOne(Retran(Listed(r.writer.value.loss, r.writer.value.cur)));
    assert Sans([]) == [];
    hide Sans, Listed;
  }

  lemma TimerCalm(f: seq<Byte>, sys: Sys, now: int)
    requires AtWork(sys) && sys.r.writer.Some?
    ensures var sys' := Apply(f, sys, RetranTimer(now));
      Settled(sys') && Calm(sys') == Apply(f, Calm(sys), RetranTimer(now))
  {
    RequestsCalm(sys.r, now);
    var out := RetranReq(sys.r, now);
    assert RetranReq(CalmRecver(sys.r), now) == out;
    hide RetranReq;
    assert Sans([]) == [];
    SansConcat(sys.toSender, out);
  }

  lemma QuiescentCalm(sys: Sys)
    requires Quiescent(sys)
    ensures Quiescent(Calm(sys))
  {
  }

  /** A round with heartbeats is, without them, a round. */
  lemma RoundCalm(f: seq<Byte>, sys: Sys, run: seq<Event>) returns (calm: seq<Event>)
    requires AtWork(sys) && sys.r.writer.Some? && BeatingRound(f, sys, run)
    ensures Round(f, Calm(sys), calm) && After(f, Calm(sys), calm) == Calm(After(f, sys, run))
    ensures AllInTurnOrAside(run) ==> AllInTurn(calm)
  {
    var e, rest := run[0], run[1..];
    assert forall i :: 0 <= i < |rest| ==> rest[i] == run[i + 1];
    FirstEvent(f, sys, run);
    TimerCalm(f, sys, e.now);
    QuiescentCalm(After(f, sys, run));
    assert TimedOut(Calm(sys).r, e.now) && Enabled(f, Calm(sys), e);
    hide Apply, Calm, Settled, Quiescent, Possible, After, InOrder, InTurn, Aside, Quiet;
    var image := RunCalm(f, Apply(f, sys, e), rest);
    EventThenRun(f, Calm(sys), e, image);
    calm := [e] + image;
    assert forall i :: 1 <= i < |calm| ==> calm[i] in image;
  }

  lemma StuckCalm(f: seq<Byte>, sys: Sys)
    requires Quiescent(sys)
    ensures Stuck(f, Calm(sys)) <==> Stuck(f, sys)
    ensures Done(f, Calm(sys)) <==> Done(f, sys)
  {
    SafeCalm(f, sys);
    hide Safe, Delivered;
  }

  lemma SafeCalm(f: seq<Byte>, sys: Sys)
    requires Quiescent(sys)
    ensures Safe(f, Calm(sys)) <==> Safe(f, sys)
    ensures Quiescent(Calm(sys))
  {
    hide Ledger, InStep;
  }

  lemma MendableCalm(f: seq<Byte>, sys: Sys)
    requires Quiescent(sys)
    ensures Resting(f, Calm(sys)) <==> Resting(f, sys)
    ensures Mendable(f, Calm(sys)) <==> Mendable(f, sys)
    ensures Done(f, Calm(sys)) <==> Done(f, sys)
    ensures sys.r.writer.Some? ==> Rank(f, Calm(sys)) == Rank(f, sys)
  {
    SafeCalm(f, sys);
    hide Safe, Delivered;
  }

  /** A round restores at least 15 pieces, or finishes the download; otherwise it leaves the system stuck as before. */
  lemma BeatingRoundRestores(f: seq<Byte>, sys: Sys, run: seq<Event>)
    requires Accepted(f) && Stuck(f, sys) && BeatingRound(f, sys, run)
    ensures var end := After(f, sys, run);
      Done(f, end) || (Stuck(f, end) && |end.r.writer.value.loss| + 15 <= |sys.r.writer.value.loss|)
  {
    var calm := RoundCalm(f, sys, run);
    var end := After(f, sys, run);
    StuckCalm(f, sys);
    StuckCalm(f, end);
    assert Calm(end).r.writer == end.r.writer && Calm(sys).r.writer == sys.r.writer;
    hide Round, Done, Possible, After, Calm, BeatingRound;
    OneRound(f, Calm(sys), calm);
  }

  /** A round in which everything is delivered in turn finishes a mendable download, or leaves it mendable with a
      smaller rank. */
  lemma BeatingRoundDecreases(f: seq<Byte>, sys: Sys, run: seq<Event>)
    requires Accepted(f) && Resting(f, sys) && Mendable(f, sys) && BeatingRound(f, sys, run) && AllInTurnOrAside(run)
    ensures var end := After(f, sys, run);
      Done(f, end) || (Resting(f, end) && Mendable(f, end) && Rank(f, end) < Rank(f, sys))
  {
    var calm := RoundCalm(f, sys, run);
    var end := After(f, sys, run);
    MendableCalm(f, sys);
    MendableCalm(f, end);
    hide Round, Done, Possible, After, Calm, BeatingRound, Rank, AllInTurn, AllInTurnOrAside, Safe;
    RoundDecreases(f, Calm(sys), calm);
  }

  lemma {:induction false} InOrderIsQuiet(f: seq<Byte>, sys: Sys, run: seq<Event>)
    requires Possible(f, sys, run) && forall i :: 0 <= i < |run| ==> InOrder(run[i])
    ensures AllQuiet(f, sys, run)
    decreases |run|
  {
    if run == [] {
    } else {
      hide Apply;
      InOrderIsQuiet(f, Apply(f, sys, run[0]), run[1..]);
    }
  }

  /** A round without heartbeats is one of these, so they can always be made. */
  lemma RoundIsBeating(f: seq<Byte>, sys: Sys, run: seq<Event>)
    requires Round(f, sys, run)
    ensures BeatingRound(f, sys, run) && (AllInTurn(run) ==> AllInTurnOrAside(run))
  {
    FirstEvent(f, sys, run);
    hide Apply, InOrder, InTurn;
    var rest := run[1..];
    assert forall i :: 0 <= i < |rest| ==> rest[i] == run[i + 1];
    InOrderIsQuiet(f, Apply(f, sys, run[0]), rest);
  }

  // Round after round.

  /** Rounds until the download is done or they are used up. */
  predicate Rounds(f: seq<Byte>, sys: Sys, rounds: seq<seq<Event>>)
    decreases |rounds|
  {
    rounds == [] || (BeatingRound(f, sys, rounds[0]) &&
      var end := After(f, sys, rounds[0]); Done(f, end) || Rounds(f, end, rounds[1..]))
  }

  predicate DoneWithin(f: seq<Byte>, sys: Sys, rounds: seq<seq<Event>>)
    requires Rounds(f, sys, rounds)
    decreases |rounds|
  {
    rounds != [] && var end := After(f, sys, rounds[0]); Done(f, end) || DoneWithin(f, end, rounds[1..])
  }

  /** Loss recovery: a download with p pieces missing is finished within p / 15 rounds, rounded up. */
  lemma {:induction false} RecoveryCompletes(f: seq<Byte>, sys: Sys, rounds: seq<seq<Event>>)
    requires Accepted(f) && Stuck(f, sys) && Rounds(f, sys, rounds)
    requires 15 * |rounds| >= |sys.r.writer.value.loss|
    ensures DoneWithin(f, sys, rounds)
    decreases |rounds|
  {
    assert sys.r.writer.value.loss != {};
    BeatingRoundRestores(f, sys, rounds[0]);
    var end := After(f, sys, rounds[0]);
    hide BeatingRound, After, Done, Safe;
    if Done(f, end) {
    } else {
      RecoveryCompletes(f, end, rounds[1..]);
    }
  }

  predicate EachInTurn(rounds: seq<seq<Event>>) { forall i :: 0 <= i < |rounds| ==> AllInTurnOrAside(rounds[i]) }

  lemma RankPositive(f: seq<Byte>, sys: Sys)
    requires Resting(f, sys) && Mendable(f, sys)
    ensures Rank(f, sys) > 0
  {
    if AtTail(f, sys) {
      assert sys.r.writer.value.loss != {};
    }
  }

  /** Every mendable download is finished by rounds in which everything is delivered in turn, however its events are
      interleaved and with any number of heartbeats, within its rank. */
  lemma {:induction false} RoundsFinish(f: seq<Byte>, sys: Sys, rounds: seq<seq<Event>>)
    requires Accepted(f) && Resting(f, sys) && Mendable(f, sys) && Rounds(f, sys, rounds) && EachInTurn(rounds)
    requires |rounds| >= Rank(f, sys)
    ensures DoneWithin(f, sys, rounds)
    decreases |rounds|
  {
    RankPositive(f, sys);
    BeatingRoundDecreases(f, sys, rounds[0]);
    var end := After(f, sys, rounds[0]);
    hide Resting, Mendable, Rank, BeatingRound, After, Done, AllInTurnOrAside;
    if Done(f, end) {
    } else {
      RoundsFinish(f, end, rounds[1..]);
    }
  }
}
