/** Flow control. The sharer may have 30 pieces out; the downloader returns a credit for each piece it takes in, ten
    at a time. */
module Window {
  import opened Pieces
  import opened Messages
  import opened GetFile
  import opened SendConn
  import opened GetConn
  import opened Transfer

  function Total(w: Msg -> nat, ms: seq<Msg>): nat { if ms == [] then 0 else w(ms[0]) + Total(w, ms[1..]) }

  lemma {:induction false} TotalConcat(w: Msg -> nat, a: seq<Msg>, b: seq<Msg>)
    ensures Total(w, a + b) == Total(w, a) + Total(w, b)
  {
    if a == [] {
      assert a + b == b;
    } else {
      TotalConcat(w, a[1..], b);
      assert (a + b)[1..] == a[1..] + b;
    }
  }

  lemma TotalWithout(w: Msg -> nat, ms: seq<Msg>, i: nat)
    requires i < |ms|
    ensures Total(w, Without(ms, i)) + w(ms[i]) == Total(w, ms)
  {
    TotalConcat(w, ms[..i], ms[i + 1..]);
    TotalConcat(w, ms[..i], ms[i..]);
    assert ms == ms[..i] + ms[i..];
  }

  /** What is in flight, or waiting with the downloader to be acknowledged. */
  function InHand(sys: Sys): nat { Total(Data, sys.toRecver) + sys.r.window + Total(Credits, sys.toSender) }

  /** Every piece the sharer has counted is in flight, astray, waiting with the downloader to be acknowledged, or its
      credit is in flight or astray. */
  function Accounted(sys: Sys): nat { InHand(sys) + sys.lostData + sys.lostCredits }

  /** The events that leave the accounts alone: nothing is duplicated, no timeout returns credits that were not
      earned, and the session is not reset, neither by FINISH nor by a silence of 60 seconds. */
  predicate Plain(sys: Sys, e: Event) {
    match e
    case DupToSender(_) => false
    case DupToRecver(_) => false
    case ToSender(i, _, _) => i < |sys.toSender| && !sys.toSender[i].Finish?
    case SenderTimer(now) => sys.s.state == SendingFile ==> !Silent(sys.s.peerHello, now)
    case RetranTimer(now) => !TimedOut(sys.r, now)
    case _ => true
  }

  lemma SenderHandleCounts(f: seq<Byte>, s: Sender, sign: Sign, from: Addr, time: int, m: Msg)
    ensures var (s', out) := SendConn.Handle(f, s, sign, from, time, m);
      var n := if s.state == SendingFile then Credits(m) else 0;
      && Total(Credits, out) == 0
      && s'.window + n <= Total(Data, out) + (if n <= s.window then s.window else n)
      && (n <= s.window && !m.Finish? ==> s'.window + n == s.window + Total(Data, out))
  {
  }

  lemma RunClosureCounts(f: seq<Byte>, s: Sender)
    requires s.queue != []
    ensures var (s', out) := RunClosure(f, s); s'.window == s.window + Total(Data, out)
  {
  }

  lemma RecverHandleCounts(r: Receiver, sign: Sign, from: Addr, time: int, m: Msg)
    ensures var (r', out) := GetConn.Handle(r, sign, from, time, m);
      r'.window + Total(Credits, out) == r.window + if r.state == RecvFile && r.writer.Some? then Data(m) else 0
  {
    hide Write;
    if m.DataStream? && r.state == RecvFile && r.writer.Some? {
      var acks := if r.window + 1 >= 10 then [PackAck(r.window + 1)] else [];
      assert Total(Credits, acks) == if r.window + 1 >= 10 then r.window + 1 else 0;
      TotalConcat(Credits, acks, [Finish]);
    }
  }

  lemma RetranReqCounts(r: Receiver, now: int)
    ensures !TimedOut(r, now) ==> Total(Credits, RetranReq(r, now)) == 0
  {
  }

  /** What the sharer does with n credits, some of which may be more than its window. */
  lemma SenderDidAccounted(sys: Sys, did: (Sender, seq<Msg>), n: nat, plain: bool)
    requires sys.s.window <= Accounted(sys) + n && Total(Credits, did.1) == 0
    requires did.0.window + n <= Total(Data, did.1) + (if n <= sys.s.window then sys.s.window else n)
    requires plain ==> sys.s.window == Accounted(sys) + n
    requires n <= sys.s.window && plain ==> did.0.window + n == sys.s.window + Total(Data, did.1)
    ensures var sys' := SenderDid(sys, did);
      sys'.s.window <= Accounted(sys') && (plain ==> sys'.s.window == Accounted(sys'))
  {
    TotalConcat(Data, sys.toRecver, did.1);
  }

  lemma RecverDidAccounted(sys: Sys, did: (Receiver, seq<Msg>))
    ensures var sys' := RecverDid(sys, did);
      && sys'.s == sys.s
      && Accounted(sys') + sys.r.window == Accounted(sys) + did.0.window + Total(Credits, did.1)
  {
    TotalConcat(Credits, sys.toSender, did.1);
  }

  /** One event of the sharer's side. In general the window is at most what is accounted for; a plain event keeps
      equality. */
  lemma SenderStepAccounted(f: seq<Byte>, sys: Sys, e: Event)
    requires Enabled(f, sys, e) && sys.s.window <= Accounted(sys)
    requires e.ToSender? || e.SenderHears? || e.RunLoop? || e.SenderTimer?
    ensures var sys' := Apply(f, sys, e);
      && sys'.s.window <= Accounted(sys')
      && (sys.s.window == Accounted(sys) && Plain(sys, e) ==> sys'.s.window == Accounted(sys'))
  {
    var plain := sys.s.window == Accounted(sys) && Plain(sys, e);
    match e
    case ToSender(i, from, time) =>
      var m := sys.toSender[i];
      SenderHandleCounts(f, sys.s, ClientSign, from, time, m);
      TotalWithout(Credits, sys.toSender, i);
      hide SendConn.Handle;
      var n := if sys.s.state == SendingFile then Credits(m) else 0;
      var sys1 := sys.(toSender := Without(sys.toSender, i), lostCredits := sys.lostCredits + Credits(m) - n);
      SenderDidAccounted(sys1, SendConn.Handle(f, sys.s, ClientSign, from, time, m), n, plain);
    case SenderHears(sign, from, time, m) =>
      SenderHandleCounts(f, sys.s, sign, from, time, m);
      hide SendConn.Handle;
      SenderDidAccounted(sys, SendConn.Handle(f, sys.s, sign, from, time, m), 0, plain);
    case RunLoop =>
      RunClosureCounts(f, sys.s);
      hide RunClosure;
      SenderDidAccounted(sys, RunClosure(f, sys.s), 0, plain);
    case SenderTimer(now) =>
      SenderDidAccounted(sys, (SendConn.CheckPeerAlive(sys.s, now), [Hello]), 0, plain);
  }

  lemma RecverStepAccounted(f: seq<Byte>, sys: Sys, e: Event)
    requires Enabled(f, sys, e) && (e.ToRecver? || e.RecverHears? || e.RecverTimer? || e.RetranTimer?)
    ensures var sys' := Apply(f, sys, e);
      sys'.s == sys.s && Accounted(sys) <= Accounted(sys') && (Plain(sys, e) ==> Accounted(sys') == Accounted(sys))
  {
    match e
    case ToRecver(i, from, time) =>
      var m := sys.toRecver[i];
      RecverHandleCounts(sys.r, ClientSign, from, time, m);
      TotalWithout(Data, sys.toRecver, i);
      hide GetConn.Handle;
      var astray := if sys.r.state == RecvFile && sys.r.writer.Some? then 0 else Data(m);
      RecverDidAccounted(sys.(toRecver := Without(sys.toRecver, i), lostData := sys.lostData + astray),
                         GetConn.Handle(sys.r, ClientSign, from, time, m));
    case RecverHears(sign, from, time, m) =>
      RecverHandleCounts(sys.r, sign, from, time, m);
      hide GetConn.Handle;
      RecverDidAccounted(sys, GetConn.Handle(sys.r, sign, from, time, m));
    case RecverTimer(now) => RecverDidAccounted(sys, (GetConn.CheckPeerAlive(sys.r, now), [Hello]));
    case RetranTimer(now) =>
      RetranReqCounts(sys.r, now);
      hide RetranReq;
      RecverDidAccounted(sys, (sys.r, RetranReq(sys.r, now)));
  }

  lemma NetworkStepAccounted(f: seq<Byte>, sys: Sys, e: Event)
    requires Enabled(f, sys, e)
    requires e.DropToSender? || e.DropToRecver? || e.DupToSender? || e.DupToRecver? || e.NewRecver?
    ensures var sys' := Apply(f, sys, e);
      sys'.s == sys.s && Accounted(sys) <= Accounted(sys') && (Plain(sys, e) ==> Accounted(sys') == Accounted(sys))
  {
    match e
    case DropToSender(i) => TotalWithout(Credits, sys.toSender, i);
    case DropToRecver(i) => TotalWithout(Data, sys.toRecver, i);
    case DupToSender(i) => TotalConcat(Credits, sys.toSender, [sys.toSender[i]]);
    case DupToRecver(i) => TotalConcat(Data, sys.toRecver, [sys.toRecver[i]]);
    case NewRecver(_) =>
  }

  /** One event: what is accounted for never falls below the window, and a plain event keeps them equal. */
  lemma StepAccounted(f: seq<Byte>, sys: Sys, e: Event)
    requires Enabled(f, sys, e) && sys.s.window <= Accounted(sys)
    ensures var sys' := Apply(f, sys, e);
      && sys'.s.window <= Accounted(sys')
      && (sys.s.window == Accounted(sys) && Plain(sys, e) ==> sys'.s.window == Accounted(sys'))
  {
    if e.ToSender? || e.SenderHears? || e.RunLoop? || e.SenderTimer? {
      SenderStepAccounted(f, sys, e);
    } else if e.ToRecver? || e.RecverHears? || e.RecverTimer? || e.RetranTimer? {
      RecverStepAccounted(f, sys, e);
    } else {
      NetworkStepAccounted(f, sys, e);
    }
    hide Apply, Accounted, Plain;
  }

  /** An event that lets nothing go astray. */
  predicate Kept(sys: Sys, e: Event) {
    match e
    case ToSender(i, _, _) => i < |sys.toSender| && (sys.s.state == SendingFile || Credits(sys.toSender[i]) == 0)
    case ToRecver(i, _, _) =>
      i < |sys.toRecver| && ((sys.r.state == RecvFile && sys.r.writer.Some?) || Data(sys.toRecver[i]) == 0)
    case DropToSender(_) => false
    case DropToRecver(_) => false
    case NewRecver(_) => false
    case _ => true
  }

  /** Conservation from any moment on, relative to the part of the window in use at that moment. */
  lemma StepConserved(f: seq<Byte>, sys: Sys, e: Event, used: nat)
    requires Enabled(f, sys, e) && Plain(sys, e) && Kept(sys, e) && sys.s.window == InHand(sys) + used
    ensures Apply(f, sys, e).s.window == InHand(Apply(f, sys, e)) + used
  {
    var sys0 := sys.(lostData := used, lostCredits := 0);
    StepAccounted(f, sys0, e);
    var sys', sys0' := Apply(f, sys, e), Apply(f, sys0, e);
    assert sys0' == sys'.(lostData := used, lostCredits := 0) by {
      hide SendConn.Handle, GetConn.Handle, RunClosure, RetranReq;
    }
    hide Apply;
  }

  predicate AllPlain(f: seq<Byte>, sys: Sys, run: seq<Event>)
    requires Possible(f, sys, run)
    decreases |run|
  {
    run == [] || (Plain(sys, run[0]) && AllPlain(f, Apply(f, sys, run[0]), run[1..]))
  }

  lemma {:induction false} RunAccounted(f: seq<Byte>, sys: Sys, run: seq<Event>)
    requires Possible(f, sys, run) && sys.s.window == Accounted(sys) && AllPlain(f, sys, run)
    ensures After(f, sys, run).s.window == Accounted(After(f, sys, run))
    decreases |run|
  {
    if run == [] {
    } else {
      StepAccounted(f, sys, run[0]);
      RunAccounted(f, Apply(f, sys, run[0]), run[1..]);
    }
  }

  lemma {:induction false} RunBounded(f: seq<Byte>, sys: Sys, run: seq<Event>)
    requires Possible(f, sys, run) && sys.s.window <= Accounted(sys)
    ensures After(f, sys, run).s.window <= Accounted(After(f, sys, run))
    decreases |run|
  {
    if run == [] {
    } else {
      StepAccounted(f, sys, run[0]);
      RunBounded(f, Apply(f, sys, run[0]), run[1..]);
    }
  }

  lemma {:induction false} CreditBelowTotal(ms: seq<Msg>, i: nat)
    requires i < |ms|
    ensures Credits(ms[i]) <= Total(Credits, ms)
  {
    TotalWithout(Credits, ms, i);
  }

  /** Before FINISH, without duplication or silence timeouts, the window is conserved: it is exactly what is in
      flight, astray or held. So an acknowledgement never exceeds the window, and the saturating subtraction on
      PACK_ACK never saturates. */
  lemma WindowConserved(f: seq<Byte>, sys: Sys, run: seq<Event>)
    requires Accepted(f) && Initial(sys) && Possible(f, sys, run) && AllPlain(f, sys, run)
    ensures var end := After(f, sys, run);
      && end.s.window == Accounted(end) <= 30
      && forall m :: m in end.toSender && m.PackAck? ==> m.nums <= end.s.window
  {
    RunAccounted(f, sys, run);
    SafeAlways(f, sys, run);
    var end := After(f, sys, run);
    forall m | m in end.toSender && m.PackAck? ensures m.nums <= end.s.window {
      var i :| 0 <= i < |end.toSender| && end.toSender[i] == m;
      CreditBelowTotal(end.toSender, i);
    }
  }

  /** In every run the window is at most 30 and at most what is accounted for. */
  lemma WindowBounded(f: seq<Byte>, sys: Sys, run: seq<Event>)
    requires Accepted(f) && Initial(sys) && Possible(f, sys, run)
    ensures var end := After(f, sys, run); end.s.window <= Accounted(end) && end.s.window <= 30
  {
    RunBounded(f, sys, run);
    SafeAlways(f, sys, run);
  }
}
