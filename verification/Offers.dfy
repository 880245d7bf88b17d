/** What the server's answers owe to the messages it has received, whatever its maps remember: who is kept by a sweep,
    how long a code is good, and who gets which answer. */
module Offers {
  import opened SockAddr
  import opened Registry

  /** When a client was last heard, going by the messages alone. */
  datatype Heard = Never | HeardAt(time: int)

  function Hear(h: Heard, e: Event, a: Addr): Heard { if e.Message? && e.addr == a then HeardAt(e.time) else h }

  function LastHeard(h: Heard, run: seq<Event>, a: Addr): Heard
    decreases |run|
  {
    if run == [] then h else LastHeard(Hear(h, run[0], a), run[1..], a)
  }

  /** At most 300 seconds old. */
  predicate Recent(h: Heard, now: int) { h.HeardAt? && now <= h.time + 300_000_000 }

  /** If the server has a time for a, it is the time a was last heard. */
  predicate Recalls(m: Maps, a: Addr, h: Heard) { a in m.activeTimes ==> h == HeardAt(m.activeTimes[a]) }

  function Nothing(): Maps { Maps(map[], map[], map[], map[]) }

  lemma NothingConsistent()
    ensures Consistent(Nothing())
  {
    assert forall ip: Ip4 :: SharersAt({}, ip) == {};
  }

  lemma ApplyRecalls(m: Maps, e: Event, a: Addr, h: Heard)
    requires Recalls(m, a, h)
    ensures Recalls(Apply(m, e), a, Hear(h, e, a))
  {
    hide SharersAt;
  }

  lemma {:induction false} AfterRecalls(m: Maps, run: seq<Event>, a: Addr, h: Heard)
    requires Recalls(m, a, h)
    ensures Recalls(After(m, run), a, LastHeard(h, run, a))
    decreases |run|
  {
    if run == [] {
    } else {
      ApplyRecalls(m, run[0], a, h);
      hide Apply, Recalls, Hear;
      AfterRecalls(Apply(m, run[0]), run[1..], a, Hear(h, run[0], a));
    }
  }

  /** In every run, a sweep keeps a sharer if and only if the last message from it is at most 300 seconds old. */
  lemma KeptIffRecent(run: seq<Event>, now: int, a: Addr)
    requires Possible(Nothing(), run) && a in After(Nothing(), run).codesMap
    ensures a in Sweep(After(Nothing(), run), now).codesMap <==> Recent(LastHeard(Never, run, a), now)
  {
    NothingConsistent();
    AlwaysConsistent(Nothing(), run);
    AfterRecalls(Nothing(), run, a, Never);
    hide Possible, After, LastHeard, SharersAt;
    SweepExact(After(Nothing(), run), now, a);
  }

  // How long a code is good.

  /** At every sweep of the run the last message from a is at most 300 seconds old. */
  predicate HeardInTime(run: seq<Event>, a: Addr, h: Heard)
    decreases |run|
  {
    run == [] || ((run[0].Timer? ==> Recent(h, run[0].now)) && HeardInTime(run[1..], a, Hear(h, run[0], a)))
  }

  /** The code is not given out in the run. */
  predicate NotGiven(run: seq<Event>, code: nat) {
    forall e :: e in run && e.Message? && e.request.ShareFile? ==> e.code != code
  }

  predicate Offered(m: Maps, code: nat, data: FileData, a: Addr) {
    code in m.fileDatas && m.fileDatas[code] == FileDataAddr(data, a)
  }

  /** One event ends an offer only if it is a sweep that finds the sharer silent. */
  lemma OfferKept(m: Maps, e: Event, code: nat, data: FileData, a: Addr, h: Heard)
    requires Consistent(m) && Enabled(m, e) && Offered(m, code, data, a) && Recalls(m, a, h)
    ensures var m' := Apply(m, e);
      if e.Timer? && !Recent(h, e.now) then code !in m'.fileDatas else Offered(m', code, data, a)
  {
    assert a in m.codesMap && a in m.activeTimes;
    hide SharersAt, Shares;
  }

  lemma NotGivenRest(run: seq<Event>, code: nat)
    requires NotGiven(run, code) && run != []
    ensures NotGiven(run[1..], code) && NotGiven([run[0]], code)
  {
  }

  lemma StaysUnused(m: Maps, e: Event, code: nat)
    requires code !in m.fileDatas && NotGiven([e], code)
    ensures code !in Apply(m, e).fileDatas
  {
    assert e in [e];
    hide SharersAt;
  }

  lemma {:induction false} UnusedInRun(m: Maps, run: seq<Event>, code: nat)
    requires code !in m.fileDatas && NotGiven(run, code)
    ensures code !in After(m, run).fileDatas
    decreases |run|
  {
    if run == [] {
    } else {
      NotGivenRest(run, code);
      StaysUnused(m, run[0], code);
      hide Apply, NotGiven;
      UnusedInRun(Apply(m, run[0]), run[1..], code);
    }
  }

  /** A code that is not given out again stands for its file and sharer if and only if every sweep has found a message
      from the sharer that was at most 300 seconds old. */
  lemma {:induction false} OfferedIffHeard(m: Maps, run: seq<Event>, code: nat, data: FileData, a: Addr, h: Heard)
    requires Consistent(m) && Possible(m, run) && Offered(m, code, data, a) && Recalls(m, a, h) && NotGiven(run, code)
    ensures if HeardInTime(run, a, h) then Offered(After(m, run), code, data, a) else code !in After(m, run).fileDatas
    decreases |run|
  {
    if run == [] {
    } else {
      var e := run[0];
      OfferKept(m, e, code, data, a, h);
      ApplyConsistent(m, e);
      ApplyRecalls(m, e, a, h);
      NotGivenRest(run, code);
      hide Consistent, Apply, Offered, Recalls, NotGiven, Recent, Hear, Enabled;
      if e.Timer? && !Recent(h, e.now) {
        UnusedInRun(Apply(m, e), run[1..], code);
      } else {
        OfferedIffHeard(Apply(m, e), run[1..], code, data, a, Hear(h, e, a));
      }
    }
  }

  // The answers.

  /** A share is refused if the file has no name or no bytes, or else if the client already shares a file or ten files
      are shared from its ip; all others get the code. */
  lemma ShareAnswered(m: Maps, a: Addr, data: FileData, code: nat)
    requires Consistent(m)
    ensures Replies(m, a, ShareFile(data), code) == [(
      if |data.fileName| == 0 || data.fileBytes == 0 then ErrorFormat
      else if a in m.codesMap || |SharersAt(m.codesMap.Keys, Ip(a))| >= 10 then ErrorLimit
      else ShareCode(code), a)]
  {
    if a in m.codesMap {
      SharerCounted(m, a);
    }
    assert Shares(m, Ip(a)) == |SharersAt(m.codesMap.Keys, Ip(a))|;
  }

  /** A share that gets the code is on offer from then on: whoever asks for it, after whatever run, is sent the file's
      data and the sharer's address, and the sharer is sent the asker's, if and only if every sweep since has found a
      message from the sharer that was at most 300 seconds old; otherwise the answer is ERROR_404. */
  lemma OfferAnswered(before: seq<Event>, a: Addr, time: int, data: FileData, code: nat, since: seq<Event>,
                      asker: Addr, x: nat)
    requires Possible(Nothing(), before)
    requires var m := After(Nothing(), before);
      var share := Message(a, time, ShareFile(data), code);
      && Replies(m, a, ShareFile(data), code) == [(ShareCode(code), a)]
      && Enabled(m, share) && Possible(Apply(m, share), since) && NotGiven(since, code)
    ensures var m := After(Nothing(), before);
      Replies(After(Apply(m, Message(a, time, ShareFile(data), code)), since), asker, GetFile(code), x) ==
        if HeardInTime(since, a, HeardAt(time))
        then [(FileFound(FileDataAddr(data, a)), asker), (FileReq(asker), a)]
        else [(Error404, asker)]
  {
    var m, share := After(Nothing(), before), Message(a, time, ShareFile(data), code);
    NothingConsistent();
    AlwaysConsistent(Nothing(), before);
    ApplyConsistent(m, share);
    var m1 := Apply(m, share);
    assert Offered(m1, code, data, a) && Recalls(m1, a, HeardAt(time));
    hide Possible, After, Apply, Consistent, HeardInTime, NotGiven;
    OfferedIffHeard(m1, since, code, data, a, HeardAt(time));
  }

  /** Only the asker is answered, and of others only the sharer of a code hears of its being asked for; a greeting is
      answered. */
  lemma AnswersGoTo(m: Maps, a: Addr, request: Request, code: nat)
    ensures request == Hello ==> Replies(m, a, request, code) == [(HelloReply, a)]
    ensures forall r :: r in Replies(m, a, request, code) && r.1 != a ==>
      request.GetFile? && request.code in m.fileDatas && r == (FileReq(a), m.fileDatas[request.code].addr)
  {
  }

  /** Each file on offer has a name and at least one byte. */
  predicate AllFiles(m: Maps) {
    forall c :: c in m.fileDatas ==>
      |m.fileDatas[c].fileData.fileName| > 0 && m.fileDatas[c].fileData.fileBytes > 0
  }

  lemma ApplyAllFiles(m: Maps, e: Event)
    requires AllFiles(m)
    ensures AllFiles(Apply(m, e))
  {
    hide SharersAt, Refused, Shares;
  }

  /** So it is in every run. */
  lemma {:induction false} AlwaysAllFiles(m: Maps, run: seq<Event>)
    requires AllFiles(m)
    ensures AllFiles(After(m, run))
    decreases |run|
  {
    if run == [] {
    } else {
      ApplyAllFiles(m, run[0]);
      hide AllFiles, Apply;
      AlwaysAllFiles(Apply(m, run[0]), run[1..]);
    }
  }
}
