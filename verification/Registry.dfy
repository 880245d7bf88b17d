/** server/DiretransServer: who shares what under which code, in four maps kept in step by hand. */
module Registry {
  import opened SockAddr
  import ShareCodes

  type Ip4 = seq<int>

  datatype FileData = FileData(fileName: string, fileBytes: nat, fileCRC32: nat)

  datatype FileDataAddr = FileDataAddr(fileData: FileData, addr: Addr)

  datatype Request = Hello | ShareFile(fileData: FileData) | GetFile(code: nat) | Other

  datatype Reply = HelloReply | ErrorFormat | ErrorLimit | Error404
    | ShareCode(code: nat) | FileFound(file: FileDataAddr) | FileReq(recver: Addr)

  /** The four maps: code to file, sharer to code, time a client was last heard, files shared per ip. */
  datatype Maps = Maps(fileDatas: map<nat, FileDataAddr>, codesMap: map<Addr, nat>,
                       activeTimes: map<Addr, int>, shareFileNum: map<Ip4, int>)

  const TIMEOUT: int := 5 * 60 * 1_000_000

  predicate Overdue(m: Maps, a: Addr, now: int)
    requires a in m.activeTimes
  {
    now > m.activeTimes[a] + TIMEOUT
  }

  function SharersAt(sharers: set<Addr>, ip: Ip4): set<Addr> { set a | a in sharers && Ip(a) == ip }

  function Shares(m: Maps, ip: Ip4): int { if ip in m.shareFileNum then m.shareFileNum[ip] else 0 }

  function Touch(m: Maps, a: Addr, time: int): Maps { m.(activeTimes := m.activeTimes[a := time]) }

  predicate BadFormat(data: FileData) { data.fileName == "" || data.fileBytes == 0 }

  predicate Refused(m: Maps, a: Addr) {
    Ip(a) in m.shareFileNum && (m.shareFileNum[Ip(a)] >= 10 || a in m.codesMap)
  }

  function Share(m: Maps, a: Addr, data: FileData, code: nat): Maps {
    m.(shareFileNum := m.shareFileNum[Ip(a) := Shares(m, Ip(a)) + 1],
       codesMap := m.codesMap[a := code],
       fileDatas := m.fileDatas[code := FileDataAddr(data, a)])
  }

  /** The maps without the clients in dead. */
  function Without(m: Maps, dead: set<Addr>): Maps {
    Maps(map c | c in m.fileDatas && m.fileDatas[c].addr !in dead :: m.fileDatas[c],
         m.codesMap - dead, m.activeTimes - dead,
         map ip | ip in m.shareFileNum :: m.shareFileNum[ip] - |SharersAt(m.codesMap.Keys * dead, ip)|)
  }

  function Sweep(m: Maps, now: int): Maps { Without(m, set a | a in m.activeTimes && Overdue(m, a, now)) }

  /** Codes and sharers are in one-to-one correspondence, every sharer has a time, the count kept for an ip is the
      number of its sharers, and is at most 10. */
  ghost predicate Consistent(m: Maps) {
    && (forall a :: a in m.codesMap ==> m.codesMap[a] in m.fileDatas && m.fileDatas[m.codesMap[a]].addr == a)
    && (forall c :: c in m.fileDatas ==> m.fileDatas[c].addr in m.codesMap && m.codesMap[m.fileDatas[c].addr] == c)
    && m.codesMap.Keys <= m.activeTimes.Keys
    && (forall ip :: Shares(m, ip) == |SharersAt(m.codesMap.Keys, ip)| <= 10)
  }

  /** A sharer's ip is counted, so that the server's assertion on a new sharer cannot fail. */
  lemma SharerCounted(m: Maps, a: Addr)
    requires Consistent(m) && a in m.codesMap
    ensures Ip(a) in m.shareFileNum
  {
    assert a in SharersAt(m.codesMap.Keys, Ip(a));
    assert Shares(m, Ip(a)) == |SharersAt(m.codesMap.Keys, Ip(a))|;
  }

  lemma ShareCounts(sharers: set<Addr>, a: Addr, ip: Ip4)
    requires a !in sharers
    ensures |SharersAt(sharers + {a}, ip)| == |SharersAt(sharers, ip)| + if ip == Ip(a) then 1 else 0
  {
    var before := SharersAt(sharers, ip);
    assert SharersAt(sharers + {a}, ip) == if ip == Ip(a) then before + {a} else before;
    assert a !in before;
  }

  lemma ShareConsistent(m: Maps, a: Addr, data: FileData, code: nat)
    requires Consistent(m) && a in m.activeTimes && !Refused(m, a) && code !in m.fileDatas
    ensures Consistent(Share(m, a, data, code)) && a !in m.codesMap
  {
    if a in m.codesMap {
      SharerCounted(m, a);
    }
    var m' := Share(m, a, data, code);
    assert m'.codesMap.Keys == m.codesMap.Keys + {a};
    forall ip ensures Shares(m', ip) == |SharersAt(m'.codesMap.Keys, ip)| <= 10 {
      ShareCounts(m.codesMap.Keys, a, ip);
      assert Shares(m, ip) == |SharersAt(m.codesMap.Keys, ip)| <= 10;
      hide SharersAt;
    }
  }

  lemma TouchConsistent(m: Maps, a: Addr, time: int)
    requires Consistent(m)
    ensures Consistent(Touch(m, a, time))
  {
    assert forall ip :: Shares(Touch(m, a, time), ip) == Shares(m, ip);
  }

  lemma CountsSplit(sharers: set<Addr>, dead: set<Addr>, ip: Ip4)
    ensures |SharersAt(sharers, ip)| == |SharersAt(sharers - dead, ip)| + |SharersAt(sharers * dead, ip)|
  {
    assert SharersAt(sharers, ip) == SharersAt(sharers - dead, ip) + SharersAt(sharers * dead, ip);
  }

  /** Forgetting clients, with their codes and files, keeps the maps in step. */
  lemma WithoutConsistent(m: Maps, dead: set<Addr>)
    requires Consistent(m)
    ensures Consistent(Without(m, dead))
  {
    var m' := Without(m, dead);
    forall ip ensures Shares(m', ip) == |SharersAt(m'.codesMap.Keys, ip)| <= 10 {
      assert Shares(m, ip) == |SharersAt(m.codesMap.Keys, ip)| <= 10;
      CountsSplit(m.codesMap.Keys, dead, ip);
      assert m'.codesMap.Keys == m.codesMap.Keys - dead;
    }
  }

  /** What the sweep does to one silent client. */
  function Forget(m: Maps, a: Addr): Maps
    requires a in m.codesMap ==> Ip(a) in m.shareFileNum
  {
    var m1 := if a in m.codesMap then
        m.(fileDatas := m.fileDatas - {m.codesMap[a]}, codesMap := m.codesMap - {a},
           shareFileNum := m.shareFileNum[Ip(a) := m.shareFileNum[Ip(a)] - 1])
      else m;
    m1.(activeTimes := m1.activeTimes - {a})
  }

  lemma ForgetCounts(m: Maps, dead: set<Addr>, a: Addr, ip: Ip4)
    requires a !in dead
    ensures |SharersAt(m.codesMap.Keys * (dead + {a}), ip)|
      == |SharersAt(m.codesMap.Keys * dead, ip)| + if a in m.codesMap && Ip(a) == ip then 1 else 0
  {
    var sharers := m.codesMap.Keys;
    assert sharers * (dead + {a}) == if a in m.codesMap then (sharers * dead) + {a} else sharers * dead;
    if a in m.codesMap {
      ShareCounts(sharers * dead, a, ip);
    }
  }

  lemma ForgetFiles(m: Maps, dead: set<Addr>, a: Addr)
    requires Consistent(m) && a !in dead
    ensures var m1 := Without(m, dead);
      (if a in m1.codesMap then m1.fileDatas - {m1.codesMap[a]} else m1.fileDatas) == Without(m, dead + {a}).fileDatas
  {
    hide SharersAt, Shares;
  }

  lemma ForgetNums(m: Maps, dead: set<Addr>, a: Addr)
    requires a !in dead && (a in m.codesMap ==> Ip(a) in m.shareFileNum)
    ensures Forget(Without(m, dead), a).shareFileNum == Without(m, dead + {a}).shareFileNum
  {
    var n1, n2 := Forget(Without(m, dead), a).shareFileNum, Without(m, dead + {a}).shareFileNum;
    assert n1.Keys == n2.Keys;
    forall ip | ip in n1 ensures n1[ip] == n2[ip] {
      ForgetCounts(m, dead, a, ip);
      hide SharersAt;
    }
  }

  /** Forgetting clients one at a time, in any order, is forgetting them together. */
  lemma ForgetOne(m: Maps, dead: set<Addr>, a: Addr)
    requires Consistent(m) && a !in dead
    ensures a in Without(m, dead).codesMap ==> Ip(a) in Without(m, dead).shareFileNum
    ensures Forget(Without(m, dead), a) == Without(m, dead + {a})
  {
    if a in m.codesMap {
      SharerCounted(m, a);
    }
    ForgetFiles(m, dead, a);
    ForgetNums(m, dead, a);
    hide SharersAt, Consistent;
    var f, m2 := Forget(Without(m, dead), a), Without(m, dead + {a});
    assert f.codesMap == m2.codesMap && f.activeTimes == m2.activeTimes;
  }

  lemma WithoutTimes(m: Maps, dead: set<Addr>)
    ensures Without(m, dead).activeTimes == m.activeTimes - dead
  {
  }

  lemma WithoutNobody(m: Maps)
    ensures Without(m, {}) == m
  {
    assert forall ip :: SharersAt(m.codesMap.Keys * {}, ip) == {};
  }

  predicate Accepts(m: Maps, a: Addr, request: Request) {
    request.ShareFile? && !BadFormat(request.fileData) && !Refused(m, a)
  }

  function Replies(m: Maps, a: Addr, request: Request, code: nat): seq<(Reply, Addr)> {
    match request
    case Hello => [(HelloReply, a)]
    case ShareFile(data) =>
      [(if BadFormat(data) then ErrorFormat else if Refused(m, a) then ErrorLimit else ShareCode(code), a)]
    case GetFile(c) =>
      if c in m.fileDatas then [(FileFound(m.fileDatas[c]), a), (FileReq(a), m.fileDatas[c].addr)] else [(Error404, a)]
    case Other => []
  }

  /** A message, with the code given out if it is a share that is accepted, or the timer. */
  datatype Event = Message(addr: Addr, time: int, request: Request, code: nat) | Timer(now: int)

  /** A code given out is not in use. */
  predicate Enabled(m: Maps, e: Event) { e.Message? && Accepts(m, e.addr, e.request) ==> e.code !in m.fileDatas }

  function Apply(m: Maps, e: Event): Maps {
    match e
    case Timer(now) => Sweep(m, now)
    case Message(a, time, request, code) =>
      var m1 := Touch(m, a, time);
      if Accepts(m, a, request) then Share(m1, a, request.fileData, code) else m1
  }

  class DiretransServer {
    const shareCodes: ShareCodes.RandomCode
    var fileDatas: map<nat, FileDataAddr>
    var codesMap: map<Addr, nat>
    var activeTimes: map<Addr, int>
    var shareFileNum: map<Ip4, int>
    /** The replies handed to the socket, with their addressees. */
    var outbox: seq<(Reply, Addr)>

    ghost predicate Valid()
      reads this, shareCodes
    {
      shareCodes.Valid() && Consistent(State())
    }

    function State(): Maps
      reads this
    {
      Maps(fileDatas, codesMap, activeTimes, shareFileNum)
    }

    constructor (codes: ShareCodes.RandomCode)
      requires codes.Valid()
      ensures Valid() && shareCodes == codes && State() == Maps(map[], map[], map[], map[]) && outbox == []
    {
      shareCodes := codes;
      fileDatas, codesMap, activeTimes, shareFileNum := map[], map[], map[], map[];
      outbox := [];
      new;
      assert forall ip: Ip4 :: SharersAt({}, ip) == {};
    }

    method HandleShareFile(data: FileData, addr: Addr) returns (code: nat)
      requires Valid() && addr in activeTimes
      requires Accepts(State(), addr, ShareFile(data)) ==> |fileDatas| < ShareCodes.DECK - 1
      modifies this, shareCodes
      ensures Valid()
      ensures var m := old(State());
        && outbox == old(outbox) + Replies(m, addr, ShareFile(data), code)
        && if Accepts(m, addr, ShareFile(data)) then
             && State() == Share(m, addr, data, code)
             && code !in m.fileDatas && 100_000 <= code < 200_000
           else State() == m
    {
      if data.fileName == "" || data.fileBytes == 0 {
        outbox := outbox + [(ErrorFormat, addr)];
        return 0;
      }
      var ip := Ip(addr);
      if ip in shareFileNum {
        if shareFileNum[ip] >= 10 || addr in codesMap {
          outbox := outbox + [(ErrorLimit, addr)];
          return 0;
        } else {
          shareFileNum := shareFileNum[ip := shareFileNum[ip] + 1];
        }
      } else {
        shareFileNum := shareFileNum[ip := 1];
      }
      assert |fileDatas.Keys| == |fileDatas|;
      code := shareCodes.FreshCode(fileDatas.Keys);
      ShareConsistent(old(State()), addr, data, code);
      assert addr !in codesMap;
      codesMap := codesMap[addr := code];
      fileDatas := fileDatas[code := FileDataAddr(data, addr)];
      outbox := outbox + [(ShareCode(code), addr)];
    }

    method HandleGetFile(code: nat, recvAddr: Addr)
      requires Valid()
      modifies this`outbox
      ensures Valid() && outbox == old(outbox) + Replies(old(State()), recvAddr, GetFile(code), 0)
    {
      if code !in fileDatas {
        outbox := outbox + [(Error404, recvAddr)];
      } else {
        var file := fileDatas[code];
        outbox := outbox + [(FileFound(file), recvAddr)];
        outbox := outbox + [(FileReq(recvAddr), file.addr)];
      }
    }

    method HandleMessage(addr: Addr, time: int, request: Request) returns (code: nat)
      requires Valid() && (Accepts(State(), addr, request) ==> |fileDatas| < ShareCodes.DECK - 1)
      modifies this, shareCodes
      ensures Valid()
      ensures var m, e := old(State()), Message(addr, time, request, code);
        Enabled(m, e) && State() == Apply(m, e) && outbox == old(outbox) + Replies(m, addr, request, code)
      ensures addr in activeTimes && activeTimes[addr] == time
    {
      TouchConsistent(State(), addr, time);
      activeTimes := activeTimes[addr := time];
      code := 0;
      match request
      case Hello => outbox := outbox + [(HelloReply, addr)];
      case ShareFile(data) => code := HandleShareFile(data, addr);
      case GetFile(c) => HandleGetFile(c, addr);
      case Other =>
    }

    /** The five-minute timer: forget every client not heard for longer than that. */
    method RemoveTimeoutConn(now: int)
      requires Valid()
      modifies this
      ensures Valid() && State() == Apply(old(State()), Timer(now)) && outbox == old(outbox)
    {
      var todo := activeTimes.Keys;
      ghost var m, gone: set<Addr> := State(), {};
      WithoutNobody(m);
      hide Without, Consistent;
      while todo != {}
        invariant todo <= m.activeTimes.Keys && todo !! gone && State() == Without(m, gone)
        invariant gone == set a | a in m.activeTimes && a !in todo && Overdue(m, a, now)
        invariant unchanged(`outbox) && unchanged(shareCodes)
        decreases todo
      {
        var a :| a in todo;
        todo := todo - {a};
        ForgetOne(m, gone, a);
        WithoutTimes(m, gone);
        if now > activeTimes[a] + TIMEOUT {
          ghost var before := State();
          if a in codesMap {
            fileDatas := fileDatas - {codesMap[a]};
            var ip := Ip(a);
            codesMap := codesMap - {a};
            shareFileNum := shareFileNum[ip := shareFileNum[ip] - 1];
          }
          activeTimes := activeTimes - {a};
          assert State() == Forget(before, a);
          gone := gone + {a};
        }
      }
      WithoutConsistent(m, gone);
      assert gone == set a | a in m.activeTimes && Overdue(m, a, now);
    }
  }

  // What holds over every run of the server.

  predicate Possible(m: Maps, run: seq<Event>)
    decreases |run|
  {
    run == [] || (Enabled(m, run[0]) && Possible(Apply(m, run[0]), run[1..]))
  }

  function After(m: Maps, run: seq<Event>): Maps
    decreases |run|
  {
    if run == [] then m else After(Apply(m, run[0]), run[1..])
  }

  lemma ApplyConsistent(m: Maps, e: Event)
    requires Consistent(m) && Enabled(m, e)
    ensures Consistent(Apply(m, e))
  {
    match e
    case Timer(now) => WithoutConsistent(m, set a | a in m.activeTimes && Overdue(m, a, now));
    case Message(a, time, request, code) =>
      TouchConsistent(m, a, time);
      var m1 := Touch(m, a, time);
      hide Consistent;
      if Accepts(m, a, request) {
        ShareConsistent(m1, a, request.fileData, code);
      }
  }

  /** In every run from a server with no sharers, the maps are in step: codes and sharers correspond one to one, and
      the count for each ip is the number of its sharers, between 0 and 10. */
  lemma {:induction false} AlwaysConsistent(m: Maps, run: seq<Event>)
    requires Consistent(m) && Possible(m, run)
    ensures Consistent(After(m, run))
    decreases |run|
  {
    if run == [] {
    } else {
      ApplyConsistent(m, run[0]);
      AlwaysConsistent(Apply(m, run[0]), run[1..]);
    }
  }

  /** The sweep keeps exactly the sharers heard within five minutes, each with its code and file. */
  lemma SweepExact(m: Maps, now: int, a: Addr)
    requires Consistent(m)
    ensures var m' := Sweep(m, now);
      && (a in m'.codesMap <==> a in m.codesMap && now <= m.activeTimes[a] + TIMEOUT)
      && (a in m'.codesMap ==>
            m'.codesMap[a] == m.codesMap[a] && m.codesMap[a] in m'.fileDatas
            && m'.fileDatas[m.codesMap[a]] == m.fileDatas[m.codesMap[a]])
      && forall c :: c in m'.fileDatas ==> c in m.fileDatas && now <= m.activeTimes[m.fileDatas[c].addr] + TIMEOUT
  {
    hide SharersAt, Shares;
  }

  /** Whenever the timer fires, the sharer a has been heard within five minutes. */
  predicate HeardAtSweeps(m: Maps, run: seq<Event>, a: Addr)
    decreases |run|
  {
    run == [] ||
    ((run[0].Timer? && a in m.activeTimes ==> run[0].now <= m.activeTimes[a] + TIMEOUT)
     && HeardAtSweeps(Apply(m, run[0]), run[1..], a))
  }

  lemma CodeKept(m: Maps, e: Event, code: nat)
    requires Consistent(m) && Enabled(m, e) && code in m.fileDatas
    requires e.Timer? ==> e.now <= m.activeTimes[m.fileDatas[code].addr] + TIMEOUT
    ensures var m' := Apply(m, e); code in m'.fileDatas && m'.fileDatas[code] == m.fileDatas[code]
  {
    hide SharersAt, Shares;
  }

  /** A code resolves to the same file and the same sharer, whatever else happens, as long as no sweep finds that
      sharer silent. */
  lemma {:induction false} LiveCodeResolves(m: Maps, run: seq<Event>, code: nat)
    requires Consistent(m) && Possible(m, run) && code in m.fileDatas
    requires HeardAtSweeps(m, run, m.fileDatas[code].addr)
    ensures code in After(m, run).fileDatas && After(m, run).fileDatas[code] == m.fileDatas[code]
    decreases |run|
  {
    if run == [] {
    } else {
      ApplyConsistent(m, run[0]);
      assert m.fileDatas[code].addr in m.activeTimes;
      CodeKept(m, run[0], code);
      hide Consistent;
      LiveCodeResolves(Apply(m, run[0]), run[1..], code);
    }
  }
}
