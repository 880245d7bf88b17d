/** netlib/TimerQueue: timers in a set ordered by time alone, held weakly, behind one timerfd that is armed for the
    earliest. A Timer lives as long as some TimerId holds it; a queue entry whose Timer is gone is dropped when met. */
module TimerQueue {
  /** A Timer object; its interval in whole microseconds, as addTime truncates it. */
  datatype Timer = Timer(expiration: int, interval: nat, repeat: bool)

  datatype Entry = Entry(when: int, id: nat)

  datatype Target = Unarmed | At(when: int)

  /** The set in its order, the Timers that are still held, what the timerfd is armed for, and the next new Timer. */
  datatype Queue = Queue(timers: seq<Entry>, live: map<nat, Timer>, target: Target, next: nat)

  /** What a callback can do to the queue. */
  datatype Action = Add(when: int, interval: nat, repeat: bool) | Cancel(id: nat)

  /** std::set::insert under a comparator that looks at the time only: an entry with a time already present is
      refused. */
  function Place(s: seq<Entry>, e: Entry): seq<Entry> {
    if s == [] || e.when < s[0].when then [e] + s
    else if e.when == s[0].when then s
    else [s[0]] + Place(s[1..], e)
  }

  predicate Earliest(s: seq<Entry>, when: int) { s == [] || when < s[0].when }

  function Do(q: Queue, a: Action): Queue {
    match a
    case Cancel(id) => q.(live := q.live - {id})
    case Add(when, interval, repeat) =>
      Queue(Place(q.timers, Entry(when, q.next)), q.live[q.next := Timer(when, interval, repeat)],
            if Earliest(q.timers, when) then At(when) else q.target, q.next + 1)
  }

  function DoAll(q: Queue, acts: seq<Action>): Queue
    decreases |acts|
  {
    if acts == [] then q else DoAll(Do(q, acts[0]), acts[1..])
  }

  /** lower_bound: how many entries lie before now. */
  function Due(s: seq<Entry>, now: int): (k: nat)
    ensures k <= |s|
  {
    if s == [] || s[0].when >= now then 0 else 1 + Due(s[1..], now)
  }

  /** Run the callbacks of a batch in order; the entries of Timers that are gone by their turn are left out. */
  function RunBatch(q: Queue, batch: seq<Entry>, calls: nat -> seq<Action>): (Queue, seq<Entry>)
    decreases |batch|
  {
    if batch == [] then (q, [])
    else if batch[0].id in q.live then
      var (q', ran) := RunBatch(DoAll(q, calls(batch[0].id)), batch[1..], calls);
      (q', [batch[0]] + ran)
    else RunBatch(q, batch[1..], calls)
  }

  function NoActions(id: nat): seq<Action> { [] }

  predicate Survivor(q: Queue, e: Entry) { e.id in q.live && q.live[e.id].repeat }

  function Again(q: Queue, e: Entry, now: int): int
    requires e.id in q.live
  {
    now + q.live[e.id].interval
  }

  function Restart(q: Queue, e: Entry, now: int): Queue {
    if !Survivor(q, e) then q
    else
      var when := Again(q, e, now);
      q.(timers := Place(q.timers, Entry(when, e.id)), live := q.live[e.id := q.live[e.id].(expiration := when)])
  }

  function RestartAll(q: Queue, batch: seq<Entry>, now: int): Queue
    decreases |batch|
  {
    if batch == [] then q else RestartAll(Restart(q, batch[0], now), batch[1..], now)
  }

  function DropDead(s: seq<Entry>, live: map<nat, Timer>): (r: seq<Entry>)
    ensures r != [] ==> r[0].id in live
  {
    if s == [] || s[0].id in live then s else DropDead(s[1..], live)
  }

  function Arm(q: Queue): Queue {
    var s := DropDead(q.timers, q.live);
    q.(timers := s,
       target := if s != [] && q.live[s[0].id].expiration > 0 then At(q.live[s[0].id].expiration) else q.target)
  }

  /** The queue when the callbacks of the due timers have run, and the entries that ran. The timerfd fires once, so it
      is no longer armed. */
  function CallbacksRun(q: Queue, now: int, calls: nat -> seq<Action>): (Queue, seq<Entry>) {
    var k := Due(q.timers, now);
    RunBatch(q.(timers := q.timers[k..], target := Unarmed), q.timers[..k], calls)
  }

  function HandleRead(q: Queue, now: int, calls: nat -> seq<Action>): (Queue, seq<Entry>) {
    var (q', ran) := CallbacksRun(q, now, calls);
    (Arm(RestartAll(q', ran, now)), ran)
  }

  function Ids(s: seq<Entry>): seq<nat> { seq(|s|, i requires 0 <= i < |s| => s[i].id) }

  ghost predicate Ascending(s: seq<Entry>) { forall i, j :: 0 <= i < j < |s| ==> s[i].when < s[j].when }

  ghost predicate HasTime(s: seq<Entry>, when: int) { exists x :: x in s && x.when == when }

  /** The set s' is s with e, or s if the time of e is in it already; it is in order. */
  ghost predicate Inserted(s: seq<Entry>, s': seq<Entry>, e: Entry) {
    Ascending(s) ==> Ascending(s') && forall x :: x in s' <==> x in s || (x == e && !HasTime(s, e.when))
  }

  /** The set s is split into the entries before now and the others, both in order. */
  ghost predicate SplitAt(s: seq<Entry>, before: seq<Entry>, after: seq<Entry>, now: int) {
    && s == before + after
    && (Ascending(s) ==> (forall x :: x in before ==> x.when < now) && forall x :: x in after ==> x.when >= now)
  }

  class TimerQueue {
    var timers: seq<Entry>
    /** The Timer objects that a TimerId still holds. */
    var live: map<nat, Timer>
    /** What the timerfd is armed for. */
    var target: Target
    var next: nat

    function State(): Queue
      reads this
    {
      Queue(timers, live, target, next)
    }

    constructor ()
      ensures State() == Queue([], map[], Unarmed, 0) && Sound(State()) && Awaited(State(), false)
    {
      timers, live, target, next := [], map[], Unarmed, 0;
    }

    method Insert(id: nat) returns (earliestChanged: bool)
      requires id in live
      modifies `timers
      ensures timers == Place(old(timers), Entry(live[id].expiration, id))
      ensures earliestChanged == Earliest(old(timers), live[id].expiration)
      ensures Inserted(old(timers), timers, Entry(live[id].expiration, id))
    {
      var when := live[id].expiration;
      if Ascending(timers) {
        PlaceExact(timers, Entry(when, id));
      }
      earliestChanged := timers == [] || when < timers[0].when;
      timers := Place(timers, Entry(when, id));
    }

    method AddTimer(when: int, interval: nat, repeat: bool) returns (id: nat)
      modifies this
      ensures id == old(next) && State() == Do(old(State()), Add(when, interval, repeat))
      ensures id in live && live[id] == Timer(when, interval, repeat)
      ensures Inserted(old(timers), timers, Entry(when, id))
    {
      id := next;
      live, next := live[id := Timer(when, interval, repeat)], next + 1;
      var earliestChanged := Insert(id);
      if earliestChanged {
        target := At(live[id].expiration);
      }
    }

    method CancelTimer(id: nat)
      modifies `live
      ensures State() == Do(old(State()), Cancel(id))
    {
      live := live - {id};
    }

    /** A callback. */
    method Run(acts: seq<Action>)
      modifies this
      ensures State() == DoAll(old(State()), acts)
    {
      for i := 0 to |acts|
        invariant DoAll(State(), acts[i..]) == DoAll(old(State()), acts)
      {
        assert acts[i..][1..] == acts[i + 1..];
        match acts[i] {
          case Cancel(id) => CancelTimer(id);
          case Add(when, interval, repeat) => var _ := AddTimer(when, interval, repeat);
        }
      }
    }

    method GetExpired(now: int) returns (expired: seq<Entry>)
      modifies `timers
      ensures expired == old(timers)[..Due(old(timers), now)] && timers == old(timers)[Due(old(timers), now)..]
      ensures SplitAt(old(timers), expired, timers, now)
    {
      if Ascending(timers) {
        SplitParts(timers, now);
      }
      hide Ascending, Due;
      var it := Due(timers, now);
      expired := timers[..it];
      timers := timers[it..];
    }

    method Reset(expired: seq<Entry>, now: int)
      modifies this
      ensures State() == Arm(RestartAll(old(State()), expired, now))
    {
      for i := 0 to |expired|
        invariant RestartAll(State(), expired[i..], now) == RestartAll(old(State()), expired, now)
      {
        assert expired[i..][1..] == expired[i + 1..];
        var id := expired[i].id;
        if id in live && live[id].repeat {
          live := live[id := live[id].(expiration := now + live[id].interval)];
          var _ := Insert(id);
        }
      }
      ghost var q := State();
      while timers != [] && timers[0].id !in live
        invariant State() == q.(timers := timers) && DropDead(timers, live) == DropDead(q.timers, q.live)
      {
        timers := timers[1..];
      }
      if timers != [] && live[timers[0].id].expiration > 0 {
        target := At(live[timers[0].id].expiration);
      }
    }

    method HandleReadEvent(now: int, calls: nat -> seq<Action>) returns (ran: seq<nat>)
      modifies this
      ensures (State(), ran) == (HandleRead(old(State()), now, calls).0, Ids(HandleRead(old(State()), now, calls).1))
    {
      hide RunBatch, DoAll, Ids, Due, Ascending, SplitAt;
      target := Unarmed;
      var expired := GetExpired(now);
      ghost var q, batch, done, todo := State(), expired, [], expired;
      NothingRan(q, batch, calls);
      ran := [];
      var it := 0;
      while it < |expired|
        invariant it == |done| && expired == done + todo && ran == Ids(done)
        invariant RunBatch(q, batch, calls) ==
          (RunBatch(State(), todo, calls).0, done + RunBatch(State(), todo, calls).1)
        decreases |todo|
      {
        var id := expired[it].id;
        NextRuns(State(), done, todo, calls);
        assert expired[..it] == done && expired[it + 1..] == todo[1..] && expired[it] == todo[0];
        if id in live {
          Run(calls(id));
          ran := ran + [id];
          it := it + 1;
          done := done + [todo[0]];
        } else {
          expired := expired[..it] + expired[it + 1..];
        }
        todo := todo[1..];
      }
      AllRan(State(), done, todo, calls);
      Reset(expired, now);
    }
  }

  lemma NothingRan(q: Queue, batch: seq<Entry>, calls: nat -> seq<Action>)
    ensures Ids([]) == [] && [] + RunBatch(q, batch, calls).1 == RunBatch(q, batch, calls).1 && [] + batch == batch
  {
  }

  lemma Moves(done: seq<Entry>, e: Entry, rest: seq<Entry>)
    ensures done + ([e] + rest) == done + [e] + rest && Ids(done + [e]) == Ids(done) + [e.id]
  {
  }

  lemma NextRuns(q: Queue, done: seq<Entry>, todo: seq<Entry>, calls: nat -> seq<Action>)
    requires todo != []
    ensures Ids(done + [todo[0]]) == Ids(done) + [todo[0].id] && done + todo == done + [todo[0]] + todo[1..]
    ensures todo[0].id !in q.live ==> RunBatch(q, todo, calls) == RunBatch(q, todo[1..], calls)
    ensures todo[0].id in q.live ==>
      && var (q', ran) := RunBatch(DoAll(q, calls(todo[0].id)), todo[1..], calls);
      && RunBatch(q, todo, calls).0 == q'
      && done + RunBatch(q, todo, calls).1 == done + [todo[0]] + ran
  {
    hide DoAll, Ids;
    Moves(done, todo[0], todo[1..]);
    assert todo == [todo[0]] + todo[1..];
    if todo[0].id in q.live {
      Moves(done, todo[0], RunBatch(DoAll(q, calls(todo[0].id)), todo[1..], calls).1);
    }
  }

  lemma AllRan(q: Queue, done: seq<Entry>, todo: seq<Entry>, calls: nat -> seq<Action>)
    requires todo == []
    ensures RunBatch(q, todo, calls).0 == q && done + RunBatch(q, todo, calls).1 == done && done + todo == done
  {
  }

  // The set.

  ghost predicate Queued(q: Queue, id: nat) { exists x :: x in q.timers && x.id == id }

  /** The set stays in order and takes the new entry exactly if its time is not yet present. */
  lemma {:induction false} PlaceExact(s: seq<Entry>, e: Entry)
    requires Ascending(s)
    ensures Ascending(Place(s, e)) && Place(s, e) != []
    ensures forall x :: x in Place(s, e) <==> x in s || (x == e && !HasTime(s, e.when))
  {
    if s != [] && e.when > s[0].when {
      PlaceExact(s[1..], e);
      assert forall x :: x in s <==> x == s[0] || x in s[1..];
      assert HasTime(s, e.when) <==> HasTime(s[1..], e.when) by {
        forall x | x in s && x.when == e.when ensures x in s[1..] {}
      }
      forall x | x in Place(s[1..], e) ensures s[0].when < x.when {
        if x in s[1..] {
          var i :| 0 <= i < |s[1..]| && s[1..][i] == x;
        }
      }
    } else if s != [] && e.when == s[0].when {
      assert s[0] in s;
    } else {
      forall x | x in s ensures e.when < x.when {
        var i :| 0 <= i < |s| && s[i] == x;
      }
    }
  }

  /** The due entries are exactly those before now, and come first. */
  lemma {:induction false} DueExact(s: seq<Entry>, now: int)
    requires Ascending(s)
    ensures forall i :: 0 <= i < |s| ==> (i < Due(s, now) <==> s[i].when < now)
  {
    if s == [] || s[0].when >= now {
    } else {
      DueExact(s[1..], now);
      forall i | 0 <= i < |s| ensures i < Due(s, now) <==> s[i].when < now {
        if i > 0 {
          assert s[i] == s[1..][i - 1];
        }
      }
    }
  }

  // The queue's invariant.

  /** Times and ids are unique, and the time of a held Timer is its entry's. */
  ghost predicate Sound(q: Queue) {
    && Ascending(q.timers)
    && (forall x, y :: x in q.timers && y in q.timers && x.id == y.id ==> x == y)
    && (forall x :: x in q.timers ==> x.id < q.next && (x.id in q.live ==> q.live[x.id].expiration == x.when))
    && (forall id :: id in q.live ==> id < q.next)
  }

  /** The timerfd is armed no later than at this time. */
  predicate Covers(t: Target, when: int) { t.At? && t.when <= when }

  /** Every entry is covered; while callbacks run, at least those with a time that no clock shows. */
  ghost predicate Awaited(q: Queue, inCallbacks: bool) {
    forall x :: x in q.timers && (inCallbacks ==> x.when <= 0) ==> Covers(q.target, x.when)
  }

  /** Entries that have been taken out of the queue and not put back. */
  ghost predicate Apart(q: Queue, batch: seq<Entry>) {
    && (forall e :: e in batch ==> e.id < q.next && !Queued(q, e.id))
    && forall i, j :: 0 <= i < j < |batch| ==> batch[i].id != batch[j].id
  }

  lemma DoKeeps(q: Queue, a: Action, batch: seq<Entry>, inCallbacks: bool)
    requires Sound(q) && Awaited(q, inCallbacks) && Apart(q, batch)
    ensures Sound(Do(q, a)) && Awaited(Do(q, a), inCallbacks) && Apart(Do(q, a), batch)
  {
    match a
    case Cancel(id) =>
    case Add(when, interval, repeat) =>
      PlaceExact(q.timers, Entry(when, q.next));
      if q.timers != [] {
        assert q.timers[0] in q.timers;
        forall x | x in q.timers ensures q.timers[0].when <= x.when {
          var i :| 0 <= i < |q.timers| && q.timers[i] == x;
        }
      }
  }

  /** A callback leaves alone every older timer that it does not cancel. */
  lemma {:induction false} DoAllKeeps(q: Queue, acts: seq<Action>, batch: seq<Entry>, inCallbacks: bool)
    requires Sound(q) && Awaited(q, inCallbacks) && Apart(q, batch)
    ensures var q' := DoAll(q, acts);
      && Sound(q') && Awaited(q', inCallbacks) && Apart(q', batch) && q'.next >= q.next
      && forall id: nat :: id < q.next ==>
           && (id in q'.live <==> id in q.live && Cancel(id) !in acts)
           && (id in q'.live ==> q'.live[id] == q.live[id])
           && (Queued(q', id) <==> Queued(q, id))
    decreases |acts|
  {
    if acts == [] {
    } else {
      DoKeeps(q, acts[0], batch, inCallbacks);
      DoKeepsOlder(q, acts[0]);
      assert DoAll(q, acts) == DoAll(Do(q, acts[0]), acts[1..]);
      hide Sound, Awaited, Apart, Do, DoAll, Queued;
      DoAllKeeps(Do(q, acts[0]), acts[1..], batch, inCallbacks);
      assert acts == [acts[0]] + acts[1..];
    }
  }

  lemma DoKeepsOlder(q: Queue, a: Action)
    requires Sound(q)
    ensures var q' := Do(q, a);
      && q'.next >= q.next
      && forall id: nat :: id < q.next ==>
           && (id in q'.live <==> id in q.live && a != Cancel(id)) && (id in q'.live ==> q'.live[id] == q.live[id])
           && (Queued(q', id) <==> Queued(q, id))
  {
    if a.Add? {
      PlaceExact(q.timers, Entry(a.when, q.next));
    }
  }

  /** The queue when the first entry of a batch has had its turn. */
  function AfterFirst(q: Queue, batch: seq<Entry>, calls: nat -> seq<Action>): Queue
    requires batch != []
  {
    if batch[0].id in q.live then DoAll(q, calls(batch[0].id)) else q
  }

  lemma FirstTurn(q: Queue, batch: seq<Entry>, calls: nat -> seq<Action>)
    requires Sound(q) && Awaited(q, true) && Apart(q, batch) && batch != []
    ensures var q1, (q', ran) := AfterFirst(q, batch, calls), RunBatch(AfterFirst(q, batch, calls), batch[1..], calls);
      && Sound(q1) && Awaited(q1, true) && Apart(q1, batch) && Apart(q1, batch[1..]) && q1.next >= q.next
      && (forall id: nat :: id < q.next ==>
           && (id in q1.live <==> id in q.live && (batch[0].id in q.live ==> Cancel(id) !in calls(batch[0].id)))
           && (Queued(q1, id) <==> Queued(q, id)))
      && RunBatch(q, batch, calls) == (q', if batch[0].id in q.live then [batch[0]] + ran else ran)
  {
    if batch[0].id in q.live {
      DoAllKeeps(q, calls(batch[0].id), batch, true);
    }
    hide Sound, Awaited, DoAll, Queued;
    assert batch == [batch[0]] + batch[1..];
  }

  lemma {:induction false} RunBatchKeeps(q: Queue, batch: seq<Entry>, calls: nat -> seq<Action>)
    requires Sound(q) && Awaited(q, true) && Apart(q, batch)
    ensures var (q', ran) := RunBatch(q, batch, calls);
      && Sound(q') && Awaited(q', true) && Apart(q', ran) && q'.next >= q.next
      && (forall e :: e in ran ==> e in batch && e.id in q.live)
      && forall id: nat :: id < q.next ==> (id in q'.live ==> id in q.live) && (Queued(q', id) <==> Queued(q, id))
    decreases |batch|
  {
    if batch == [] {
    } else {
      FirstTurn(q, batch, calls);
      var q1 := AfterFirst(q, batch, calls);
      RunBatchKeeps(q1, batch[1..], calls);
      assert batch == [batch[0]] + batch[1..] && forall e :: e in batch ==> e.id < q.next;
      OlderStaysApart(q1, batch, calls);
      hide Sound, Awaited, Apart, Queued, RunBatch, AfterFirst;
    }
  }

  lemma OlderStaysApart(q1: Queue, batch: seq<Entry>, calls: nat -> seq<Action>)
    requires batch != [] && Apart(q1, batch)
    requires var (q', ran) := RunBatch(q1, batch[1..], calls);
      && Apart(q', ran) && q'.next >= q1.next && (forall e :: e in ran ==> e in batch[1..])
      && forall id: nat :: id < q1.next ==> (Queued(q', id) <==> Queued(q1, id))
    ensures var (q', ran) := RunBatch(q1, batch[1..], calls);
      Apart(q', [batch[0]] + ran)
  {
    var (q', ran) := RunBatch(q1, batch[1..], calls);
    forall e | e in ran ensures e.id != batch[0].id {
      var i :| 0 <= i < |batch[1..]| && batch[1..][i] == e;
      assert batch[i + 1] == e;
    }
  }

  /** No callback run before entry j of the batch has cancelled it. */
  ghost predicate Uncancelled(batch: seq<Entry>, ran: seq<Entry>, calls: nat -> seq<Action>, j: nat)
    requires j < |batch|
  {
    forall i :: 0 <= i < j && batch[i] in ran ==> Cancel(batch[j].id) !in calls(batch[i].id)
  }

  lemma FirstRuns(batch: seq<Entry>, ran: seq<Entry>, rest: seq<Entry>, calls: nat -> seq<Action>)
    requires batch != [] && rest == batch[1..] && forall e :: e in ran ==> e in rest
    requires forall i, k :: 0 <= i < k < |batch| ==> batch[i].id != batch[k].id
    ensures batch[0] !in ran && Uncancelled(batch, ran, calls, 0) && Uncancelled(batch, [batch[0]] + ran, calls, 0)
  {
    forall e | e in rest ensures e.id != batch[0].id {
      var i :| 0 <= i < |rest| && rest[i] == e;
      assert batch[i + 1] == e;
    }
  }

  lemma UncancelledRest(batch: seq<Entry>, ran: seq<Entry>, rest: seq<Entry>, calls: nat -> seq<Action>, j: nat)
    requires 0 < j < |batch| && rest == batch[1..]
    requires forall i, k :: 0 <= i < k < |batch| ==> batch[i].id != batch[k].id
    requires forall e :: e in ran ==> e in rest
    ensures Uncancelled(batch, ran, calls, j) <==> Uncancelled(rest, ran, calls, j - 1)
    ensures Uncancelled(batch, [batch[0]] + ran, calls, j) <==>
      Uncancelled(rest, ran, calls, j - 1) && Cancel(batch[j].id) !in calls(batch[0].id)
    ensures batch[0] !in ran && batch[j] == rest[j - 1] && batch[j] != batch[0]
  {
    FirstRuns(batch, ran, rest, calls);
    var ran0 := [batch[0]] + ran;
    assert forall i :: 0 < i < j ==> batch[i] == rest[i - 1] && batch[i].id != batch[0].id;
    assert forall i :: 0 <= i < j - 1 ==> rest[i] == batch[i + 1] && (rest[i] in ran <==> batch[i + 1] in ran0);
  }

  /** Of a batch, exactly those timers run that are still held and that no callback run before them in the same batch
      has cancelled. */
  lemma {:induction false} RunsUncancelled(q: Queue, batch: seq<Entry>, calls: nat -> seq<Action>)
    requires Sound(q) && Awaited(q, true) && Apart(q, batch)
    ensures var ran := RunBatch(q, batch, calls).1;
      forall j :: 0 <= j < |batch| ==>
        (batch[j] in ran <==> batch[j].id in q.live && Uncancelled(batch, ran, calls, j))
    decreases |batch|
  {
    if batch == [] {
    } else {
      FirstTurn(q, batch, calls);
      var q1, rest := AfterFirst(q, batch, calls), batch[1..];
      RunsUncancelled(q1, rest, calls);
      RunBatchKeeps(q1, rest, calls);
      var ran, ran1 := RunBatch(q, batch, calls).1, RunBatch(q1, rest, calls).1;
      assert forall e :: e in batch ==> e.id < q.next;
      FirstRuns(batch, ran1, rest, calls);
      hide RunBatch, AfterFirst, Sound, Awaited, Queued, Uncancelled;
      forall j | 0 < j < |batch|
        ensures batch[j] in ran <==> batch[j].id in q.live && Uncancelled(batch, ran, calls, j)
      {
        assert batch[j] == rest[j - 1];
        LaterRuns(q.live, q1.live, batch, ran1, calls, j);
      }
    }
  }

  lemma LaterRuns(live: map<nat, Timer>, live1: map<nat, Timer>, batch: seq<Entry>, ran: seq<Entry>,
                  calls: nat -> seq<Action>, j: nat)
    requires 0 < j < |batch| && forall i, k :: 0 <= i < k < |batch| ==> batch[i].id != batch[k].id
    requires forall e :: e in ran ==> e in batch[1..]
    requires var id, held := batch[j].id, batch[0].id in live;
      id in live1 <==> id in live && (held ==> Cancel(id) !in calls(batch[0].id))
    requires batch[1..][j - 1] in ran <==> batch[j].id in live1 && Uncancelled(batch[1..], ran, calls, j - 1)
    ensures var ran0 := if batch[0].id in live then [batch[0]] + ran else ran;
      batch[j] in ran0 <==> batch[j].id in live && Uncancelled(batch, ran0, calls, j)
  {
    UncancelledRest(batch, ran, batch[1..], calls, j);
    hide Uncancelled;
  }

  lemma RestartKeeps(q: Queue, batch: seq<Entry>, now: int)
    requires Sound(q) && Awaited(q, true) && Apart(q, batch) && batch != [] && now > 0
    ensures var q' := Restart(q, batch[0], now);
      && Sound(q') && Awaited(q', true) && Apart(q', batch[1..]) && q'.next == q.next && q'.live.Keys == q.live.Keys
      && (forall id: nat :: id in q.live && id != batch[0].id ==> q'.live[id] == q.live[id])
      && (forall x :: x in q'.timers && x.id != batch[0].id ==> x in q.timers)
      && forall x :: x in q.timers ==> x in q'.timers
  {
    var e := batch[0];
    if Survivor(q, e) {
      PlaceExact(q.timers, Entry(Again(q, e, now), e.id));
    }
    FirstRuns(batch, [], batch[1..], NoActions);
    forall e' | e' in batch[1..] ensures e'.id != e.id && e' in batch {
      var i :| 0 <= i < |batch[1..]| && batch[1..][i] == e';
      assert batch[i + 1] == e';
    }
  }

  lemma {:induction false} RestartAllKeeps(q: Queue, batch: seq<Entry>, now: int)
    requires Sound(q) && Awaited(q, true) && Apart(q, batch) && now > 0
    ensures var q' := RestartAll(q, batch, now);
      && Sound(q') && Awaited(q', true) && q'.next == q.next && q'.live.Keys == q.live.Keys
      && (forall x :: x in q'.timers && (forall e :: e in batch ==> e.id != x.id) ==> x in q.timers)
      && forall x :: x in q.timers ==> x in q'.timers
    decreases |batch|
  {
    if batch == [] {
    } else {
      RestartKeeps(q, batch, now);
      var rest := batch[1..];
      assert batch[0] in batch && forall e :: e in rest ==> e in batch;
      RestartAllKeeps(Restart(q, batch[0], now), rest, now);
      hide Sound, Awaited, Apart, Restart;
    }
  }

  lemma {:induction false} DropDeadExact(s: seq<Entry>, live: map<nat, Timer>)
    requires Ascending(s)
    ensures Ascending(DropDead(s, live))
    ensures forall x :: x in DropDead(s, live) ==> x in s
    ensures forall x :: x in s && x.id in live ==> x in DropDead(s, live)
  {
    if s == [] || s[0].id in live {
    } else {
      DropDeadExact(s[1..], live);
      assert s == [s[0]] + s[1..];
    }
  }

  /** Arming the timerfd for the first held timer covers the whole queue: a time no clock shows was covered before. */
  lemma ArmKeeps(q: Queue)
    requires Sound(q) && Awaited(q, true)
    ensures Sound(Arm(q)) && Awaited(Arm(q), false)
  {
    DropDeadExact(q.timers, q.live);
    var s := DropDead(q.timers, q.live);
    if s != [] {
      assert s[0] in s;
      forall x | x in s ensures s[0].when <= x.when {
        var i :| 0 <= i < |s| && s[i] == x;
      }
    }
  }

  // Restarting the repeating timers.

  /** The new time of e, if it survived and repeats, is not in the queue. */
  ghost predicate Free(q: Queue, e: Entry, now: int) { Survivor(q, e) ==> !HasTime(q.timers, Again(q, e, now)) }

  predicate Differ(q: Queue, e: Entry, f: Entry) {
    Survivor(q, e) && Survivor(q, f) ==> q.live[e.id].interval != q.live[f.id].interval
  }

  /** The new times of the repeating survivors differ from each other and from the times in the queue. */
  ghost predicate NoClash(q: Queue, batch: seq<Entry>, now: int) {
    && (forall i :: 0 <= i < |batch| ==> Free(q, batch[i], now))
    && forall i, j :: 0 <= i < j < |batch| ==> Differ(q, batch[i], batch[j])
  }

  predicate Back(q: Queue, e: Entry, now: int, s: seq<Entry>) {
    Survivor(q, e) ==> Entry(Again(q, e, now), e.id) in s
  }

  predicate AllBack(q: Queue, batch: seq<Entry>, now: int, s: seq<Entry>) {
    forall i :: 0 <= i < |batch| ==> Back(q, batch[i], now, s)
  }

  lemma TimesAfterPlace(s: seq<Entry>, x: Entry, w: int)
    requires Ascending(s)
    ensures HasTime(Place(s, x), w) <==> HasTime(s, w) || w == x.when
  {
    PlaceExact(s, x);
    if HasTime(s, w) {
      var y :| y in s && y.when == w;
      assert y in Place(s, x);
    } else if w == x.when {
      assert x in Place(s, x);
    }
  }

  /** What the restart of the first entry means for a later one. */
  lemma RestartMeets(q: Queue, batch: seq<Entry>, now: int, k: nat)
    requires Sound(q) && Apart(q, batch) && 0 < k < |batch|
    ensures var e, x, q1 := batch[0], batch[k], Restart(q, batch[0], now);
      && (Survivor(q1, x) <==> Survivor(q, x))
      && (Survivor(q, x) ==> q1.live[x.id] == q.live[x.id])
      && (Free(q1, x, now) <==> Free(q, x, now) && Differ(q, e, x))
      && forall s :: Back(q1, x, now, s) <==> Back(q, x, now, s)
  {
    var e, x, q1 := batch[0], batch[k], Restart(q, batch[0], now);
    if Survivor(q, e) && Survivor(q, x) {
      TimesAfterPlace(q.timers, Entry(Again(q, e, now), e.id), Again(q, x, now));
      hide HasTime, Place, Ascending;
      assert Again(q1, x, now) == Again(q, x, now);
    }
  }

  lemma ClashFirst(q: Queue, batch: seq<Entry>, now: int)
    requires Sound(q) && Apart(q, batch) && batch != []
    ensures NoClash(q, batch, now) <==>
      Free(q, batch[0], now) && NoClash(Restart(q, batch[0], now), batch[1..], now)
  {
    var rest, q1 := batch[1..], Restart(q, batch[0], now);
    forall k | 0 < k < |batch|
      ensures batch[k] == rest[k - 1]
      ensures Free(q1, rest[k - 1], now) <==> Free(q, batch[k], now) && Differ(q, batch[0], batch[k])
    {
      RestartMeets(q, batch, now, k);
    }
    forall j, k | 0 < j < k < |batch|
      ensures Differ(q1, rest[j - 1], rest[k - 1]) <==> Differ(q, batch[j], batch[k])
    {
      RestartMeets(q, batch, now, j);
      RestartMeets(q, batch, now, k);
    }
    hide Sound, Apart, Free, Differ, Restart;
    assert forall i :: 0 <= i < |rest| ==> rest[i] == batch[i + 1];
    assert forall i, j :: 0 <= i < j < |rest| ==>
      (Differ(q1, rest[i], rest[j]) <==> Differ(q, batch[i + 1], batch[j + 1]));
  }

  lemma FirstBack(q: Queue, batch: seq<Entry>, now: int)
    requires Sound(q) && Awaited(q, true) && Apart(q, batch) && batch != [] && now > 0
    ensures Back(q, batch[0], now, RestartAll(q, batch, now).timers) <==> Free(q, batch[0], now)
  {
    var e, rest, q1 := batch[0], batch[1..], Restart(q, batch[0], now);
    if Survivor(q, e) {
      var x := Entry(Again(q, e, now), e.id);
      PlaceExact(q.timers, x);
      assert e in batch;
      assert x !in q.timers;
      RestartKeeps(q, batch, now);
      RestartAllKeeps(q1, rest, now);
      FirstRuns(batch, [], rest, NoActions);
      hide Sound, Awaited, Apart, HasTime, Survivor, Again;
      assert forall y :: y in rest ==> y.id != e.id;
    }
  }

  lemma BackFirst(q: Queue, batch: seq<Entry>, now: int)
    requires Sound(q) && Awaited(q, true) && Apart(q, batch) && batch != [] && now > 0
    ensures var s := RestartAll(q, batch, now).timers;
      AllBack(q, batch, now, s) <==> Free(q, batch[0], now) && AllBack(Restart(q, batch[0], now), batch[1..], now, s)
  {
    var rest, q1, s := batch[1..], Restart(q, batch[0], now), RestartAll(q, batch, now).timers;
    FirstBack(q, batch, now);
    forall k | 0 < k < |batch|
      ensures batch[k] == rest[k - 1] && (Back(q1, rest[k - 1], now, s) <==> Back(q, batch[k], now, s))
    {
      RestartMeets(q, batch, now, k);
    }
    hide Sound, Awaited, Apart, Free, Back, Restart, RestartAll;
    assert forall i :: 0 <= i < |rest| ==> rest[i] == batch[i + 1];
  }

  /** Every repeating timer that survived its batch is queued again one interval from now if and only if no two of
      their new times meet each other or a time in the queue. */
  lemma {:induction false} RestartedIffNoClash(q: Queue, batch: seq<Entry>, now: int)
    requires Sound(q) && Awaited(q, true) && Apart(q, batch) && now > 0
    ensures AllBack(q, batch, now, RestartAll(q, batch, now).timers) <==> NoClash(q, batch, now)
    decreases |batch|
  {
    if batch == [] {
    } else {
      RestartKeeps(q, batch, now);
      ClashFirst(q, batch, now);
      BackFirst(q, batch, now);
      hide Sound, Awaited, Apart, Free, AllBack, NoClash, Restart;
      RestartedIffNoClash(Restart(q, batch[0], now), batch[1..], now);
    }
  }

  // A whole call of handleRead.

  lemma SplitParts(s: seq<Entry>, now: int)
    requires Ascending(s)
    ensures forall x :: x in s[..Due(s, now)] ==> x in s && x.when < now
    ensures forall x :: x in s[Due(s, now)..] ==> x in s && x.when >= now
    ensures Ascending(s[Due(s, now)..])
  {
    DueExact(s, now);
    hide Due;
    var k := Due(s, now);
    forall x | x in s[k..] ensures x in s && x.when >= now {
      var i :| 0 <= i < |s[k..]| && s[k..][i] == x;
      assert s[k + i] == x;
    }
    forall x | x in s[..k] ensures x in s && x.when < now {
      var i :| 0 <= i < |s[..k]| && s[..k][i] == x;
      assert s[i] == x;
    }
    forall i, j | 0 <= i < j < |s[k..]| ensures s[k..][i].when < s[k..][j].when {
      assert s[k + i].when < s[k + j].when;
    }
  }

  lemma SplitKeeps(q: Queue, now: int)
    requires Sound(q) && now > 0
    ensures var k := Due(q.timers, now);
      var q0 := q.(timers := q.timers[k..], target := Unarmed);
      Sound(q0) && Awaited(q0, true) && Apart(q0, q.timers[..k]) && forall id :: Queued(q0, id) ==> Queued(q, id)
  {
    SplitParts(q.timers, now);
    var k := Due(q.timers, now);
    var due, rest := q.timers[..k], q.timers[k..];
    hide Due;
    forall e | e in due ensures e in q.timers && e !in rest {}
    forall i, j | 0 <= i < j < |due| ensures due[i].id != due[j].id {
      assert q.timers[i] in q.timers && q.timers[j] in q.timers && q.timers[i].when < q.timers[j].when;
    }
  }

  lemma CallbacksKeep(q: Queue, now: int, calls: nat -> seq<Action>)
    requires Sound(q) && now > 0
    ensures var (q', ran) := CallbacksRun(q, now, calls);
      && Sound(q') && Awaited(q', true) && Apart(q', ran) && q'.next >= q.next
      && (forall e :: e in ran ==> e in q.timers && e.id in q.live)
      && forall id: nat :: id < q.next ==> (id in q'.live ==> id in q.live) && (Queued(q', id) ==> Queued(q, id))
  {
    SplitParts(q.timers, now);
    SplitKeeps(q, now);
    var k := Due(q.timers, now);
    RunBatchKeeps(q.(timers := q.timers[k..], target := Unarmed), q.timers[..k], calls);
    hide Sound, Awaited, Apart, Queued, Due, RunBatch;
  }

  /** handleRead keeps the queue sound, and arms the timerfd for the first timer, which is then held. */
  lemma HandleReadKeeps(q: Queue, now: int, calls: nat -> seq<Action>)
    requires Sound(q) && now > 0
    ensures var q' := HandleRead(q, now, calls).0;
      && Sound(q') && Awaited(q', false) && q'.next >= q.next
      && (q'.timers != [] ==>
           && q'.timers[0].id in q'.live
           && (q'.timers[0].when > 0 ==> q'.target == At(q'.timers[0].when)))
  {
    CallbacksKeep(q, now, calls);
    var (q1, ran) := CallbacksRun(q, now, calls);
    RestartAllKeeps(q1, ran, now);
    var q2 := RestartAll(q1, ran, now);
    ArmKeeps(q2);
    hide Awaited, Apart, CallbacksRun, RestartAll;
    if Arm(q2).timers != [] {
      assert Arm(q2).timers[0] in Arm(q2).timers;
    }
  }

  /** After handleRead every repeating timer that ran and is still held is queued for one interval from now, if and only
      if no two of these times meet each other or a time already queued. */
  lemma RepeatersReturnIffNoClash(q: Queue, now: int, calls: nat -> seq<Action>)
    requires Sound(q) && now > 0
    ensures var (q1, ran) := CallbacksRun(q, now, calls);
      AllBack(q1, ran, now, HandleRead(q, now, calls).0.timers) <==> NoClash(q1, ran, now)
  {
    CallbacksKeep(q, now, calls);
    var (q1, ran) := CallbacksRun(q, now, calls);
    RestartAllKeeps(q1, ran, now);
    RestartedIffNoClash(q1, ran, now);
    var q2 := RestartAll(q1, ran, now);
    DropDeadExact(q2.timers, q2.live);
    hide Sound, Awaited, Apart, CallbacksRun, RestartAll, DropDead, NoClash;
  }

  /** Exactly the due timers run that are held when their turn comes. */
  lemma DueTimersRun(q: Queue, now: int, calls: nat -> seq<Action>)
    requires Sound(q) && now > 0
    ensures var ran := HandleRead(q, now, calls).1;
      forall j :: 0 <= j < |q.timers| ==>
        (q.timers[j] in ran <==>
          q.timers[j].when < now && q.timers[j].id in q.live && Uncancelled(q.timers, ran, calls, j))
  {
    SplitKeeps(q, now);
    SplitParts(q.timers, now);
    DueExact(q.timers, now);
    var k := Due(q.timers, now);
    var q0, due := q.(timers := q.timers[k..], target := Unarmed), q.timers[..k];
    RunsUncancelled(q0, due, calls);
    RunBatchKeeps(q0, due, calls);
    var ran := HandleRead(q, now, calls).1;
    assert ran == RunBatch(q0, due, calls).1;
    hide Sound, Awaited, Apart, RunBatch, HandleRead, Due;
    forall j | 0 <= j < k
      ensures q.timers[j] in ran <==> q.timers[j].id in q.live && Uncancelled(q.timers, ran, calls, j)
    {
      assert due[j] == q.timers[j] && forall i :: 0 <= i < j ==> due[i] == q.timers[i];
    }
  }

  // Whole runs.

  datatype Event = Call(action: Action) | Expire(now: int, calls: nat -> seq<Action>)

  /** The clock shows positive times. */
  ghost predicate Possible(run: seq<Event>) { forall e :: e in run && e.Expire? ==> e.now > 0 }

  /** The state after an event and the ids of the timers that ran in it. */
  ghost function Apply(q: Queue, e: Event): (Queue, seq<nat>) {
    match e
    case Call(a) => (Do(q, a), [])
    case Expire(now, calls) => var (q', ran) := HandleRead(q, now, calls); (q', Ids(ran))
  }

  ghost function After(q: Queue, run: seq<Event>): (Queue, seq<nat>)
    decreases |run|
  {
    if run == [] then (q, [])
    else
      var (q1, ran) := Apply(q, run[0]);
      var (q2, more) := After(q1, run[1..]);
      (q2, ran + more)
  }

  /** Started empty, the queue is sound after every run, and while it has an entry the timerfd is armed no later than
      at the first of them, so that no timer is forgotten. */
  lemma {:induction false} NeverForgotten(q: Queue, run: seq<Event>)
    requires Sound(q) && Awaited(q, false) && Possible(run)
    ensures Sound(After(q, run).0) && Awaited(After(q, run).0, false)
    decreases |run|
  {
    if run == [] {
    } else {
      match run[0] {
        case Call(a) => DoKeeps(q, a, [], false);
        case Expire(now, calls) => HandleReadKeeps(q, now, calls);
      }
      hide Sound, Awaited;
      NeverForgotten(Apply(q, run[0]).0, run[1..]);
    }
  }

  /** A timer that is no longer held, or no longer queued. */
  ghost predicate Gone(q: Queue, id: nat) { id < q.next && (id in q.live ==> !Queued(q, id)) }

  lemma HandleReadGone(q: Queue, now: int, calls: nat -> seq<Action>, id: nat)
    requires Sound(q) && now > 0 && Gone(q, id)
    ensures Gone(HandleRead(q, now, calls).0, id) && id !in Ids(HandleRead(q, now, calls).1)
  {
    CallbacksKeep(q, now, calls);
    var (q1, ran) := CallbacksRun(q, now, calls);
    assert forall e :: e in ran ==> e.id != id;
    RestartAllKeeps(q1, ran, now);
    var q2 := RestartAll(q1, ran, now);
    DropDeadExact(q2.timers, q2.live);
    hide Sound, Awaited, Apart, CallbacksRun, RestartAll, DropDead;
    assert id in Arm(q2).live ==> id in q1.live && !Queued(q1, id);
  }

  /** A timer that was cancelled, even in the batch being run, or that has run once and does not repeat, or whose
      restart was refused, never runs again. */
  lemma {:induction false} GoneForGood(q: Queue, run: seq<Event>, id: nat)
    requires Sound(q) && Awaited(q, false) && Possible(run) && Gone(q, id)
    ensures Gone(After(q, run).0, id) && id !in After(q, run).1
    decreases |run|
  {
    if run == [] {
    } else {
      match run[0] {
        case Call(a) =>
          DoKeeps(q, a, [], false);
          DoKeepsOlder(q, a);
        case Expire(now, calls) =>
          HandleReadKeeps(q, now, calls);
          HandleReadGone(q, now, calls, id);
      }
      hide Sound, Awaited, Gone, Do, HandleRead;
      GoneForGood(Apply(q, run[0]).0, run[1..], id);
    }
  }

  /** A timer that has been cancelled never runs again, although its entry may still be queued. */
  lemma CancelledNeverRuns(q: Queue, id: nat, run: seq<Event>)
    requires Sound(q) && Awaited(q, false) && id < q.next && Possible(run)
    ensures id !in After(Do(q, Cancel(id)), run).1
  {
    DoKeeps(q, Cancel(id), [], false);
    GoneForGood(Do(q, Cancel(id)), run, id);
  }

  // The flaw in ordering timers by time alone.

  lemma RestartExpiry(q: Queue, e: Entry, now: int)
    ensures var q' := Restart(q, e, now);
      && q'.live.Keys == q.live.Keys
      && (Survivor(q, e) ==> q'.live[e.id].expiration == Again(q, e, now))
      && forall id :: id in q.live && id != e.id ==> q'.live[id] == q.live[id]
  {
  }

  lemma {:induction false} RestartAllSkips(q: Queue, batch: seq<Entry>, now: int, id: nat)
    requires id in q.live && forall i :: 0 <= i < |batch| ==> batch[i].id != id
    ensures id in RestartAll(q, batch, now).live && RestartAll(q, batch, now).live[id] == q.live[id]
    decreases |batch|
  {
    if batch == [] {
    } else {
      RestartExpiry(q, batch[0], now);
      hide Restart;
      RestartAllSkips(Restart(q, batch[0], now), batch[1..], now, id);
    }
  }

  lemma {:induction false} RestartAllExpiry(q: Queue, batch: seq<Entry>, now: int, k: nat)
    requires forall i, j :: 0 <= i < j < |batch| ==> batch[i].id != batch[j].id
    requires k < |batch| && Survivor(q, batch[k])
    ensures var q' := RestartAll(q, batch, now);
      batch[k].id in q'.live && q'.live[batch[k].id].expiration == Again(q, batch[k], now)
    decreases |batch|
  {
    RestartExpiry(q, batch[0], now);
    hide Restart;
    var q1 := Restart(q, batch[0], now);
    if k == 0 {
      RestartAllSkips(q1, batch[1..], now, batch[0].id);
    } else {
      RestartAllExpiry(q1, batch[1..], now, k - 1);
    }
  }

  /** Two entries whose timers are due at the same time are not both queued. */
  lemma SameTimeNotBoth(q: Queue, a: nat, b: nat)
    requires Sound(q) && a != b && a in q.live && b in q.live && q.live[a].expiration == q.live[b].expiration
    ensures !Queued(q, a) || !Queued(q, b)
  {
  }

  /** Two repeating timers of the same interval that come due in one batch get the same new time: at least one of
      them is refused by the set, and although it is still held it never runs again. */
  lemma EqualIntervalsLoseATimer(q: Queue, now: int, calls: nat -> seq<Action>, i: nat, j: nat, run: seq<Event>)
    requires Sound(q) && now > 0 && Possible(run)
    requires var (q1, ran) := CallbacksRun(q, now, calls);
      && i < j < |ran| && Survivor(q1, ran[i]) && Survivor(q1, ran[j])
      && q1.live[ran[i].id].interval == q1.live[ran[j].id].interval
    ensures var (q', ran) := HandleRead(q, now, calls);
      exists e :: e in {ran[i], ran[j]} && e.id in q'.live && Gone(q', e.id) && e.id !in After(q', run).1
  {
    CallbacksKeep(q, now, calls);
    var (q1, ran) := CallbacksRun(q, now, calls);
    RestartAllExpiry(q1, ran, now, i);
    RestartAllExpiry(q1, ran, now, j);
    HandleReadKeeps(q, now, calls);
    var q' := HandleRead(q, now, calls).0;
    assert q'.live == RestartAll(q1, ran, now).live;
    hide HandleRead, CallbacksRun, RestartAll, Awaited, Apart, Due;
    var x, y := ran[i], ran[j];
    assert x in ran && y in ran;
    SameTimeNotBoth(q', x.id, y.id);
    hide Queued;
    var e := if Queued(q', x.id) then y else x;
    assert Gone(q', e.id) by {
      assert e.id < q'.next by { assert e.id in q'.live; }
    }
    hide Sound;
    GoneForGood(q', run, e.id);
  }

  lemma {:induction false} NoActionsBatch(q: Queue, batch: seq<Entry>)
    requires forall e :: e in batch ==> e.id in q.live
    ensures RunBatch(q, batch, NoActions) == (q, batch)
    decreases |batch|
  {
    if batch == [] {
    } else {
      NoActionsBatch(q, batch[1..]);
      assert [batch[0]] + batch[1..] == batch;
    }
  }

  /** Two repeating timers set a microsecond apart. */
  function TwoTimers(): Queue {
    Queue([Entry(1, 0), Entry(2, 1)], map[0 := Timer(1, 10, true), 1 := Timer(2, 10, true)], At(1), 2)
  }

  lemma BothRun()
    ensures CallbacksRun(TwoTimers(), 5, NoActions) ==
      (TwoTimers().(timers := [], target := Unarmed), TwoTimers().timers)
  {
    var q := TwoTimers();
    DueExact(q.timers, 5);
    assert q.timers[..2] == q.timers && q.timers[2..] == [];
    NoActionsBatch(q.(timers := [], target := Unarmed), q.timers);
  }

  lemma OneReturns(q: Queue)
    requires q == TwoTimers().(timers := [], target := Unarmed)
    ensures var q' := RestartAll(q, TwoTimers().timers, 5);
      q'.timers == [Entry(15, 0)] && q'.live.Keys == {0, 1}
  {
    var batch := TwoTimers().timers;
    assert batch[1..] == [Entry(2, 1)];
    var q1 := Restart(q, batch[0], 5);
    assert q1.timers == [Entry(15, 0)] && q1.live[1] == Timer(2, 10, true);
    assert RestartAll(q1, [Entry(2, 1)], 5) == Restart(q1, Entry(2, 1), 5);
  }

  lemma TwoTimersSound()
    ensures Sound(TwoTimers()) && Awaited(TwoTimers(), false)
  {
  }

  lemma ArmsHeld(q: Queue, e: Entry)
    requires q.timers == [e] && e.id in q.live
    ensures Arm(q).timers == [e] && Arm(q).live == q.live
  {
  }

  /** It happens: both timers run, one is queued again, and the other is not although it is still held. */
  lemma EqualIntervalsClash()
    ensures var (q', ran) := HandleRead(TwoTimers(), 5, NoActions);
      Ids(ran) == [0, 1] && q'.timers == [Entry(15, 0)] && 1 in q'.live && Gone(q', 1)
  {
    BothRun();
    var q := TwoTimers().(timers := [], target := Unarmed);
    OneReturns(q);
    ArmsHeld(RestartAll(q, TwoTimers().timers, 5), Entry(15, 0));
    TwoTimersSound();
    HandleReadKeeps(TwoTimers(), 5, NoActions);
    hide CallbacksRun, RestartAll, Sound, Awaited, Arm;
  }
}
