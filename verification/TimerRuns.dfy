/** The life of one timer, from the call that adds it, over whole runs: it keeps the terms it was added with, waits for
    its time, runs when that has passed, and comes back one interval later. */
module TimerRuns {
  import opened TimerQueue

  // A timer keeps its terms.

  /** Timer id, if it is still held in live', has the interval it had in live, and repeats if it did. */
  predicate KeepsTerms(live: map<nat, Timer>, live': map<nat, Timer>, id: nat) {
    id in live' ==> id in live && live'[id].interval == live[id].interval && live'[id].repeat == live[id].repeat
  }

  lemma {:induction false} DoAllTerms(q: Queue, acts: seq<Action>, id: nat)
    requires id < q.next
    ensures DoAll(q, acts).next >= q.next && KeepsTerms(q.live, DoAll(q, acts).live, id)
    decreases |acts|
  {
    if acts == [] {
    } else {
      DoAllTerms(Do(q, acts[0]), acts[1..], id);
      hide Place;
    }
  }

  lemma {:induction false} RunBatchTerms(q: Queue, batch: seq<Entry>, calls: nat -> seq<Action>, id: nat)
    requires id < q.next
    ensures RunBatch(q, batch, calls).0.next >= q.next && KeepsTerms(q.live, RunBatch(q, batch, calls).0.live, id)
    decreases |batch|
  {
    hide DoAll;
    if batch == [] {
    } else if batch[0].id in q.live {
      DoAllTerms(q, calls(batch[0].id), id);
      RunBatchTerms(DoAll(q, calls(batch[0].id)), batch[1..], calls, id);
    } else {
      RunBatchTerms(q, batch[1..], calls, id);
    }
  }

  lemma {:induction false} RestartAllTerms(q: Queue, batch: seq<Entry>, now: int, id: nat)
    ensures RestartAll(q, batch, now).next == q.next && KeepsTerms(q.live, RestartAll(q, batch, now).live, id)
    decreases |batch|
  {
    hide Place;
    if batch == [] {
    } else {
      RestartAllTerms(Restart(q, batch[0], now), batch[1..], now, id);
    }
  }

  lemma ApplyTerms(q: Queue, e: Event, id: nat)
    requires id < q.next
    ensures Apply(q, e).0.next >= q.next && KeepsTerms(q.live, Apply(q, e).0.live, id)
  {
    match e
    case Call(a) => hide Place;
    case Expire(now, calls) =>
      var k := Due(q.timers, now);
      var q0 := q.(timers := q.timers[k..], target := Unarmed);
      RunBatchTerms(q0, q.timers[..k], calls, id);
      var (q1, ran) := RunBatch(q0, q.timers[..k], calls);
      RestartAllTerms(q1, ran, now, id);
      hide RunBatch, RestartAll, DropDead, Due;
  }

  lemma {:induction false} AfterTerms(q: Queue, run: seq<Event>, id: nat)
    requires id < q.next
    ensures After(q, run).0.next >= q.next && KeepsTerms(q.live, After(q, run).0.live, id)
    decreases |run|
  {
    if run == [] {
    } else {
      ApplyTerms(q, run[0], id);
      hide Apply;
      AfterTerms(Apply(q, run[0]).0, run[1..], id);
    }
  }

  /** In every run a timer that is still held repeats, and at the interval, as asked for when it was added. */
  lemma AddedKeepsTerms(q: Queue, when: int, interval: nat, repeat: bool, run: seq<Event>)
    ensures var end := After(Do(q, Add(when, interval, repeat)), run).0;
      q.next in end.live ==> end.live[q.next].interval == interval && end.live[q.next].repeat == repeat
  {
    AfterTerms(Do(q, Add(when, interval, repeat)), run, q.next);
    hide Place, After;
  }

  // A timer waits for its time.

  /** Timer id is held and queued for time w. */
  predicate Waits(q: Queue, id: nat, w: int) { id in q.live && Entry(w, id) in q.timers }

  /** A new timer waits for the time it was added with, if and only if no entry has that time. */
  lemma AddedWaits(q: Queue, when: int, interval: nat, repeat: bool)
    requires Sound(q)
    ensures var q' := Do(q, Add(when, interval, repeat));
      && q'.next == q.next + 1 && q.next in q'.live
      && if HasTime(q.timers, when) then Gone(q', q.next) else Waits(q', q.next, when)
  {
    PlaceExact(q.timers, Entry(when, q.next));
  }

  lemma QueuedAt(q: Queue, id: nat, w: int)
    requires Sound(q) && Entry(w, id) in q.timers
    ensures forall x :: x in q.timers && x.id == id ==> x == Entry(w, id)
  {
  }


  /** Entries of older timers keep their times while callbacks run. */
  lemma {:induction false} DoAllEntries(q: Queue, acts: seq<Action>, x: Entry)
    requires Sound(q) && Awaited(q, true) && x in q.timers
    ensures x in DoAll(q, acts).timers
    decreases |acts|
  {
    if acts == [] {
    } else {
      DoKeeps(q, acts[0], [], true);
      if acts[0].Add? {
        PlaceExact(q.timers, Entry(acts[0].when, q.next));
      }
      hide Sound, Awaited, HasTime, Place;
      DoAllEntries(Do(q, acts[0]), acts[1..], x);
    }
  }

  lemma {:induction false} EntryStays(q: Queue, batch: seq<Entry>, calls: nat -> seq<Action>, id: nat, w: int)
    requires Sound(q) && Awaited(q, true) && Apart(q, batch) && Entry(w, id) in q.timers
    ensures Entry(w, id) in RunBatch(q, batch, calls).0.timers
    ensures forall e :: e in RunBatch(q, batch, calls).1 ==> e.id != id
    decreases |batch|
  {
    if batch == [] {
    } else {
      assert Queued(q, id) && batch[0] in batch;
      FirstTurn(q, batch, calls);
      var q1 := AfterFirst(q, batch, calls);
      if batch[0].id in q.live {
        DoAllEntries(q, calls(batch[0].id), Entry(w, id));
      }
      hide Sound, Awaited, Apart, Queued, DoAll;
      EntryStays(q1, batch[1..], calls, id, w);
    }
  }

  /** The queue when a batch has been split off and the timerfd has fired. */
  function Split(q: Queue, now: int): Queue {
    q.(timers := q.timers[Due(q.timers, now)..], target := Unarmed)
  }

  lemma InIds(s: seq<Entry>, id: nat)
    ensures id in Ids(s) <==> exists e :: e in s && e.id == id
  {
    if id in Ids(s) {
      var i :| 0 <= i < |Ids(s)| && Ids(s)[i] == id;
      assert s[i] in s;
    }
    if e :| e in s && e.id == id {
      var i :| 0 <= i < |s| && s[i] == e;
      assert Ids(s)[i] == id;
    }
  }

  /** Restarting a batch and arming the timerfd takes no held timer out of the queue, and puts none in that is neither
      there nor in the batch. */
  lemma RestartedAndArmed(q: Queue, ran: seq<Entry>, now: int)
    requires Sound(q) && Awaited(q, true) && Apart(q, ran) && now > 0
    ensures var q' := Arm(RestartAll(q, ran, now));
      && q'.live.Keys == q.live.Keys && q'.next == q.next
      && (forall x :: x in q.timers && x.id in q.live ==> x in q'.timers)
      && (forall x :: x in RestartAll(q, ran, now).timers && x.id in q.live ==> x in q'.timers)
      && forall x :: x in q'.timers ==> x in RestartAll(q, ran, now).timers
  {
    RestartAllKeeps(q, ran, now);
    var q2 := RestartAll(q, ran, now);
    DropDeadExact(q2.timers, q2.live);
    hide Sound, Awaited, Apart, RestartAll, DropDead;
  }

  lemma NotSplitOff(s: seq<Entry>, now: int, x: Entry)
    requires Ascending(s) && x in s && now <= x.when
    ensures x in s[Due(s, now)..]
  {
    DueExact(s, now);
    hide Due, Ascending;
    var i :| 0 <= i < |s| && s[i] == x;
    assert s[Due(s, now)..][i - Due(s, now)] == x;
  }

  /** While the callbacks of due timers run, a timer whose time has not passed stays queued. */
  lemma StaysBehind(q: Queue, now: int, calls: nat -> seq<Action>, id: nat, w: int)
    requires Sound(q) && now > 0 && now <= w && Waits(q, id, w)
    ensures var (q1, ran) := CallbacksRun(q, now, calls);
      Entry(w, id) in q1.timers && forall e :: e in ran ==> e.id != id
  {
    SplitKeeps(q, now);
    NotSplitOff(q.timers, now, Entry(w, id));
    hide Sound, Awaited, Apart, RunBatch, Due;
    EntryStays(Split(q, now), q.timers[..Due(q.timers, now)], calls, id, w);
  }

  /** A timer whose time has not passed does not run, and if it is still held afterwards it waits as before. */
  lemma NotDueWaits(q: Queue, now: int, calls: nat -> seq<Action>, id: nat, w: int)
    requires Sound(q) && now > 0 && now <= w && Waits(q, id, w)
    ensures var (q', ran) := HandleRead(q, now, calls);
      id !in Ids(ran) && (id in q'.live ==> Waits(q', id, w))
  {
    StaysBehind(q, now, calls, id, w);
    CallbacksKeep(q, now, calls);
    var (q1, ran) := CallbacksRun(q, now, calls);
    hide Sound, Awaited, Apart, CallbacksRun, RestartAll, Arm, Ids;
    RestartedAndArmed(q1, ran, now);
    InIds(ran, id);
  }

  /** A timer whose time has passed runs, unless a callback run before it in the batch cancels it. */
  lemma RunsWhenDue(q: Queue, now: int, calls: nat -> seq<Action>, id: nat, w: int) returns (j: nat)
    requires Sound(q) && now > 0 && w < now && Waits(q, id, w)
    ensures j < |q.timers| && q.timers[j] == Entry(w, id)
    ensures var ran := HandleRead(q, now, calls).1;
      id in Ids(ran) <==> Uncancelled(q.timers, ran, calls, j)
  {
    j :| 0 <= j < |q.timers| && q.timers[j] == Entry(w, id);
    DueTimersRun(q, now, calls);
    CallbacksKeep(q, now, calls);
    var ran := HandleRead(q, now, calls).1;
    assert ran == CallbacksRun(q, now, calls).1;
    QueuedAt(q, id, w);
    InIds(ran, id);
    hide HandleRead, CallbacksRun, Sound, Awaited, Apart, Uncancelled, Ids;
  }

  // A timer comes back.

  /** At the restart of the k-th timer of a batch its new time is free: it is not queued already, and no earlier timer
      of the batch has the same interval. */
  ghost predicate Unclashed(q: Queue, batch: seq<Entry>, now: int, k: nat)
    requires k < |batch|
  {
    Free(q, batch[k], now) && forall j :: 0 <= j < k ==> Differ(q, batch[j], batch[k])
  }

  lemma UnclashedFirst(q: Queue, batch: seq<Entry>, now: int, k: nat)
    requires Sound(q) && Apart(q, batch) && 0 < k < |batch|
    ensures Unclashed(q, batch, now, k) <==> Unclashed(Restart(q, batch[0], now), batch[1..], now, k - 1)
  {
    var rest, q1 := batch[1..], Restart(q, batch[0], now);
    RestartMeets(q, batch, now, k);
    forall j | 0 < j < k
      ensures batch[j] == rest[j - 1] && (Differ(q1, rest[j - 1], rest[k - 1]) <==> Differ(q, batch[j], batch[k]))
    {
      RestartMeets(q, batch, now, j);
    }
    hide Sound, Apart, Free, Differ, Restart;
    assert rest[k - 1] == batch[k] && forall j :: 0 <= j < k - 1 ==> rest[j] == batch[j + 1];
  }

  /** Of a batch, a surviving timer is queued again if and only if its new time is free at its restart. */
  lemma {:induction false} BackIffUnclashed(q: Queue, batch: seq<Entry>, now: int, k: nat)
    requires Sound(q) && Awaited(q, true) && Apart(q, batch) && now > 0 && k < |batch| && Survivor(q, batch[k])
    ensures Entry(Again(q, batch[k], now), batch[k].id) in RestartAll(q, batch, now).timers
      <==> Unclashed(q, batch, now, k)
    decreases |batch|
  {
    if k == 0 {
      FirstBack(q, batch, now);
    } else {
      RestartKeeps(q, batch, now);
      RestartMeets(q, batch, now, k);
      UnclashedFirst(q, batch, now, k);
      hide Sound, Awaited, Apart, Unclashed, Restart;
      BackIffUnclashed(Restart(q, batch[0], now), batch[1..], now, k - 1);
    }
  }

  /** What restarting makes of the k-th timer of a batch: queued for its new time, or not queued. */
  lemma {:induction false} OnlyBack(q: Queue, batch: seq<Entry>, now: int, id: nat)
    requires Sound(q) && Awaited(q, true) && Apart(q, batch) && now > 0 && !Queued(q, id) && id in q.live
    ensures forall x :: x in RestartAll(q, batch, now).timers && x.id == id ==>
      q.live[id].repeat && x.when == now + q.live[id].interval
    decreases |batch|
  {
    if batch == [] {
    } else {
      RestartKeeps(q, batch, now);
      var q1 := Restart(q, batch[0], now);
      if batch[0].id == id {
        FirstRuns(batch, [], batch[1..], NoActions);
        if Survivor(q, batch[0]) {
          PlaceExact(q.timers, Entry(Again(q, batch[0], now), id));
        }
        RestartAllKeeps(q1, batch[1..], now);
        OthersBack(q1, batch[1..], now, id);
      } else {
        hide Sound, Awaited, Apart, Restart;
        OnlyBack(q1, batch[1..], now, id);
      }
    }
  }

  lemma OthersBack(q: Queue, batch: seq<Entry>, now: int, id: nat)
    requires Sound(q) && Awaited(q, true) && Apart(q, batch) && now > 0 && forall e :: e in batch ==> e.id != id
    ensures forall x :: x in RestartAll(q, batch, now).timers && x.id == id ==> x in q.timers
  {
    RestartAllKeeps(q, batch, now);
  }

  lemma WaitsOrGone(q: Queue, before: seq<Entry>, x: Entry, back: bool)
    requires x.id in q.live && x.id < q.next && (back ==> x in before) && (x in before ==> x in q.timers)
    requires forall y :: y in q.timers ==> y in before
    requires forall y :: y in before && y.id == x.id ==> y == x && back
    ensures if back then Waits(q, x.id, x.when) else Gone(q, x.id)
  {
  }

  predicate ComesBack(q: Queue, ran: seq<Entry>, now: int, k: nat, s: seq<Entry>)
    requires k < |ran| && ran[k].id in q.live
  {
    Entry(now + q.live[ran[k].id].interval, ran[k].id) in s
  }

  lemma ComesBackMeans(q: Queue, ran: seq<Entry>, now: int, k: nat, s: seq<Entry>)
    requires k < |ran| && ran[k].id in q.live
    ensures ComesBack(q, ran, now, k, s) <==> Entry(now + q.live[ran[k].id].interval, ran[k].id) in s
  {
  }

  lemma RestartedOnce(q: Queue, ran: seq<Entry>, now: int, k: nat, y: Entry)
    requires Sound(q) && Awaited(q, true) && Apart(q, ran) && now > 0 && k < |ran| && ran[k].id in q.live
    ensures ComesBack(q, ran, now, k, RestartAll(q, ran, now).timers) <==>
      q.live[ran[k].id].repeat && Unclashed(q, ran, now, k)
    ensures y in RestartAll(q, ran, now).timers && y.id == ran[k].id ==> y.when == now + q.live[ran[k].id].interval
  {
    assert ran[k] in ran;
    OnlyBack(q, ran, now, ran[k].id);
    if Survivor(q, ran[k]) {
      BackIffUnclashed(q, ran, now, k);
    }
    hide Sound, Awaited, Apart, RestartAll, Unclashed, Restart;
  }

  lemma RestartReturns(q: Queue, ran: seq<Entry>, now: int, k: nat)
    requires Sound(q) && Awaited(q, true) && Apart(q, ran) && now > 0 && k < |ran| && ran[k].id in q.live
    ensures var q', id, t := Arm(RestartAll(q, ran, now)), ran[k].id, q.live[ran[k].id];
      && id in q'.live
      && if t.repeat && Unclashed(q, ran, now, k) then Waits(q', id, now + t.interval) else Gone(q', id)
  {
    var id, before := ran[k].id, RestartAll(q, ran, now).timers;
    var x, back := Entry(now + q.live[id].interval, id), ComesBack(q, ran, now, k, before);
    assert id < q.next;
    hide *;
    RestartedAndArmed(q, ran, now);
    RestartedOnce(q, ran, now, k, x);
    forall y | y in before && y.id == id ensures y == x {
      RestartedOnce(q, ran, now, k, y);
    }
    ComesBackMeans(q, ran, now, k, before);
    WaitsOrGone(Arm(RestartAll(q, ran, now)), before, x, back);
  }

  /** A timer that has run and is still held waits for now plus its interval if it repeats and that time is free, and is
      gone otherwise. */
  lemma RanReturns(q: Queue, now: int, calls: nat -> seq<Action>, q1: Queue, ran: seq<Entry>, k: nat)
    requires Sound(q) && now > 0 && (q1, ran) == CallbacksRun(q, now, calls) && k < |ran| && ran[k].id in q1.live
    ensures var q', id, t := HandleRead(q, now, calls).0, ran[k].id, q1.live[ran[k].id];
      && id in q'.live
      && if t.repeat && Unclashed(q1, ran, now, k) then Waits(q', id, now + t.interval) else Gone(q', id)
  {
    CallbacksKeep(q, now, calls);
    RestartReturns(q1, ran, now, k);
    hide CallbacksRun, Sound, Awaited, Apart, Arm, RestartAll, Unclashed, Gone, Waits;
  }

  lemma BatchTerms(q: Queue, now: int, calls: nat -> seq<Action>, id: nat)
    requires id < q.next
    ensures KeepsTerms(q.live, CallbacksRun(q, now, calls).0.live, id)
  {
    hide RunBatch, Due;
    RunBatchTerms(Split(q, now), q.timers[..Due(q.timers, now)], calls, id);
  }

  lemma ReturnsOnTerms(q: Queue, now: int, calls: nat -> seq<Action>, q1: Queue, ran: seq<Entry>, k: nat,
                       id: nat, interval: nat, repeat: bool)
    requires Sound(q) && now > 0 && (q1, ran) == CallbacksRun(q, now, calls) && k < |ran| && ran[k].id == id < q.next
    requires id in q.live ==> q.live[id].interval == interval && q.live[id].repeat == repeat
    requires id in q1.live
    ensures var q' := HandleRead(q, now, calls).0;
      if repeat && Unclashed(q1, ran, now, k) then Waits(q', id, now + interval) else Gone(q', id)
  {
    hide Sound, CallbacksRun, HandleRead, Unclashed, Gone, Waits;
    BatchTerms(q, now, calls, id);
    RanReturns(q, now, calls, q1, ran, k);
  }

  /** Over runs: a timer added to repeat at an interval, at any later time at which it has run and is still held, is
      queued for one interval from then, if and only if that time is free. */
  lemma AddedReturns(q: Queue, when: int, interval: nat, repeat: bool, run: seq<Event>,
                     now: int, calls: nat -> seq<Action>, q1: Queue, ran: seq<Entry>, k: nat)
    requires Sound(q) && Awaited(q, false) && Possible(run) && now > 0
    requires (q1, ran) == CallbacksRun(After(Do(q, Add(when, interval, repeat)), run).0, now, calls)
    requires k < |ran| && ran[k].id == q.next && q.next in q1.live
    ensures var q' := HandleRead(After(Do(q, Add(when, interval, repeat)), run).0, now, calls).0;
      if repeat && Unclashed(q1, ran, now, k) then Waits(q', q.next, now + interval) else Gone(q', q.next)
  {
    var start := Do(q, Add(when, interval, repeat));
    DoKeeps(q, Add(when, interval, repeat), [], false);
    assert start.next == q.next + 1;
    hide *;
    NeverForgotten(start, run);
    AddedKeepsTerms(q, when, interval, repeat, run);
    AfterTerms(start, run, q.next);
    ReturnsOnTerms(After(start, run).0, now, calls, q1, ran, k, q.next, interval, repeat);
  }

  // The times at which a timer runs.

  /** The times of the calls of handleRead in which timer id ran. */
  ghost function RanAt(q: Queue, run: seq<Event>, id: nat): seq<int>
    decreases |run|
  {
    if run == [] then []
    else
      var (q1, ran) := Apply(q, run[0]);
      (if run[0].Expire? && id in ran then [run[0].now] else []) + RanAt(q1, run[1..], id)
  }

  /** The times of the calls of handleRead at which a timer set for w should run: the first after w, then each first one
      after a further interval. */
  ghost function Schedule(run: seq<Event>, w: int, interval: nat, repeat: bool): seq<int>
    decreases |run|
  {
    if run == [] then []
    else if run[0].Expire? && w < run[0].now then
      [run[0].now] + if repeat then Schedule(run[1..], run[0].now + interval, interval, repeat) else []
    else Schedule(run[1..], w, interval, repeat)
  }

  ghost predicate Cancels(e: Event, id: nat) {
    match e
    case Call(a) => a == Cancel(id)
    case Expire(_, calls) => exists x :: Cancel(id) in calls(x)
  }

  /** In the event the restart of timer id, if there is one, finds its new time free. */
  ghost predicate Restartable(q: Queue, e: Event, id: nat) {
    e.Expire? ==>
      var (q1, ran) := CallbacksRun(q, e.now, e.calls);
      forall k :: 0 <= k < |ran| && ran[k].id == id ==> Unclashed(q1, ran, e.now, k)
  }

  /** Nobody cancels timer id, and its times are free. */
  ghost predicate Undisturbed(q: Queue, run: seq<Event>, id: nat)
    decreases |run|
  {
    run == [] || (!Cancels(run[0], id) && Restartable(q, run[0], id) && Undisturbed(Apply(q, run[0]).0, run[1..], id))
  }

  lemma {:induction false} DoAllHolds(q: Queue, acts: seq<Action>, id: nat)
    requires id in q.live && Cancel(id) !in acts
    ensures id in DoAll(q, acts).live
    decreases |acts|
  {
    if acts == [] {
    } else {
      hide Place;
      DoAllHolds(Do(q, acts[0]), acts[1..], id);
    }
  }

  lemma {:induction false} RunBatchHolds(q: Queue, batch: seq<Entry>, calls: nat -> seq<Action>, id: nat)
    requires id in q.live && forall x :: Cancel(id) !in calls(x)
    ensures id in RunBatch(q, batch, calls).0.live
    decreases |batch|
  {
    hide DoAll;
    if batch == [] {
    } else if batch[0].id in q.live {
      DoAllHolds(q, calls(batch[0].id), id);
      RunBatchHolds(DoAll(q, calls(batch[0].id)), batch[1..], calls, id);
    } else {
      RunBatchHolds(q, batch[1..], calls, id);
    }
  }

  /** Timer id waits for w on the given terms. */
  predicate OnTerms(q: Queue, id: nat, w: int, interval: nat, repeat: bool) {
    Waits(q, id, w) && q.live[id].interval == interval && q.live[id].repeat == repeat
  }

  lemma CallOnSchedule(q: Queue, a: Action, id: nat, w: int)
    requires Sound(q) && Waits(q, id, w) && a != Cancel(id)
    ensures Waits(Do(q, a), id, w)
  {
    if a.Add? {
      PlaceExact(q.timers, Entry(a.when, q.next));
    }
  }

  lemma HeldThroughout(q: Queue, now: int, calls: nat -> seq<Action>, id: nat)
    requires Sound(q) && now > 0 && id in q.live && forall x :: Cancel(id) !in calls(x)
    ensures id in CallbacksRun(q, now, calls).0.live && id in HandleRead(q, now, calls).0.live
  {
    RunBatchHolds(Split(q, now), q.timers[..Due(q.timers, now)], calls, id);
    CallbacksKeep(q, now, calls);
    var (q1, ran) := CallbacksRun(q, now, calls);
    RestartAllKeeps(q1, ran, now);
    hide Sound, Awaited, Apart, RestartAll, RunBatch, Due, DropDead;
  }

  lemma DueOnSchedule(q: Queue, now: int, calls: nat -> seq<Action>, id: nat, w: int)
    requires Sound(q) && now > 0 && w < now && Waits(q, id, w) && forall x :: Cancel(id) !in calls(x)
    requires Restartable(q, Expire(now, calls), id)
    ensures var (q', ran) := HandleRead(q, now, calls);
      && id in Ids(ran)
      && if q.live[id].repeat then Waits(q', id, now + q.live[id].interval) else Gone(q', id)
  {
    var j := RunsWhenDue(q, now, calls, id, w);
    HeldThroughout(q, now, calls, id);
    var (q1, ran) := CallbacksRun(q, now, calls);
    assert id < q.next;
    BatchTerms(q, now, calls, id);
    InIds(ran, id);
    assert HandleRead(q, now, calls).1 == ran;
    hide Sound, HandleRead, CallbacksRun, Ids, Unclashed, Gone, Waits;
    var k :| 0 <= k < |ran| && ran[k].id == id;
    RanReturns(q, now, calls, q1, ran, k);
  }

  predicate DueIn(e: Event, w: int) { e.Expire? && w < e.now }

  /** An event in which the timer is not due: it does not run, and waits as before. */
  lemma StepNotDue(q: Queue, e: Event, id: nat, w: int, interval: nat, repeat: bool)
    requires Sound(q) && OnTerms(q, id, w, interval, repeat) && (e.Expire? ==> e.now > 0)
    requires !Cancels(e, id) && !DueIn(e, w)
    ensures id !in Apply(q, e).1 && OnTerms(Apply(q, e).0, id, w, interval, repeat)
  {
    assert id < q.next;
    ApplyTerms(q, e, id);
    match e
    case Call(a) => CallOnSchedule(q, a, id, w);
    case Expire(now, calls) =>
      NotDueWaits(q, now, calls, id, w);
      HeldThroughout(q, now, calls, id);
      hide Sound, HandleRead, CallbacksRun;
  }

  /** An event in which it is due: it runs, and comes back one interval later or never. */
  lemma StepDue(q: Queue, e: Event, id: nat, w: int, interval: nat, repeat: bool)
    requires Sound(q) && OnTerms(q, id, w, interval, repeat) && (e.Expire? ==> e.now > 0)
    requires !Cancels(e, id) && Restartable(q, e, id) && DueIn(e, w)
    ensures var (q', ran) := Apply(q, e);
      id in ran && if repeat then OnTerms(q', id, e.now + interval, interval, repeat) else Gone(q', id)
  {
    assert id < q.next;
    ApplyTerms(q, e, id);
    DueOnSchedule(q, e.now, e.calls, id, w);
    hide Sound, HandleRead, CallbacksRun, Restartable, Gone;
  }

  lemma ApplyKeeps(q: Queue, e: Event)
    requires Sound(q) && Awaited(q, false) && (e.Expire? ==> e.now > 0)
    ensures Sound(Apply(q, e).0) && Awaited(Apply(q, e).0, false)
  {
    match e
    case Call(a) => DoKeeps(q, a, [], false);
    case Expire(now, calls) => HandleReadKeeps(q, now, calls);
  }

  lemma {:induction false} GoneRunsAtNone(q: Queue, run: seq<Event>, id: nat)
    requires Sound(q) && Awaited(q, false) && Possible(run) && Gone(q, id)
    ensures RanAt(q, run, id) == []
    decreases |run|
  {
    if run == [] {
    } else {
      PossibleRest(run);
      hide Sound, Awaited, Gone, Apply;
      GoneForGood(q, [run[0]], id);
      GoneOnce(q, run[0], id);
      ApplyKeeps(q, run[0]);
      GoneRunsAtNone(Apply(q, run[0]).0, run[1..], id);
    }
  }

  lemma GoneOnce(q: Queue, e: Event, id: nat)
    requires Gone(After(q, [e]).0, id) && id !in After(q, [e]).1
    ensures Gone(Apply(q, e).0, id) && id !in Apply(q, e).1
  {
    var (q1, ran) := Apply(q, e);
    hide Apply, Gone;
    assert After(q1, []) == (q1, []) && ran + [] == ran;
  }

  lemma PossibleRest(run: seq<Event>)
    requires Possible(run) && run != []
    ensures Possible(run[1..]) && (run[0].Expire? ==> run[0].now > 0)
  {
    assert run[0] in run;
  }

  lemma UndisturbedRest(q: Queue, run: seq<Event>, id: nat)
    requires Undisturbed(q, run, id) && run != []
    ensures !Cancels(run[0], id) && Restartable(q, run[0], id) && Undisturbed(Apply(q, run[0]).0, run[1..], id)
  {
    hide Cancels, Restartable, Apply;
  }

  lemma NotDueFirst(q: Queue, run: seq<Event>, id: nat, w: int, interval: nat, repeat: bool)
    requires run != [] && !DueIn(run[0], w) && id !in Apply(q, run[0]).1
    requires RanAt(Apply(q, run[0]).0, run[1..], id) == Schedule(run[1..], w, interval, repeat)
    ensures RanAt(q, run, id) == Schedule(run, w, interval, repeat)
  {
    hide Apply;
  }

  lemma DueFirst(q: Queue, run: seq<Event>, id: nat, w: int, interval: nat, repeat: bool)
    requires run != [] && DueIn(run[0], w) && id in Apply(q, run[0]).1
    requires RanAt(Apply(q, run[0]).0, run[1..], id) ==
      if repeat then Schedule(run[1..], run[0].now + interval, interval, repeat) else []
    ensures RanAt(q, run, id) == Schedule(run, w, interval, repeat)
  {
    hide Apply;
  }

  lemma {:induction false} WaitingRunsOnSchedule(q: Queue, run: seq<Event>, id: nat, w: int,
                                                 interval: nat, repeat: bool)
    requires Sound(q) && Awaited(q, false) && Possible(run)
    requires OnTerms(q, id, w, interval, repeat) && Undisturbed(q, run, id)
    ensures RanAt(q, run, id) == Schedule(run, w, interval, repeat)
    decreases |run|
  {
    if run == [] {
    } else {
      var e, q1, rest := run[0], Apply(q, run[0]).0, run[1..];
      hide *;
      PossibleRest(run);
      UndisturbedRest(q, run, id);
      ApplyKeeps(q, e);
      if !DueIn(e, w) {
        StepNotDue(q, e, id, w, interval, repeat);
        WaitingRunsOnSchedule(q1, rest, id, w, interval, repeat);
        NotDueFirst(q, run, id, w, interval, repeat);
      } else {
        StepDue(q, e, id, w, interval, repeat);
        if repeat {
          WaitingRunsOnSchedule(q1, rest, id, e.now + interval, interval, repeat);
        } else {
          GoneRunsAtNone(q1, rest, id);
        }
        DueFirst(q, run, id, w, interval, repeat);
      }
    }
  }

  /** A timer that nobody cancels and whose times are free runs exactly on the schedule it was added with: at the first
      call of handleRead after `when`, and, if it was to repeat, at each first one after a further interval. */
  lemma RunsOnSchedule(q: Queue, when: int, interval: nat, repeat: bool, run: seq<Event>)
    requires Sound(q) && Awaited(q, false) && Possible(run) && !HasTime(q.timers, when)
    requires Undisturbed(Do(q, Add(when, interval, repeat)), run, q.next)
    ensures RanAt(Do(q, Add(when, interval, repeat)), run, q.next) == Schedule(run, when, interval, repeat)
  {
    DoKeeps(q, Add(when, interval, repeat), [], false);
    AddedWaits(q, when, interval, repeat);
    hide Place, Undisturbed, Awaited, Sound;
    WaitingRunsOnSchedule(Do(q, Add(when, interval, repeat)), run, q.next, when, interval, repeat);
  }

  // The order of a batch.

  lemma AscendingRest(s: seq<Entry>)
    requires Ascending(s) && s != []
    ensures Ascending(s[1..]) && forall e :: e in s[1..] ==> e in s && s[0].when < e.when
  {
    assert forall i :: 0 <= i < |s[1..]| ==> s[1..][i] == s[i + 1];
  }

  lemma AscendingMore(x: Entry, s: seq<Entry>)
    requires Ascending(s) && forall e :: e in s ==> x.when < e.when
    ensures Ascending([x] + s)
  {
    assert forall i :: 0 < i < |[x] + s| ==> ([x] + s)[i] == s[i - 1];
  }

  lemma {:induction false} RunBatchAscends(q: Queue, batch: seq<Entry>, calls: nat -> seq<Action>)
    requires Ascending(batch)
    ensures Ascending(RunBatch(q, batch, calls).1) && forall e :: e in RunBatch(q, batch, calls).1 ==> e in batch
    decreases |batch|
  {
    if batch == [] {
    } else {
      var q1 := if batch[0].id in q.live then DoAll(q, calls(batch[0].id)) else q;
      AscendingRest(batch);
      hide Ascending, DoAll;
      RunBatchAscends(q1, batch[1..], calls);
      AscendingMore(batch[0], RunBatch(q1, batch[1..], calls).1);
    }
  }

  /** Timers of one batch run in the order of their times. */
  lemma RunInOrder(q: Queue, now: int, calls: nat -> seq<Action>)
    requires Sound(q)
    ensures Ascending(HandleRead(q, now, calls).1)
  {
    hide RunBatch, Due;
    RunBatchAscends(Split(q, now), q.timers[..Due(q.timers, now)], calls);
  }

  // The timerfd.

  /** It is armed for the first entry, if that has a time a clock can show. */
  predicate ArmedForFirst(q: Queue) { q.timers != [] && q.timers[0].when > 0 ==> q.target == At(q.timers[0].when) }

  /** In every run the timerfd is armed for exactly the time of the first entry, neither later nor earlier. */
  lemma {:induction false} AlwaysArmedForFirst(q: Queue, run: seq<Event>)
    requires Sound(q) && Awaited(q, false) && Possible(run) && ArmedForFirst(q)
    ensures ArmedForFirst(After(q, run).0)
    decreases |run|
  {
    if run == [] {
    } else {
      ApplyKeeps(q, run[0]);
      match run[0] {
        case Call(a) =>
        case Expire(now, calls) => HandleReadKeeps(q, now, calls);
      }
      hide Sound, Awaited, HandleRead;
      AlwaysArmedForFirst(Apply(q, run[0]).0, run[1..]);
    }
  }
}
