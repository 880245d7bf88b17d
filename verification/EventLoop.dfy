/** netlib/EventLoop, used from its own thread: handlers and queued functors run in turns, and an eventfd wakes the
    poll when a functor has queued more work. Functors are numbered in the order in which they are queued. */
module EventLoop {
  /** What a handler or a functor does to the loop when it is called. */
  datatype Effect = QueueInLoop | Quit

  /** What a poll reports: the wakeup channel or another one, whose handler has effects. */
  datatype Active = WakeupChannel | Other(effects: seq<Effect>)

  /** The queue, the number of the next functor, the flags, the eventfd's counter, and the functors called so far. */
  datatype Loop = Loop(pending: seq<nat>, next: nat, calling: bool, quit: bool, wakeups: nat, called: seq<nat>)

  const START: Loop := Loop([], 0, false, false, 0, [])

  function Do(s: Loop, e: Effect): Loop {
    match e
    case Quit => s.(quit := true)
    case QueueInLoop =>
      s.(pending := s.pending + [s.next], next := s.next + 1, wakeups := if s.calling then s.wakeups + 1 else s.wakeups)
  }

  function DoAll(s: Loop, effects: seq<Effect>): Loop
    decreases |effects|
  {
    if effects == [] then s else DoAll(Do(s, effects[0]), effects[1..])
  }

  function Handle(s: Loop, a: Active): Loop {
    match a
    case WakeupChannel => s.(wakeups := 0)
    case Other(effects) => DoAll(s, effects)
  }

  function HandleAll(s: Loop, active: seq<Active>): Loop
    decreases |active|
  {
    if active == [] then s else HandleAll(Handle(s, active[0]), active[1..])
  }

  /** Call functors in order; functor k has the effects does(k). */
  function CallAll(s: Loop, functors: seq<nat>, does: nat -> seq<Effect>): Loop
    decreases |functors|
  {
    if functors == [] then s
    else CallAll(DoAll(s.(called := s.called + [functors[0]]), does(functors[0])), functors[1..], does)
  }

  function DoPending(s: Loop, does: nat -> seq<Effect>): Loop {
    CallAll(s.(pending := [], calling := true), s.pending, does).(calling := false)
  }

  /** One turn of the loop. */
  function Turn(s: Loop, active: seq<Active>, does: nat -> seq<Effect>): Loop {
    var s' := HandleAll(s, active);
    if s'.pending != [] then DoPending(s', does) else s'
  }

  /** Turns until quit, or as many as there are polls. */
  function Turns(s: Loop, polls: seq<seq<Active>>, does: nat -> seq<Effect>): Loop
    decreases |polls|
  {
    if s.quit || polls == [] then s else Turns(Turn(s, polls[0], does), polls[1..], does)
  }

  class EventLoop {
    var pendingFunctors: seq<nat>
    var callingPendingFunc: bool
    var quit: bool
    /** The eventfd's counter. */
    var wakeups: nat
    var next: nat
    /** The functors called so far. */
    var called: seq<nat>

    function State(): Loop
      reads this
    {
      Loop(pendingFunctors, next, callingPendingFunc, quit, wakeups, called)
    }

    constructor ()
      ensures State() == START
    {
      pendingFunctors, next, callingPendingFunc, quit, wakeups, called := [], 0, false, false, 0, [];
    }

    method Enqueue()
      modifies this
      ensures State() == Do(old(State()), QueueInLoop)
    {
      pendingFunctors, next := pendingFunctors + [next], next + 1;
      if callingPendingFunc {
        Wakeup();
      }
    }

    method Wakeup()
      modifies `wakeups
      ensures wakeups == old(wakeups) + 1
    {
      wakeups := wakeups + 1;
    }

    method HandleRead()
      modifies `wakeups
      ensures wakeups == 0
    {
      wakeups := 0;
    }

    /** The body of a handler or a functor. */
    method Run(effects: seq<Effect>)
      modifies this
      ensures State() == DoAll(old(State()), effects)
    {
      for i := 0 to |effects|
        invariant DoAll(State(), effects[i..]) == DoAll(old(State()), effects)
      {
        assert effects[i..][1..] == effects[i + 1..];
        match effects[i] {
          case QueueInLoop => Enqueue();
          case Quit => quit := true;
        }
      }
    }

    method DoPendingFunctors(does: nat -> seq<Effect>)
      modifies this
      ensures State() == DoPending(old(State()), does)
    {
      callingPendingFunc := true;
      var functors := [];
      functors, pendingFunctors := pendingFunctors, functors;
      ghost var s := State();
      for i := 0 to |functors|
        invariant CallAll(State(), functors[i..], does) == CallAll(s, functors, does)
      {
        assert functors[i..][1..] == functors[i + 1..];
        called := called + [functors[i]];
        Run(does(functors[i]));
      }
      callingPendingFunc := false;
    }

    /** The handlers of the active channels, then the pending functors. */
    method HandleEvents(active: seq<Active>, does: nat -> seq<Effect>)
      modifies this
      ensures State() == Turn(old(State()), active, does)
    {
      for i := 0 to |active|
        invariant HandleAll(State(), active[i..]) == HandleAll(old(State()), active)
      {
        assert active[i..][1..] == active[i + 1..];
        match active[i] {
          case WakeupChannel => HandleRead();
          case Other(effects) => Run(effects);
        }
      }
      if pendingFunctors != [] {
        DoPendingFunctors(does);
      }
    }

    /** loop(), for as long as the polls last. */
    method RunLoop(polls: seq<seq<Active>>, does: nat -> seq<Effect>)
      modifies this
      ensures State() == Turns(old(State()).(quit := false), polls, does)
      ensures InOrder(old(State()), []) && !old(callingPendingFunc) && polls != [] ==> Upto(old(next)) <= called
    {
      if InOrder(State(), []) && !callingPendingFunc && polls != [] {
        FirstTurnCalls(State(), polls, does);
      }
      quit := false;
      ghost var s := State();
      var i := 0;
      while !quit && i < |polls|
        invariant i <= |polls| && Turns(State(), polls[i..], does) == Turns(s, polls, does)
      {
        assert polls[i..][1..] == polls[i + 1..];
        HandleEvents(polls[i], does);
        i := i + 1;
      }
    }
  }

  /** The numbers below n in order. */
  function Upto(n: nat): seq<nat> { seq(n, i => i) }

  /** Called, in hand and pending functors together are all that were ever queued, each once, in order. */
  predicate InOrder(s: Loop, inHand: seq<nat>) { s.called + inHand + s.pending == Upto(s.next) }

  lemma {:induction false} DoAllInOrder(s: Loop, effects: seq<Effect>, inHand: seq<nat>)
    requires InOrder(s, inHand)
    ensures var s' := DoAll(s, effects);
      && InOrder(s', inHand) && s'.next >= s.next && s'.called == s.called && s'.calling == s.calling
      && s.pending <= s'.pending
    ensures var s' := DoAll(s, effects);
      if s.calling then s'.wakeups >= s.wakeups && (s'.pending != s.pending ==> s'.wakeups > s.wakeups)
      else s'.wakeups == s.wakeups
    decreases |effects|
  {
    if effects == [] {
    } else {
      var s1 := Do(s, effects[0]);
      if effects[0] == QueueInLoop {
        assert s.called + inHand + (s.pending + [s.next]) == (s.called + inHand + s.pending) + [s.next];
      }
      DoAllInOrder(s1, effects[1..], inHand);
    }
  }

  lemma {:induction false} HandleAllInOrder(s: Loop, active: seq<Active>)
    requires InOrder(s, []) && !s.calling
    ensures var s' := HandleAll(s, active);
      && InOrder(s', []) && !s'.calling && s'.called == s.called && s'.next >= s.next
      && (s'.wakeups == s.wakeups || s'.wakeups == 0)
    decreases |active|
  {
    if active == [] {
    } else {
      if active[0].Other? {
        DoAllInOrder(s, active[0].effects, []);
      }
      HandleAllInOrder(Handle(s, active[0]), active[1..]);
    }
  }

  /** A batch of functors is called in order, whatever the functors queue; whoever queues more leaves the eventfd
      readable. */
  lemma {:induction false} CallAllInOrder(s: Loop, functors: seq<nat>, does: nat -> seq<Effect>)
    requires InOrder(s, functors) && s.calling && (s.pending != [] ==> s.wakeups > 0)
    ensures var s' := CallAll(s, functors, does);
      && InOrder(s', []) && s'.calling && s'.next >= s.next && s'.called == s.called + functors
      && (s'.pending != [] ==> s'.wakeups > 0)
    decreases |functors|
  {
    if functors == [] {
      assert s.called + functors == s.called;
    } else {
      var f, rest := functors[0], functors[1..];
      var s1 := s.(called := s.called + [f]);
      assert s1.called + rest == s.called + functors;
      DoAllInOrder(s1, does(f), rest);
      CallAllInOrder(DoAll(s1, does(f)), rest, does);
    }
  }

  lemma DoPendingInOrder(s: Loop, does: nat -> seq<Effect>)
    requires InOrder(s, [])
    ensures var s' := DoPending(s, does);
      && InOrder(s', []) && !s'.calling && s'.called == Upto(s.next) && (s'.pending != [] ==> s'.wakeups > 0)
  {
    var s0 := s.(pending := [], calling := true);
    assert s0.called + s.pending + [] == s.called + [] + s.pending;
    CallAllInOrder(s0, s.pending, does);
    assert s.called + [] + s.pending == s.called + s.pending;
  }

  /** Between polls: functors are in order, and if any is pending the next poll returns at once. */
  predicate Ready(s: Loop) { InOrder(s, []) && !s.calling && (s.pending != [] ==> s.wakeups > 0) }

  /** One turn calls every functor queued before it, and none twice. */
  lemma TurnKeepsReady(s: Loop, active: seq<Active>, does: nat -> seq<Effect>)
    requires InOrder(s, []) && !s.calling
    ensures var s' := Turn(s, active, does);
      Ready(s') && s'.next >= s.next && Upto(s.next) <= s'.called
  {
    HandleAllInOrder(s, active);
    var s1 := HandleAll(s, active);
    if s1.pending != [] {
      DoPendingInOrder(s1, does);
    }
  }

  lemma InOrderSplit(s: Loop)
    requires InOrder(s, [])
    ensures |s.called| <= s.next && s.called == Upto(|s.called|) && s.pending == Upto(s.next)[|s.called|..]
  {
    assert s.called + s.pending == Upto(s.next) by {
      assert s.called + [] + s.pending == s.called + s.pending;
    }
    assert Upto(s.next)[..|s.called|] == Upto(|s.called|);
  }

  /** A loop started empty calls every functor exactly once, first in first out: those called are the first ones
      queued, those pending the rest, and a turn is enough for every functor queued before it. */
  lemma {:induction false} FirstInFirstOut(s: Loop, polls: seq<seq<Active>>, does: nat -> seq<Effect>)
    requires Ready(s)
    ensures var s' := Turns(s, polls, does);
      && Ready(s') && s'.next >= s.next && s'.called == Upto(|s'.called|) && s'.pending == Upto(s'.next)[|s'.called|..]
      && |s'.called| >= |s.called| && (polls != [] && !s.quit ==> |s'.called| >= s.next)
    decreases |polls|
  {
    InOrderSplit(s);
    if polls == [] || s.quit {
    } else {
      TurnKeepsReady(s, polls[0], does);
      FirstInFirstOut(Turn(s, polls[0], does), polls[1..], does);
    }
  }

  /** Whether every poll of a run is entered with nothing pending or the eventfd readable. */
  predicate PollsAwake(s: Loop, polls: seq<seq<Active>>, does: nat -> seq<Effect>)
    decreases |polls|
  {
    || s.quit
    || polls == []
    || ((s.pending != [] ==> s.wakeups > 0) && PollsAwake(Turn(s, polls[0], does), polls[1..], does))
  }

  /** No poll waits while work is pending, except the first one when a functor was queued before the loop was
      started. */
  lemma {:induction false} PollsAwakeIffStartedAwake(s: Loop, polls: seq<seq<Active>>, does: nat -> seq<Effect>)
    requires InOrder(s, []) && !s.calling && !s.quit && polls != []
    ensures PollsAwake(s, polls, does) <==> (s.pending != [] ==> s.wakeups > 0)
    decreases |polls|
  {
    TurnKeepsReady(s, polls[0], does);
    var s1 := Turn(s, polls[0], does);
    if s1.quit || polls[1..] == [] {
    } else {
      PollsAwakeIffStartedAwake(s1, polls[1..], does);
    }
  }

  lemma {:induction false} QueuedQuietly(s: Loop, n: nat)
    requires !s.calling
    ensures var s' := DoAll(s, seq(n, i => QueueInLoop));
      |s'.pending| == |s.pending| + n && s'.wakeups == s.wakeups && s'.quit == s.quit
    decreases n
  {
    if n == 0 {
    } else {
      assert seq(n, i => QueueInLoop)[1..] == seq(n - 1, i => QueueInLoop);
      QueuedQuietly(Do(s, QueueInLoop), n - 1);
    }
  }

  /** Queueing a functor from the loop's own thread before loop() is called leaves it waiting for the first poll. */
  lemma QueuedBeforeLoopWaits(n: nat, polls: seq<seq<Active>>, does: nat -> seq<Effect>)
    requires n > 0 && polls != []
    ensures !PollsAwake(DoAll(START, seq(n, i => QueueInLoop)), polls, does)
  {
    QueuedQuietly(START, n);
  }

  // The eventfd's counter, exactly.

  lemma {:induction false} DoAllWakes(s: Loop, effects: seq<Effect>)
    ensures var s' := DoAll(s, effects);
      && s'.calling == s.calling && |s'.pending| >= |s.pending| && (s'.quit <==> s.quit || Quit in effects)
      && s'.wakeups == s.wakeups + if s.calling then |s'.pending| - |s.pending| else 0
    decreases |effects|
  {
    if effects == [] {
    } else {
      DoAllWakes(Do(s, effects[0]), effects[1..]);
      assert effects == [effects[0]] + effects[1..];
    }
  }

  predicate HandlerQuits(active: seq<Active>) { exists a :: a in active && a.Other? && Quit in a.effects }

  lemma {:induction false} HandleAllWakes(s: Loop, active: seq<Active>)
    requires !s.calling
    ensures var s' := HandleAll(s, active);
      && !s'.calling && s'.wakeups == (if WakeupChannel in active then 0 else s.wakeups)
      && (s'.quit <==> s.quit || HandlerQuits(active))
    decreases |active|
  {
    if active == [] {
    } else {
      var a, rest := active[0], active[1..];
      if a.Other? {
        DoAllWakes(s, a.effects);
      }
      HandleAllWakes(Handle(s, a), rest);
      assert active == [a] + rest;
      assert HandlerQuits(active) <==> (a.Other? && Quit in a.effects) || HandlerQuits(rest);
    }
  }

  predicate FunctorQuits(functors: seq<nat>, does: nat -> seq<Effect>) { exists k :: k in functors && Quit in does(k) }

  lemma {:induction false} CallAllWakes(s: Loop, functors: seq<nat>, does: nat -> seq<Effect>)
    requires s.calling
    ensures var s' := CallAll(s, functors, does);
      && s'.calling && s'.wakeups == s.wakeups + |s'.pending| - |s.pending|
      && (s'.quit <==> s.quit || FunctorQuits(functors, does))
    decreases |functors|
  {
    if functors == [] {
    } else {
      var s1 := s.(called := s.called + [functors[0]]);
      DoAllWakes(s1, does(functors[0]));
      CallAllWakes(DoAll(s1, does(functors[0])), functors[1..], does);
      assert functors == [functors[0]] + functors[1..];
      assert FunctorQuits(functors, does) <==> Quit in does(functors[0]) || FunctorQuits(functors[1..], does);
    }
  }

  /** After a turn that reported the wakeup channel the counter is the number of functors left for the next one: it
      wakes the next poll if and only if there are any, and is not left raised. Wake-ups not yet reported are added. */
  lemma WakeupsExact(s: Loop, active: seq<Active>, does: nat -> seq<Effect>)
    requires !s.calling
    ensures var s' := Turn(s, active, does);
      !s'.calling && s'.wakeups == (if WakeupChannel in active then 0 else s.wakeups) + |s'.pending|
  {
    HandleAllWakes(s, active);
    var s1 := HandleAll(s, active);
    if s1.pending != [] {
      CallAllWakes(s1.(pending := [], calling := true), s1.pending, does);
    }
  }

  // Quitting.

  /** A handler or a functor of the turn quits. */
  predicate QuitsIn(s: Loop, active: seq<Active>, does: nat -> seq<Effect>) {
    HandlerQuits(active) || FunctorQuits(HandleAll(s, active).pending, does)
  }

  /** Quitting lets the turn end, with every functor that was pending called, and then no other turn begins; nothing
      else ends the loop. */
  lemma QuitEndsLoop(s: Loop, polls: seq<seq<Active>>, does: nat -> seq<Effect>)
    requires !s.calling && !s.quit && polls != []
    ensures var s1 := Turn(s, polls[0], does);
      if QuitsIn(s, polls[0], does) then Turns(s, polls, does) == s1 && s1.quit
      else !s1.quit && Turns(s, polls, does) == Turns(s1, polls[1..], does)
  {
    HandleAllWakes(s, polls[0]);
    var s1 := HandleAll(s, polls[0]);
    if s1.pending != [] {
      CallAllWakes(s1.(pending := [], calling := true), s1.pending, does);
    }
  }

  /** A functor that is pending when loop() is called is called by it, even if quit() has been called before. */
  lemma FirstTurnCalls(s: Loop, polls: seq<seq<Active>>, does: nat -> seq<Effect>)
    requires InOrder(s, []) && !s.calling && polls != []
    ensures Upto(s.next) <= Turns(s.(quit := false), polls, does).called
  {
    var s0 := s.(quit := false);
    TurnKeepsReady(s0, polls[0], does);
    FirstInFirstOut(Turn(s0, polls[0], does), polls[1..], does);
    InOrderSplit(Turn(s0, polls[0], does));
  }
}
