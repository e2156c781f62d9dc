/** In which order threads get the CPU and semaphores let them go, read off the
status of the threads alone: who became READY, RUNNING or BLOCKED at each step
(threads/scheduler.cc, threads/thread.cc, threads/synch.cc). */
module ReadyOrder {
  import opened Scheduling

  predicate Has(m: Machine, t: Tid, status: Status) { t in m.status && m.status[t] == status }

  /** The threads whose status was set to this one. */
  function Became(m: Machine, m': Machine, status: Status): set<Tid> {
    set t | t in m'.status && Has(m', t, status) && !Has(m, t, status)
  }

  /** Those that blocked on semaphore s. */
  function BlockedIn(m: Machine, m': Machine, s: Sid): set<Tid> {
    set t | t in Became(m, m', Blocked) && t in m'.resume && m'.resume[t] == InP(s)
  }

  /** A set of at most one thread, as a list. */
  ghost function Listed(ts: set<Tid>): (l: seq<Tid>)
    ensures ts == {} <==> l == []
    ensures forall t :: ts == {t} ==> l == [t]
  {
    if ts == {} then [] else var t :| t in ts; [t]
  }

  /* One step. */

  /** The ready list gives up its front to the CPU and takes at its end the
      thread that became ready. */
  ghost predicate ReadyMoves(m: Machine, m': Machine) {
    && |Became(m, m', Running)| <= 1 && |Became(m, m', Ready)| <= 1
    && Listed(Became(m, m', Running)) + m'.ready == m.ready + Listed(Became(m, m', Ready))
  }

  function QueueOf(m: Machine, s: Sid): seq<Tid> { if s in m.queue then m.queue[s] else [] }

  /** The threads that a V on s made ready. */
  function WokenIn(m: Machine, e: Event, m': Machine, s: Sid): set<Tid> {
    if e == CallV(s) then Became(m, m', Ready) else {}
  }

  /** So does the queue of a semaphore, from P to V. */
  ghost predicate QueueMoves(m: Machine, e: Event, m': Machine, s: Sid) {
    && |BlockedIn(m, m', s)| <= 1
    && Listed(WokenIn(m, e, m', s)) + QueueOf(m', s) == QueueOf(m, s) + Listed(BlockedIn(m, m', s))
  }

  /** Nobody changes status in a way that matters to the lists. */
  lemma Quiet(m: Machine, e: Event, m': Machine, s: Sid)
    requires m'.ready == m.ready && QueueOf(m', s) == QueueOf(m, s)
    requires Became(m, m', Running) == {} && Became(m, m', Ready) == {} && BlockedIn(m, m', s) == {}
    ensures ReadyMoves(m, m') && QueueMoves(m, e, m', s)
  {
    hide Became; hide BlockedIn;
  }

  lemma CreateMoves(m: Machine, t: Tid, e: Event, s: Sid)
    requires t !in m.status
    ensures ReadyMoves(m, Create(m, t)) && QueueMoves(m, e, Create(m, t), s)
  {
    Quiet(m, e, Create(m, t), s);
  }

  lemma ForkMoves(m: Machine, t: Tid, s: Sid)
    requires t in m.status && m.status[t].JustCreated?
    ensures ReadyMoves(m, Fork(m, t)) && QueueMoves(m, ForkThread(t), Fork(m, t), s)
  {
    var m' := Fork(m, t);
    assert Became(m, m', Ready) == {t} && Became(m, m', Running) == {} && BlockedIn(m, m', s) == {};
    hide Became; hide BlockedIn;
  }

  lemma YieldMoves(m: Machine, s: Sid)
    requires Inv(m) && m.phase.Normal?
    ensures ReadyMoves(m, Yield(m)) && QueueMoves(m, YieldCpu, Yield(m), s)
  {
    hide SemaphoresOk; hide ThreadOk; hide QueueOk;
    var m' := Yield(m);
    if m.ready == [] {
      Quiet(m, YieldCpu, m', s);
    } else {
      assert Became(m, m', Ready) == {m.current} && Became(m, m', Running) == {m.ready[0]} && BlockedIn(m, m', s) == {};
      hide Became; hide BlockedIn; hide Inv;
    }
  }

  lemma FinishMoves(m: Machine, s: Sid)
    requires Inv(m) && m.phase.Normal?
    ensures ReadyMoves(m, Finish(m)) && QueueMoves(m, FinishThread, Finish(m), s)
  {
    hide SemaphoresOk; hide ThreadOk; hide QueueOk;
    Quiet(m, FinishThread, Finish(m), s);
  }

  lemma LoopMoves(m: Machine, s: Sid)
    requires Inv(m) && m.phase.Sleeping?
    ensures ReadyMoves(m, SleepLoop(m)) && QueueMoves(m, Go, SleepLoop(m), s)
  {
    hide SemaphoresOk; hide ThreadOk; hide QueueOk;
    var m' := SleepLoop(m);
    if m.ready == [] {
      Quiet(m, Go, m', s);
    } else {
      assert Became(m, m', Ready) == {} && Became(m, m', Running) == {m.ready[0]} && BlockedIn(m, m', s) == {};
      hide Became; hide BlockedIn; hide Inv;
    }
  }

  lemma NewSemaphoreMoves(m: Machine, r: Sid, value: nat, s: Sid)
    requires Shaped(m) && r !in m.value
    ensures var m' := NewSemaphore(m, r, value); ReadyMoves(m, m') && QueueMoves(m, NewSem(r, value), m', s)
  {
    Quiet(m, NewSem(r, value), NewSemaphore(m, r, value), s);
  }

  lemma VMoves(m: Machine, r: Sid, s: Sid)
    requires Inv(m) && r in m.value && !m.phase.Switched?
    ensures ReadyMoves(m, V(m, r)) && QueueMoves(m, CallV(r), V(m, r), s)
  {
    hide SemaphoresOk; hide ThreadOk; hide ReadyOk;
    var m' := V(m, r);
    if m.queue[r] == [] {
      Quiet(m, CallV(r), m', s);
    } else {
      assert QueueOk(m, r);
      var t := m.queue[r][0];
      assert Became(m, m', Ready) == {t} && Became(m, m', Running) == {} && BlockedIn(m, m', s) == {};
      hide Became; hide BlockedIn; hide Inv;
    }
  }

  /** The branches of P, whether called or gone on with after a switch. Before
      it, a thread that has finished may have been deleted. */
  lemma PMoves(m: Machine, m1: Machine, r: Sid, e: Event, s: Sid)
    requires Shaped(m1) && r in m1.value && Has(m1, m1.current, Running)
    requires m1.ready == m.ready && m1.queue == m.queue && forall t :: t in m1.status ==> t in m.status && m.status[t] == m1.status[t]
    requires !e.CallV?
    ensures ReadyMoves(m, P(m1, r)) && QueueMoves(m, e, P(m1, r), s)
  {
    var m' := P(m1, r);
    if m1.value[r] > 0 {
      Quiet(m, e, m', s);
    } else {
      PBlocks(m, m1, r, s);
      hide Became; hide BlockedIn;
    }
  }

  lemma PBlocks(m: Machine, m1: Machine, r: Sid, s: Sid)
    requires Shaped(m1) && r in m1.value && Has(m1, m1.current, Running) && m1.value[r] == 0
    requires forall t :: t in m1.status ==> t in m.status && m.status[t] == m1.status[t]
    ensures var m' := P(m1, r);
            && BlockedIn(m, m', s) == (if s == r then {m1.current} else {})
            && Became(m, m', Ready) == {} && Became(m, m', Running) == {}
  {
  }

  lemma ContinueMoves(m: Machine, s: Sid)
    requires Inv(m) && m.phase.Switched?
    ensures ReadyMoves(m, Continue(m)) && QueueMoves(m, Go, Continue(m), s)
  {
    hide SemaphoresOk; hide ThreadOk; hide QueueOk; hide ReadyOk;
    var m1 := CheckToBeDestroyed(m);
    if m.resume[m.current].InP? {
      PMoves(m, m1, m.resume[m.current].sem, Go, s);
    } else {
      Quiet(m, Go, Continue(m), s);
    }
  }

  lemma StepMoves(m: Machine, e: Event, s: Sid)
    requires Inv(m)
    ensures Shaped(m) && ReadyMoves(m, Step(m, e)) && QueueMoves(m, e, Step(m, e), s)
  {
    hide Placed; hide SemaphoresOk; hide ReadyMoves; hide QueueMoves;
    InvShape(m);
    Quiet(m, e, m, s);
    match e {
      case NewThread(t) => if m.phase.Normal? && t !in m.status && t !in m.deleted { CreateMoves(m, t, e, s); }
      case ForkThread(t) => if m.phase.Normal? && t in m.status && m.status[t].JustCreated? { ForkMoves(m, t, s); }
      case YieldCpu => if m.phase.Normal? { YieldMoves(m, s); }
      case FinishThread => if m.phase.Normal? { FinishMoves(m, s); }
      case NewSem(r, value) => if m.phase.Normal? && r !in m.value { NewSemaphoreMoves(m, r, value, s); }
      case CallP(r) => if m.phase.Normal? && r in m.value { PMoves(m, m, r, e, s); }
      case CallV(r) => if !m.phase.Switched? && r in m.value { VMoves(m, r, s); }
      case Go =>
        if m.phase.Sleeping? { LoopMoves(m, s); }
        if m.phase.Switched? { ContinueMoves(m, s); }
    }
  }

  /* Whole runs. */

  /** The threads in the order in which they became ready, or running. */
  ghost function InOrder(main: Tid, events: seq<Event>, status: Status): seq<Tid>
    decreases |events|
  {
    if events == [] then []
    else
      var before := events[..|events| - 1];
      InOrder(main, before, status) + Listed(Became(Execute(main, before), Execute(main, events), status))
  }

  ghost function BlockedOn(main: Tid, events: seq<Event>, s: Sid): seq<Tid>
    decreases |events|
  {
    if events == [] then []
    else
      var before := events[..|events| - 1];
      BlockedOn(main, before, s) + Listed(BlockedIn(Execute(main, before), Execute(main, events), s))
  }

  ghost function WokenBy(main: Tid, events: seq<Event>, s: Sid): seq<Tid>
    decreases |events|
  {
    if events == [] then []
    else
      var n := |events| - 1;
      WokenBy(main, events[..n], s) + Listed(WokenIn(Execute(main, events[..n]), events[n], Execute(main, events), s))
  }

  lemma ExecuteLast(main: Tid, events: seq<Event>)
    requires events != []
    ensures var m := Execute(main, events[..|events| - 1]);
            Inv(m) && Shaped(m) && Execute(main, events) == Step(m, events[|events| - 1])
  {
    InvShape(Execute(main, events[..|events| - 1]));
    hide Inv; hide Step;
  }

  /** One step of a queue: what left it, with what is in it, is what entered. */
  lemma Telescope(out: seq<Tid>, queue: seq<Tid>, entered: seq<Tid>, left: seq<Tid>, queue': seq<Tid>, joined: seq<Tid>)
    requires out + queue == entered && left + queue' == queue + joined
    ensures out + left + queue' == entered + joined
  {
    assert out + left + queue' == out + (left + queue');
    assert out + (queue + joined) == out + queue + joined;
  }

  /** In every run the CPU goes to threads in the order in which they became
      ready, each time once: those that had it, then the ready list. */
  lemma {:induction false} ReadyListIsFifo(main: Tid, events: seq<Event>)
    ensures InOrder(main, events, Running) + Execute(main, events).ready == InOrder(main, events, Ready)
    decreases |events|
  {
    if events != [] {
      hide Execute; hide Step; hide Became; hide Inv; hide Listed;
      var n := |events| - 1;
      ExecuteLast(main, events);
      ReadyListIsFifo(main, events[..n]);
      var m, m' := Execute(main, events[..n]), Execute(main, events);
      StepMoves(m, events[n], 0);
      Telescope(InOrder(main, events[..n], Running), m.ready, InOrder(main, events[..n], Ready),
                Listed(Became(m, m', Running)), m'.ready, Listed(Became(m, m', Ready)));
    } else {
      hide Step;
    }
  }

  /** In every run the threads that Vs of a semaphore made ready are those that
      blocked in its P, in that order: those woken, then the queue. */
  lemma {:induction false} SemaphoreIsFifo(main: Tid, events: seq<Event>, s: Sid)
    ensures WokenBy(main, events, s) + QueueOf(Execute(main, events), s) == BlockedOn(main, events, s)
    decreases |events|
  {
    if events != [] {
      hide Execute; hide Step; hide BlockedIn; hide WokenIn; hide Inv; hide QueueOf; hide Listed;
      var n := |events| - 1;
      ExecuteLast(main, events);
      SemaphoreIsFifo(main, events[..n], s);
      var m, m' := Execute(main, events[..n]), Execute(main, events);
      StepMoves(m, events[n], s);
      Telescope(WokenBy(main, events[..n], s), QueueOf(m, s), BlockedOn(main, events[..n], s),
                Listed(WokenIn(m, events[n], m', s)), QueueOf(m', s), Listed(BlockedIn(m, m', s)));
    } else {
      hide Step;
    }
  }
}
