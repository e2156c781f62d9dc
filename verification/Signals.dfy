/** How many waiters one Signal and one Broadcast wake (threads/synch.cc), from
the call to its return, with any other threads at work in between. */
module Signals {
  import opened Options
  import opened SynchLists

  /** How often thread t takes a step. */
  function Ticks(events: seq<Event>, t: Tid): nat {
    if events == [] then 0
    else Ticks(events[..|events| - 1], t) + (if events[|events| - 1] == Tick(t) then 1 else 0)
  }

  /** The steps a signaller still has to take: Signal tests the queue, takes a
      waiter off, wakes it and returns; Broadcast does so until none is left. */
  function Left(task: Task, queued: nat): nat {
    match task
    case Signalling(all, _) => if all then 3 * queued + 1 else if queued == 0 then 1 else 3
    case Waking(_, all, _) => if all then 3 * queued + 3 else 2
    case Woke(_, all, _) => if all then 3 * queued + 2 else 1
    case _ => 0
  }

  /** Thread t is at the task, inside the monitor. */
  predicate Doing(s: State, t: Tid, task: Task) { t in s.pcs && s.pcs[t] == Inside(task) }

  /** A signaller that started in state s0 and is now at the task: nothing has
      moved but waiters from the front of the queue, as many as it has taken. */
  ghost predicate Progress(s0: State, s: State, t: Tid, all: bool, home: Home, task: Task) {
    && Safe(s, false) && Doing(s, t, task)
    && s.entered == s0.entered && s.list == s0.list && s.appended == s0.appended && s.removed == s0.removed
    && s.picked + s.waitQueue == s0.picked + s0.waitQueue && |s.picked| >= |s0.picked|
    && match task
       case Signalling(a, h) => a == all && h == home && (!all ==> |s.picked| == |s0.picked|)
       case Waking(_, a, h) => a == all && h == home && (!all ==> |s.picked| == |s0.picked| + 1)
       case Woke(_, a, h) => a == all && h == home && (!all ==> |s.picked| == |s0.picked| + 1)
       case _ =>
         && task == AfterSignal(home) && (all ==> s.waitQueue == [])
         && (!all ==> |s.picked| == |s0.picked| + (if s0.waitQueue == [] then 0 else 1))
  }

  /** While t is inside the monitor, other threads leave it all alone. */
  lemma OthersStay(s: State, e: Event, t: Tid, task: Task)
    requires Safe(s, false) && Doing(s, t, task) && e.who != t
    ensures var s' := Step(s, e);
            && Doing(s', t, task) && s'.entered == s.entered && s'.picked == s.picked && s'.waitQueue == s.waitQueue
            && s'.list == s.list && s'.appended == s.appended && s'.removed == s.removed
  {
    hide QueueInv; hide WaiterInv; hide ListInv;
    assert s.owner == Some(t) && s.lock == 0;
    if e.who in s.pcs {
      assert !Holds(s.pcs[e.who]);
    }
  }

  /** Nor can t itself do anything but the next statement. */
  lemma NoOtherChoice(s: State, e: Event, t: Tid, task: Task)
    requires Doing(s, t, task) && task != OwnCode && e.who == t && !e.Tick?
    ensures Step(s, e) == s
  {
    assert s.pcs[t := s.pcs[t]] == s.pcs;
  }

  lemma OwnStep(s0: State, s: State, t: Tid, all: bool, home: Home, task: Task) returns (next: Task)
    requires Progress(s0, s, t, all, home, task) && Left(task, |s.waitQueue|) > 0
    ensures Progress(s0, Step(s, Tick(t)), t, all, home, next)
    ensures Left(next, |Step(s, Tick(t)).waitQueue|) + 1 == Left(task, |s.waitQueue|)
  {
    hide Safe;
    StepIsSafe(s, Tick(t), false);
    if task.Waking? {
      WakingIsSafe(s, t, task.waiter, task.all, task.home, false);
    }
    var s' := Step(s, Tick(t));
    assert s' == DoTask(s, t, task);
    hide Step;
    next := s'.pcs[t].task;
  }

  lemma ProgressStep(s0: State, s: State, e: Event, t: Tid, all: bool, home: Home, task: Task) returns (next: Task)
    requires Progress(s0, s, t, all, home, task) && Left(task, |s.waitQueue|) > 0
    ensures Progress(s0, Step(s, e), t, all, home, next)
    ensures Left(next, |Step(s, e).waitQueue|) + (if e == Tick(t) then 1 else 0) == Left(task, |s.waitQueue|)
  {
    next := task;
    if e == Tick(t) {
      next := OwnStep(s0, s, t, all, home, task);
    } else if e.who == t {
      NoOtherChoice(s, e, t, task);
    } else {
      StepIsSafe(s, e, false);
      OthersStay(s, e, t, task);
      hide Safe; hide Step;
    }
  }

  /** From the first statement of Signal or Broadcast on. */
  lemma {:induction false} SignalRun(s: State, events: seq<Event>, t: Tid, all: bool, home: Home) returns (task: Task)
    requires Safe(s, false) && Doing(s, t, Signalling(all, home))
    requires events != [] ==> Ticks(events[..|events| - 1], t) < Left(Signalling(all, home), |s.waitQueue|)
    ensures Progress(s, Run(s, events), t, all, home, task)
    ensures Left(task, |Run(s, events).waitQueue|) + Ticks(events, t) == Left(Signalling(all, home), |s.waitQueue|)
    decreases |events|
  {
    task := Signalling(all, home);
    if events != [] {
      hide Progress; hide Safe; hide Left; hide Step;
      var n := |events| - 1;
      FewerTicks(events, t);
      task := SignalRun(s, events[..n], t, all, home);
      task := ProgressStep(s, Run(s, events[..n]), events[n], t, all, home, task);
    }
  }

  lemma FewerTicks(events: seq<Event>, t: Tid)
    requires events != []
    ensures var before := events[..|events| - 1];
            before != [] ==> Ticks(before[..|before| - 1], t) <= Ticks(before, t)
  {
  }

  /** The end of Signal: one waiter, the first, if there is any. */
  ghost predicate WokeOne(s0: State, s: State) {
    && s.entered == s0.entered && s.woken == s.picked
    && if s0.waitQueue == [] then s.picked == s0.picked && s.waitQueue == []
       else s.picked == s0.picked + [s0.waitQueue[0]] && s.waitQueue == s0.waitQueue[1..]
  }

  /** The end of Broadcast: all of them, in order. */
  ghost predicate WokeAll(s0: State, s: State) {
    s.entered == s0.entered && s.waitQueue == [] && s.picked == s0.picked + s0.waitQueue && s.woken == s.picked == s.entered
  }

  lemma Finished(s0: State, s: State, t: Tid, all: bool, home: Home, task: Task)
    requires Progress(s0, s, t, all, home, task) && Left(task, |s.waitQueue|) == 0
    ensures task == AfterSignal(home) && if all then WokeAll(s0, s) else WokeOne(s0, s)
  {
    hide WaiterInv; hide ListInv;
    QueueIsFifo(s);
    assert s.owner == Some(t) && !Signaller(s);
    hide LockInv; hide QueueInv;
    assert s.woken == s.picked;
    var whole := s0.picked + s0.waitQueue;
    assert s.picked == whole[..|s.picked|] && s.waitQueue == whole[|s.picked|..];
  }

  /** The reachable states around a call. */
  function Before(threads: set<Tid>, history: seq<Event>): State { Run(Initial(threads), history) }

  function Since(threads: set<Tid>, history: seq<Event>, call: Event, events: seq<Event>): State {
    Run(Step(Before(threads, history), call), events)
  }

  /** Condition::Signal, in every run: a client that calls it is back in its own
      code after one step of its own if nobody waits, else after three. Exactly
      the first waiter has then left the queue and has its V. */
  lemma SignalWakesOne(threads: set<Tid>, history: seq<Event>, t: Tid, events: seq<Event>)
    requires Doing(Before(threads, history), t, OwnCode)
    ensures var s0, s := Before(threads, history), Since(threads, history, Signal(t), events);
            var steps := if s0.waitQueue == [] then 1 else 3;
            && (Ticks(events, t) < steps ==> t in s.pcs && s.pcs[t].Inside? && s.pcs[t].task != OwnCode)
            && (Ticks(events, t) == steps && events[|events| - 1] == Tick(t) ==> Doing(s, t, OwnCode) && WokeOne(s0, s))
  {
    CallRuns(threads, history, Signal(t), events);
  }

  /** Condition::Broadcast, likewise: after three steps a waiter and one more,
      the queue is empty, and every waiter that ever entered has its V. */
  lemma BroadcastWakesAll(threads: set<Tid>, history: seq<Event>, t: Tid, events: seq<Event>)
    requires Doing(Before(threads, history), t, OwnCode)
    ensures var s0, s := Before(threads, history), Since(threads, history, Broadcast(t), events);
            var steps := 3 * |s0.waitQueue| + 1;
            && (Ticks(events, t) < steps ==> t in s.pcs && s.pcs[t].Inside? && s.pcs[t].task != OwnCode)
            && (Ticks(events, t) == steps && events[|events| - 1] == Tick(t) ==> Doing(s, t, OwnCode) && WokeAll(s0, s))
  {
    CallRuns(threads, history, Broadcast(t), events);
  }

  lemma CallRuns(threads: set<Tid>, history: seq<Event>, call: Event, events: seq<Event>)
    requires Doing(Before(threads, history), call.who, OwnCode) && (call.Signal? || call.Broadcast?)
    ensures var s0, s, t := Before(threads, history), Since(threads, history, call, events), call.who;
            var steps := if call.Broadcast? then 3 * |s0.waitQueue| + 1 else if s0.waitQueue == [] then 1 else 3;
            && (Ticks(events, t) < steps ==> t in s.pcs && s.pcs[t].Inside? && s.pcs[t].task != OwnCode)
            && (Ticks(events, t) == steps && events[|events| - 1] == Tick(t) ==>
                  Doing(s, t, OwnCode) && if call.Broadcast? then WokeAll(s0, s) else WokeOne(s0, s))
  {
    hide Safe; hide Run;
    var t, all := call.who, call.Broadcast?;
    var s0 := Before(threads, history);
    RunIsSafe(threads, history, false);
    StepIsSafe(s0, call, false);
    var s1 := Step(s0, call);
    assert Doing(s1, t, Signalling(all, ToClient)) && s1.waitQueue == s0.waitQueue;
    var steps := if all then 3 * |s0.waitQueue| + 1 else if s0.waitQueue == [] then 1 else 3;
    assert s1.picked == s0.picked && s1.entered == s0.entered;
    hide Step;
    if Ticks(events, t) < steps || (Ticks(events, t) == steps && events[|events| - 1] == Tick(t)) {
      LastTick(events, t, steps);
      var task := SignalRun(s1, events, t, all, ToClient);
      if Ticks(events, t) == steps {
        Finished(s1, Run(s1, events), t, all, ToClient, task);
      }
    }
  }

  lemma LastTick(events: seq<Event>, t: Tid, steps: nat)
    requires Ticks(events, t) < steps || (Ticks(events, t) == steps && events != [] && events[|events| - 1] == Tick(t))
    ensures events != [] ==> Ticks(events[..|events| - 1], t) < steps
  {
  }

  /** SynchList::Append, in every run: from the statement that appends the item
      to the release of the lock, exactly the first waiter, if any, is woken, and
      the list has grown by that item alone. */
  lemma AppendSignalsOne(threads: set<Tid>, history: seq<Event>, t: Tid, item: Item, events: seq<Event>)
    requires Doing(Before(threads, history), t, Adding(item))
    ensures var s0, s := Before(threads, history), Since(threads, history, Tick(t), events);
            var steps := if s0.waitQueue == [] then 1 else 3;
            Ticks(events, t) == steps && events[|events| - 1] == Tick(t) ==>
              && Doing(s, t, Releasing(Returned(None))) && WokeOne(s0, s)
              && s.list == s0.list + [item] && s.appended == s0.appended + [item] && s.removed == s0.removed
  {
    var s0 := Before(threads, history);
    RunIsSafe(threads, history, false);
    StepIsSafe(s0, Tick(t), false);
    var s1 := Step(s0, Tick(t));
    assert Doing(s1, t, Signalling(false, ToList)) && s1.waitQueue == s0.waitQueue;
    assert s1.picked == s0.picked && s1.entered == s0.entered && s1.list == s0.list + [item];
    assert s1.appended == s0.appended + [item] && s1.removed == s0.removed;
    var steps := if s0.waitQueue == [] then 1 else 3;
    hide Safe; hide Step; hide Run;
    if Ticks(events, t) == steps && events[|events| - 1] == Tick(t) {
      LastTick(events, t, steps);
      var task := SignalRun(s1, events, t, false, ToList);
      Finished(s1, Run(s1, events), t, false, ToList, task);
    }
  }

  /* Waiting. */

  /** Inside Condition::Wait, with the semaphore w once it is made. */
  predicate InWait(pc: Pc, w: Wid, home: Home) {
    || pc == Inside(Waiting(home)) || pc == Inside(Releasing(Blocking(w, home))) || pc == Unlocked(Blocking(w, home))
    || pc == Parked(w, home) || pc == Locking(ToResume(w, home)) || pc == Locked(ToResume(w, home))
    || pc == Inside(Disposing(w, home))
  }

  /** The thread has not left Wait, and w is the next waiter to enter or has
      entered; or it has, and w was woken and is gone. */
  ghost predicate WaitProgress(s: State, t: Tid, w: Wid, home: Home) {
    && Safe(s, false) && t in s.pcs
    && if InWait(s.pcs[t], w, home) then (if s.pcs[t] == Inside(Waiting(home)) then |s.entered| == w else |s.entered| > w)
       else s.pcs[t] == Inside(AfterWait(home)) && w in s.woken && w !in s.waiters
  }

  lemma OthersEnter(s: State, e: Event, t: Tid)
    requires t in s.pcs && e.who != t
    ensures var s' := Step(s, e); t in s'.pcs && s'.pcs[t] == s.pcs[t] && |s'.entered| >= |s.entered|
  {
    StepStays(s, e);
    hide Step;
  }

  lemma WaiterSteps(s: State, t: Tid, w: Wid, home: Home)
    requires WaitProgress(s, t, w, home) && InWait(s.pcs[t], w, home)
    ensures WaitProgress(Step(s, Tick(t)), t, w, home)
  {
    hide Safe;
    StepIsSafe(s, Tick(t), false);
    if s.pcs[t] == Inside(Disposing(w, home)) {
      DisposedWasWoken(s, t, w, home);
    }
  }

  lemma DisposedWasWoken(s: State, t: Tid, w: Wid, home: Home)
    requires Safe(s, false) && Doing(s, t, Disposing(w, home))
    ensures w in s.woken
  {
    assert WaiterOf(s.pcs[t]) == Some(w) && !Unresumed(s.pcs[t]);
    hide WaiterOf; hide Unresumed; hide LockInv; hide QueueInv; hide WaiterInv; hide ListInv;
    ThreadWaitsOn(s, t);
  }

  lemma WaitStep(s: State, e: Event, t: Tid, w: Wid, home: Home)
    requires WaitProgress(s, t, w, home) && t in s.pcs && InWait(s.pcs[t], w, home)
    ensures WaitProgress(Step(s, e), t, w, home)
  {
    if e == Tick(t) {
      WaiterSteps(s, t, w, home);
    } else if e.who == t {
      assert Chosen(s.pcs[t], e) == s.pcs[t];
      assert s.pcs[t := s.pcs[t]] == s.pcs;
      assert Step(s, e) == s;
    } else {
      StepIsSafe(s, e, false);
      OthersEnter(s, e, t);
      if s.pcs[t] == Inside(Waiting(home)) {
        OthersStay(s, e, t, Waiting(home));
      }
      hide Safe; hide Step;
    }
  }

  /** The thread has not come out of Wait before the last of the events. */
  ghost predicate Away(s: State, events: seq<Event>, t: Tid, home: Home) {
    forall k :: 0 <= k < |events| ==> !Doing(Run(s, events[..k]), t, AfterWait(home))
  }

  lemma AwayBefore(s: State, events: seq<Event>, t: Tid, home: Home)
    requires Away(s, events, t, home) && events != []
    ensures var before := events[..|events| - 1]; Away(s, before, t, home) && !Doing(Run(s, before), t, AfterWait(home))
  {
    hide Run; hide Doing;
    var before := events[..|events| - 1];
    forall k | 0 <= k < |before| ensures !Doing(Run(s, before[..k]), t, AfterWait(home)) {
      assert before[..k] == events[..k];
    }
  }

  lemma {:induction false} WaitRun(s: State, events: seq<Event>, t: Tid, w: Wid, home: Home)
    requires WaitProgress(s, t, w, home) && Away(s, events, t, home)
    ensures WaitProgress(Run(s, events), t, w, home)
    decreases |events|
  {
    if events != [] {
      hide Step; hide WaitProgress; hide AfterWait; hide InWait; hide Away; hide Doing;
      var n := |events| - 1;
      AwayBefore(s, events, t, home);
      WaitRun(s, events[..n], t, w, home);
      StillInWait(Run(s, events[..n]), t, w, home);
      WaitStep(Run(s, events[..n]), events[n], t, w, home);
    }
  }

  lemma StillInWait(s: State, t: Tid, w: Wid, home: Home)
    requires WaitProgress(s, t, w, home) && !Doing(s, t, AfterWait(home))
    ensures t in s.pcs && InWait(s.pcs[t], w, home)
  {
  }

  /** Condition::Wait, in every run: a client that calls it enters the queue as
      the next waiter, stays inside Wait, and is back in its own code, with the
      lock, only once a signaller has given that waiter its V. */
  lemma WaitReturnsWhenWoken(threads: set<Tid>, history: seq<Event>, t: Tid, events: seq<Event>)
    requires Doing(Before(threads, history), t, OwnCode)
    requires forall k :: 0 <= k < |events| ==> !Doing(Since(threads, history, Wait(t), events[..k]), t, OwnCode)
    ensures var s0, s := Before(threads, history), Since(threads, history, Wait(t), events);
            var w := |s0.entered|;
            && t in s.pcs
            && if Doing(s, t, OwnCode) then w in s.woken && w in s.entered && w !in s.waiters && s.holder == Some(t)
               else InWait(s.pcs[t], w, ToClient)
  {
    var s0 := Before(threads, history);
    RunIsSafe(threads, history, false);
    StepIsSafe(s0, Wait(t), false);
    var s1 := Step(s0, Wait(t));
    var w := |s0.entered|;
    assert s1.pcs[t] == Inside(Waiting(ToClient)) && s1.entered == s0.entered;
    hide Safe; hide Step;
    assert Away(s1, events, t, ToClient);
    WaitRun(s1, events, t, w, ToClient);
    var s := Run(s1, events);
    hide Run;
    if Doing(s, t, OwnCode) {
      HeldInside(s, t, w);
    }
  }

  lemma HeldInside(s: State, t: Tid, w: Wid)
    requires Safe(s, false) && Doing(s, t, OwnCode) && w in s.woken
    ensures s.holder == Some(t) && w in s.entered
  {
    hide WaiterInv; hide ListInv;
    QueueIsFifo(s);
    assert s.entered[w] == w;
  }

  /** A step moves no thread but its own, and nobody leaves the record. */
  ghost predicate Moves(s: State, s': State, t: Tid)
    requires t in s.pcs
  {
    t in s'.pcs && s'.pcs == s.pcs[t := s'.pcs[t]] && |s'.entered| >= |s.entered|
  }

  lemma TaskMoves(s: State, t: Tid, task: Task)
    requires Doing(s, t, task)
    ensures Moves(s, DoTask(s, t, task), t)
  {
    assert s.pcs[t := s.pcs[t]] == s.pcs;
  }

  lemma StepStays(s: State, e: Event)
    ensures if e.who in s.pcs then Moves(s, Step(s, e), e.who) else Step(s, e) == s
  {
    if e.who in s.pcs {
      assert s.pcs[e.who := s.pcs[e.who]] == s.pcs;
      if e.Tick? && s.pcs[e.who].Inside? {
        TaskMoves(s, e.who, s.pcs[e.who].task);
      }
    }
    hide DoTask; hide Chosen;
  }
}
