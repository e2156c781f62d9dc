/** Threads, the scheduler and semaphores (threads/thread.cc, threads/scheduler.cc,
Semaphore in threads/synch.cc), as the values their operations compute.

Interrupts are off inside each operation, so that a switch happens only where
`Scheduler::Run` is called; an operation that calls it ends there, and the thread
that gets the CPU goes on from where it was switched out. */
module Scheduling {
  import opened Options

  type Tid = nat
  type Sid = nat

  datatype Status = JustCreated | Running | Ready | Blocked

  /** Where a thread that is switched out will go on. */
  datatype Resume = AtBegin | AfterYield | InP(sem: Sid) | Never

  /** What the CPU is doing. */
  datatype Phase =
    | Normal                     // running a thread's own code, interrupts on
    | Sleeping(finishing: bool)  // in the loop of Thread::Sleep
    | Switched                   // back from SWITCH, about to call CheckToBeDestroyed

  /** `status` has the live threads. The last four fields are history: the
      initial values of semaphores, the completed Ps and Vs, the deleted threads. */
  datatype Machine = Machine(
    current: Tid, ready: seq<Tid>, toBeDestroyed: Option<Tid>, status: map<Tid, Status>, resume: map<Tid, Resume>,
    value: map<Sid, nat>, queue: map<Sid, seq<Tid>>, phase: Phase,
    initial: map<Sid, nat>, ps: map<Sid, nat>, vs: map<Sid, nat>, deleted: set<Tid>)

  /** Every semaphore has all its parts. */
  predicate Shaped(m: Machine) {
    m.queue.Keys == m.value.Keys && m.initial.Keys == m.value.Keys && m.ps.Keys == m.value.Keys
    && m.vs.Keys == m.value.Keys
  }

  /* Scheduler. */

  function ReadyToRun(m: Machine, t: Tid): Machine { m.(status := m.status[t := Ready], ready := m.ready + [t]) }

  /** `Scheduler::Run` up to SWITCH. */
  function Run(m: Machine, next: Tid, finishing: bool): Machine {
    m.(toBeDestroyed := if finishing then Some(m.current) else m.toBeDestroyed,
       current := next, status := m.status[next := Running], phase := Switched)
  }

  function CheckToBeDestroyed(m: Machine): Machine {
    if m.toBeDestroyed.None? then m
    else
      m.(status := m.status - {m.toBeDestroyed.value}, toBeDestroyed := None,
         deleted := m.deleted + {m.toBeDestroyed.value})
  }

  /* Thread. */

  function Create(m: Machine, t: Tid): Machine { m.(status := m.status[t := JustCreated]) }

  function Fork(m: Machine, t: Tid): Machine { ReadyToRun(m.(resume := m.resume[t := AtBegin]), t) }

  function Yield(m: Machine): Machine {
    if m.ready == [] then m
    else
      var m1 := m.(ready := m.ready[1..], resume := m.resume[m.current := AfterYield]);
      Run(ReadyToRun(m1, m.current), m.ready[0], false)
  }

  /** `Thread::Sleep` up to its loop. */
  function Sleep(m: Machine, finishing: bool): Machine {
    m.(status := m.status[m.current := Blocked], phase := Sleeping(finishing))
  }

  function Finish(m: Machine): Machine { Sleep(m.(resume := m.resume[m.current := Never]), true) }

  /** One round of the loop: run the next ready thread, or idle. */
  function SleepLoop(m: Machine): Machine
    requires m.phase.Sleeping?
  {
    if m.ready == [] then m else Run(m.(ready := m.ready[1..]), m.ready[0], m.phase.finishing)
  }

  /* Semaphore. */

  /** `Semaphore::P` from the test of its loop to its end or to Sleep. */
  function P(m: Machine, s: Sid): Machine
    requires Shaped(m) && s in m.value
  {
    if m.value[s] == 0 then
      Sleep(m.(queue := m.queue[s := m.queue[s] + [m.current]], resume := m.resume[m.current := InP(s)]), false)
    else
      m.(value := m.value[s := m.value[s] - 1], ps := m.ps[s := m.ps[s] + 1], phase := Normal)
  }

  function V(m: Machine, s: Sid): Machine
    requires Shaped(m) && s in m.value
  {
    var m1 := if m.queue[s] == [] then m else ReadyToRun(m.(queue := m.queue[s := m.queue[s][1..]]), m.queue[s][0]);
    m1.(value := m.value[s := m.value[s] + 1], vs := m.vs[s := m.vs[s] + 1])
  }

  function NewSemaphore(m: Machine, s: Sid, value: nat): Machine {
    m.(value := m.value[s := value], queue := m.queue[s := []], initial := m.initial[s := value],
       ps := m.ps[s := 0], vs := m.vs[s := 0])
  }

  /** Back from SWITCH. */
  function Continue(m: Machine): Machine
    requires Shaped(m)
  {
    var m1 := CheckToBeDestroyed(m);
    if m.current in m.resume && m.resume[m.current].InP? && m.resume[m.current].sem in m.value then
      P(m1, m.resume[m.current].sem)
    else m1.(phase := Normal)
  }

  /* Placement. */

  predicate NoDuplicates(ts: seq<Tid>) { forall i, j :: 0 <= i < j < |ts| ==> ts[i] != ts[j] }

  predicate InQueue(m: Machine, t: Tid, s: Sid) { s in m.queue && t in m.queue[s] }

  predicate Finishing(m: Machine, t: Tid) { (t == m.current && m.phase == Sleeping(true)) || m.toBeDestroyed == Some(t) }

  /** Where the thread's status says it is. */
  predicate ThreadOk(m: Machine, t: Tid)
    requires t in m.status
  {
    && t !in m.deleted
    && match m.status[t] {
         case JustCreated => true
         case Ready => t in m.ready
         case Running => t == m.current && !m.phase.Sleeping?
         case Blocked =>
           t in m.resume && ((m.resume[t].InP? && InQueue(m, t, m.resume[t].sem)) || (m.resume[t].Never? && Finishing(m, t)))
       }
  }

  predicate QueueOk(m: Machine, s: Sid)
    requires s in m.queue
  {
    && NoDuplicates(m.queue[s])
    && forall i :: 0 <= i < |m.queue[s]| ==>
         var t := m.queue[s][i]; t in m.status && m.status[t] == Blocked && t in m.resume && m.resume[t] == InP(s)
  }

  predicate ReadyOk(m: Machine) {
    && NoDuplicates(m.ready)
    && forall i :: 0 <= i < |m.ready| ==>
         var t := m.ready[i];
         t in m.status && m.status[t] == Ready && t in m.resume && !m.resume[t].Never?
         && (m.resume[t].InP? ==> m.resume[t].sem in m.value)
  }

  predicate CpuOk(m: Machine) {
    && m.current in m.status
    && (!m.phase.Sleeping? ==> m.status[m.current] == Running)
    && (m.phase.Switched? ==>
          m.current in m.resume && !m.resume[m.current].Never?
          && (m.resume[m.current].InP? ==> m.resume[m.current].sem in m.value))
    && (m.phase == Sleeping(false) ==>
          m.current in m.resume && m.resume[m.current].InP? && m.status[m.current] in {Ready, Blocked})
    && (m.phase == Sleeping(true) ==>
          m.current in m.resume && m.resume[m.current].Never? && m.status[m.current] == Blocked)
    && (m.toBeDestroyed.Some? ==>
          var t := m.toBeDestroyed.value;
          m.phase.Switched? && t != m.current && t in m.status && m.status[t] == Blocked
          && t in m.resume && m.resume[t].Never?)
  }

  ghost predicate Placed(m: Machine) {
    && Shaped(m) && CpuOk(m) && ReadyOk(m)
    && (forall t {:trigger ThreadOk(m, t)} :: t in m.status ==> ThreadOk(m, t))
    && (forall s {:trigger QueueOk(m, s)} :: s in m.queue ==> QueueOk(m, s))
  }

  /** A thread that a V has taken off the queue of s and that has not yet tested
      the value again. */
  predicate IsWoken(m: Machine, t: Tid, s: Sid)
    requires t in m.status
  {
    t in m.resume && m.resume[t] == InP(s) && (m.status[t] == Ready || (t == m.current && m.phase.Switched?))
  }

  function Woken(m: Machine, s: Sid): set<Tid> { set t | t in m.status && IsWoken(m, t, s) }

  /** The value counts Vs and Ps, and waiters go with at least as many threads on
      their way as the value would let pass. */
  predicate SemaphoreOk(m: Machine, s: Sid)
    requires Shaped(m) && s in m.value
  {
    && m.value[s] + m.ps[s] == m.initial[s] + m.vs[s]
    && (m.queue[s] != [] ==> m.value[s] <= |Woken(m, s)|)
  }

  ghost predicate SemaphoresOk(m: Machine) {
    Shaped(m) && forall s {:trigger SemaphoreOk(m, s)} :: s in m.value ==> SemaphoreOk(m, s)
  }

  ghost predicate Inv(m: Machine) {
    Placed(m) && SemaphoresOk(m)
  }

  /* Each operation keeps the placement. */

  lemma CreateKeeps(m: Machine, t: Tid)
    requires Placed(m) && t !in m.status && t !in m.deleted
    ensures Placed(Create(m, t))
  {
    var m' := Create(m, t);
    assert ReadyOk(m') && CpuOk(m');
    hide ReadyOk; hide CpuOk;
    forall u | u in m'.status ensures ThreadOk(m', u) {
      assert u != t ==> ThreadOk(m, u);
    }
    forall s | s in m'.queue ensures QueueOk(m', s) {
      assert QueueOk(m, s);
    }
  }

  lemma ForkKeeps(m: Machine, t: Tid)
    requires Placed(m) && t in m.status && m.status[t].JustCreated?
    ensures Placed(Fork(m, t))
  {
    var m' := Fork(m, t);
    assert t !in m.ready;
    assert ReadyOk(m') && CpuOk(m');
    hide ReadyOk; hide CpuOk;
    forall u | u in m'.status ensures ThreadOk(m', u) {
      assert ThreadOk(m, u);
    }
    forall s | s in m'.queue ensures QueueOk(m', s) {
      assert QueueOk(m, s);
    }
  }

  lemma YieldKeeps(m: Machine)
    requires Placed(m) && m.phase.Normal?
    ensures Placed(Yield(m))
  {
    var m' := Yield(m);
    assert ReadyOk(m') && CpuOk(m');
    hide ReadyOk; hide CpuOk;
    forall u | u in m'.status ensures ThreadOk(m', u) {
      assert ThreadOk(m, u);
    }
    forall s | s in m'.queue ensures QueueOk(m', s) {
      assert QueueOk(m, s);
    }
  }

  lemma FinishKeeps(m: Machine)
    requires Placed(m) && m.phase.Normal?
    ensures Placed(Finish(m))
  {
    var m' := Finish(m);
    forall u | u in m'.status ensures ThreadOk(m', u) {
      assert ThreadOk(m, u);
    }
    forall s | s in m'.queue ensures QueueOk(m', s) {
      assert QueueOk(m, s);
    }
  }

  lemma LoopKeeps(m: Machine)
    requires Placed(m) && m.phase.Sleeping?
    ensures Placed(SleepLoop(m))
  {
    var m' := SleepLoop(m);
    forall u | u in m'.status ensures ThreadOk(m', u) {
      assert ThreadOk(m, u);
    }
    forall s | s in m'.queue ensures QueueOk(m', s) {
      assert QueueOk(m, s);
    }
  }

  /** Changing values and counts moves nobody. */
  lemma ValuesApart(m: Machine, m': Machine)
    requires Placed(m) && Shaped(m') && m'.value.Keys == m.value.Keys
    requires m' == m.(value := m'.value, initial := m'.initial, ps := m'.ps, vs := m'.vs)
    ensures Placed(m')
  {
    assert ReadyOk(m') && CpuOk(m');
    hide ReadyOk; hide CpuOk;
    forall u | u in m'.status ensures ThreadOk(m', u) {
      assert ThreadOk(m, u);
    }
    forall r | r in m'.queue ensures QueueOk(m', r) {
      assert QueueOk(m, r);
    }
  }

  lemma WakeKeeps(m: Machine, s: Sid)
    requires Placed(m) && s in m.value && !m.phase.Switched? && m.queue[s] != []
    ensures Placed(ReadyToRun(m.(queue := m.queue[s := m.queue[s][1..]]), m.queue[s][0]))
  {
    var t := m.queue[s][0];
    var m' := ReadyToRun(m.(queue := m.queue[s := m.queue[s][1..]]), t);
    assert QueueOk(m, s);
    assert m.resume[t] == InP(s) && m.status[t] == Blocked && t !in m.ready;
    assert ReadyOk(m') && CpuOk(m');
    hide ReadyOk; hide CpuOk;
    forall u | u in m'.status ensures ThreadOk(m', u) {
      assert ThreadOk(m, u);
      assert u != t && u in m.queue[s] ==> u in m'.queue[s];
    }
    forall r | r in m'.queue ensures QueueOk(m', r) {
      assert QueueOk(m, r);
    }
  }

  lemma VKeeps(m: Machine, s: Sid)
    requires Placed(m) && s in m.value && !m.phase.Switched?
    ensures Placed(V(m, s))
  {
    hide ThreadOk; hide QueueOk; hide ReadyOk; hide CpuOk;
    var m1 := m;
    if m.queue[s] != [] {
      WakeKeeps(m, s);
      m1 := ReadyToRun(m.(queue := m.queue[s := m.queue[s][1..]]), m.queue[s][0]);
    }
    ValuesApart(m1, V(m, s));
  }

  lemma ReapKeeps(m: Machine)
    requires Placed(m) && m.phase.Switched?
    ensures Placed(CheckToBeDestroyed(m))
  {
    var m' := CheckToBeDestroyed(m);
    assert ReadyOk(m') && CpuOk(m');
    hide ReadyOk; hide CpuOk;
    forall u | u in m'.status ensures ThreadOk(m', u) {
      assert ThreadOk(m, u);
    }
    forall s | s in m'.queue ensures QueueOk(m', s) {
      assert QueueOk(m, s);
    }
  }

  /** The branch of P that consumes the value; the CPU goes back to the thread. */
  lemma PassKeeps(m: Machine, s: Sid)
    requires Placed(m) && s in m.value && !m.phase.Sleeping? && m.toBeDestroyed.None? && m.value[s] > 0
    ensures Placed(P(m, s))
  {
    var m' := P(m, s);
    forall u | u in m'.status ensures ThreadOk(m', u) {
      assert ThreadOk(m, u);
    }
    forall r | r in m'.queue ensures QueueOk(m', r) {
      assert QueueOk(m, r);
    }
  }

  lemma BlockKeeps(m: Machine, s: Sid)
    requires Placed(m) && s in m.value && !m.phase.Sleeping? && m.toBeDestroyed.None? && m.value[s] == 0
    ensures Placed(P(m, s)) && m.current !in m.queue[s]
  {
    var m', t := P(m, s), m.current;
    assert QueueOk(m, s);
    assert t !in m.queue[s] && t !in m.ready;
    assert ReadyOk(m') && CpuOk(m');
    hide ReadyOk; hide CpuOk;
    forall u | u in m'.status ensures ThreadOk(m', u) {
      assert ThreadOk(m, u);
      assert u in m.queue[s] + [t] <==> u in m.queue[s] || u == t;
    }
    forall r | r in m'.queue ensures QueueOk(m', r) {
      assert QueueOk(m, r);
    }
  }

  /* Each operation keeps the semaphores. */

  /** Operations that touch no semaphore and wake nobody. */
  lemma SemaphoresApart(m: Machine, m': Machine)
    requires SemaphoresOk(m) && m'.value == m.value && m'.queue == m.queue && m'.initial == m.initial
    requires m'.ps == m.ps && m'.vs == m.vs
    requires forall s :: s in m.value ==> Woken(m', s) == Woken(m, s)
    ensures SemaphoresOk(m')
  {
    hide Woken;
    forall s | s in m'.value ensures SemaphoreOk(m', s) {
      assert SemaphoreOk(m, s);
    }
  }

  lemma CreateIsSafe(m: Machine, t: Tid)
    requires Inv(m) && t !in m.status && t !in m.deleted
    ensures Inv(Create(m, t))
  {
    CreateKeeps(m, t);
    var m' := Create(m, t);
    hide ThreadOk; hide QueueOk; hide NoDuplicates;
    forall s | s in m.value ensures Woken(m', s) == Woken(m, s) {}
    SemaphoresApart(m, m');
    hide SemaphoreOk;
  }

  lemma ForkIsSafe(m: Machine, t: Tid)
    requires Inv(m) && t in m.status && m.status[t].JustCreated?
    ensures Inv(Fork(m, t))
  {
    ForkKeeps(m, t);
    var m' := Fork(m, t);
    hide ThreadOk; hide QueueOk; hide NoDuplicates;
    forall s | s in m.value ensures Woken(m', s) == Woken(m, s) {}
    SemaphoresApart(m, m');
    hide SemaphoreOk;
  }

  lemma YieldIsSafe(m: Machine)
    requires Inv(m) && m.phase.Normal?
    ensures Inv(Yield(m))
  {
    YieldKeeps(m);
    var m' := Yield(m);
    hide ThreadOk; hide QueueOk; hide NoDuplicates;
    forall s | s in m.value ensures Woken(m', s) == Woken(m, s) {}
    SemaphoresApart(m, m');
    hide SemaphoreOk;
  }

  lemma FinishIsSafe(m: Machine)
    requires Inv(m) && m.phase.Normal?
    ensures Inv(Finish(m))
  {
    FinishKeeps(m);
    var m' := Finish(m);
    hide ThreadOk; hide QueueOk; hide NoDuplicates;
    forall s | s in m.value ensures Woken(m', s) == Woken(m, s) {}
    SemaphoresApart(m, m');
    hide SemaphoreOk;
  }

  lemma LoopIsSafe(m: Machine)
    requires Inv(m) && m.phase.Sleeping?
    ensures Inv(SleepLoop(m))
  {
    LoopKeeps(m);
    var m' := SleepLoop(m);
    hide ThreadOk; hide QueueOk; hide NoDuplicates;
    forall s | s in m.value ensures Woken(m', s) == Woken(m, s) {}
    SemaphoresApart(m, m');
    hide SemaphoreOk;
  }

  lemma ReapIsSafe(m: Machine)
    requires Inv(m) && m.phase.Switched?
    ensures Inv(CheckToBeDestroyed(m))
  {
    ReapKeeps(m);
    var m' := CheckToBeDestroyed(m);
    hide ThreadOk; hide QueueOk; hide NoDuplicates;
    forall s | s in m.value ensures Woken(m', s) == Woken(m, s) {}
    SemaphoresApart(m, m');
    hide SemaphoreOk;
  }

  lemma VWoken(m: Machine, s: Sid, r: Sid)
    requires Inv(m) && s in m.value && !m.phase.Switched?
    ensures r == s && m.queue[s] != [] ==> |Woken(V(m, s), r)| == |Woken(m, r)| + 1
    ensures r != s || m.queue[s] == [] ==> Woken(V(m, s), r) == Woken(m, r)
  {
    var m' := V(m, s);
    assert QueueOk(m, s);
    hide SemaphoreOk; hide ReadyOk; hide ThreadOk; hide CpuOk; hide QueueOk; hide NoDuplicates;
    if r == s && m.queue[s] != [] {
      assert Woken(m', s) == Woken(m, s) + {m.queue[s][0]};
    }
  }

  lemma VIsSafe(m: Machine, s: Sid)
    requires Inv(m) && s in m.value && !m.phase.Switched?
    ensures Inv(V(m, s))
  {
    VKeeps(m, s);
    var m' := V(m, s);
    hide ThreadOk; hide QueueOk; hide CpuOk; hide ReadyOk; hide Woken;
    forall r | r in m'.value ensures SemaphoreOk(m', r) {
      assert SemaphoreOk(m, r);
      VWoken(m, s, r);
    }
  }

  /** Whatever P does, the calling thread is no longer on its way to the test. */
  lemma PWoken(m: Machine, s: Sid, r: Sid)
    requires Inv(m) && s in m.value && !m.phase.Sleeping? && m.toBeDestroyed.None?
    requires m.phase.Switched? ==> m.resume[m.current] == InP(s)
    ensures Woken(P(m, s), r) == Woken(m, r) - {m.current}
    ensures r != s ==> m.current !in Woken(m, r)
  {
    hide SemaphoreOk; hide ReadyOk; hide ThreadOk; hide QueueOk;
  }

  lemma PIsSafe(m: Machine, s: Sid)
    requires Inv(m) && s in m.value && !m.phase.Sleeping? && m.toBeDestroyed.None?
    requires m.phase.Switched? ==> m.resume[m.current] == InP(s)
    ensures Inv(P(m, s))
  {
    if m.value[s] == 0 { BlockKeeps(m, s); } else { PassKeeps(m, s); }
    var m' := P(m, s);
    hide ThreadOk; hide QueueOk; hide ReadyOk; hide CpuOk; hide Woken;
    forall r | r in m'.value ensures SemaphoreOk(m', r) {
      assert SemaphoreOk(m, r);
      PWoken(m, s, r);
    }
  }

  lemma NewSemaphoreKeeps(m: Machine, s: Sid, value: nat)
    requires Placed(m) && s !in m.value
    ensures Placed(NewSemaphore(m, s, value))
  {
    var m' := NewSemaphore(m, s, value);
    assert ReadyOk(m') && CpuOk(m');
    hide ReadyOk; hide CpuOk;
    forall u | u in m'.status ensures ThreadOk(m', u) {
      assert ThreadOk(m, u);
    }
    forall r | r in m'.queue ensures QueueOk(m', r) {
      assert r != s ==> QueueOk(m, r);
    }
  }

  lemma NewSemaphoreIsSafe(m: Machine, s: Sid, value: nat)
    requires Inv(m) && s !in m.value
    ensures Inv(NewSemaphore(m, s, value))
  {
    NewSemaphoreKeeps(m, s, value);
    var m' := NewSemaphore(m, s, value);
    hide ThreadOk; hide QueueOk; hide ReadyOk; hide CpuOk;
    forall r | r in m'.value ensures SemaphoreOk(m', r) {
      assert r != s ==> SemaphoreOk(m, r);
      assert Woken(m', r) == Woken(m, r);
    }
  }

  lemma ContinueIsSafe(m: Machine)
    requires Inv(m) && m.phase.Switched?
    ensures Inv(Continue(m))
  {
    ReapIsSafe(m);
    var m1 := CheckToBeDestroyed(m);
    if m.resume[m.current].InP? {
      PIsSafe(m1, m.resume[m.current].sem);
    } else {
      LeaveIsSafe(m1);
    }
    hide ThreadOk; hide QueueOk; hide ReadyOk; hide SemaphoreOk;
  }

  lemma LeaveIsSafe(m: Machine)
    requires Inv(m) && m.phase.Switched? && m.toBeDestroyed.None? && !m.resume[m.current].InP?
    ensures Inv(m.(phase := Normal))
  {
    var m' := m.(phase := Normal);
    assert ReadyOk(m') && CpuOk(m');
    forall u | u in m'.status ensures ThreadOk(m', u) {
      assert ThreadOk(m, u);
    }
    forall r | r in m'.queue ensures QueueOk(m', r) {
      assert QueueOk(m, r);
    }
    forall s | s in m.value ensures Woken(m', s) == Woken(m, s) {}
    SemaphoresApart(m, m');
  }

  /* Whole runs. */

  /** What may happen next: in `Normal` the current thread calls an operation or
      an interrupt handler calls V; in the loop of Sleep a handler may call V while
      the machine idles. `Go` is the next round of that loop, or the return from
      SWITCH. */
  datatype Event =
    | NewThread(thread: Tid) | ForkThread(thread: Tid) | YieldCpu | FinishThread
    | NewSem(sem: Sid, value: nat) | CallP(sem: Sid) | CallV(sem: Sid) | Go

  function Step(m: Machine, e: Event): Machine
    requires Shaped(m)
  {
    match e
    case NewThread(t) => if m.phase.Normal? && t !in m.status && t !in m.deleted then Create(m, t) else m
    case ForkThread(t) => if m.phase.Normal? && t in m.status && m.status[t].JustCreated? then Fork(m, t) else m
    case YieldCpu => if m.phase.Normal? then Yield(m) else m
    case FinishThread => if m.phase.Normal? then Finish(m) else m
    case NewSem(s, value) => if m.phase.Normal? && s !in m.value then NewSemaphore(m, s, value) else m
    case CallP(s) => if m.phase.Normal? && s in m.value then P(m, s) else m
    case CallV(s) => if !m.phase.Switched? && s in m.value then V(m, s) else m
    case Go => if m.phase.Sleeping? then SleepLoop(m) else if m.phase.Switched? then Continue(m) else m
  }

  /** The machine at start-up: the main thread runs. */
  function Boot(main: Tid): Machine {
    Machine(main, [], None, map[main := Running], map[], map[], map[], Normal, map[], map[], map[], {})
  }

  lemma StepIsSafe(m: Machine, e: Event)
    requires Inv(m)
    ensures Inv(Step(m, e))
  {
    hide Placed; hide SemaphoresOk;
    assert Shaped(m) && CpuOk(m) by { InvShape(m); }
    match e {
      case NewThread(t) => if m.phase.Normal? && t !in m.status && t !in m.deleted { CreateIsSafe(m, t); }
      case ForkThread(t) => if m.phase.Normal? && t in m.status && m.status[t].JustCreated? { ForkIsSafe(m, t); }
      case YieldCpu => if m.phase.Normal? { YieldIsSafe(m); }
      case FinishThread => if m.phase.Normal? { FinishIsSafe(m); }
      case NewSem(s, value) => if m.phase.Normal? && s !in m.value { NewSemaphoreIsSafe(m, s, value); }
      case CallP(s) => if m.phase.Normal? && s in m.value { PIsSafe(m, s); }
      case CallV(s) => if !m.phase.Switched? && s in m.value { VIsSafe(m, s); }
      case Go =>
        if m.phase.Sleeping? { LoopIsSafe(m); }
        if m.phase.Switched? { ContinueIsSafe(m); }
    }
  }

  lemma InvShape(m: Machine)
    requires Inv(m)
    ensures Shaped(m) && CpuOk(m)
  {
  }

  lemma BootIsSafe(main: Tid)
    ensures Inv(Boot(main))
  {
  }

  /** The machine after any sequence of events. */
  function Execute(main: Tid, events: seq<Event>): (m: Machine)
    ensures Inv(m)
    decreases |events|
  {
    if events == [] then
      BootIsSafe(main);
      Boot(main)
    else
      var m := Execute(main, events[..|events| - 1]);
      InvShape(m);
      StepIsSafe(m, events[|events| - 1]);
      Step(m, events[|events| - 1])
  }

  /* What this means, of every reachable machine. */

  ghost predicate Queued(m: Machine, t: Tid) { exists s :: InQueue(m, t, s) }

  function One(b: bool): nat { if b then 1 else 0 }

  /** Every live thread is in exactly one place: just created, running, on the
      ready list, on the queue of one semaphore, or finishing. */
  lemma ThreadHasOnePlace(main: Tid, events: seq<Event>, t: Tid)
    requires t in Execute(main, events).status
    ensures var m := Execute(main, events);
            && One(m.status[t].JustCreated?) + One(t == m.current && !m.phase.Sleeping?) + One(t in m.ready)
               + (if Queued(m, t) then 1 else 0) + One(Finishing(m, t)) == 1
            && NoDuplicates(m.ready) && (forall s :: s in m.queue ==> NoDuplicates(m.queue[s]))
            && (forall s, r :: InQueue(m, t, s) && InQueue(m, t, r) ==> s == r)
            && t !in m.deleted
  {
    hide Execute; hide SemaphoresOk; hide NoDuplicates;
    var m := Execute(main, events);
    assert ThreadOk(m, t);
    forall s | s in m.queue ensures NoDuplicates(m.queue[s]) && (t in m.queue[s] ==> m.status[t] == Blocked && m.resume[t] == InP(s)) {
      assert QueueOk(m, s);
    }
    if m.status[t] == Blocked && m.resume[t].InP? {
      assert InQueue(m, t, m.resume[t].sem);
    }
  }

  /** The ASSERTs of List::Append, Scheduler::Run and Thread::~Thread: nobody is
      put on a list twice, toBeDestroyed is NULL when it is set, and the thread
      deleted is neither running nor on any list, nor was it deleted before. */
  lemma AssertionsHold(main: Tid, events: seq<Event>)
    ensures var m := Execute(main, events);
            && (m.phase.Normal? ==> m.current !in m.ready && forall s :: s in m.queue ==> m.current !in m.queue[s])
            && (forall t :: t in m.status && m.status[t].JustCreated? ==> t !in m.ready)
            && (forall s :: s in m.queue && m.queue[s] != [] ==> m.queue[s][0] !in m.ready)
            && (m.phase.Sleeping? ==> m.toBeDestroyed.None?)
            && (m.phase == Sleeping(true) && m.ready != [] ==> m.ready[0] != m.current)
            && (m.toBeDestroyed.Some? ==>
                  var t := m.toBeDestroyed.value;
                  t != m.current && t in m.status && t !in m.deleted && t !in m.ready && !Queued(m, t))
  {
    hide Execute; hide SemaphoresOk; hide NoDuplicates;
    var m := Execute(main, events);
    forall s | s in m.queue
      ensures forall i :: 0 <= i < |m.queue[s]| ==>
        m.queue[s][i] in m.status && m.status[m.queue[s][i]] == Blocked
        && m.queue[s][i] in m.resume && m.resume[m.queue[s][i]] == InP(s)
    {
      assert QueueOk(m, s);
    }
    if m.toBeDestroyed.Some? {
      assert ThreadOk(m, m.toBeDestroyed.value);
    }
  }

  /** Semaphores under barging: the value is what the completed calls make it, and
      a positive value never meets waiters with nobody on the way. */
  lemma NoWakeupIsLost(main: Tid, events: seq<Event>, s: Sid)
    requires s in Execute(main, events).value
    ensures var m := Execute(main, events);
            && Shaped(m)
            && m.value[s] + m.ps[s] == m.initial[s] + m.vs[s]
            && (m.queue[s] != [] ==> m.value[s] <= |Woken(m, s)|)
            && (m.queue[s] != [] && m.value[s] > 0 ==> Woken(m, s) != {})
  {
    hide Execute; hide Woken;
    var m := Execute(main, events);
    assert SemaphoreOk(m, s);
  }

  /* What the operations find when they are called. */

  lemma FoundByP(m: Machine, s: Sid)
    requires Inv(m) && s in m.value && !m.phase.Sleeping?
    ensures Shaped(m) && s in m.queue && s in m.ps && m.current !in m.queue[s]
  {
    assert QueueOk(m, s);
  }

  lemma FoundByV(m: Machine, s: Sid)
    requires Inv(m) && s in m.value
    ensures Shaped(m) && s in m.queue && s in m.vs && (m.queue[s] != [] ==> m.queue[s][0] !in m.ready)
  {
    assert QueueOk(m, s);
  }
}
