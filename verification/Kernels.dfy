/** The scheduler, threads and semaphores as the code runs them: the operations of
module Scheduling, carried out on the kernel's own variables. */
module Kernels {
  import opened Options
  import opened Scheduling

  class Kernel {
    var currentThread: Tid
    var readyList: seq<Tid>
    var toBeDestroyed: Option<Tid>
    var status: map<Tid, Status>
    var resume: map<Tid, Resume>
    var value: map<Sid, nat>
    var queue: map<Sid, seq<Tid>>
    var phase: Phase
    var intOn: bool  // interrupt->getLevel() == IntOn
    ghost var initial: map<Sid, nat>
    ghost var ps: map<Sid, nat>
    ghost var vs: map<Sid, nat>
    var deleted: set<Tid>  // history: names of deleted threads are not used again

    ghost function View(): Machine
      reads this
    {
      Machine(currentThread, readyList, toBeDestroyed, status, resume, value, queue, phase, initial, ps, vs, deleted)
    }

    ghost predicate Valid()
      reads this
    {
      Inv(View()) && intOn == phase.Normal?
    }

    constructor (main: Tid)
      ensures Valid() && View() == Boot(main)
      ensures currentThread == main && readyList == [] && status == map[main := Running] && queue == map[] && phase.Normal?
    {
      currentThread, readyList, toBeDestroyed, phase, intOn := main, [], None, Normal, true;
      status, resume, value, queue := map[main := Running], map[], map[], map[];
      initial, ps, vs, deleted := map[], map[], map[], {};
      new;
      BootIsSafe(main);
    }

    /* Scheduler: interrupts are off. */

    method ReadyToRun(thread: Tid)
      requires !intOn && thread !in readyList  // the ASSERT of List::Append
      modifies this`status, this`readyList
      ensures View() == Scheduling.ReadyToRun(old(View()), thread)
      ensures readyList == old(readyList) + [thread] && status == old(status)[thread := Ready]
    {
      status := status[thread := Ready];
      readyList := readyList + [thread];
    }

    method FindNextToRun() returns (next: Option<Tid>)
      requires !intOn
      modifies this`readyList
      ensures old(readyList) == [] ==> next == None && readyList == []
      ensures old(readyList) != [] ==> next == Some(old(readyList)[0]) && readyList == old(readyList)[1..]
    {
      if readyList == [] {
        next := None;
      } else {
        next, readyList := Some(readyList[0]), readyList[1..];
      }
    }

    /** Up to SWITCH. */
    method Run(next: Tid, finishing: bool)
      requires !intOn && (finishing ==> toBeDestroyed == None)
      modifies this`toBeDestroyed, this`currentThread, this`status, this`phase
      ensures View() == Scheduling.Run(old(View()), next, finishing)
      ensures currentThread == next && status == old(status)[next := Running] && phase.Switched?
      ensures toBeDestroyed == if finishing then Some(old(currentThread)) else old(toBeDestroyed)
    {
      if finishing {
        toBeDestroyed := Some(currentThread);
      }
      currentThread := next;
      status := status[next := Running];
      phase := Switched;
    }

    method CheckToBeDestroyed()
      requires toBeDestroyed != Some(currentThread)  // the ASSERT of Thread::~Thread
      modifies this`toBeDestroyed, this`status, this`deleted
      ensures View() == Scheduling.CheckToBeDestroyed(old(View()))
      ensures toBeDestroyed == None
      ensures old(toBeDestroyed).Some? ==> old(toBeDestroyed).value !in status && old(toBeDestroyed).value in deleted
    {
      match toBeDestroyed {
        case Some(thread) =>
          status := status - {thread};
          deleted := deleted + {thread};
          toBeDestroyed := None;
        case None =>
      }
    }

    /* Thread. */

    method NewThread(thread: Tid)
      requires Valid() && phase.Normal? && thread !in status && thread !in deleted
      modifies this
      ensures Valid() && View() == Create(old(View()), thread)
      ensures status == old(status)[thread := JustCreated] && readyList == old(readyList)
    {
      CreateIsSafe(View(), thread);
      status := status[thread := JustCreated];
      hide Inv;
    }

    method Fork(thread: Tid)
      requires Valid() && phase.Normal? && thread in status && status[thread].JustCreated?
      modifies this
      ensures Valid() && View() == Scheduling.Fork(old(View()), thread)
      ensures readyList == old(readyList) + [thread] && status == old(status)[thread := Ready]
      ensures currentThread == old(currentThread) && phase.Normal?
    {
      hide SemaphoresOk; hide ThreadOk; hide QueueOk;
      ForkIsSafe(View(), thread);
      intOn := false;
      resume := resume[thread := AtBegin];
      ReadyToRun(thread);
      intOn := true;
    }

    /** Up to SWITCH, if another thread is ready. */
    method Yield()
      requires Valid() && phase.Normal?
      modifies this
      ensures Valid() && View() == Scheduling.Yield(old(View()))
      ensures old(readyList) == [] ==> View() == old(View())
      ensures old(readyList) != [] ==>
        && currentThread == old(readyList)[0] && readyList == old(readyList)[1..] + [old(currentThread)]
        && status[currentThread] == Running && status[old(currentThread)] == Ready && toBeDestroyed == old(toBeDestroyed)
    {
      hide SemaphoresOk; hide ThreadOk; hide QueueOk;
      YieldIsSafe(View());
      assert currentThread !in readyList;
      intOn := false;
      var next := FindNextToRun();
      match next {
        case Some(thread) =>
          resume := resume[currentThread := AfterYield];
          ReadyToRun(currentThread);
          Run(thread, false);
        case None =>
          intOn := true;
      }
    }

    /** Up to the loop. */
    method Sleep(finishing: bool)
      requires !intOn
      modifies this`status, this`phase
      ensures View() == Scheduling.Sleep(old(View()), finishing)
      ensures status == old(status)[currentThread := Blocked] && phase == Sleeping(finishing)
    {
      status := status[currentThread := Blocked];
      phase := Sleeping(finishing);
    }

    method Finish()
      requires Valid() && phase.Normal?
      modifies this
      ensures Valid() && View() == Scheduling.Finish(old(View()))
      ensures status == old(status)[currentThread := Blocked] && phase == Sleeping(true)
      ensures currentThread == old(currentThread) && readyList == old(readyList)
    {
      FinishIsSafe(View());
      intOn := false;
      resume := resume[currentThread := Never];
      Sleep(true);
      hide Inv;
    }

    /** One round of the loop of Sleep. When nobody is ready the machine idles and
        an interrupt handler may make somebody so before the next round. */
    method SleepRound()
      requires Valid() && phase.Sleeping?
      modifies this
      ensures Valid() && View() == SleepLoop(old(View()))
      ensures old(readyList) == [] ==> View() == old(View())
      ensures old(readyList) != [] ==>
        && currentThread == old(readyList)[0] && readyList == old(readyList)[1..] && status[currentThread] == Running
        && toBeDestroyed == if old(phase).finishing then Some(old(currentThread)) else old(toBeDestroyed)
    {
      hide SemaphoresOk; hide ThreadOk; hide QueueOk; hide ReadyOk;
      LoopIsSafe(View());
      var next := FindNextToRun();
      match next {
        case Some(thread) => Run(thread, phase.finishing);
        case None =>
      }
    }

    /* Semaphore. */

    method NewSemaphore(s: Sid, initialValue: nat)
      requires Valid() && phase.Normal? && s !in value
      modifies this`value, this`queue, this`initial, this`ps, this`vs
      ensures Valid() && View() == Scheduling.NewSemaphore(old(View()), s, initialValue)
      ensures value == old(value)[s := initialValue] && queue == old(queue)[s := []]
    {
      hide Inv;
      ghost var m' := Scheduling.NewSemaphore(View(), s, initialValue);
      NewSemaphoreIsSafe(View(), s, initialValue);
      value := value[s := initialValue];
      queue := queue[s := []];
      initial, ps, vs := m'.initial, m'.ps, m'.vs;
      assert View() == m';
    }

    /** The loop of P, from its test. */
    method TestAndTake(s: Sid)
      requires Shaped(View()) && s in value && s in queue && s in ps && !intOn
      requires currentThread !in queue[s]  // the ASSERT of List::Append
      modifies this
      ensures View() == Scheduling.P(old(View()), s) && intOn == phase.Normal?
      ensures if old(value)[s] > 0 then value == old(value)[s := old(value)[s] - 1] && queue == old(queue) && phase.Normal?
              else && value == old(value) && queue == old(queue)[s := old(queue)[s] + [currentThread]]
                   && status == old(status)[currentThread := Blocked] && phase == Sleeping(false)
      ensures currentThread == old(currentThread) && readyList == old(readyList)
    {
      hide Shaped;
      if value[s] == 0 {
        queue := queue[s := queue[s] + [currentThread]];
        resume := resume[currentThread := InP(s)];
        Sleep(false);
      } else {
        value := value[s := value[s] - 1];
        ps := ps[s := ps[s] + 1];
        phase, intOn := Normal, true;
      }
    }

    method P(s: Sid)
      requires Valid() && phase.Normal? && s in value
      modifies this
      ensures Valid() && View() == Scheduling.P(old(View()), s)
      ensures if old(value)[s] > 0 then value == old(value)[s := old(value)[s] - 1] && queue == old(queue) && phase.Normal?
              else && value == old(value) && s in old(queue) && queue == old(queue)[s := old(queue)[s] + [currentThread]]
                   && status == old(status)[currentThread := Blocked] && phase == Sleeping(false)
      ensures currentThread == old(currentThread) && readyList == old(readyList)
    {
      FoundByP(View(), s);
      PIsSafe(View(), s);
      hide Inv;
      intOn := false;
      TestAndTake(s);
    }

    /** The first half of V. */
    method WakeFirst(s: Sid)
      requires !intOn && s in queue && (queue[s] != [] ==> queue[s][0] !in readyList)
      modifies this`queue, this`status, this`readyList
      ensures View() == if old(queue)[s] == [] then old(View())
                        else Scheduling.ReadyToRun(old(View()).(queue := old(queue)[s := old(queue)[s][1..]]), old(queue)[s][0])
    {
      if queue[s] != [] {
        var thread := queue[s][0];
        queue := queue[s := queue[s][1..]];
        ReadyToRun(thread);
      }
    }

    /** Called by the running thread, or by an interrupt handler. */
    method V(s: Sid)
      requires Valid() && !phase.Switched? && s in value
      modifies this
      ensures Valid() && View() == Scheduling.V(old(View()), s)
      ensures value == old(value)[s := old(value)[s] + 1] && s in old(queue) && currentThread == old(currentThread)
      ensures if old(queue)[s] == [] then queue == old(queue) && readyList == old(readyList) && status == old(status)
              else && queue == old(queue)[s := old(queue)[s][1..]] && readyList == old(readyList) + [old(queue)[s][0]]
                   && status == old(status)[old(queue)[s][0] := Ready]
    {
      hide Inv; hide Shaped;
      ghost var m := View();
      FoundByV(m, s);
      VIsSafe(m, s);
      var wasOn := intOn;
      intOn := false;
      WakeFirst(s);
      value := value[s := value[s] + 1];
      vs := vs[s := vs[s] + 1];
      intOn := wasOn;
    }

    /** A thread is back from SWITCH: in Run, or in Begin if it is new. */
    method Continue()
      requires Valid() && phase.Switched?
      modifies this
      ensures Valid() && View() == Scheduling.Continue(old(View()))
      ensures toBeDestroyed == None && currentThread == old(currentThread) && readyList == old(readyList)
      ensures currentThread in old(resume)
      ensures match old(resume)[currentThread]
              case InP(s) =>
                && s in old(value) && s in old(queue)
                && if old(value)[s] > 0 then value == old(value)[s := old(value)[s] - 1] && queue == old(queue) && phase.Normal?
                   else && value == old(value) && queue == old(queue)[s := old(queue)[s] + [currentThread]]
                        && status[currentThread] == Blocked && phase == Sleeping(false)
              case _ => value == old(value) && queue == old(queue) && phase.Normal?
      ensures old(toBeDestroyed).Some? ==> old(toBeDestroyed).value !in status && old(toBeDestroyed).value in deleted
    {
      ghost var m := View();
      ContinueIsSafe(m);
      ReapIsSafe(m);
      InvShape(m);
      hide Inv; hide Scheduling.P; hide Shaped;
      CheckToBeDestroyed();
      hide Scheduling.CheckToBeDestroyed;
      if resume[currentThread].InP? {
        FoundByP(View(), resume[currentThread].sem);
        TestAndTake(resume[currentThread].sem);
      } else {
        phase, intOn := Normal, true;
      }
    }

    /* Any history. */

    method Handle(e: Event)
      requires Valid()
      modifies this
      ensures Valid() && Shaped(old(View())) && View() == Step(old(View()), e)
    {
      InvShape(View());
      hide Placed; hide SemaphoresOk;
      match e {
        case NewThread(t) => if phase.Normal? && t !in status && t !in deleted { NewThread(t); }
        case ForkThread(t) => if phase.Normal? && t in status && status[t].JustCreated? { Fork(t); }
        case YieldCpu => if phase.Normal? { Yield(); }
        case FinishThread => if phase.Normal? { Finish(); }
        case NewSem(s, initialValue) => if phase.Normal? && s !in value { NewSemaphore(s, initialValue); }
        case CallP(s) => if phase.Normal? && s in value { P(s); }
        case CallV(s) => if !phase.Switched? && s in value { V(s); }
        case Go => if phase.Sleeping? { SleepRound(); } else if phase.Switched? { Continue(); }
      }
    }
  }

  /** A kernel from start-up through any history: no ASSERT fires, and it is where
      the operations of module Scheduling put it. */
  method RunKernel(main: Tid, events: seq<Event>) returns (kernel: Kernel)
    ensures fresh(kernel) && kernel.Valid() && kernel.View() == Execute(main, events)
  {
    hide Inv; hide Step;
    kernel := new Kernel(main);
    var n := 0;
    while n < |events|
      invariant 0 <= n <= |events|
      invariant fresh(kernel) && kernel.Valid() && kernel.View() == Execute(main, events[..n])
    {
      assert events[..n + 1][..n] == events[..n];
      kernel.Handle(events[n]);
      n := n + 1;
    }
    assert events[..n] == events;
  }
}
