/** The protocol between threads and a device that serves one request at a time
and interrupts when it is done. SynchDisk::ReadSector and WriteSector
(filesys/synchdisk.cc) and PostOfficeOutput::Send (network/post.cc) follow it:
acquire a lock, make the request, wait on a semaphore that the interrupt handler
signals, release the lock. A step is one statement of one thread, or one interrupt. */
module Devices {
  import opened Options

  type Tid = nat

  datatype Phase =
    | Outside
    | Locking     // in the P of lock->Acquire()
    | Locked      // P has returned, lockHolder not yet set
    | Ready       // about to make the request
    | Waiting     // semaphore->P()
    | Served      // about to clear lockHolder in lock->Release()
    | Unlocked    // lockHolder cleared, V not yet done

  /** `interrupts` counts the completion interrupts the simulator has pending.
      The last three fields are history: who is between the P and the V of the
      lock, and how many requests were made and completed. */
  datatype Device = Device(
    lock: nat, holder: Option<Tid>, semaphore: nat, active: bool, interrupts: nat, phases: map<Tid, Phase>,
    owner: Option<Tid>, started: nat, finished: nat)

  datatype Event = Call(who: Tid) | Tick(who: Tid) | Interrupt

  function Goto(d: Device, t: Tid, phase: Phase): Device { d.(phases := d.phases[t := phase]) }

  function Advance(d: Device, t: Tid): Device
    requires t in d.phases
  {
    match d.phases[t]
    case Outside => d
    case Locking => if d.lock == 0 then d else Goto(d.(lock := d.lock - 1, owner := Some(t)), t, Locked)
    case Locked => Goto(d.(holder := Some(t)), t, Ready)
    case Ready => Goto(d.(active := true, interrupts := d.interrupts + 1, started := d.started + 1), t, Waiting)
    case Waiting => if d.semaphore == 0 then d else Goto(d.(semaphore := d.semaphore - 1), t, Served)
    case Served => Goto(d.(holder := None), t, Unlocked)
    case Unlocked => Goto(d.(lock := d.lock + 1, owner := None), t, Outside)
  }

  function Step(d: Device, e: Event): Device {
    match e
    case Call(t) => if t in d.phases && d.phases[t].Outside? then Goto(d, t, Locking) else d
    case Tick(t) => if t in d.phases then Advance(d, t) else d
    case Interrupt =>
      if d.interrupts == 0 then d
      else d.(interrupts := d.interrupts - 1, active := false, semaphore := d.semaphore + 1, finished := d.finished + 1)
  }

  function Initial(threads: set<Tid>): Device {
    Device(1, None, 0, false, 0, map t | t in threads :: Outside, None, 0, 0)
  }

  predicate Holds(phase: Phase) { !phase.Outside? && !phase.Locking? }

  function OwnerPhase(d: Device): Phase {
    if d.owner.Some? && d.owner.value in d.phases then d.phases[d.owner.value] else Outside
  }

  ghost predicate Inv(d: Device) {
    && d.lock == (if d.owner.None? then 1 else 0)
    && (d.owner.Some? ==> d.owner.value in d.phases)
    && (forall t :: t in d.phases ==> (Holds(d.phases[t]) <==> d.owner == Some(t)))
    && d.holder == (if OwnerPhase(d) in {Ready, Waiting, Served} then d.owner else None)
    && d.semaphore + d.interrupts == (if OwnerPhase(d).Waiting? then 1 else 0)
    && (d.active <==> d.interrupts == 1)
    && d.started == d.finished + d.interrupts
  }

  lemma InitialInv(threads: set<Tid>)
    ensures Inv(Initial(threads))
  {
    assert forall t :: t in Initial(threads).phases ==> Initial(threads).phases[t] == Outside;
  }

  lemma StepKeepsInv(d: Device, e: Event)
    requires Inv(d)
    ensures Inv(Step(d, e))
  {
  }

  /** Only a call brings a thread in. */
  lemma OnlyCallsEnter(d: Device, e: Event, t: Tid)
    requires t in Step(d, e).phases && !Step(d, e).phases[t].Outside?
    ensures t in d.phases && (!d.phases[t].Outside? || e == Call(t))
  {
  }

  /** The device's ASSERT(!active) holds at every request, lockHolder names the
      releasing thread, and a thread that has passed its wait finds every request
      made so far completed. */
  lemma AssertionsHold(d: Device, t: Tid)
    requires Inv(d) && t in d.phases
    ensures d.phases[t].Ready? ==> !d.active && d.interrupts == 0 && d.semaphore == 0
    ensures d.phases[t].Ready? || d.phases[t].Waiting? || d.phases[t].Served? ==> d.holder == Some(t)
    ensures d.phases[t].Served? || d.phases[t].Unlocked? ==> d.finished == d.started
  {
  }
}
