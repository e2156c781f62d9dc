/** Locks, condition variables and the synchronised list built on them
(threads/synch.cc, threads/synchlist.cc), as a step machine.

A step is one statement of one thread, so that a switch may happen between any
two statements: more interleavings than the kernel has. `Semaphore::P` is a
step that is possible only while the value is positive, `V` one that adds one. */
module SynchLists {
  import opened Options

  type Tid = nat
  type Wid = nat   // a semaphore allocated by Condition::Wait
  type Item = nat  // a pointer

  /** Whose code called Wait, Signal or Broadcast: the synchronised list, or any
      other client that holds the lock. */
  datatype Home = ToList | ToClient

  /** What a thread does once it has released the lock. */
  datatype After = Returned(result: Option<Item>) | Blocking(waiter: Wid, home: Home)

  /** The statement a thread is about to execute inside the monitor. */
  datatype Task =
    | Adding(item: Item)                          // list->Append(item)
    | Signalling(all: bool, home: Home)           // !waitQueue->IsEmpty(), in Signal or in the loop of Broadcast
    | Waking(waiter: Wid, all: bool, home: Home)  // waiter->V()
    | Woke(waiter: Wid, all: bool, home: Home)    // value incremented, V not yet returned
    | Testing                                     // while (list->IsEmpty())
    | Waiting(home: Home)                         // waiter = new Semaphore; waitQueue->Append(waiter)
    | Disposing(waiter: Wid, home: Home)          // delete waiter
    | Removing                                    // list->RemoveFront()
    | Releasing(after: After)                     // ASSERT(IsHeldByCurrentThread()); lockHolder = NULL
    | OwnCode                                     // a client's own code, the lock held

  /** Where a thread enters the monitor. */
  datatype Entry = ToAppend(item: Item) | ToRemove | ToOwnCode | ToResume(waiter: Wid, home: Home)

  function First(entry: Entry): Task {
    match entry
    case ToAppend(item) => Adding(item)
    case ToRemove => Testing
    case ToOwnCode => OwnCode
    case ToResume(w, home) => Disposing(w, home)
  }

  /** What follows a Signal or Broadcast. */
  function AfterSignal(home: Home): Task { if home.ToList? then Releasing(Returned(None)) else OwnCode }

  /** What follows a Wait: the list tests its condition again. */
  function AfterWait(home: Home): Task { if home.ToList? then Testing else OwnCode }

  datatype Pc =
    | Idle
    | Locking(entry: Entry)             // in the P of Acquire
    | Locked(entry: Entry)              // P has returned, lockHolder not yet set
    | Inside(task: Task)
    | Unlocked(after: After)            // lockHolder cleared, V not yet done
    | Parked(waiter: Wid, home: Home)   // waiter->P()

  /** The last five fields are history: who is between the P and the V of the
      lock, the items in the order they were appended and removed, and the
      waiters in the order they entered Wait, were taken off the queue by a
      signaller, and got their V. `sleeper` says whose a waiter is. */
  datatype State = State(
    lock: nat, holder: Option<Tid>, list: seq<Item>, waitQueue: seq<Wid>, waiters: map<Wid, nat>,
    pcs: map<Tid, Pc>, sleeper: map<Wid, Tid>,
    owner: Option<Tid>, appended: seq<Item>, removed: seq<Item>,
    entered: seq<Wid>, picked: seq<Wid>, woken: seq<Wid>)

  function At(s: State, t: Tid, pc: Pc): State { s.(pcs := s.pcs[t := pc]) }

  /* The statements that change more than the thread's own position. */

  function TakeLock(s: State, t: Tid, entry: Entry): State
    requires s.lock > 0
  {
    At(s.(lock := s.lock - 1, owner := Some(t)), t, Locked(entry))
  }

  function SetHolder(s: State, t: Tid, entry: Entry): State {
    At(s.(holder := Some(t)), t, Inside(First(entry)))
  }

  function AddItem(s: State, t: Tid, item: Item): State {
    At(s.(list := s.list + [item], appended := s.appended + [item]), t, Inside(Signalling(false, ToList)))
  }

  function TakeItem(s: State, t: Tid): State
    requires s.list != []
  {
    At(s.(list := s.list[1..], removed := s.removed + [s.list[0]]), t, Inside(Releasing(Returned(Some(s.list[0])))))
  }

  function PickWaiter(s: State, t: Tid, all: bool, home: Home): State
    requires s.waitQueue != []
  {
    At(s.(waitQueue := s.waitQueue[1..], picked := s.picked + [s.waitQueue[0]]), t,
       Inside(Waking(s.waitQueue[0], all, home)))
  }

  function WakeWaiter(s: State, t: Tid, w: Wid, all: bool, home: Home): State
    requires w in s.waiters
  {
    At(s.(waiters := s.waiters[w := s.waiters[w] + 1], woken := s.woken + [w]), t, Inside(Woke(w, all, home)))
  }

  function NewWaiter(s: State, t: Tid, home: Home): State {
    var w := |s.entered|;
    At(s.(waitQueue := s.waitQueue + [w], waiters := s.waiters[w := 0], sleeper := s.sleeper[w := t],
          entered := s.entered + [w]), t, Inside(Releasing(Blocking(w, home))))
  }

  function PassWaiter(s: State, t: Tid, w: Wid, home: Home): State
    requires w in s.waiters && s.waiters[w] > 0
  {
    At(s.(waiters := s.waiters[w := s.waiters[w] - 1]), t, Locking(ToResume(w, home)))
  }

  function DeleteWaiter(s: State, t: Tid, w: Wid, home: Home): State {
    At(s.(waiters := s.waiters - {w}), t, Inside(AfterWait(home)))
  }

  function ClearHolder(s: State, t: Tid, after: After): State {
    At(s.(holder := None), t, Unlocked(after))
  }

  function FreeLock(s: State, t: Tid, after: After): State {
    At(s.(lock := s.lock + 1, owner := None), t, if after.Returned? then Idle else Parked(after.waiter, after.home))
  }

  function DoTask(s: State, t: Tid, task: Task): State {
    match task
    case Adding(item) => AddItem(s, t, item)
    case Signalling(all, home) =>
      if s.waitQueue == [] then At(s, t, Inside(AfterSignal(home))) else PickWaiter(s, t, all, home)
    case Waking(w, all, home) => if w in s.waiters then WakeWaiter(s, t, w, all, home) else s
    case Woke(w, all, home) => At(s, t, Inside(if all then Signalling(true, home) else AfterSignal(home)))
    case Testing => At(s, t, Inside(if s.list == [] then Waiting(ToList) else Removing))
    case Waiting(home) => NewWaiter(s, t, home)
    case Disposing(w, home) => DeleteWaiter(s, t, w, home)
    case Removing => if s.list == [] then s else TakeItem(s, t)
    case Releasing(after) => ClearHolder(s, t, after)
    case OwnCode => s
  }

  /** One step of a thread; a thread that cannot move leaves the state alone. */
  function Advance(s: State, t: Tid): State
    requires t in s.pcs
  {
    match s.pcs[t]
    case Idle => s
    case Locking(entry) => if s.lock == 0 then s else TakeLock(s, t, entry)
    case Locked(entry) => SetHolder(s, t, entry)
    case Inside(task) => DoTask(s, t, task)
    case Unlocked(after) => FreeLock(s, t, after)
    case Parked(w, home) => if w !in s.waiters || s.waiters[w] == 0 then s else PassWaiter(s, t, w, home)
  }

  /** An idle thread may call Append or RemoveFront, or acquire the lock for code
      of its own; from there it may wait, signal, broadcast or release, in any
      order and as often as it likes. Any thread may take a step. */
  datatype Event =
    | Append(who: Tid, item: Item) | RemoveFront(who: Tid) | Acquire(who: Tid)
    | Wait(who: Tid) | Signal(who: Tid) | Broadcast(who: Tid) | Release(who: Tid)
    | Tick(who: Tid)

  /** Where an event other than a step sends its thread. */
  function Chosen(pc: Pc, e: Event): Pc {
    match e
    case Append(_, item) => if pc.Idle? then Locking(ToAppend(item)) else pc
    case RemoveFront(_) => if pc.Idle? then Locking(ToRemove) else pc
    case Acquire(_) => if pc.Idle? then Locking(ToOwnCode) else pc
    case Wait(_) => if pc == Inside(OwnCode) then Inside(Waiting(ToClient)) else pc
    case Signal(_) => if pc == Inside(OwnCode) then Inside(Signalling(false, ToClient)) else pc
    case Broadcast(_) => if pc == Inside(OwnCode) then Inside(Signalling(true, ToClient)) else pc
    case Release(_) => if pc == Inside(OwnCode) then Inside(Releasing(Returned(None))) else pc
    case Tick(_) => pc
  }

  function Step(s: State, e: Event): State {
    if e.who !in s.pcs then s
    else if e.Tick? then Advance(s, e.who)
    else At(s, e.who, Chosen(s.pcs[e.who], e))
  }

  function Initial(threads: set<Tid>): State {
    State(1, None, [], [], map[], map t | t in threads :: Idle, map[], None, [], [], [], [], [])
  }

  function Run(s: State, events: seq<Event>): State
    decreases |events|
  {
    if events == [] then s else Step(Run(s, events[..|events| - 1]), events[|events| - 1])
  }

  /* The lock. */

  /** Between the decrement of P and the increment of V. */
  predicate Holds(pc: Pc) { pc.Locked? || pc.Inside? || pc.Unlocked? }

  ghost predicate LockInv(s: State) {
    && s.lock == (if s.owner.None? then 1 else 0)
    && (s.owner.Some? ==> s.owner.value in s.pcs)
    && (forall t :: t in s.pcs ==> (Holds(s.pcs[t]) <==> s.owner == Some(t)))
    && s.holder == (if s.owner.Some? && s.pcs[s.owner.value].Inside? then s.owner else None)
  }

  /* Conditions. */

  /** The waiter a thread has allocated and not yet deleted. */
  function WaiterOf(pc: Pc): Option<Wid> {
    match pc
    case Locking(ToResume(w, _)) => Some(w)
    case Locked(ToResume(w, _)) => Some(w)
    case Inside(Disposing(w, _)) => Some(w)
    case Inside(Releasing(Blocking(w, _))) => Some(w)
    case Unlocked(Blocking(w, _)) => Some(w)
    case Parked(w, _) => Some(w)
    case _ => None
  }

  /** It has not yet passed its waiter->P(). */
  predicate Unresumed(pc: Pc) {
    pc.Parked? || (pc.Unlocked? && pc.after.Blocking?) || (pc.Inside? && pc.task.Releasing? && pc.task.after.Blocking?)
  }

  /** The statement the owner of the lock has reached. */
  function OwnerTask(s: State): Option<Task> {
    if s.owner.Some? && s.owner.value in s.pcs && s.pcs[s.owner.value].Inside? then Some(s.pcs[s.owner.value].task)
    else None
  }

  predicate Signaller(s: State) { OwnerTask(s).Some? && OwnerTask(s).value.Waking? }

  /** Waiters are numbered in the order of entry; the queue holds those not yet
      picked, and all picked ones have their V, but for one in a signaller's hands. */
  ghost predicate QueueInv(s: State) {
    && |s.entered| == |s.picked| + |s.waitQueue|
    && |s.picked| == |s.woken| + (if Signaller(s) then 1 else 0)
    && (forall i :: 0 <= i < |s.entered| ==> s.entered[i] == i)
    && (forall i :: 0 <= i < |s.picked| ==> s.picked[i] == i)
    && (forall i :: 0 <= i < |s.woken| ==> s.woken[i] == i)
    && (forall i :: 0 <= i < |s.waitQueue| ==> s.waitQueue[i] == |s.picked| + i)
    && (Signaller(s) ==> OwnerTask(s).value.waiter == |s.woken|)
  }

  /** An allocated waiter belongs to one thread inside Wait, and its value is 1
      exactly between its V and its P. */
  predicate WaiterOk(s: State, w: Wid)
    requires w in s.waiters
  {
    && w < |s.entered| && w in s.sleeper && s.sleeper[w] in s.pcs
    && WaiterOf(s.pcs[s.sleeper[w]]) == Some(w)
    && s.waiters[w] == (if Unresumed(s.pcs[s.sleeper[w]]) && w < |s.woken| then 1 else 0)
    && (!Unresumed(s.pcs[s.sleeper[w]]) ==> w < |s.woken|)
  }

  predicate ThreadOk(s: State, t: Tid)
    requires t in s.pcs
  {
    WaiterOf(s.pcs[t]).Some? ==>
      var w := WaiterOf(s.pcs[t]).value; w in s.waiters && w in s.sleeper && s.sleeper[w] == t
  }

  ghost predicate WaiterInv(s: State) {
    && (forall w {:trigger WaiterOk(s, w)} :: w in s.waiters ==> WaiterOk(s, w))
    && (forall t {:trigger ThreadOk(s, t)} :: t in s.pcs ==> ThreadOk(s, t))
    && (forall w :: |s.picked| <= w < |s.entered| ==> w in s.waiters)
    && (OwnerTask(s).Some? && (OwnerTask(s).value.Waking? || OwnerTask(s).value.Woke?) ==>
          OwnerTask(s).value.waiter in s.waiters)
  }

  ghost predicate Inv(s: State) { LockInv(s) && QueueInv(s) && WaiterInv(s) }

  /** Steps that leave the waiters alone, and the thread's part in them. */
  lemma WaitersKept(s: State, s': State, t: Tid)
    requires WaiterInv(s) && t in s.pcs && t in s'.pcs && s'.pcs == s.pcs[t := s'.pcs[t]]
    requires WaiterOf(s'.pcs[t]) == WaiterOf(s.pcs[t]) && Unresumed(s'.pcs[t]) == Unresumed(s.pcs[t])
    requires s'.waiters == s.waiters && s'.sleeper == s.sleeper && s'.entered == s.entered && s'.woken == s.woken
    requires |s'.picked| >= |s.picked|
    requires OwnerTask(s').Some? && (OwnerTask(s').value.Waking? || OwnerTask(s').value.Woke?) ==>
      OwnerTask(s').value.waiter in s.waiters
    ensures WaiterInv(s')
  {
    hide WaiterOf; hide Unresumed; hide OwnerTask;
    forall v | v in s'.waiters ensures WaiterOk(s', v) {
      assert WaiterOk(s, v);
    }
    forall u | u in s'.pcs ensures ThreadOk(s', u) {
      assert ThreadOk(s, u);
    }
  }

  lemma MoveKeeps(s: State, t: Tid, pc: Pc)
    requires Inv(s) && t in s.pcs
    requires Holds(pc) == Holds(s.pcs[t]) && pc.Inside? == s.pcs[t].Inside?
    requires WaiterOf(pc).None? && WaiterOf(s.pcs[t]).None?
    requires pc.Inside? ==> !pc.task.Waking? && !pc.task.Woke? && !s.pcs[t].task.Waking?
    ensures Inv(At(s, t, pc))
  {
    WaitersKept(s, At(s, t, pc), t);
    hide WaiterInv; hide WaiterOf; hide Unresumed;
  }

  lemma TakeLockKeeps(s: State, t: Tid, entry: Entry)
    requires Inv(s) && t in s.pcs && s.pcs[t] == Locking(entry) && s.lock > 0
    ensures Inv(TakeLock(s, t, entry))
  {
    WaitersKept(s, TakeLock(s, t, entry), t);
    hide WaiterInv; hide WaiterOf; hide Unresumed;
  }

  lemma SetHolderKeeps(s: State, t: Tid, entry: Entry)
    requires Inv(s) && t in s.pcs && s.pcs[t] == Locked(entry)
    ensures Inv(SetHolder(s, t, entry))
  {
    WaitersKept(s, SetHolder(s, t, entry), t);
    hide WaiterInv; hide WaiterOf; hide Unresumed;
  }

  lemma PickKeeps(s: State, t: Tid, all: bool, home: Home)
    requires Inv(s) && t in s.pcs && s.pcs[t] == Inside(Signalling(all, home)) && s.waitQueue != []
    ensures Inv(PickWaiter(s, t, all, home))
  {
    WaitersKept(s, PickWaiter(s, t, all, home), t);
    hide WaiterInv; hide WaiterOf; hide Unresumed;
  }

  lemma WakeKeeps(s: State, t: Tid, w: Wid, all: bool, home: Home)
    requires Inv(s) && t in s.pcs && s.pcs[t] == Inside(Waking(w, all, home)) && w in s.waiters
    ensures Inv(WakeWaiter(s, t, w, all, home))
  {
    var s' := WakeWaiter(s, t, w, all, home);
    assert WaiterOf(s.pcs[t]).None? && WaiterOf(s'.pcs[t]).None?;
    hide WaiterOf; hide Unresumed;
    assert ThreadOk(s, t);
    forall v | v in s'.waiters ensures WaiterOk(s', v) {
      assert WaiterOk(s, v);
    }
    forall u | u in s'.pcs ensures ThreadOk(s', u) {
      assert ThreadOk(s, u);
    }
  }

  lemma NewWaiterKeeps(s: State, t: Tid, home: Home)
    requires Inv(s) && t in s.pcs && s.pcs[t] == Inside(Waiting(home))
    ensures Inv(NewWaiter(s, t, home))
  {
    var s' := NewWaiter(s, t, home);
    assert WaiterOf(s.pcs[t]).None? && WaiterOf(s'.pcs[t]) == Some(|s.entered|) && Unresumed(s'.pcs[t]);
    hide WaiterOf; hide Unresumed;
    assert ThreadOk(s, t);
    forall v | v in s'.waiters ensures WaiterOk(s', v) {
      assert v in s.waiters ==> WaiterOk(s, v);
    }
    forall u | u in s'.pcs ensures ThreadOk(s', u) {
      assert ThreadOk(s, u);
      if u != t && WaiterOf(s.pcs[u]).Some? {
        assert WaiterOk(s, WaiterOf(s.pcs[u]).value);
      }
    }
  }

  lemma PassKeeps(s: State, t: Tid, w: Wid, home: Home)
    requires Inv(s) && t in s.pcs && s.pcs[t] == Parked(w, home) && w in s.waiters && s.waiters[w] > 0
    ensures Inv(PassWaiter(s, t, w, home))
  {
    var s' := PassWaiter(s, t, w, home);
    assert WaiterOf(s.pcs[t]) == Some(w) && WaiterOf(s'.pcs[t]) == Some(w);
    assert Unresumed(s.pcs[t]) && !Unresumed(s'.pcs[t]);
    hide WaiterOf; hide Unresumed;
    assert ThreadOk(s, t);
    forall v | v in s'.waiters ensures WaiterOk(s', v) {
      assert WaiterOk(s, v);
    }
    forall u | u in s'.pcs ensures ThreadOk(s', u) {
      assert ThreadOk(s, u);
    }
  }

  lemma DeleteKeeps(s: State, t: Tid, w: Wid, home: Home)
    requires Inv(s) && t in s.pcs && s.pcs[t] == Inside(Disposing(w, home))
    ensures Inv(DeleteWaiter(s, t, w, home))
  {
    var s' := DeleteWaiter(s, t, w, home);
    assert WaiterOf(s.pcs[t]) == Some(w) && WaiterOf(s'.pcs[t]).None? && !Unresumed(s.pcs[t]);
    hide WaiterOf; hide Unresumed;
    assert ThreadOk(s, t) && WaiterOk(s, w);
    forall v | v in s'.waiters ensures WaiterOk(s', v) {
      assert WaiterOk(s, v);
    }
    forall u | u in s'.pcs ensures ThreadOk(s', u) {
      assert ThreadOk(s, u);
      if u != t && WaiterOf(s.pcs[u]).Some? {
        assert WaiterOk(s, WaiterOf(s.pcs[u]).value);
      }
    }
  }

  lemma ClearHolderKeeps(s: State, t: Tid, after: After)
    requires Inv(s) && t in s.pcs && s.pcs[t] == Inside(Releasing(after))
    ensures Inv(ClearHolder(s, t, after))
  {
    WaitersKept(s, ClearHolder(s, t, after), t);
    hide WaiterInv; hide WaiterOf; hide Unresumed;
  }

  lemma FreeLockKeeps(s: State, t: Tid, after: After)
    requires Inv(s) && t in s.pcs && s.pcs[t] == Unlocked(after)
    ensures Inv(FreeLock(s, t, after))
  {
    WaitersKept(s, FreeLock(s, t, after), t);
    hide WaiterInv; hide WaiterOf; hide Unresumed;
  }

  /* The list. */

  /** The item that the owner of the lock will return from RemoveFront. */
  function OwnerResult(s: State): Option<Item> {
    if s.owner.Some? && s.owner.value in s.pcs then
      match s.pcs[s.owner.value]
      case Inside(Releasing(Returned(result))) => result
      case Unlocked(Returned(result)) => result
      case _ => None
    else None
  }

  /** Nothing is lost or reordered, and the tests made under the lock still hold
      when they are acted upon: the ASSERT of List::RemoveFront never fires. */
  ghost predicate ListInv(s: State) {
    && s.appended == s.removed + s.list
    && (OwnerResult(s).Some? ==> s.removed != [] && s.removed[|s.removed| - 1] == OwnerResult(s).value)
    && (OwnerTask(s) == Some(Removing) ==> s.list != [])
    && (OwnerTask(s) == Some(Waiting(ToList)) ==> s.list == [])
  }

  /** Removers that a signaller has taken off the queue and that have not yet
      come round to test the list again. */
  function Awake(s: State): set<Tid> {
    set t | t in s.pcs && WaiterOf(s.pcs[t]).Some? && WaiterOf(s.pcs[t]).value < |s.picked|
  }

  /** The owner of the lock is about to signal, or to look at the list itself. */
  predicate Attended(s: State) {
    OwnerTask(s).Some? && (OwnerTask(s).value.Signalling? || OwnerTask(s).value.Testing? || OwnerTask(s).value.Removing?)
  }

  /** No wake-up is lost: while removers wait, each item on the list has a
      remover on its way. */
  ghost predicate WakeInv(s: State) {
    s.waitQueue != [] ==> |s.list| <= |Awake(s)| + (if Attended(s) then 1 else 0)
  }

  /** A client's own Wait, at any of its stages. */
  predicate ClientWait(pc: Pc) {
    match pc
    case Locking(ToResume(_, home)) => home.ToClient?
    case Locked(ToResume(_, home)) => home.ToClient?
    case Inside(Disposing(_, home)) => home.ToClient?
    case Inside(Waiting(home)) => home.ToClient?
    case Inside(Releasing(Blocking(_, home))) => home.ToClient?
    case Unlocked(Blocking(_, home)) => home.ToClient?
    case Parked(_, home) => home.ToClient?
    case _ => false
  }

  /** Only removers wait on the condition, and none of their wake-ups is lost. */
  ghost predicate RemoversOk(s: State) {
    WakeInv(s) && forall t :: t in s.pcs ==> !ClientWait(s.pcs[t])
  }

  /** Safe whatever the clients do; with `only`, they do not wait. */
  ghost predicate Safe(s: State, only: bool) { Inv(s) && ListInv(s) && (only ==> RemoversOk(s)) }

  lemma SameAwake(s: State, s': State, t: Tid)
    requires t in s.pcs && t in s'.pcs && s'.pcs == s.pcs[t := s'.pcs[t]] && WaiterOf(s'.pcs[t]) == WaiterOf(s.pcs[t])
    requires |s'.picked| == |s.picked|
    ensures Awake(s') == Awake(s)
  {
    hide WaiterOf;
  }

  lemma PickedIsAwake(s: State, t: Tid, all: bool, home: Home)
    requires Inv(s) && t in s.pcs && s.pcs[t] == Inside(Signalling(all, home)) && s.waitQueue != []
    ensures |Awake(PickWaiter(s, t, all, home))| == |Awake(s)| + 1
  {
    var s' := PickWaiter(s, t, all, home);
    var w := s.waitQueue[0];
    assert WaiterOf(s.pcs[t]).None? && WaiterOf(s'.pcs[t]).None?;
    hide WaiterOf; hide Unresumed;
    assert WaiterOk(s, w);
    var u := s.sleeper[w];
    forall v | v in s.pcs && WaiterOf(s.pcs[v]) == Some(w) ensures v == u {
      assert ThreadOk(s, v);
    }
    assert Awake(s') == Awake(s) + {u};
  }

  lemma NewWaiterIsNot(s: State, t: Tid, home: Home)
    requires Inv(s) && t in s.pcs && s.pcs[t] == Inside(Waiting(home))
    ensures Awake(NewWaiter(s, t, home)) == Awake(s)
  {
    var s' := NewWaiter(s, t, home);
    assert WaiterOf(s.pcs[t]).None? && WaiterOf(s'.pcs[t]) == Some(|s.entered|);
    hide WaiterOf;
  }

  lemma DeletedIsNot(s: State, t: Tid, w: Wid, home: Home)
    requires Inv(s) && t in s.pcs && s.pcs[t] == Inside(Disposing(w, home))
    ensures |Awake(s)| <= |Awake(DeleteWaiter(s, t, w, home))| + 1
  {
    var s' := DeleteWaiter(s, t, w, home);
    assert WaiterOf(s'.pcs[t]).None?;
    hide WaiterOf;
    assert Awake(s') == Awake(s) - {t};
  }

  /** A thread's own moves keep Safe. */
  lemma MoveIsSafe(s: State, t: Tid, pc: Pc, only: bool)
    requires Safe(s, only) && t in s.pcs && s.pcs[t].Inside? && pc.Inside?
    requires WaiterOf(pc).None? && WaiterOf(s.pcs[t]).None?
    requires !pc.task.Waking? && !pc.task.Woke? && !s.pcs[t].task.Waking?
    requires pc.task.Removing? ==> s.list != []
    requires pc.task == Waiting(ToList) ==> s.list == []
    requires only ==> !ClientWait(pc)
    requires pc.task.Releasing? ==> pc.task.after == Returned(None)
    requires !pc.task.Signalling? && !pc.task.Testing? && !pc.task.Removing? ==>
      s.waitQueue == [] || s.list == [] || !Attended(s)
    ensures Safe(At(s, t, pc), only)
  {
    MoveKeeps(s, t, pc);
    SameAwake(s, At(s, t, pc), t);
    hide WaiterOf; hide Awake; hide QueueInv; hide WaiterInv;
  }

  lemma TakeLockIsSafe(s: State, t: Tid, entry: Entry, only: bool)
    requires Safe(s, only) && t in s.pcs && s.pcs[t] == Locking(entry) && s.lock > 0
    ensures Safe(TakeLock(s, t, entry), only)
  {
    TakeLockKeeps(s, t, entry);
    SameAwake(s, TakeLock(s, t, entry), t);
    hide WaiterOf; hide Awake; hide QueueInv; hide WaiterInv;
  }

  lemma SetHolderIsSafe(s: State, t: Tid, entry: Entry, only: bool)
    requires Safe(s, only) && t in s.pcs && s.pcs[t] == Locked(entry)
    ensures Safe(SetHolder(s, t, entry), only)
  {
    SetHolderKeeps(s, t, entry);
    SameAwake(s, SetHolder(s, t, entry), t);
    hide WaiterOf; hide Awake; hide QueueInv; hide WaiterInv;
  }

  lemma FreeLockIsSafe(s: State, t: Tid, after: After, only: bool)
    requires Safe(s, only) && t in s.pcs && s.pcs[t] == Unlocked(after)
    ensures Safe(FreeLock(s, t, after), only)
  {
    FreeLockKeeps(s, t, after);
    SameAwake(s, FreeLock(s, t, after), t);
    hide WaiterOf; hide Awake; hide QueueInv; hide WaiterInv;
  }

  lemma ParkedIsSafe(s: State, t: Tid, only: bool)
    requires Safe(s, only) && t in s.pcs && s.pcs[t].Parked?
    ensures Safe(Advance(s, t), only)
  {
    var w, home := s.pcs[t].waiter, s.pcs[t].home;
    if w in s.waiters && s.waiters[w] > 0 {
      PassKeeps(s, t, w, home);
      SameAwake(s, Advance(s, t), t);
      assert s.owner != Some(t);
    }
    hide WaiterOf; hide Awake; hide QueueInv; hide WaiterInv;
  }

  /** The conditions do not look at the list. */
  lemma ListIsApart(s: State, list: seq<Item>, appended: seq<Item>, removed: seq<Item>)
    requires Inv(s)
    ensures Inv(s.(list := list, appended := appended, removed := removed))
  {
    var s' := s.(list := list, appended := appended, removed := removed);
    hide WaiterOf; hide Unresumed;
    forall w | w in s'.waiters ensures WaiterOk(s', w) {
      assert WaiterOk(s, w);
    }
    forall u | u in s'.pcs ensures ThreadOk(s', u) {
      assert ThreadOk(s, u);
    }
  }

  lemma AddItemIsSafe(s: State, t: Tid, item: Item, only: bool)
    requires Safe(s, only) && t in s.pcs && s.pcs[t] == Inside(Adding(item))
    ensures Safe(AddItem(s, t, item), only)
  {
    var s1 := s.(list := s.list + [item], appended := s.appended + [item], removed := s.removed);
    ListIsApart(s, s1.list, s1.appended, s1.removed);
    MoveKeeps(s1, t, Inside(Signalling(false, ToList)));
    SameAwake(s, AddItem(s, t, item), t);
    hide WaiterOf; hide Awake; hide QueueInv; hide WaiterInv;
  }

  lemma TakeItemIsSafe(s: State, t: Tid, only: bool)
    requires Safe(s, only) && t in s.pcs && s.pcs[t] == Inside(Removing)
    ensures s.list != [] && Safe(TakeItem(s, t), only)
  {
    assert s.owner == Some(t);
    var s1 := s.(list := s.list[1..], appended := s.appended, removed := s.removed + [s.list[0]]);
    ListIsApart(s, s1.list, s1.appended, s1.removed);
    MoveKeeps(s1, t, Inside(Releasing(Returned(Some(s.list[0])))));
    SameAwake(s, TakeItem(s, t), t);
    hide WaiterOf; hide Awake; hide QueueInv; hide WaiterInv;
  }

  lemma SignalIsSafe(s: State, t: Tid, all: bool, home: Home, only: bool)
    requires Safe(s, only) && t in s.pcs && s.pcs[t] == Inside(Signalling(all, home))
    ensures Safe(DoTask(s, t, Signalling(all, home)), only)
  {
    if s.waitQueue == [] {
      MoveIsSafe(s, t, Inside(AfterSignal(home)), only);
    } else {
      PickKeeps(s, t, all, home);
      PickedIsAwake(s, t, all, home);
    }
    hide WaiterOf; hide Awake; hide QueueInv; hide WaiterInv;
  }

  lemma WakingIsSafe(s: State, t: Tid, w: Wid, all: bool, home: Home, only: bool)
    requires Safe(s, only) && t in s.pcs && s.pcs[t] == Inside(Waking(w, all, home))
    ensures w in s.waiters && Safe(WakeWaiter(s, t, w, all, home), only)
  {
    WakeKeeps(s, t, w, all, home);
    SameAwake(s, WakeWaiter(s, t, w, all, home), t);
    hide WaiterOf; hide Awake; hide QueueInv; hide WaiterInv;
  }

  lemma WaitingIsSafe(s: State, t: Tid, home: Home, only: bool)
    requires Safe(s, only) && t in s.pcs && s.pcs[t] == Inside(Waiting(home))
    ensures Safe(NewWaiter(s, t, home), only)
  {
    NewWaiterKeeps(s, t, home);
    NewWaiterIsNot(s, t, home);
    hide WaiterOf; hide Awake; hide QueueInv; hide WaiterInv;
  }

  lemma DisposingIsSafe(s: State, t: Tid, w: Wid, home: Home, only: bool)
    requires Safe(s, only) && t in s.pcs && s.pcs[t] == Inside(Disposing(w, home))
    ensures Safe(DeleteWaiter(s, t, w, home), only)
  {
    DeleteKeeps(s, t, w, home);
    DeletedIsNot(s, t, w, home);
    hide WaiterOf; hide Awake; hide QueueInv; hide WaiterInv;
  }

  lemma ReleasingIsSafe(s: State, t: Tid, after: After, only: bool)
    requires Safe(s, only) && t in s.pcs && s.pcs[t] == Inside(Releasing(after))
    ensures s.holder == Some(t) && Safe(ClearHolder(s, t, after), only)
  {
    ClearHolderKeeps(s, t, after);
    SameAwake(s, ClearHolder(s, t, after), t);
    hide WaiterOf; hide Awake; hide QueueInv; hide WaiterInv;
  }

  lemma TaskIsSafe(s: State, t: Tid, task: Task, only: bool)
    requires Safe(s, only) && t in s.pcs && s.pcs[t] == Inside(task)
    ensures Safe(DoTask(s, t, task), only)
  {
    match task {
      case Adding(item) => AddItemIsSafe(s, t, item, only);
      case Signalling(all, home) => SignalIsSafe(s, t, all, home, only);
      case Waking(w, all, home) => WakingIsSafe(s, t, w, all, home, only);
      case Woke(w, all, home) => MoveIsSafe(s, t, DoTask(s, t, task).pcs[t], only);
      case Testing => MoveIsSafe(s, t, DoTask(s, t, task).pcs[t], only);
      case Waiting(home) => WaitingIsSafe(s, t, home, only);
      case Disposing(w, home) => DisposingIsSafe(s, t, w, home, only);
      case Removing => TakeItemIsSafe(s, t, only);
      case Releasing(after) => ReleasingIsSafe(s, t, after, only);
      case OwnCode =>
    }
    hide Inv; hide ListInv; hide RemoversOk;
  }

  lemma CallIsSafe(s: State, t: Tid, entry: Entry, only: bool)
    requires Safe(s, only) && t in s.pcs && s.pcs[t].Idle? && !entry.ToResume?
    ensures Safe(At(s, t, Locking(entry)), only)
  {
    MoveKeeps(s, t, Locking(entry));
    SameAwake(s, At(s, t, Locking(entry)), t);
    hide WaiterOf; hide Awake; hide QueueInv; hide WaiterInv;
  }

  /** A client's choice of what to do next. */
  lemma ChoiceIsSafe(s: State, e: Event, only: bool)
    requires Safe(s, only) && e.who in s.pcs && !e.Tick? && (only ==> !e.Wait?)
    ensures Safe(At(s, e.who, Chosen(s.pcs[e.who], e)), only)
  {
    var t, pc := e.who, Chosen(s.pcs[e.who], e);
    if pc == s.pcs[t] {
      assert At(s, t, pc) == s;
    } else if pc.Locking? {
      CallIsSafe(s, t, pc.entry, only);
    } else {
      MoveIsSafe(s, t, pc, only);
    }
  }

  lemma StepIsSafe(s: State, e: Event, only: bool)
    requires Safe(s, only) && (only ==> !e.Wait?)
    ensures Safe(Step(s, e), only)
  {
    hide Safe; hide DoTask;
    if e.who in s.pcs {
      var t := e.who;
      if !e.Tick? {
        ChoiceIsSafe(s, e, only);
      } else {
        match s.pcs[t] {
          case Idle =>
          case Inside(task) => TaskIsSafe(s, t, task, only);
          case Parked(_, _) => ParkedIsSafe(s, t, only);
          case Locking(entry) => if s.lock > 0 { TakeLockIsSafe(s, t, entry, only); }
          case Locked(entry) => SetHolderIsSafe(s, t, entry, only);
          case Unlocked(after) => FreeLockIsSafe(s, t, after, only);
        }
      }
    }
  }

  /** Every reachable state is safe, for any number of threads, any calls and
      any interleaving. */
  lemma {:induction false} RunIsSafe(threads: set<Tid>, events: seq<Event>, only: bool)
    requires only ==> forall e :: e in events ==> !e.Wait?
    ensures Safe(Run(Initial(threads), events), only)
    decreases |events|
  {
    if events != [] {
      hide Safe; hide Step;
      var n := |events| - 1;
      RunIsSafe(threads, events[..n], only);
      StepIsSafe(Run(Initial(threads), events[..n]), events[n], only);
    } else {
      assert forall t :: t in Initial(threads).pcs ==> Initial(threads).pcs[t] == Idle;
    }
  }

  /* What this means. */

  function Holders(s: State): set<Tid> { set t | t in s.pcs && Holds(s.pcs[t]) }

  /** The lock: its value plus the number of threads between the decrement of P
      and the increment of V is one, and lockHolder is NULL or names that thread.
      So the ASSERTs on IsHeldByCurrentThread hold wherever they stand. */
  lemma MutualExclusion(threads: set<Tid>, events: seq<Event>)
    ensures var s := Run(Initial(threads), events);
            && s.lock + |Holders(s)| == 1
            && (s.holder.Some? ==> Holders(s) == {s.holder.value})
            && forall t :: t in s.pcs && s.pcs[t].Inside? ==> s.holder == Some(t)
  {
    RunIsSafe(threads, events, false);
    var s := Run(Initial(threads), events);
    hide Run; hide QueueInv; hide WaiterInv; hide ListInv; hide WakeInv;
    if s.owner.None? {
      assert Holders(s) == {};
    } else {
      assert Holders(s) == {s.owner.value};
    }
  }

  lemma QueueIsFifo(s: State)
    requires QueueInv(s)
    ensures s.entered == s.picked + s.waitQueue && s.woken <= s.picked && |s.picked| <= |s.woken| + 1
    ensures forall i, j :: 0 <= i < j < |s.entered| ==> s.entered[i] != s.entered[j]
    ensures forall w :: w in s.waitQueue ==> |s.picked| <= w < |s.entered|
    ensures forall w :: w in s.woken <==> 0 <= w < |s.woken|
  {
    forall w | 0 <= w < |s.woken| ensures w in s.woken {
      assert s.woken[w] == w;
    }
  }

  /** A waiter is allocated, and its value is 1 exactly between its V and its P. */
  predicate WaitsOn(s: State, pc: Pc, w: Wid) {
    && w in s.waiters
    && s.waiters[w] == (if w in s.woken && Unresumed(pc) then 1 else 0)
    && (!Unresumed(pc) ==> w in s.woken)
  }

  lemma ThreadWaitsOn(s: State, t: Tid)
    requires QueueInv(s) && WaiterInv(s) && t in s.pcs && WaiterOf(s.pcs[t]).Some?
    ensures WaitsOn(s, s.pcs[t], WaiterOf(s.pcs[t]).value)
  {
    hide WaiterOf; hide Unresumed; hide OwnerTask; hide Signaller;
    QueueIsFifo(s);
    assert ThreadOk(s, t);
    assert WaiterOk(s, WaiterOf(s.pcs[t]).value);
  }

  /** Condition variables, whatever their clients do under the lock: signallers
      take waiters in the order of entry, each once, and give each exactly one V; a
      thread past its P had that V; and the semaphore is allocated as long as it is
      queued, or its signaller is inside V, or its owner has not passed P. */
  lemma NoSignalIsLost(threads: set<Tid>, events: seq<Event>)
    ensures var s := Run(Initial(threads), events);
            && s.entered == s.picked + s.waitQueue
            && s.woken <= s.picked && |s.picked| <= |s.woken| + 1
            && (forall i, j :: 0 <= i < j < |s.entered| ==> s.entered[i] != s.entered[j])
            && (forall w :: w in s.waitQueue ==> w in s.waiters && s.waiters[w] == 0)
            && (forall t :: t in s.pcs && s.pcs[t].Inside? && (s.pcs[t].task.Waking? || s.pcs[t].task.Woke?) ==>
                  s.pcs[t].task.waiter in s.waiters)
            && (forall t :: t in s.pcs && WaiterOf(s.pcs[t]).Some? ==>
                  WaitsOn(s, s.pcs[t], WaiterOf(s.pcs[t]).value))
  {
    RunIsSafe(threads, events, false);
    var s := Run(Initial(threads), events);
    hide Run; hide ListInv; hide RemoversOk; hide WaiterOf; hide Unresumed; hide WaitsOn;
    QueueIsFifo(s);
    forall w | w in s.waitQueue ensures w in s.waiters && s.waiters[w] == 0 {
      assert WaiterOk(s, w);
    }
    forall t | t in s.pcs && WaiterOf(s.pcs[t]).Some? ensures WaitsOn(s, s.pcs[t], WaiterOf(s.pcs[t]).value) {
      ThreadWaitsOn(s, t);
    }
  }

  /** The synchronised list is a first-in first-out queue: a call leaves with the
      item that it took off the front. */
  lemma ListIsFifo(threads: set<Tid>, events: seq<Event>)
    ensures var s := Run(Initial(threads), events);
            && s.removed + s.list == s.appended
            && (forall t :: t in s.pcs && s.pcs[t] == Inside(Removing) ==> s.list != [])
            && forall t :: t in s.pcs && s.pcs[t].Unlocked? && s.pcs[t].after.Returned? && s.pcs[t].after.result.Some? ==>
                 s.removed != [] && s.removed[|s.removed| - 1] == s.pcs[t].after.result.value
  {
    RunIsSafe(threads, events, false);
    hide Run; hide QueueInv; hide WaiterInv; hide WakeInv;
  }

  /** Where only removers wait on the condition, as on the list's own, whoever
      signals or broadcasts it: while they wait, the items on the list are no more
      than the removers already signalled, but for one item that the owner of the
      lock is about to signal or to look at. With the lock free and nobody
      signalled, the list is empty. */
  lemma NoWakeupIsLost(threads: set<Tid>, events: seq<Event>)
    requires forall e :: e in events ==> !e.Wait?
    ensures var s := Run(Initial(threads), events);
            && (s.waitQueue != [] ==> |s.list| <= |Awake(s)| + (if Attended(s) then 1 else 0))
            && (s.waitQueue != [] && s.lock == 1 ==> |s.list| <= |Awake(s)| && (Awake(s) == {} ==> s.list == []))
  {
    RunIsSafe(threads, events, true);
    hide Run; hide QueueInv; hide WaiterInv; hide Awake;
  }
}
