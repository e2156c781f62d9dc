/** The interrupt clock (machine/interrupt.cc): simulated time, and the hardware
events that are due to happen. */
module Clocks {
  import opened Lists

  const SYSTEM_TICK := 10
  const USER_TICK := 1

  /** `id` numbers the events in the order in which they were scheduled. */
  datatype Pending = Pending(id: nat, when: nat)

  /** An event with the time at which its handler ran. */
  datatype Fired = Fired(event: Pending, at: nat)

  /** What a handler does to the clock: it schedules events, each some positive
      time ahead, and may ask for a context switch. */
  datatype Reaction = Reaction(delays: seq<Delay>, yielding: bool)
  type Delay = d: nat | d > 0 witness 1

  /** One of the handler calls numbered from `from` up to `to` asks for a switch. */
  ghost predicate Asked(react: nat -> Reaction, from: nat, to: nat) {
    exists i: nat :: from <= i < to && react(i).yielding
  }

  datatype Mode = IdleMode | SystemMode | UserMode

  function PendingCompare(x: Pending, y: Pending): int {
    if x.when < y.when then -1 else if x.when > y.when then 1 else 0
  }

  /** Earlier in time, or scheduled earlier for the same time. */
  predicate Before(x: Pending, y: Pending) { x.when < y.when || (x.when == y.when && x.id < y.id) }

  predicate Ordered(es: seq<Pending>) { forall i, j :: 0 <= i < j < |es| ==> Before(es[i], es[j]) }

  lemma SpliceKeepsOrder(es: seq<Pending>, e: Pending, k: nat)
    requires Ordered(es) && k <= |es|
    requires forall i :: 0 <= i < k ==> Before(es[i], e)
    requires forall i :: k <= i < |es| ==> Before(e, es[i])
    ensures Ordered(Splice(es, k, e))
  {
  }

  lemma InsertKeepsOrder(es: seq<Pending>, e: Pending)
    requires Ordered(es) && forall i :: 0 <= i < |es| ==> es[i].id < e.id
    ensures Ordered(Inserted(es, e, PendingCompare))
    ensures multiset(Inserted(es, e, PendingCompare)) == multiset(es) + multiset{e}
  {
    hide Inserted; hide Slot;
    var k := Slot(es, e, PendingCompare);
    InsertedAtSlot(es, e, PendingCompare);
    assert es == es[..k] + es[k..];
    forall i | k <= i < |es| ensures Before(e, es[i]) {
      assert PendingCompare(e, es[k]) < 0;
      assert i > k ==> Before(es[k], es[i]);
    }
    hide Ordered;
    SpliceKeepsOrder(es, e, k);
  }

  /** How many of the pending events are due. */
  function Due(es: seq<Pending>, now: nat): (n: nat)
    ensures n <= |es| && (forall i :: 0 <= i < n ==> es[i].when <= now)
    ensures n < |es| ==> es[n].when > now
  {
    if es == [] || es[0].when > now then 0 else 1 + Due(es[1..], now)
  }

  lemma DueIsExact(es: seq<Pending>, now: nat, n: nat)
    requires Ordered(es) && n <= |es| && (forall i :: 0 <= i < n ==> es[i].when <= now)
    requires n < |es| ==> es[n].when > now
    ensures Due(es, now) == n
  {
  }

  /** An event in the future does not become due by being scheduled. */
  lemma DueAfterInsert(es: seq<Pending>, e: Pending, now: nat)
    requires Ordered(es) && e.when > now && forall i :: 0 <= i < |es| ==> es[i].id < e.id
    ensures Due(Inserted(es, e, PendingCompare), now) == Due(es, now)
    ensures Inserted(es, e, PendingCompare)[..Due(es, now)] == es[..Due(es, now)]
  {
    var k, n := Slot(es, e, PendingCompare), Due(es, now);
    InsertedAtSlot(es, e, PendingCompare);
    InsertKeepsOrder(es, e);
    var r := Inserted(es, e, PendingCompare);
    assert n <= k;
    assert r[..n] == es[..n];
    assert n < |r| ==> r[n].when > now by {
      if n < k { assert r[n] == es[n]; } else { assert r[n] == e; }
    }
    assert forall i :: 0 <= i < n ==> r[i] == r[..n][i] == es[i];
    DueIsExact(r, now, n);
  }

  function Events(fs: seq<Fired>): (es: seq<Pending>)
    ensures |es| == |fs| && forall i :: 0 <= i < |es| ==> es[i] == fs[i].event
  {
    seq(|fs|, i requires 0 <= i < |fs| => fs[i].event)
  }

  function Stamp(es: seq<Pending>, now: nat): (fs: seq<Fired>)
    ensures |fs| == |es| && forall i :: 0 <= i < |fs| ==> fs[i] == Fired(es[i], now)
  {
    seq(|es|, i requires 0 <= i < |es| => Fired(es[i], now))
  }

  /** Fired no earlier than it was due and less than a system tick later. */
  predicate OnTime(f: Fired) { f.event.when <= f.at < f.event.when + SYSTEM_TICK }

  /** The record of a clock: handlers ran on time and in order, the pending events
      all come later, and every event ever scheduled has fired once or is pending. */
  ghost predicate Faithful(scheduled: seq<Pending>, fired: seq<Fired>, pending: seq<Pending>, now: nat) {
    && (forall i :: 0 <= i < |fired| ==> OnTime(fired[i]) && fired[i].at <= now)
    && (forall i, j :: 0 <= i < j < |fired| ==> fired[i].at <= fired[j].at)
    && Ordered(Events(fired) + pending)
    && (forall i :: 0 <= i < |scheduled| ==> scheduled[i].id == i)
    && multiset(scheduled) == multiset(Events(fired)) + multiset(pending)
  }

  lemma PendingIsOrdered(scheduled: seq<Pending>, fired: seq<Fired>, pending: seq<Pending>, now: nat)
    requires Faithful(scheduled, fired, pending, now)
    ensures Ordered(pending) && forall i :: 0 <= i < |pending| ==> pending[i].id < |scheduled|
  {
    var all := Events(fired) + pending;
    forall i, j | 0 <= i < j < |pending| ensures Before(pending[i], pending[j]) {
      assert pending[i] == all[|fired| + i] && pending[j] == all[|fired| + j];
    }
    forall i | 0 <= i < |pending| ensures pending[i].id < |scheduled| {
      assert pending[i] in multiset(pending);
      assert pending[i] in multiset(scheduled);
    }
  }

  lemma ScheduleIsFaithful(scheduled: seq<Pending>, fired: seq<Fired>, pending: seq<Pending>, now: nat, when: nat)
    requires Faithful(scheduled, fired, pending, now) && when > now
    ensures var e := Pending(|scheduled|, when);
            Faithful(scheduled + [e], fired, Inserted(pending, e, PendingCompare), now)
  {
    var e := Pending(|scheduled|, when);
    PendingIsOrdered(scheduled, fired, pending, now);
    InsertKeepsOrder(pending, e);
    var r := Inserted(pending, e, PendingCompare);
    var done := Events(fired);
    forall i, j | 0 <= i < j < |done + r| ensures Before((done + r)[i], (done + r)[j]) {
      if i < |done| <= j {
        assert r[j - |done|] in multiset(r);
        if r[j - |done|] != e {
          assert r[j - |done|] in multiset(pending);
          var l :| 0 <= l < |pending| && pending[l] == r[j - |done|];
          assert (done + pending)[|done| + l] == pending[l] && (done + pending)[i] == done[i];
        } else {
          assert fired[i].event.when <= fired[i].at <= now;
        }
      } else if j < |done| {
        assert (done + pending)[i] == done[i] && (done + pending)[j] == done[j];
      }
    }
  }

  lemma FireIsFaithful(scheduled: seq<Pending>, fired: seq<Fired>, pending: seq<Pending>, now: nat)
    requires Faithful(scheduled, fired, pending, now) && pending != []
    requires OnTime(Fired(pending[0], now))
    ensures Faithful(scheduled, fired + [Fired(pending[0], now)], pending[1..], now)
  {
    var fired' := fired + [Fired(pending[0], now)];
    assert Events(fired') == Events(fired) + [pending[0]];
    assert Events(fired') + pending[1..] == Events(fired) + pending;
    assert pending == [pending[0]] + pending[1..];
  }

  class Interrupt {
    var intOn: bool
    var inHandler: bool
    var yieldOnReturn: bool
    var status: Mode
    var pending: seq<Pending>
    var totalTicks: nat
    var idleTicks: nat
    var systemTicks: nat
    var userTicks: nat
    var nextId: nat
    const react: nat -> Reaction  // what the n-th call of a handler does
    var calls: nat
    ghost var scheduled: seq<Pending>
    ghost var fired: seq<Fired>

    ghost predicate Valid()
      reads this
    {
      && Faithful(scheduled, fired, pending, totalTicks)
      && nextId == |scheduled|
      && totalTicks == idleTicks + systemTicks + userTicks
    }

    /** All pending events lie in the future. */
    ghost predicate Quiet()
      reads this
    {
      forall i :: 0 <= i < |pending| ==> pending[i].when > totalTicks
    }

    ghost predicate Idling()
      reads this
    {
      Valid() && Quiet() && !inHandler
    }

    constructor (react: nat -> Reaction)
      ensures Idling() && fired == [] && pending == [] && totalTicks == 0 && !intOn
    {
      intOn, inHandler, yieldOnReturn, status, pending := false, false, false, SystemMode, [];
      totalTicks, idleTicks, systemTicks, userTicks, nextId, calls := 0, 0, 0, 0, 0, 0;
      scheduled, fired := [], [];
      this.react := react;
    }

    method Schedule(fromNow: Delay)
      requires Valid()
      modifies this`pending, this`nextId, this`scheduled
      ensures Valid() && (old(Quiet()) ==> Quiet())
      ensures pending == Inserted(old(pending), Pending(old(nextId), totalTicks + fromNow), PendingCompare)
      ensures Due(pending, totalTicks) == Due(old(pending), totalTicks)
      ensures pending[..Due(pending, totalTicks)] == old(pending)[..Due(pending, totalTicks)]
    {
      hide Faithful; hide Inserted; hide Due;
      var e := Pending(nextId, totalTicks + fromNow);
      PendingIsOrdered(scheduled, fired, pending, totalTicks);
      InsertKeepsOrder(pending, e);
      DueAfterInsert(pending, e, totalTicks);
      ScheduleIsFaithful(scheduled, fired, pending, totalTicks, e.when);
      FutureInsert(pending, e, totalTicks);
      pending := Inserted(pending, e, PendingCompare);
      scheduled := scheduled + [e];
      nextId := nextId + 1;
    }
  
    /** A handler runs: it schedules events, none of them due yet. */
    method CallBack()
      requires Valid()
      modifies this`pending, this`nextId, this`scheduled, this`calls, this`yieldOnReturn
      ensures Valid()
      ensures Due(pending, totalTicks) == Due(old(pending), totalTicks)
      ensures pending[..Due(pending, totalTicks)] == old(pending)[..Due(pending, totalTicks)]
      ensures calls == old(calls) + 1 && yieldOnReturn == (old(yieldOnReturn) || react(old(calls)).yielding)
    {
      hide Faithful; hide Inserted; hide Due;
      var reaction := react(calls);
      calls := calls + 1;
      var i := 0;
      while i < |reaction.delays|
        invariant 0 <= i <= |reaction.delays| && Valid()
        invariant calls == old(calls) + 1 && yieldOnReturn == old(yieldOnReturn)
        invariant Due(pending, totalTicks) == Due(old(pending), totalTicks)
        invariant pending[..Due(pending, totalTicks)] == old(pending)[..Due(pending, totalTicks)]
      {
        Schedule(reaction.delays[i]);
        i := i + 1;
      }
      if reaction.yielding {
        yieldOnReturn := true;
      }
    }

    /** Runs the handlers of all events that are due, in order; with `advanceClock`
        time first moves on to the next event. Afterwards nothing is due. */
    method CheckIfDue(advanceClock: bool) returns (any: bool)
      requires Valid() && !intOn && !inHandler
      requires forall i :: 0 <= i < |pending| ==> pending[i].when + SYSTEM_TICK > totalTicks
      modifies this
      ensures Idling() && !intOn && status == old(status)
      ensures systemTicks == old(systemTicks) && userTicks == old(userTicks)
      ensures totalTicks == if advanceClock && old(pending) != [] && old(pending)[0].when > old(totalTicks)
                            then old(pending)[0].when else old(totalTicks)
      ensures fired == old(fired) + Stamp(old(pending)[..Due(old(pending), totalTicks)], totalTicks)
      ensures any == (Due(old(pending), totalTicks) > 0)
      ensures calls == old(calls) + Due(old(pending), totalTicks)
      ensures yieldOnReturn == (old(yieldOnReturn) || Asked(react, old(calls), calls))
    {
      hide Faithful; hide Due; hide Ordered; hide Stamp; hide Asked;
      NobodyAsked(react, calls);
      PendingIsOrdered(scheduled, fired, pending, totalTicks);
      NothingDue(pending, totalTicks);
      FrontIsFirst(pending);
      assert Due(pending, totalTicks) == 0 ==> Stamp(pending[..0], totalTicks) == [];
      if pending == [] {
        return false;
      }
      if pending[0].when > totalTicks {
        if !advanceClock {
          return false;
        }
        TimePasses(scheduled, fired, pending, totalTicks, pending[0].when);
        idleTicks := idleTicks + (pending[0].when - totalTicks);
        totalTicks := pending[0].when;
      }
      RunDue();
      any := true;
    }

    /** The end of CheckIfDue, once something is due. */
    method RunDue()
      requires Valid() && Due(pending, totalTicks) > 0
      requires forall i :: 0 <= i < |pending| ==> pending[i].when + SYSTEM_TICK > totalTicks
      modifies this`pending, this`nextId, this`scheduled, this`calls, this`yieldOnReturn, this`fired, this`inHandler
      ensures Idling()
      ensures fired == old(fired) + Stamp(old(pending)[..Due(old(pending), totalTicks)], totalTicks)
      ensures calls == old(calls) + Due(old(pending), totalTicks)
      ensures yieldOnReturn == (old(yieldOnReturn) || Asked(react, old(calls), calls))
    {
      hide Faithful; hide Due; hide Ordered; hide Stamp; hide Asked;
      inHandler := true;
      RunHandlers();
      inHandler := false;
      PendingIsOrdered(scheduled, fired, pending, totalTicks);
      NothingDue(pending, totalTicks);
    }

    /** The body of the loop of CheckIfDue. */
    method FireNext()
      requires Valid() && Due(pending, totalTicks) > 0 && OnTime(Fired(pending[0], totalTicks))
      modifies this`pending, this`nextId, this`scheduled, this`calls, this`yieldOnReturn, this`fired
      ensures Valid() && fired == old(fired) + [Fired(old(pending)[0], totalTicks)]
      ensures Due(pending, totalTicks) == Due(old(pending), totalTicks) - 1
      ensures pending[..Due(pending, totalTicks)] == old(pending)[1..Due(old(pending), totalTicks)]
      ensures calls == old(calls) + 1 && yieldOnReturn == (old(yieldOnReturn) || react(old(calls)).yielding)
    {
      hide Faithful;
      FireIsFaithful(scheduled, fired, pending, totalTicks);
      fired := fired + [Fired(pending[0], totalTicks)];
      pending := pending[1..];
      CallBack();
    }

    /** The loop of CheckIfDue. */
    method RunHandlers()
      requires Valid() && Due(pending, totalTicks) > 0
      requires forall i :: 0 <= i < |pending| ==> pending[i].when + SYSTEM_TICK > totalTicks
      modifies this`pending, this`nextId, this`scheduled, this`calls, this`yieldOnReturn, this`fired
      ensures Valid() && Due(pending, totalTicks) == 0
      ensures fired == old(fired) + Stamp(old(pending)[..Due(old(pending), totalTicks)], totalTicks)
      ensures calls == old(calls) + Due(old(pending), totalTicks)
      ensures yieldOnReturn == (old(yieldOnReturn) || Asked(react, old(calls), calls))
    {
      hide Faithful; hide Due;
      ghost var due := pending[..Due(pending, totalTicks)];
      ghost var k := 0;
      while pending != [] && pending[0].when <= totalTicks
        invariant 0 <= k <= |due| && Valid()
        invariant Due(pending, totalTicks) == |due| - k && pending[..|due| - k] == due[k..]
        invariant fired == old(fired) + Stamp(due[..k], totalTicks)
        invariant calls == old(calls) + k && yieldOnReturn == (old(yieldOnReturn) || Asked(react, old(calls), calls))
        decreases |due| - k
      {
        assert pending[0] == due[k..][0];
        StampNext(due, k, totalTicks);
        AskedNext(react, old(calls), calls);
        FireNext();
        k := k + 1;
      }
      assert due[..k] == due;
    }

    method OneTick() returns (yielded: bool)
      requires Idling() && intOn
      modifies this
      ensures Idling() && intOn && status == old(status) && idleTicks == old(idleTicks)
      ensures totalTicks == old(totalTicks) + (if status == SystemMode then SYSTEM_TICK else USER_TICK)
      ensures systemTicks == old(systemTicks) + (if status == SystemMode then SYSTEM_TICK else 0)
      ensures userTicks == old(userTicks) + (if status == SystemMode then 0 else USER_TICK)
      ensures fired == old(fired) + Stamp(old(pending)[..Due(old(pending), totalTicks)], totalTicks)
      ensures yielded == (old(yieldOnReturn) || Asked(react, old(calls), calls)) && !yieldOnReturn
      ensures calls == old(calls) + Due(old(pending), totalTicks)
    {
      hide Faithful;
      var tick := if status == SystemMode then SYSTEM_TICK else USER_TICK;
      TimePasses(scheduled, fired, pending, totalTicks, totalTicks + tick);
      totalTicks := totalTicks + tick;
      if status == SystemMode {
        systemTicks := systemTicks + SYSTEM_TICK;
      } else {
        userTicks := userTicks + USER_TICK;
      }
      intOn := false;
      var _ := CheckIfDue(false);
      intOn := true;
      yielded := yieldOnReturn;
      yieldOnReturn := false;  // the caller's thread yields
    }

    /** A handler may turn interrupts off, as a V inside it does, but not on. */
    method SetLevel(now: bool) returns (was: bool)
      requires Valid() && (now ==> Idling())
      modifies this
      ensures Valid() && (old(Idling()) ==> Idling()) && intOn == now && was == old(intOn)
      ensures now && !was ==>
        && totalTicks == old(totalTicks) + (if status == SystemMode then SYSTEM_TICK else USER_TICK)
        && systemTicks == old(systemTicks) + (if status == SystemMode then SYSTEM_TICK else 0)
        && userTicks == old(userTicks) + (if status == SystemMode then 0 else USER_TICK)
        && fired == old(fired) + Stamp(old(pending)[..Due(old(pending), totalTicks)], totalTicks)
      ensures !(now && !was) ==> totalTicks == old(totalTicks) && fired == old(fired) && pending == old(pending)
    {
      hide Faithful;
      was := intOn;
      intOn := now;
      if now && !was {
        var _ := OneTick();
      }
    }

    /** Nobody is ready: time jumps to the next event. With none pending the
        machine halts. */
    method Idle() returns (halted: bool)
      requires Idling() && !intOn
      modifies this
      ensures Idling() && !intOn && halted == (old(pending) == [])
      ensures systemTicks == old(systemTicks) && userTicks == old(userTicks)
      ensures !halted ==>
        && status == SystemMode && totalTicks == old(pending)[0].when
        && idleTicks == old(idleTicks) + totalTicks - old(totalTicks)
        && fired == old(fired) + Stamp(old(pending)[..Due(old(pending), totalTicks)], totalTicks)
    {
      hide Faithful;
      status := IdleMode;
      var any := CheckIfDue(true);
      if any {
        status := SystemMode;
        return false;
      }
      halted := true;
    }
  }

  lemma NobodyAsked(react: nat -> Reaction, from: nat)
    ensures !Asked(react, from, from)
  {
  }

  lemma AskedNext(react: nat -> Reaction, from: nat, to: nat)
    requires from <= to
    ensures Asked(react, from, to + 1) <==> Asked(react, from, to) || react(to).yielding
  {
  }

  lemma StampNext(es: seq<Pending>, k: nat, now: nat)
    requires k < |es|
    ensures Stamp(es[..k + 1], now) == Stamp(es[..k], now) + [Fired(es[k], now)]
  {
  }

  lemma FrontIsFirst(es: seq<Pending>)
    requires Ordered(es)
    ensures forall i :: 0 <= i < |es| ==> es[0].when <= es[i].when
  {
    forall i | 0 < i < |es| ensures es[0].when <= es[i].when {
      assert Before(es[0], es[i]);
    }
  }

  lemma NothingDue(es: seq<Pending>, now: nat)
    requires Ordered(es)
    ensures Due(es, now) == 0 <==> forall i :: 0 <= i < |es| ==> es[i].when > now
  {
    if Due(es, now) == 0 && es != [] {
      forall i | 0 <= i < |es| ensures es[i].when > now {
        assert i > 0 ==> Before(es[0], es[i]);
      }
    }
  }

  lemma TimePasses(scheduled: seq<Pending>, fired: seq<Fired>, pending: seq<Pending>, now: nat, later: nat)
    requires Faithful(scheduled, fired, pending, now) && now <= later
    ensures Faithful(scheduled, fired, pending, later)
  {
  }

  lemma FutureInsert(es: seq<Pending>, e: Pending, now: nat)
    requires e.when > now
    ensures (forall i :: 0 <= i < |es| ==> es[i].when > now) ==>
      var r := Inserted(es, e, PendingCompare); forall i :: 0 <= i < |r| ==> r[i].when > now
  {
    InsertedAtSlot(es, e, PendingCompare);
  }

  /* Whole runs. */

  datatype Op = Request(fromNow: Delay) | Level(on: bool) | Instruction | Wait | Enter(mode: Mode)

  /** From start-up through any use of the clock, whatever the handlers schedule:
      time adds up, the handlers ran on time, in order of their times and first
      come first served among equals, each event once; what is pending is still
      to come. */
  method Simulate(react: nat -> Reaction, ops: seq<Op>) returns (clock: Interrupt)
    ensures fresh(clock) && clock.Idling()
    ensures clock.totalTicks == clock.idleTicks + clock.systemTicks + clock.userTicks
    ensures forall i :: 0 <= i < |clock.fired| ==> OnTime(clock.fired[i])
    ensures forall i, j :: 0 <= i < j < |clock.fired| ==>
      Before(clock.fired[i].event, clock.fired[j].event) && clock.fired[i].at <= clock.fired[j].at
    ensures multiset(clock.scheduled) == multiset(Events(clock.fired)) + multiset(clock.pending)
    ensures forall i :: 0 <= i < |clock.pending| ==> clock.pending[i].when > clock.totalTicks
  {
    hide Faithful; hide Due; hide Stamp; hide Inserted;
    clock := new Interrupt(react);
    var n := 0;
    while n < |ops|
      invariant 0 <= n <= |ops| && fresh(clock) && clock.Idling()
    {
      match ops[n] {
        case Request(fromNow) => clock.Schedule(fromNow);
        case Level(on) => var _ := clock.SetLevel(on);
        case Instruction => if clock.intOn { var _ := clock.OneTick(); }
        case Wait => if !clock.intOn { var _ := clock.Idle(); }
        case Enter(mode) => clock.status := mode;
      }
      n := n + 1;
    }
    FiredInOrder(clock.scheduled, clock.fired, clock.pending, clock.totalTicks);
  }

  lemma FiredInOrder(scheduled: seq<Pending>, fired: seq<Fired>, pending: seq<Pending>, now: nat)
    requires Faithful(scheduled, fired, pending, now)
    ensures forall i :: 0 <= i < |fired| ==> OnTime(fired[i])
    ensures forall i, j :: 0 <= i < j < |fired| ==> Before(fired[i].event, fired[j].event) && fired[i].at <= fired[j].at
    ensures multiset(scheduled) == multiset(Events(fired)) + multiset(pending)
  {
    var all := Events(fired) + pending;
    forall i, j | 0 <= i < j < |fired| ensures Before(fired[i].event, fired[j].event) {
      assert all[i] == fired[i].event && all[j] == fired[j].event;
    }
  }
}
