/** SynchDisk (filesys/synchdisk.cc) over the asynchronous disk (machine/disk.cc):
for any number of threads and any interleaving it behaves as an array of sectors. */
module SynchDisks {
  import opened Options
  import opened DiskFormat
  import Devices

  type Tid = Devices.Tid

  datatype Op = Read(sector: int) | Write(sector: int, data: Sector)

  predicate InRange(op: Op) { 0 <= op.sector < NUM_SECTORS }

  /* The array of sectors. */

  function Effect(d: Image, op: Op): Image
    requires InRange(op)
  {
    if op.Write? then d[op.sector := op.data] else d
  }

  /** The contents of the caller's buffer afterwards. */
  function Answer(d: Image, op: Op): Sector
    requires InRange(op)
  {
    if op.Write? then op.data else d[op.sector]
  }

  /** A call with the buffer it left behind. */
  datatype Done = Done(who: Tid, op: Op, data: Sector)

  predicate Legal(log: seq<Done>) { forall k :: 0 <= k < |log| ==> InRange(log[k].op) }

  /** The array after the calls of a log, one after the other. */
  function Replay(d: Image, log: seq<Done>): Image
    requires Legal(log)
    decreases |log|
  {
    if log == [] then d else Effect(Replay(d, log[..|log| - 1]), log[|log| - 1].op)
  }

  /** Every buffer holds what the array would have answered at that point. */
  ghost predicate Sequential(d: Image, log: seq<Done>) {
    Legal(log) && forall k :: 0 <= k < |log| ==> log[k].data == Answer(Replay(d, log[..k]), log[k].op)
  }

  lemma SequentialStep(d: Image, log: seq<Done>, t: Tid, op: Op)
    requires Sequential(d, log) && InRange(op)
    ensures var log' := log + [Done(t, op, Answer(Replay(d, log), op))];
            Sequential(d, log') && Replay(d, log') == Effect(Replay(d, log), op)
  {
    var log' := log + [Done(t, op, Answer(Replay(d, log), op))];
    assert log'[..|log|] == log;
    forall k | 0 <= k < |log'| ensures log'[k].data == Answer(Replay(d, log'[..k]), log'[k].op) {
      assert log'[..k] == log[..k];
      assert k == |log| ==> log[..k] == log;
    }
  }

  /* What an array of sectors is: a read gives what was written last. */

  predicate WritesTo(call: Done, k: int) { call.op.Write? && call.op.sector == k }

  /** x is the data of the last write to sector k in the log, or what the disk
      held at the start if there is none. */
  ghost predicate Latest(d: Image, log: seq<Done>, k: int, x: Sector)
    requires 0 <= k < NUM_SECTORS
  {
    || (exists j :: 0 <= j < |log| && WritesTo(log[j], k) && x == log[j].op.data
                    && forall l :: j < l < |log| ==> !WritesTo(log[l], k))
    || (x == d[k] && forall l :: 0 <= l < |log| ==> !WritesTo(log[l], k))
  }

  /** Every read of the log gives what was written last before it, and a write
      leaves the buffer alone. */
  ghost predicate ReadsLatest(d: Image, log: seq<Done>) {
    forall i :: 0 <= i < |log| ==>
      && InRange(log[i].op)
      && if log[i].op.Write? then log[i].data == log[i].op.data else Latest(d, log[..i], log[i].op.sector, log[i].data)
  }

  lemma LatestStep(d: Image, log: seq<Done>, call: Done, k: int, x: Sector)
    requires 0 <= k < NUM_SECTORS && Latest(d, log, k, x)
    ensures Latest(d, log + [call], k, if WritesTo(call, k) then call.op.data else x)
  {
    var log', n := log + [call], |log|;
    if WritesTo(call, k) {
      assert WritesTo(log'[n], k);
    } else if exists l :: 0 <= l < n && WritesTo(log[l], k) {
      var j :| 0 <= j < n && WritesTo(log[j], k) && x == log[j].op.data && forall l :: j < l < n ==> !WritesTo(log[l], k);
      assert WritesTo(log'[j], k);
    }
  }

  lemma {:induction false} ReplayIsLatest(d: Image, log: seq<Done>, k: int)
    requires Legal(log) && 0 <= k < NUM_SECTORS
    ensures Latest(d, log, k, Replay(d, log)[k])
    decreases |log|
  {
    if log != [] {
      hide Latest;
      var n := |log| - 1;
      ReplayIsLatest(d, log[..n], k);
      LatestStep(d, log[..n], log[n], k, Replay(d, log[..n])[k]);
      assert log[..n] + [log[n]] == log;
    }
  }

  lemma SequentialReads(d: Image, log: seq<Done>)
    requires Sequential(d, log)
    ensures ReadsLatest(d, log)
  {
    forall i | 0 <= i < |log| && log[i].op.Read? ensures Latest(d, log[..i], log[i].op.sector, log[i].data) {
      ReplayIsLatest(d, log[..i], log[i].op.sector);
    }
    hide Latest;
  }

  /* The machine. */

  /** `asked` holds the arguments of a thread's call. The last two fields are
      history: the requests in the order the device got them, and the calls in
      the order they returned. */
  datatype State = State(device: Devices.Device, sectors: Image, asked: map<Tid, Op>, log: seq<Done>, returned: seq<Done>)

  datatype Event = Call(who: Tid, op: Op) | Tick(who: Tid) | DiskInt

  predicate At(s: State, t: Tid, phase: Devices.Phase) { t in s.device.phases && s.device.phases[t] == phase }

  function Step(s: State, e: Event): State {
    match e
    case Call(t, op) =>
      if At(s, t, Devices.Outside) && InRange(op) then
        s.(device := Devices.Step(s.device, Devices.Call(t)), asked := s.asked[t := op])
      else s
    case Tick(t) =>
      var s' := s.(device := Devices.Step(s.device, Devices.Tick(t)));
      if At(s, t, Devices.Ready) && t in s.asked && InRange(s.asked[t]) then
        // ReadRequest or WriteRequest: the data moves at once, the interrupt comes later
        var op := s.asked[t];
        s'.(sectors := Effect(s.sectors, op), log := s.log + [Done(t, op, Answer(s.sectors, op))])
      else if At(s, t, Devices.Unlocked) && s.log != [] then
        s'.(returned := s.returned + [s.log[|s.log| - 1]])
      else s'
    case DiskInt => s.(device := Devices.Step(s.device, Devices.Interrupt))
  }

  function Initial(threads: set<Tid>, d: Image): State { State(Devices.Initial(threads), d, map[], [], []) }

  function Run(s: State, events: seq<Event>): State
    decreases |events|
  {
    if events == [] then s else Step(Run(s, events[..|events| - 1]), events[|events| - 1])
  }

  /** The owner's request has been made and its call not yet returned. */
  predicate Pending(s: State) { Devices.OwnerPhase(s.device) in {Devices.Waiting, Devices.Served, Devices.Unlocked} }

  ghost predicate Inv(d: Image, s: State) {
    && Devices.Inv(s.device)
    && (forall t :: t in s.device.phases && !s.device.phases[t].Outside? ==> t in s.asked && InRange(s.asked[t]))
    && Sequential(d, s.log) && s.sectors == Replay(d, s.log)
    && s.device.started == |s.log|
    && (if Pending(s) then
          && s.log != [] && s.returned == s.log[..|s.log| - 1]
          && s.device.owner == Some(s.log[|s.log| - 1].who)
          && s.log[|s.log| - 1].op == s.asked[s.log[|s.log| - 1].who]
        else s.returned == s.log)
  }

  lemma RequestKeepsInv(d: Image, s: State, t: Tid)
    requires Inv(d, s) && At(s, t, Devices.Ready)
    ensures Inv(d, Step(s, Tick(t)))
  {
    var s' := Step(s, Tick(t));
    SequentialStep(d, s.log, t, s.asked[t]);
    assert s'.log[..|s'.log| - 1] == s.log;
    Devices.StepKeepsInv(s.device, Devices.Tick(t));
    hide Replay; hide Sequential; hide Answer; hide Effect;
  }

  lemma ReturnKeepsInv(d: Image, s: State, t: Tid)
    requires Inv(d, s) && At(s, t, Devices.Unlocked)
    ensures Inv(d, Step(s, Tick(t)))
  {
    hide Replay; hide Sequential; hide Answer; hide Effect;
    Devices.StepKeepsInv(s.device, Devices.Tick(t));
    assert Pending(s) && s.log == s.log[..|s.log| - 1] + [s.log[|s.log| - 1]];
  }

  lemma OtherTickKeepsInv(d: Image, s: State, t: Tid)
    requires Inv(d, s) && !At(s, t, Devices.Ready) && !At(s, t, Devices.Unlocked)
    ensures Inv(d, Step(s, Tick(t)))
  {
    hide Replay; hide Sequential; hide Answer; hide Effect;
    Devices.StepKeepsInv(s.device, Devices.Tick(t));
  }

  lemma StepKeepsInv(d: Image, s: State, e: Event)
    requires Inv(d, s)
    ensures Inv(d, Step(s, e))
  {
    hide Replay; hide Sequential; hide Answer; hide Effect;
    match e {
      case Call(t, op) => Devices.StepKeepsInv(s.device, Devices.Call(t));
      case DiskInt => Devices.StepKeepsInv(s.device, Devices.Interrupt);
      case Tick(t) =>
        if At(s, t, Devices.Ready) {
          RequestKeepsInv(d, s, t);
        } else if At(s, t, Devices.Unlocked) {
          ReturnKeepsInv(d, s, t);
        } else {
          OtherTickKeepsInv(d, s, t);
        }
    }
  }

  lemma NothingDone(d: Image)
    ensures Sequential(d, []) && Replay(d, []) == d
  {
  }

  lemma InitialInv(threads: set<Tid>, d: Image)
    ensures Inv(d, Initial(threads, d))
  {
    hide Devices.Inv; hide Replay;
    var s := Initial(threads, d);
    Devices.InitialInv(threads);
    assert forall t :: t in s.device.phases ==> s.device.phases[t] == Devices.Outside;
    assert s.log == [] && !Pending(s);
    NothingDone(d);
  }

  lemma {:induction false} RunKeepsInv(threads: set<Tid>, d: Image, events: seq<Event>)
    ensures Inv(d, Run(Initial(threads, d), events))
    decreases |events|
  {
    hide Inv; hide Step; hide Initial;
    if events == [] {
      InitialInv(threads, d);
    } else {
      RunKeepsInv(threads, d, events[..|events| - 1]);
      StepKeepsInv(d, Run(Initial(threads, d), events[..|events| - 1]), events[|events| - 1]);
    }
  }

  /** Every run: the calls return in the order in which the device got them. A
      read returns the data of the last write to its sector before it, or what
      the disk held at the start, and so does the disk itself hold; and the k-th
      call returns only after k completion interrupts, the k-th of which is its
      own. */
  lemma DiskIsAnArray(threads: set<Tid>, d: Image, events: seq<Event>)
    ensures var s := Run(Initial(threads, d), events);
            && ReadsLatest(d, s.log)
            && (forall k :: 0 <= k < NUM_SECTORS ==> Latest(d, s.log, k, s.sectors[k]))
            && s.returned <= s.log
            && |s.returned| <= s.device.finished <= |s.log| <= |s.returned| + 1
            && s.device.semaphore <= 1 && s.device.interrupts <= 1
            && (s.device.interrupts == 1 <==> s.device.active)
            && (s.device.lock == 1 ==> s.returned == s.log)
  {
    var s := Run(Initial(threads, d), events);
    RunKeepsInv(threads, d, events);
    hide Run; hide Initial; hide Latest; hide ReadsLatest;
    SequentialReads(d, s.log);
    forall k | 0 <= k < NUM_SECTORS ensures Latest(d, s.log, k, s.sectors[k]) {
      ReplayIsLatest(d, s.log, k);
    }
    hide Replay; hide Sequential;
  }

  /* Where the calls come from. */

  /** The thread has called and not yet made its request. */
  predicate Asking(s: State, t: Tid) {
    t in s.device.phases && s.device.phases[t] in {Devices.Locking, Devices.Locked, Devices.Ready}
  }

  /** The event is a call by a thread that is free to make one. */
  predicate Enters(s: State, e: Event) { e.Call? && At(s, e.who, Devices.Outside) && InRange(e.op) }

  /** It makes a thread hand its request to the device. */
  predicate Requests(s: State, e: Event) { e.Tick? && At(s, e.who, Devices.Ready) }

  /** calls[i] is the event that made the i-th request of the log, own[t] the
      one whose request thread t has yet to make; a thread's calls are served in
      the order it made them, each once. */
  ghost predicate Sources(events: seq<Event>, s: State, calls: seq<nat>, own: map<Tid, nat>) {
    && |calls| == |s.log|
    && (forall i :: 0 <= i < |calls| ==> calls[i] < |events| && events[calls[i]] == Call(s.log[i].who, s.log[i].op))
    && (forall i, j :: 0 <= i < j < |calls| && s.log[i].who == s.log[j].who ==> calls[i] < calls[j])
    && (forall t :: Asking(s, t) ==> t in own && own[t] < |events| && t in s.asked && events[own[t]] == Call(t, s.asked[t]))
    && (forall t, i :: Asking(s, t) && 0 <= i < |calls| && s.log[i].who == t ==> calls[i] < own[t])
  }

  /** Threads that go on asking for the same keep their sources. */
  lemma SourcesKept(events: seq<Event>, s: State, s': State, e: Event, calls: seq<nat>, own: map<Tid, nat>)
    requires Sources(events, s, calls, own) && s'.log == s.log
    requires forall t :: Asking(s', t) ==> Asking(s, t) && t in s'.asked && s'.asked[t] == s.asked[t]
    ensures Sources(events + [e], s', calls, own)
  {
    hide Asking;
  }

  lemma SourcesOfCall(events: seq<Event>, s: State, t: Tid, op: Op, calls: seq<nat>, own: map<Tid, nat>)
    requires Sources(events, s, calls, own) && At(s, t, Devices.Outside) && InRange(op)
    ensures Sources(events + [Call(t, op)], Step(s, Call(t, op)), calls, own[t := |events|])
  {
    var s' := Step(s, Call(t, op));
    assert s'.log == s.log && s'.asked == s.asked[t := op];
    assert forall u :: Asking(s', u) ==> u == t || Asking(s, u);
    hide Step; hide Asking;
  }

  lemma SourcesOfRequest(d: Image, events: seq<Event>, s: State, t: Tid, calls: seq<nat>, own: map<Tid, nat>)
    requires Inv(d, s) && Sources(events, s, calls, own) && At(s, t, Devices.Ready)
    ensures Asking(s, t) && Sources(events + [Tick(t)], Step(s, Tick(t)), calls + [own[t]], own)
  {
    var s' := Step(s, Tick(t));
    assert s'.asked == s.asked && |s'.log| == |s.log| + 1 && s'.log[..|s.log|] == s.log;
    assert s'.log[|s.log|].who == t && s'.log[|s.log|].op == s.asked[t];
    assert forall u :: Asking(s', u) ==> u != t && Asking(s, u);
    assert Asking(s, t);
    hide Step; hide Asking; hide Inv;
  }

  lemma SourcesStep(d: Image, events: seq<Event>, s: State, e: Event, calls: seq<nat>, own: map<Tid, nat>)
    returns (calls': seq<nat>, own': map<Tid, nat>)
    requires Inv(d, s) && Sources(events, s, calls, own)
    ensures Sources(events + [e], Step(s, e), calls', own')
    ensures own' == if Enters(s, e) then own[e.who := |events|] else own
    ensures if Requests(s, e) then e.who in own && calls' == calls + [own[e.who]] else calls' == calls
  {
    hide Inv;
    calls', own' := calls, own;
    if Enters(s, e) {
      SourcesOfCall(events, s, e.who, e.op, calls, own);
      own' := own[e.who := |events|];
    } else if Requests(s, e) {
      SourcesOfRequest(d, events, s, e.who, calls, own);
      calls' := calls + [own[e.who]];
    } else {
      StillAsking(s, e);
      AskedFor(events, s, calls, own);
      hide Sources; hide Step;
      SourcesKept(events, s, Step(s, e), e, calls, own);
    }
  }

  lemma AskedFor(events: seq<Event>, s: State, calls: seq<nat>, own: map<Tid, nat>)
    requires Sources(events, s, calls, own)
    ensures forall t :: Asking(s, t) ==> t in s.asked
  {
    hide Asking;
  }

  lemma StillAsking(s: State, e: Event)
    requires !Enters(s, e) && !Requests(s, e)
    ensures var s' := Step(s, e);
            s'.log == s.log && s'.asked == s.asked && forall t :: Asking(s', t) <==> Asking(s, t)
  {
  }

  /** Every call a thread has made while it was free is one of the requests, or
      the thread is still on its way to making it. */
  ghost predicate Served(s0: State, events: seq<Event>, calls: seq<nat>, own: map<Tid, nat>) {
    forall k :: 0 <= k < |events| && Enters(Run(s0, events[..k]), events[k]) ==>
      k in calls || (Asking(Run(s0, events), events[k].who) && events[k].who in own && own[events[k].who] == k)
  }

  lemma OthersAsk(s: State, e: Event, t: Tid)
    requires Asking(s, t) && !(Requests(s, e) && e.who == t)
    ensures Asking(Step(s, e), t)
  {
  }

  lemma EnteredAsks(s: State, e: Event)
    requires Enters(s, e)
    ensures Asking(Step(s, e), e.who)
  {
  }

  lemma ServedStep(s0: State, events: seq<Event>, e: Event, calls: seq<nat>, own: map<Tid, nat>,
                   calls': seq<nat>, own': map<Tid, nat>)
    requires Served(s0, events, calls, own)
    requires var s := Run(s0, events);
             && own' == (if Enters(s, e) then own[e.who := |events|] else own)
             && (if Requests(s, e) then e.who in own && calls' == calls + [own[e.who]] else calls' == calls)
    ensures Served(s0, events + [e], calls', own')
  {
    var s, events' := Run(s0, events), events + [e];
    assert events'[..|events|] == events;
    assert Run(s0, events') == Step(s, e);
    forall k | 0 <= k < |events'| && Enters(Run(s0, events'[..k]), events'[k])
      ensures k in calls' || (Asking(Step(s, e), events'[k].who) && events'[k].who in own' && own'[events'[k].who] == k)
    {
      if k == |events| {
        EnteredAsks(s, e);
      } else {
        assert events'[..k] == events[..k];
        StillServed(s, e, events[k].who, k, |events|, calls, own, calls', own');
      }
    }
  }

  lemma StillServed(s: State, e: Event, t: Tid, k: nat, n: nat, calls: seq<nat>, own: map<Tid, nat>,
                    calls': seq<nat>, own': map<Tid, nat>)
    requires k in calls || (Asking(s, t) && t in own && own[t] == k)
    requires own' == if Enters(s, e) then own[e.who := n] else own
    requires if Requests(s, e) then e.who in own && calls' == calls + [own[e.who]] else calls' == calls
    ensures k in calls' || (Asking(Step(s, e), t) && t in own' && own'[t] == k)
  {
    if k !in calls' {
      assert !(Requests(s, e) && e.who == t);
      OthersAsk(s, e, t);
      hide Step;
    }
  }

  /** Every request the device got was made by a call, in the thread that made
      it, once and in that thread's order; and every call is served so, unless
      its thread has yet to get to the device. */
  lemma {:induction false} RequestsAreCalls(threads: set<Tid>, d: Image, events: seq<Event>)
    returns (calls: seq<nat>, own: map<Tid, nat>)
    ensures Sources(events, Run(Initial(threads, d), events), calls, own)
    ensures Served(Initial(threads, d), events, calls, own)
    decreases |events|
  {
    hide Inv;
    calls, own := [], map[];
    if events == [] {
      assert forall t :: t in Devices.Initial(threads).phases ==> Devices.Initial(threads).phases[t] == Devices.Outside;
    } else {
      hide Sources; hide Step; hide Served; hide Enters; hide Requests; hide Initial;
      var n := |events| - 1;
      var calls0, own0 := RequestsAreCalls(threads, d, events[..n]);
      RunKeepsInv(threads, d, events[..n]);
      calls, own := SourcesStep(d, events[..n], Run(Initial(threads, d), events[..n]), events[n], calls0, own0);
      ServedStep(Initial(threads, d), events[..n], events[n], calls0, own0, calls, own);
      assert events[..n] + [events[n]] == events;
    }
  }

  lemma UnlockedIsPending(d: Image, s: State, t: Tid)
    requires Inv(d, s) && At(s, t, Devices.Unlocked)
    ensures Pending(s) && s.device.owner == Some(t) && s.device.finished == |s.log|
  {
    hide Replay; hide Sequential;
    Devices.AssertionsHold(s.device, t);
  }

  /** A call that returns does so with its own request's answer, after the
      device's own completion interrupt for it. */
  lemma ReturnsItsOwn(d: Image, s: State, t: Tid)
    requires Inv(d, s) && At(s, t, Devices.Unlocked)
    ensures var s' := Step(s, Tick(t));
            && s'.returned == s.returned + [s'.returned[|s.returned|]]
            && s.device.finished == |s'.returned|
            && s'.returned[|s.returned|].who == t && s'.returned[|s.returned|].op == s.asked[t]
            && ReadsLatest(d, s'.returned)
  {
    UnlockedIsPending(d, s, t);
    SequentialReads(d, s.log);
    hide ReadsLatest; hide Replay; hide Sequential; hide Answer; hide Effect; hide Devices.Inv; hide Devices.Step;
    assert s.log == s.log[..|s.log| - 1] + [s.log[|s.log| - 1]];
  }
}
