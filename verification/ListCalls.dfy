/** What the synchronised list holds is what its callers appended
(threads/synchlist.cc): each call of Append, once. */
module ListCalls {
  import opened SynchLists

  /** The thread has called Append with the item and not yet put it on the list. */
  predicate Brings(s: State, t: Tid, item: Item) {
    t in s.pcs && s.pcs[t] in {Locking(ToAppend(item)), Locked(ToAppend(item)), Inside(Adding(item))}
  }

  /** The event is a call of Append by an idle thread. */
  predicate Enters(s: State, e: Event) { e.Append? && e.who in s.pcs && s.pcs[e.who].Idle? }

  /** It makes a thread put its item on the list. */
  predicate Adds(s: State, e: Event) {
    e.Tick? && e.who in s.pcs && s.pcs[e.who].Inside? && s.pcs[e.who].task.Adding?
  }

  /** calls[i] is the call that brought the i-th item ever appended, own[t] the
      one whose item thread t is bringing. No call brings two. */
  ghost predicate Sources(events: seq<Event>, s: State, calls: seq<nat>, own: map<Tid, nat>) {
    && |calls| == |s.appended|
    && (forall i :: 0 <= i < |calls| ==>
          calls[i] < |events| && events[calls[i]].Append? && events[calls[i]].item == s.appended[i])
    && (forall i, j :: 0 <= i < j < |calls| ==> calls[i] != calls[j])
    && (forall t, item :: Brings(s, t, item) ==>
          t in own && own[t] < |events| && own[t] !in calls && events[own[t]] == Append(t, item))
  }

  lemma EnterBrings(s: State, e: Event)
    requires Enters(s, e)
    ensures var s' := Step(s, e);
            && s'.appended == s.appended && Brings(s', e.who, e.item)
            && forall t, item :: Brings(s', t, item) <==> (t == e.who && item == e.item) || (t != e.who && Brings(s, t, item))
  {
  }

  lemma AddBrings(s: State, e: Event)
    requires Adds(s, e)
    ensures var s', x := Step(s, e), s.pcs[e.who].task.item;
            && Brings(s, e.who, x) && s'.appended == s.appended + [x]
            && forall t, item :: Brings(s', t, item) <==> t != e.who && Brings(s, t, item)
  {
  }

  lemma OthersBring(s: State, e: Event)
    requires !Enters(s, e) && !Adds(s, e)
    ensures var s' := Step(s, e);
            s'.appended == s.appended && forall t, item :: Brings(s', t, item) <==> Brings(s, t, item)
  {
    if e.who in s.pcs {
      if !e.Tick? {
        ChoiceBrings(s, e);
      } else if s.pcs[e.who].Inside? {
        TaskBrings(s, e.who, s.pcs[e.who].task);
      } else {
        MoveBrings(s, e.who);
      }
    }
    hide Chosen; hide Advance; hide Brings;
  }

  lemma ChoiceBrings(s: State, e: Event)
    requires !e.Tick? && e.who in s.pcs && !Enters(s, e)
    ensures forall t, item :: Brings(At(s, e.who, Chosen(s.pcs[e.who], e)), t, item) <==> Brings(s, t, item)
  {
  }

  lemma TaskBrings(s: State, t: Tid, task: Task)
    requires t in s.pcs && s.pcs[t] == Inside(task) && !task.Adding?
    ensures var s' := DoTask(s, t, task);
            s'.appended == s.appended && forall u, item :: Brings(s', u, item) <==> Brings(s, u, item)
  {
    var s' := DoTask(s, t, task);
    assert s'.appended == s.appended && s'.pcs == s.pcs[t := s'.pcs[t]];
    assert s'.pcs[t].Inside? ==> !s'.pcs[t].task.Adding?;
    assert !s'.pcs[t].Locking? && !s'.pcs[t].Locked?;
    hide DoTask;
  }

  lemma MoveBrings(s: State, t: Tid)
    requires t in s.pcs && !s.pcs[t].Inside?
    ensures var s' := Advance(s, t);
            s'.appended == s.appended && forall u, item :: Brings(s', u, item) <==> Brings(s, u, item)
  {
    var s' := Advance(s, t);
    assert s'.appended == s.appended && s'.pcs == s.pcs[t := s'.pcs[t]];
    assert forall item :: Brings(s', t, item) <==> Brings(s, t, item);
    hide Advance;
  }

  lemma SourcesStep(events: seq<Event>, s: State, e: Event, calls: seq<nat>, own: map<Tid, nat>)
    returns (calls': seq<nat>, own': map<Tid, nat>)
    requires Sources(events, s, calls, own)
    ensures Sources(events + [e], Step(s, e), calls', own')
    ensures own' == if Enters(s, e) then own[e.who := |events|] else own
    ensures if Adds(s, e) then e.who in own && calls' == calls + [own[e.who]] else calls' == calls
  {
    calls', own' := calls, own;
    if Enters(s, e) {
      EnterBrings(s, e);
      own' := own[e.who := |events|];
    } else if Adds(s, e) {
      AddBrings(s, e);
      calls' := calls + [own[e.who]];
    } else {
      OthersBring(s, e);
    }
    hide Step; hide Brings;
  }

  /** Every call of Append by an idle thread has its item on the list's record,
      or its thread is still bringing it. */
  ghost predicate Served(s0: State, events: seq<Event>, calls: seq<nat>, own: map<Tid, nat>) {
    forall k :: 0 <= k < |events| && Enters(Run(s0, events[..k]), events[k]) ==>
      k in calls || StillBrings(Run(s0, events), events[k], k, own)
  }

  predicate StillBrings(s: State, call: Event, k: nat, own: map<Tid, nat>)
    requires call.Append?
  {
    Brings(s, call.who, call.item) && call.who in own && own[call.who] == k
  }

  lemma StillServed(s: State, e: Event, call: Event, k: nat, n: nat, calls: seq<nat>, own: map<Tid, nat>,
                    calls': seq<nat>, own': map<Tid, nat>)
    requires call.Append? && (k in calls || StillBrings(s, call, k, own))
    requires own' == if Enters(s, e) then own[e.who := n] else own
    requires if Adds(s, e) then e.who in own && calls' == calls + [own[e.who]] else calls' == calls
    ensures k in calls' || StillBrings(Step(s, e), call, k, own')
  {
    if k !in calls' {
      assert !(Adds(s, e) && e.who == call.who) && !(Enters(s, e) && e.who == call.who);
      if Enters(s, e) {
        EnterBrings(s, e);
      } else if Adds(s, e) {
        AddBrings(s, e);
      } else {
        OthersBring(s, e);
      }
      hide Step; hide Brings; hide Enters; hide Adds;
    }
  }

  lemma ServedStep(s0: State, events: seq<Event>, e: Event, calls: seq<nat>, own: map<Tid, nat>,
                   calls': seq<nat>, own': map<Tid, nat>)
    requires Served(s0, events, calls, own)
    requires var s := Run(s0, events);
             && own' == (if Enters(s, e) then own[e.who := |events|] else own)
             && (if Adds(s, e) then e.who in own && calls' == calls + [own[e.who]] else calls' == calls)
    ensures Served(s0, events + [e], calls', own')
  {
    hide Step; hide Brings; hide Adds;
    var s, events' := Run(s0, events), events + [e];
    assert events'[..|events|] == events;
    assert Run(s0, events') == Step(s, e);
    forall k | 0 <= k < |events'| && Enters(Run(s0, events'[..k]), events'[k])
      ensures k in calls' || StillBrings(Step(s, e), events'[k], k, own')
    {
      if k == |events| {
        EnterBrings(s, e);
      } else {
        assert events'[..k] == events[..k];
        StillServed(s, e, events[k], k, |events|, calls, own, calls', own');
      }
    }
  }

  /** In every run, for any clients: the items ever appended are those of calls
      of Append, one for one; with `SynchLists.ListIsFifo`, what RemoveFront hands
      out, and what the list still holds, is what callers gave it. */
  lemma {:induction false} ItemsAreAppended(threads: set<Tid>, events: seq<Event>)
    returns (calls: seq<nat>, own: map<Tid, nat>)
    ensures Sources(events, Run(Initial(threads), events), calls, own)
    ensures Served(Initial(threads), events, calls, own)
    decreases |events|
  {
    calls, own := [], map[];
    if events == [] {
      assert forall t :: t in Initial(threads).pcs ==> Initial(threads).pcs[t] == Idle;
    } else {
      hide Sources; hide Served; hide Step; hide Enters; hide Adds;
      var n := |events| - 1;
      var calls0, own0 := ItemsAreAppended(threads, events[..n]);
      calls, own := SourcesStep(events[..n], Run(Initial(threads), events[..n]), events[n], calls0, own0);
      ServedStep(Initial(threads), events[..n], events[n], calls0, own0, calls, own);
      assert events[..n] + [events[n]] == events;
    }
  }
}
