/** What every run of the TABLE writer keeps, whatever the interleaving and the server's
answers. */
module WriterTheorems {
  import opened Bytes
  import opened WriterSession
  import opened WriterMachine

  lemma EventsConcat(a: seq<(Event, Fate)>, b: seq<(Event, Fate)>)
    ensures Events(a + b) == Events(a) + Events(b)
  {
  }

  lemma EventsOfDiscarded(es: seq<Event>)
    ensures Events(DiscardAll(es)) == es
  {
  }

  lemma CountSnoc(a: seq<(Event, Fate)>, x: (Event, Fate), fate: Fate)
    ensures Count(a + [x], fate) == Count(a, fate) + if x.1 == fate then 1 else 0
  {
    assert (a + [x])[..|a|] == a;
  }

  lemma {:induction false} CountDiscarded(a: seq<(Event, Fate)>, es: seq<Event>, fate: Fate)
    requires fate != Discarded
    ensures Count(a + DiscardAll(es), fate) == Count(a, fate)
  {
    hide Count;
    if es == [] {
      assert a + DiscardAll(es) == a;
    } else {
      var n := |es| - 1;
      CountDiscarded(a, es[..n], fate);
      assert a + DiscardAll(es) == a + DiscardAll(es[..n]) + [(es[n], Discarded)];
      CountSnoc(a + DiscardAll(es[..n]), (es[n], Discarded), fate);
    }
  }

  // ---- each step keeps the invariant ----

  lemma CreateKeeps(s: Writer)
    requires Inv(s)
    ensures Inv(Creating(s))
  {
    hide Kept, Events, Count;
  }

  lemma CheckKeeps(s: Writer, t: Tid)
    requires Inv(s)
    ensures Inv(Checking(s, t))
  {
    hide Kept, Events, Count;
  }

  lemma SignalStructure(s: Writer)
    requires Structure(s)
    ensures Structure(Signal(s)) && Batch(Signal(s)) == Batch(s) && Busy(Signal(s), s.tid) == Busy(s, s.tid)
    ensures forall t <- s.threads :: Draining(Signal(s), t) == Draining(s, t)
    ensures Draining(Signal(s), s.tid) == Draining(s, s.tid)
    ensures Signal(s).threads.Keys == s.threads.Keys
    ensures forall t <- Signal(s).threads :: t in s.threads && Signal(s).threads[t] == Woken(s.threads[t])
    ensures NoLostWakeup(Signal(s))
  {
  }

  lemma PushKeeps(s: Writer, e: Event)
    requires Inv(s) && s.queue.Some? && s.running
    ensures Inv(Push(s, e))
  {
    hide Kept, Events, Count, Signal, Structure;
    if |s.queue.value| < QUEUE_MAX {
      var t := s.(queue := Some(s.queue.value + [e]), accepted := s.accepted + [e]);
      assert Structure(t) by { StructureOnly(s, t); }
      assert t.accepted == Events(t.settled) + Batch(t) + Queue(t);
      SignalStructure(t);
      SignalFrame(t);
      var u := Signal(t);
      assert Bounds(u) && Ledger(u);
      assert Connected(u);
      assert Drain(u);
    } else {
      StructureOnly(s, s.(dropped := s.dropped + 1));
    }
  }

  lemma StructureOnly(s: Writer, t: Writer)
    requires Structure(s) && t.threads == s.threads && t.tid == s.tid && t.running == s.running && t.cleared == s.cleared
    requires t.phase == s.phase && t.stop == s.stop && t.queue.None? == s.queue.None?
    ensures Structure(t)
  {
  }

  lemma SignalFrame(s: Writer)
    ensures Signal(s) == s.(threads := Signal(s).threads)
  {
  }

  lemma ClearedKeeps(s: Writer, t: Tid)
    requires Inv(s)
    ensures Inv(s.(cleared := s.cleared - {t}))
  {
    hide Kept, Events, Count;
  }

  lemma UnstoppedKeeps(s: Writer)
    requires Inv(s) && !s.running
    ensures Inv(s.(stop := false))
  {
    hide Kept, Events, Count;
  }

  lemma StartKeeps(s: Writer, newTid: Tid)
    requires Inv(s) && !s.running && s.queue.Some? && newTid !in s.cleared
    ensures Inv(Started(s, newTid))
  {
    hide Kept, Events, Count;
    assert s.threads == map[];
  }

  lemma EnqueueKeeps(s: Writer, step: Step)
    requires Inv(s) && step.Enqueue?
    ensures Inv(Enqueuing(s, step))
  {
    hide Inv, Push;
    var t := s.(cleared := s.cleared - {step.raiser});
    ClearedKeeps(s, step.raiser);
    if step.raiser in s.cleared && s.queue.Some? {
      if s.running {
        PushKeeps(t, Event(step.raiser, step.sql));
      } else {
        UnstoppedKeeps(t);
        if Starts(s, step) {
          StartKeeps(t, step.newTid);
          PushKeeps(Started(t, step.newTid), Event(step.raiser, step.sql));
        }
      }
    }
  }

  lemma BeginKeeps(s: Writer, t: Tid)
    requires Inv(s)
    ensures Inv(Beginning(s, t))
  {
    hide Kept, Events, Count;
    if t in s.threads && s.threads[t].pc.Starting? {
      KeptReset(s.session);
    }
  }

  lemma TakeKeeps(s: Writer, t: Tid)
    requires Inv(s)
    ensures Inv(Taking(s, t))
  {
    hide Kept, Events, Count;
    var u := Taking(s, t);
    if t in s.threads && (s.threads[t].pc.Locking? || s.threads[t].pc.Waiting?) && s.queue.Some? && u != s
       && u.threads[t].pc.Inserting? {
      assert Batch(s) == [] && Batch(u) == s.queue.value;
      assert |s.accepted| == |s.settled| + |s.queue.value| by { EventsLength(s.settled); }
    }
  }

  lemma EventsLength(settled: seq<(Event, Fate)>)
    ensures |Events(settled)| == |settled|
  {
  }

  lemma AttemptKeeps(s: Writer, t: Tid, replies: Replies)
    requires Inv(s)
    ensures Inv(Attempting(s, t, replies))
  {
    hide Kept, Events, Count, Ledger, WriterSession.Attempt;
    if Busy(s, t) && s.threads[t].batch != [] {
      KeptAttempt(s.session, replies);
      AttemptLedger(s, t, replies);
      BusyKeepsConnection(s, t, replies);
    }
  }

  lemma BusyKeepsConnection(s: Writer, t: Tid, replies: Replies)
    requires Inv(s) && Busy(s, t) && s.threads[t].batch != []
    ensures var u := Attempting(s, t, replies);
            Structure(u) && Bounds(u) && NoLostWakeup(u) && Drain(u) && u.tid == t && Busy(u, t)
  {
    hide Connected, Ledger, WriterSession.Attempt;
    var u := Attempting(s, t, replies);
    assert |Batch(u)| == |Batch(s)| - 1 && |u.settled| == |s.settled| + 1;
  }

  lemma AttemptLedger(s: Writer, t: Tid, replies: Replies)
    requires Structure(s) && Ledger(s) && Kept(s.session) && Busy(s, t) && s.threads[t].batch != []
    ensures Ledger(Attempting(s, t, replies))
  {
    hide Kept, Events, Count, WriterSession.Attempt;
    KeptAttempt(s.session, replies);
    var (_, ok) := WriterSession.Attempt(s.session, replies);
    var batch := s.threads[t].batch;
    var x := (batch[0], if ok then Inserted else Lost);
    CountSnoc(s.settled, x, Lost);
    CountSnoc(s.settled, x, Inserted);
    EventsConcat(s.settled, [x]);
    EventsOfOne(x);
    Moved(Events(s.settled), batch, Queue(s));
  }

  lemma Moved(a: seq<Event>, batch: seq<Event>, c: seq<Event>)
    requires batch != []
    ensures a + batch + c == a + [batch[0]] + batch[1..] + c
  {
    assert batch == [batch[0]] + batch[1..];
  }

  lemma EventsOfOne(x: (Event, Fate))
    ensures Events([x]) == [x.0]
  {
  }

  lemma FinishKeeps(s: Writer, t: Tid)
    requires Inv(s)
    ensures Inv(Finishing(s, t))
  {
    hide Kept, Events, Count, CloseConn;
    KeptClose(s.session);
    KeptForgets(CloseConn(s.session));
  }

  lemma KeptForgets(s: Session)
    requires Kept(s)
    ensures Kept(s.(inited := false))
  {
  }

  lemma StopKeeps(s: Writer)
    requires Inv(s)
    ensures Inv(Stopping(s))
  {
    hide Kept, Events, Count, Signal;
    if s.phase.Up? && s.running {
      var t := s.(stop := true, phase := Joining(s.tid), acceptedAtStop := |s.accepted|, settledAtStop := |s.settled|);
      SignalStructure(t);
      SignalFrame(t);
    }
  }

  lemma JoinKeeps(s: Writer)
    requires Inv(s)
    ensures Inv(JoinReturns(s))
  {
    hide Kept, Events, Count;
  }

  lemma DeleteKeeps(s: Writer)
    requires Inv(s) && !Orphans(s, Delete)
    ensures Inv(Deleting(s))
  {
    hide Kept, Events, Count;
    if s.queue.Some? {
      EventsConcat(s.settled, DiscardAll(s.queue.value));
      EventsOfDiscarded(s.queue.value);
      CountDiscarded(s.settled, s.queue.value, Lost);
      CountDiscarded(s.settled, s.queue.value, Inserted);
    } else {
      assert s.settled + [] == s.settled;
    }
  }

  lemma NextKeeps(s: Writer, step: Step)
    requires Inv(s) && !Orphans(s, step)
    ensures Inv(Next(s, step))
  {
    hide Inv;
    match step {
      case Create => CreateKeeps(s);
      case CheckSelf(t) => CheckKeeps(s, t);
      case Enqueue(_, _, _, _) => EnqueueKeeps(s, step);
      case Begin(t) => BeginKeeps(s, t);
      case Take(t) => TakeKeeps(s, t);
      case Attempt(t, replies) => AttemptKeeps(s, t, replies);
      case Finish(t) => FinishKeeps(s, t);
      case RequestStop => StopKeeps(s);
      case Join => JoinKeeps(s);
      case Delete => DeleteKeeps(s);
    }
  }

  /** In every run in which no thread loses its queue. */
  lemma {:induction false} EveryRunKeeps(threshold: nat, steps: seq<Step>)
    requires Sane(threshold, steps)
    ensures Inv(Exec(threshold, steps))
  {
    hide Inv, Next, Orphans;
    if steps == [] {
      FreshKeeps(threshold);
    } else {
      EveryRunKeeps(threshold, steps[..|steps| - 1]);
      NextKeeps(Exec(threshold, steps[..|steps| - 1]), steps[|steps| - 1]);
    }
  }

  lemma FreshKeeps(threshold: nat)
    ensures Inv(FreshWriter(threshold))
  {
    KeptFresh(threshold);
  }
}
