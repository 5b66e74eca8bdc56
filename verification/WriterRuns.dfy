/** The promises of the TABLE writer, over whole runs. */
module WriterRuns {
  import opened Bytes
  import opened WriterSession
  import opened WriterMachine
  import opened WriterTheorems

  lemma ExecSnoc(threshold: nat, steps: seq<Step>, step: Step)
    ensures Exec(threshold, steps + [step]) == Next(Exec(threshold, steps), step)
    ensures Sane(threshold, steps + [step]) <==> Sane(threshold, steps) && !Orphans(Exec(threshold, steps), step)
  {
    hide Next, Orphans;
    assert (steps + [step])[..|steps|] == steps;
  }

  lemma {:induction false} SaneWithoutDelete(threshold: nat, a: seq<Step>, b: seq<Step>)
    requires Sane(threshold, a) && forall step <- b :: !step.Delete?
    ensures Sane(threshold, a + b)
    decreases b
  {
    hide Exec;
    if b == [] {
      assert a + b == a;
    } else {
      var n := |b| - 1;
      assert b[n] in b && forall step <- b[..n] :: step in b;
      assert (a + b)[..|a + b| - 1] == a + b[..n];
      SaneWithoutDelete(threshold, a, b[..n]);
    }
  }

  /** Conservation: in every run the accepted events are, in order, those settled, the rest
      of the batch and the queue; each attempt counts as one success or one failure. */
  lemma AcceptedIsConserved(threshold: nat, steps: seq<Step>)
    requires Sane(threshold, steps)
    ensures var s := Exec(threshold, steps);
            && s.accepted == Events(s.settled) + Batch(s) + Queue(s)
            && s.session.failures == Count(s.settled, Lost)
            && s.session.attempts == Count(s.settled, Lost) + Count(s.settled, Inserted)
  {
    hide Exec, Sane;
    EveryRunKeeps(threshold, steps);
  }

  /** No lost wakeup, and bounded memory. */
  lemma WakeupsAndBounds(threshold: nat, steps: seq<Step>, t: Tid)
    requires Sane(threshold, steps)
    ensures var s := Exec(threshold, steps);
            && (t in s.threads && s.threads[t].pc == Waiting(false) ==> s.queue == Some([]) && !s.stop)
            && |Queue(s)| <= 10000 && |Queue(s)| + |Batch(s)| <= 20000
  {
    hide Exec, Sane;
    EveryRunKeeps(threshold, steps);
  }

  /** At most one writer thread; as long as it lives, it is recognised as the writer, so no
      event is ever accepted from it. */
  lemma NoSelfLogging(threshold: nat, steps: seq<Step>, step: Step)
    requires Sane(threshold, steps)
    ensures var s := Exec(threshold, steps);
            && (forall t, u :: t in s.threads && u in s.threads ==> t == u)
            && (forall t <- s.threads :: s.IsSelf(t) && Checking(s, t) == s)
            && (step.Enqueue? && step.raiser in s.threads ==> Next(s, step) == s)
  {
    hide Exec, Sane;
    EveryRunKeeps(threshold, steps);
  }

  lemma {:induction false} ThresholdStays(threshold: nat, steps: seq<Step>)
    requires Sane(threshold, steps)
    ensures Exec(threshold, steps).session.policy.threshold == threshold
  {
    hide Inv, WriterSession.Attempt, CloseConn, Signal, Orphans;
    if steps != [] {
      var before := steps[..|steps| - 1];
      ThresholdStays(threshold, before);
      EveryRunKeeps(threshold, before);
      var s := Exec(threshold, before);
      assert Kept(s.session) by { InvKept(s); }
      KeptClose(s.session);
      SignalFrame(s);
      var step := steps[|steps| - 1];
      if step.Attempt? {
        KeptAttempt(s.session, step.replies);
      } else {
        OthersLeaveThePolicy(s, step);
      }
    }
  }

  lemma InvKept(s: Writer)
    requires Inv(s)
    ensures Kept(s.session)
  {
    hide Kept;
  }

  lemma OthersLeaveThePolicy(s: Writer, step: Step)
    requires !step.Attempt?
    ensures Next(s, step).session.policy.threshold == s.session.policy.threshold
  {
  }

  lemma ModedNext(s: Writer, step: Step)
    requires Moded(s.session)
    ensures Moded(Next(s, step).session)
  {
    hide ModeBeforeInsert, WriterSession.Attempt, CloseConn, Signal;
    SignalKeeps();
    if step.Attempt? {
      ModedAttempt(s.session, step.replies);
    }
    ModedClose(s.session);
  }

  /** In every run, whatever the server answers and however the shutdown goes: each INSERT
      goes over a connection on which the mode was set before. */
  lemma {:induction false} ModeComesFirst(threshold: nat, steps: seq<Step>)
    ensures Moded(Exec(threshold, steps).session)
    ensures var calls := Exec(threshold, steps).session.calls;
            forall j :: 0 <= j < |calls| && calls[j].Sent? ==> Mode(calls[j].id, true) in calls[..j]
  {
    hide Next;
    if steps != [] {
      ModeComesFirst(threshold, steps[..|steps| - 1]);
      ModedNext(Exec(threshold, steps[..|steps| - 1]), steps[|steps| - 1]);
    }
  }

  lemma TidyNext(s: Writer, step: Step)
    requires Tidy(s.session)
    ensures Tidy(Next(s, step).session)
  {
    hide Tidy, WriterSession.Attempt, CloseConn, Signal;
    SignalKeeps();
    if step.Attempt? {
      TidyAttempt(s.session, step.replies);
    }
    TidyClose(s.session);
    TidyOnly(CloseConn(s.session), CloseConn(s.session).(inited := false));
    TidyOnly(s.session, s.session.(policy := Reset(s.session.policy)));
  }

  /** In every run: each INSERT goes over a handle that is open, nothing is opened while one
      is, and opens minus closes is one exactly when the handle is set. */
  lemma {:induction false} HandlesAreDisciplined(threshold: nat, steps: seq<Step>)
    ensures var s := Exec(threshold, steps).session;
            && Disciplined(s.calls) && OpenAfter(s.calls) == ConnSet(s)
            && Opens(s.calls) - Closes(s.calls) == (if s.conn.Some? then 1 else 0)
  {
    hide Next, Disciplined;
    if steps != [] {
      HandlesAreDisciplined(threshold, steps[..|steps| - 1]);
      TidyNext(Exec(threshold, steps[..|steps| - 1]), steps[|steps| - 1]);
    } else {
      assert Disciplined([]) by { NoCalls(); }
    }
  }

  lemma NoCalls()
    ensures Disciplined([])
  {
  }

  /** Through recycles, retries, failed openings and restarts of the thread: no connection
      carries more than `threshold` events. */
  lemma ConnectionsAreRecycled(threshold: nat, steps: seq<Step>, id: nat)
    requires Sane(threshold, steps) && threshold > 0
    ensures |Carried(Exec(threshold, steps).session.calls, id)| <= threshold
  {
    hide Exec, Sane, Windowed, Carried;
    EveryRunKeeps(threshold, steps);
    ThresholdStays(threshold, steps);
    NoConnectionCarriesMore(Exec(threshold, steps).session, id);
  }

  // ---- reported successes are successes ----

  /** The events that were attempted, in order. */
  function Attempted(settled: seq<(Event, Fate)>): seq<(Event, Fate)> {
    if settled == [] then [] else
      var before, x := Attempted(settled[..|settled| - 1]), settled[|settled| - 1];
      if x.1 == Discarded then before else before + [x]
  }

  lemma AttemptedSnoc(settled: seq<(Event, Fate)>, x: (Event, Fate))
    ensures Attempted(settled + [x]) == Attempted(settled) + if x.1 == Discarded then [] else [x]
  {
    assert (settled + [x])[..|settled|] == settled;
  }

  lemma {:induction false} DiscardedAreNotAttempted(settled: seq<(Event, Fate)>, es: seq<Event>)
    ensures Attempted(settled + DiscardAll(es)) == Attempted(settled)
    decreases es
  {
    hide Attempted;
    if es == [] {
      assert settled + DiscardAll(es) == settled;
    } else {
      var n := |es| - 1;
      DiscardedAreNotAttempted(settled, es[..n]);
      assert settled + DiscardAll(es) == settled + DiscardAll(es[..n]) + [(es[n], Discarded)];
      AttemptedSnoc(settled + DiscardAll(es[..n]), (es[n], Discarded));
    }
  }

  /** The server accepted an INSERT of the event. */
  ghost predicate Accepted(calls: seq<Call>, event: nat) { exists id :: Sent(id, event, true) in calls }

  /** The n-th attempt is settled as inserted exactly when an INSERT of it succeeded. */
  ghost predicate Truthful(s: Writer) {
    && Fresh(s.session) && Rooted(s.session) && |Attempted(s.settled)| == s.session.attempts
    && forall n :: 0 <= n < s.session.attempts ==>
         (Attempted(s.settled)[n].1 == Inserted <==> Accepted(s.session.calls, n))
  }

  lemma TruthfulOnly(s: Writer, t: Writer)
    requires Truthful(s) && t.settled == s.settled && t.session.calls == s.session.calls && t.session.conn == s.session.conn
    requires t.session.attempts == s.session.attempts && t.session.handles == s.session.handles && t.session.inited == s.session.inited
    ensures Truthful(t)
  {
  }

  lemma SuccessElsewhere(s: Session, r: Replies, n: nat)
    requires Rooted(s) && n != s.attempts
    ensures Accepted(WriterSession.Attempt(s, r).0.calls, n) <==> Accepted(s.calls, n)
  {
    hide WriterSession.Attempt, Sends;
    AttemptElsewhere(s, r, n);
    var t := WriterSession.Attempt(s, r).0;
    SendsAreThere(t.calls, n);
    SendsAreThere(s.calls, n);
    assert forall id :: Sent(id, n, true) in t.calls <==> Sent(id, n, true) in Sends(t.calls, n);
    assert forall id :: Sent(id, n, true) in s.calls <==> Sent(id, n, true) in Sends(s.calls, n);
  }

  lemma TruthfulAttempt(s: Writer, t: Tid, r: Replies)
    requires Truthful(s)
    ensures Truthful(Attempting(s, t, r))
  {
    hide WriterSession.Attempt, Attempted;
    if Busy(s, t) && s.threads[t].batch != [] {
      var n := s.session.attempts;
      var (u, ok) := WriterSession.Attempt(s.session, r);
      AttemptReports(s.session, r);
      AttemptIsFresh(s.session, r);
      AttemptElsewhere(s.session, r, n + 1);
      AttemptedSnoc(s.settled, (s.threads[t].batch[0], if ok then Inserted else Lost));
      forall k | 0 <= k < n
        ensures Accepted(u.calls, k) <==> Accepted(s.session.calls, k)
      {
        SuccessElsewhere(s.session, r, k);
      }
    }
  }

  lemma ClosedIsTruthful(s: Session, n: nat)
    ensures Accepted(CloseConn(s).calls, n) <==> Accepted(s.calls, n)
    ensures Fresh(s) ==> Fresh(CloseConn(s))
    ensures CloseConn(s).conn.None? && CloseConn(s).attempts == s.attempts
  {
    assert forall c: Call :: c.Sent? ==> (c in CloseConn(s).calls <==> c in s.calls);
  }

  lemma TruthfulFinish(s: Writer, t: Tid)
    requires Truthful(s)
    ensures Truthful(Finishing(s, t))
  {
    hide CloseConn, Attempted;
    ClosedIsTruthful(s.session, 0);
    forall n | 0 <= n < s.session.attempts
      ensures Accepted(CloseConn(s.session).calls, n) <==> Accepted(s.session.calls, n)
    {
      ClosedIsTruthful(s.session, n);
    }
  }

  lemma TruthfulNext(s: Writer, step: Step)
    requires Truthful(s)
    ensures Truthful(Next(s, step))
  {
    hide Truthful, WriterSession.Attempt, CloseConn, Signal;
    SignalKeeps();
    match step {
      case Attempt(t, r) => TruthfulAttempt(s, t, r);
      case Finish(t) => TruthfulFinish(s, t);
      case Delete => TruthfulDelete(s);
      case _ => TruthfulOnly(s, Next(s, step));
    }
  }

  lemma TruthfulDelete(s: Writer)
    requires Truthful(s)
    ensures Truthful(Deleting(s))
  {
    hide Attempted;
    if s.queue.Some? {
      DiscardedAreNotAttempted(s.settled, s.queue.value);
    }
    assert s.settled + [] == s.settled;
  }

  /** In every run: the event of the n-th attempt counts as inserted exactly when the server
      accepted an INSERT of it, and as a failure otherwise. */
  lemma {:induction false} SuccessesAreReal(threshold: nat, steps: seq<Step>)
    ensures Truthful(Exec(threshold, steps))
  {
    hide Truthful, Next;
    if steps == [] {
      assert Truthful(FreshWriter(threshold)) by { FreshIsTruthful(threshold); }
    } else {
      SuccessesAreReal(threshold, steps[..|steps| - 1]);
      TruthfulNext(Exec(threshold, steps[..|steps| - 1]), steps[|steps| - 1]);
    }
  }

  lemma FreshIsTruthful(threshold: nat)
    ensures Truthful(FreshWriter(threshold))
  {
  }

  // ---- the shutdown that has a thread to join ----

  /** The state at the stop request stays on record until the queue is deleted. */
  ghost predicate Remembers(s: Writer, at: Writer) {
    && !s.phase.Up? && s.acceptedAtStop == |at.accepted| && s.settledAtStop == |at.settled|
    && at.accepted <= s.accepted && s.epoch == at.epoch && s.queue.Some?
  }

  lemma RemembersNext(s: Writer, at: Writer, step: Step)
    requires Remembers(s, at) && !step.Delete?
    ensures Remembers(Next(s, step), at)
  {
    hide Signal, WriterSession.Attempt, CloseConn;
    SignalKeeps();
  }

  lemma SignalKeeps()
    ensures forall s: Writer {:trigger Signal(s)} :: Signal(s) == s.(threads := Signal(s).threads)
  {
    forall s: Writer ensures Signal(s) == s.(threads := Signal(s).threads) {
      SignalFrame(s);
    }
  }

  lemma {:induction false} RunRemembers(threshold: nat, a: seq<Step>, b: seq<Step>)
    requires Exec(threshold, a).phase.Up? && Exec(threshold, a).running && Exec(threshold, a).queue.Some?
    requires forall step <- b :: !step.Delete?
    ensures Remembers(Exec(threshold, a + [RequestStop] + b), Exec(threshold, a))
  {
    hide Exec, Next;
    if b == [] {
      assert a + [RequestStop] + b == a + [RequestStop];
      ExecSnoc(threshold, a, RequestStop);
      RemembersStop(Exec(threshold, a));
    } else {
      var n := |b| - 1;
      assert a + [RequestStop] + b == (a + [RequestStop] + b[..n]) + [b[n]];
      ExecSnoc(threshold, a + [RequestStop] + b[..n], b[n]);
      RunRemembers(threshold, a, b[..n]);
      RemembersNext(Exec(threshold, a + [RequestStop] + b[..n]), Exec(threshold, a), b[n]);
    }
  }

  lemma RemembersStop(s: Writer)
    requires s.phase.Up? && s.running && s.queue.Some?
    ensures Remembers(Next(s, RequestStop), s)
  {
    hide Signal;
    SignalKeeps();
  }

  /** When the join returns, everything accepted before the stop was requested has been
      attempted, in order, and at most 20000 attempts were made after the request. */
  lemma JoinMeansAttempted(threshold: nat, a: seq<Step>, b: seq<Step>)
    requires var s := Exec(threshold, a); s.phase.Up? && s.running
    requires Sane(threshold, a) && forall step <- b :: !step.Delete?
    requires Exec(threshold, a + [RequestStop] + b).phase.Joined?
    ensures var at, s := Exec(threshold, a), Exec(threshold, a + [RequestStop] + b);
            && |at.accepted| <= |s.settled| <= |at.settled| + 20000
            && (forall i :: at.epoch <= i < |at.accepted| ==> s.settled[i].0 == at.accepted[i] && s.settled[i].1 != Discarded)
  {
    hide Exec, Sane, Kept, Count;
    var at, s := Exec(threshold, a), Exec(threshold, a + [RequestStop] + b);
    SaneWithoutDelete(threshold, a, [RequestStop] + b);
    assert a + ([RequestStop] + b) == a + [RequestStop] + b;
    EveryRunKeeps(threshold, a);
    EveryRunKeeps(threshold, a + [RequestStop] + b);
    RunRemembers(threshold, a, b);
    forall i | 0 <= i < |at.accepted| ensures s.settled[i].0 == at.accepted[i] {
      assert s.accepted[i] == at.accepted[i];
      assert s.accepted[i] == Events(s.settled)[i];
    }
  }

  // ---- the join returns ----

  /** The step the shutdown is waiting for: the next one of the writer, or the join itself. */
  predicate IsTurn(s: Writer, step: Step)
    requires s.phase.Joining? && s.tid in s.threads
  {
    var thread := s.threads[s.tid];
    match thread.pc
    case Starting => step == Begin(s.tid)
    case Locking => step == Take(s.tid)
    case Waiting(signalled) => signalled && step == Take(s.tid)
    case Inserting(_) => if thread.batch == [] then step == Finish(s.tid) else step.Attempt? && step.t == s.tid
    case Exited => step == Join
  }

  /** How many of these are left at most. */
  function Measure(s: Writer): nat
    requires s.phase.Joining? && s.tid in s.threads
  {
    var thread := s.threads[s.tid];
    match thread.pc
    case Starting => 4 + QUEUE_MAX
    case Locking => 3 + QUEUE_MAX
    case Waiting(_) => 3 + QUEUE_MAX
    case Inserting(stopping) => (if stopping then 2 else 4 + QUEUE_MAX) + |thread.batch|
    case Exited => 1
  }

  /** Waiting for the thread, which is known. */
  predicate IsJoining(s: Writer) { s.phase.Joining? && s.tid in s.threads }

  lemma TurnsLowerTheMeasure(s: Writer, step: Step)
    requires Inv(s) && IsJoining(s) && !step.Delete?
    ensures Next(s, step).phase.Joined? || IsJoining(Next(s, step))
    ensures IsJoining(Next(s, step)) ==> Measure(Next(s, step)) + (if IsTurn(s, step) then 1 else 0) <= Measure(s)
    ensures Measure(s) <= 20004
  {
    hide Kept, Events, Count, Ledger, Drain, Connected, NoLostWakeup, WriterSession.Attempt, CloseConn;
  }

  /** There always is such a step. */
  lemma ATurnIsDue(s: Writer, replies: Replies)
    requires Inv(s) && IsJoining(s)
    ensures exists step: Step :: IsTurn(s, step)
  {
    hide Kept, Events, Count, Ledger, Drain, Connected;
    var t := s.tid;
    assert s.threads[t].pc != Waiting(false);
    assert IsTurn(s, Begin(t)) || IsTurn(s, Take(t)) || IsTurn(s, Finish(t)) || IsTurn(s, Step.Attempt(t, replies)) || IsTurn(s, Join);
  }

  /** The turns taken in a run. */
  ghost function Turns(threshold: nat, a: seq<Step>, b: seq<Step>): nat
    decreases b
  {
    if b == [] then 0 else
      var n := |b| - 1;
      var s := Exec(threshold, a + b[..n]);
      Turns(threshold, a, b[..n]) + (if IsJoining(s) && IsTurn(s, b[n]) then 1 else 0)
  }

  /** The join returns after a bounded number of turns, whatever else happens in between:
      until it does, a turn is due, every turn lowers the measure, nothing raises it, and it
      starts at no more than 20004. */
  lemma {:induction false} ShutdownFinishes(threshold: nat, a: seq<Step>, b: seq<Step>, replies: Replies)
    requires Sane(threshold, a) && Exec(threshold, a).phase.Joining? && forall step <- b :: !step.Delete?
    ensures var s := Exec(threshold, a + b);
            || s.phase.Joined?
            || (IsJoining(s) && Turns(threshold, a, b) + Measure(s) <= 20004 && exists step: Step :: IsTurn(s, step))
    decreases b
  {
    hide Exec, Next, Sane, IsTurn, Measure, Inv;
    SaneWithoutDelete(threshold, a, b);
    EveryRunKeeps(threshold, a + b);
    if b == [] {
      assert a + b == a;
      JoiningIsKnown(Exec(threshold, a));
      TurnsLowerTheMeasure(Exec(threshold, a), RequestStop);
      ATurnIsDue(Exec(threshold, a), replies);
    } else {
      var n := |b| - 1;
      assert a + b == (a + b[..n]) + [b[n]];
      ExecSnoc(threshold, a + b[..n], b[n]);
      assert forall step <- b[..n] :: step in b;
      assert b[n] in b;
      SaneWithoutDelete(threshold, a, b[..n]);
      ShutdownFinishes(threshold, a, b[..n], replies);
      EveryRunKeeps(threshold, a + b[..n]);
      var s := Exec(threshold, a + b[..n]);
      if s.phase.Joined? {
        JoinedStays(s, b[n]);
      } else {
        TurnsLowerTheMeasure(s, b[n]);
      }
      if IsJoining(Exec(threshold, a + b)) {
        ATurnIsDue(Exec(threshold, a + b), replies);
      }
    }
  }

  lemma JoiningIsKnown(s: Writer)
    requires Inv(s) && s.phase.Joining?
    ensures IsJoining(s)
  {
    hide Kept, Events, Count;
  }

  lemma JoinedStays(s: Writer, step: Step)
    requires s.phase.Joined? && !step.Delete?
    ensures Next(s, step).phase.Joined?
  {
    hide WriterSession.Attempt, CloseConn, Signal;
    SignalKeeps();
  }

  // ---- the shutdown that found none ----

  /** A writer thread lives on while its queue is gone. */
  ghost predicate Orphaned(s: Writer) { s.queue.None? && exists t :: Alive(s, t) }

  /** The exact step: up to it nothing is orphaned, and it orphans. */
  lemma OrphanedExactlyByThatDeletion(threshold: nat, steps: seq<Step>, step: Step)
    requires Sane(threshold, steps)
    ensures !Orphaned(Exec(threshold, steps))
    ensures Orphaned(Exec(threshold, steps + [step])) <==> Orphans(Exec(threshold, steps), step)
  {
    hide Exec, Sane, Inv, Next, Orphaned;
    var s := Exec(threshold, steps);
    EveryRunKeeps(threshold, steps);
    NoQueueNoThread(s);
    ExecSnoc(threshold, steps, step);
    if Orphans(s, step) {
      DeletionOrphans(s);
    } else {
      NextKeeps(s, step);
      NoQueueNoThread(Next(s, step));
    }
  }

  lemma DeletionOrphans(s: Writer)
    requires Inv(s) && s.phase.Unjoined? && s.running
    ensures Orphaned(Next(s, Delete))
  {
    hide Kept, Events, Count;
    assert Alive(Next(s, Delete), s.tid);
  }

  lemma NoQueueNoThread(s: Writer)
    requires Inv(s)
    ensures !Orphaned(s)
  {
    hide Kept, Count, Events;
  }

  /** Some enqueue of `b` starts a thread. */
  ghost predicate StartsIn(threshold: nat, a: seq<Step>, b: seq<Step>) {
    exists k :: 0 <= k < |b| && Starts(Exec(threshold, a + b[..k]), b[k])
  }

  lemma UnjoinedNext(s: Writer, step: Step)
    requires s.phase.Unjoined? && !step.Delete?
    ensures Next(s, step).phase.Unjoined? && (Next(s, step).running <==> s.running || Starts(s, step))
  {
    hide WriterSession.Attempt, CloseConn, Signal;
    SignalKeeps();
  }

  /** Between the two sections, a thread is running exactly when an enqueue started one. */
  lemma {:induction false} WindowDecides(threshold: nat, a: seq<Step>, b: seq<Step>)
    requires Exec(threshold, a).phase.Up? && !Exec(threshold, a).running && forall step <- b :: !step.Delete?
    ensures var s := Exec(threshold, a + [RequestStop] + b);
            s.phase.Unjoined? && (s.running <==> StartsIn(threshold, a + [RequestStop], b))
    decreases b
  {
    hide Exec, Next, Starts;
    var stopped := a + [RequestStop];
    if b == [] {
      assert stopped + b == stopped;
      ExecSnoc(threshold, a, RequestStop);
      StopFindsNone(Exec(threshold, a));
    } else {
      var n := |b| - 1;
      var before := stopped + b[..n];
      assert stopped + b == before + [b[n]];
      ExecSnoc(threshold, before, b[n]);
      assert b[n] in b && forall step <- b[..n] :: step in b;
      WindowDecides(threshold, a, b[..n]);
      UnjoinedNext(Exec(threshold, before), b[n]);
      StartsSnoc(threshold, stopped, b);
    }
  }

  lemma StartsSnoc(threshold: nat, a: seq<Step>, b: seq<Step>)
    requires b != []
    ensures var n := |b| - 1;
            StartsIn(threshold, a, b) <==> StartsIn(threshold, a, b[..n]) || Starts(Exec(threshold, a + b[..n]), b[n])
  {
    hide Exec, Starts;
    var n := |b| - 1;
    assert forall k :: 0 <= k < n ==> b[..n][..k] == b[..k] && b[..n][k] == b[k];
    if StartsIn(threshold, a, b) {
      var k :| 0 <= k < |b| && Starts(Exec(threshold, a + b[..k]), b[k]);
      if k < n {
        assert Starts(Exec(threshold, a + b[..n][..k]), b[..n][k]);
      }
    }
    if StartsIn(threshold, a, b[..n]) {
      var k :| 0 <= k < |b[..n]| && Starts(Exec(threshold, a + b[..n][..k]), b[..n][k]);
      assert Starts(Exec(threshold, a + b[..k]), b[k]);
    }
    if Starts(Exec(threshold, a + b[..n]), b[n]) {
      assert Starts(Exec(threshold, a + b[..n]), b[n]);
    }
  }

  lemma StopFindsNone(s: Writer)
    requires s.phase.Up? && !s.running
    ensures Next(s, RequestStop).phase.Unjoined? && !Next(s, RequestStop).running
  {
  }

  /** A shutdown that finds no thread deletes the queue under a live one exactly when an
      enqueue started a thread between its two critical sections. */
  lemma ShutdownOrphansExactlyInTheWindow(threshold: nat, a: seq<Step>, b: seq<Step>)
    requires Sane(threshold, a) && Exec(threshold, a).phase.Up? && !Exec(threshold, a).running
    requires forall step <- b :: !step.Delete?
    ensures var run := a + [RequestStop] + b;
            Orphaned(Exec(threshold, run + [Delete])) <==> StartsIn(threshold, a + [RequestStop], b)
  {
    hide Exec, Sane, StartsIn, Orphaned;
    var run := a + [RequestStop] + b;
    WindowDecides(threshold, a, b);
    SaneWithoutDelete(threshold, a, [RequestStop] + b);
    assert a + ([RequestStop] + b) == run;
    OrphanedExactlyByThatDeletion(threshold, run, Delete);
  }

  /** Such a run exists: the plugin stops before its first event is queued, and that event
      arrives between the two sections. */
  lemma AnOrphanedRun(threshold: nat)
    ensures var steps := [Create, CheckSelf(1), RequestStop, Enqueue(1, "", true, 2), Delete];
            Orphaned(Exec(threshold, steps))
  {
    hide Exec, Sane, Orphaned;
    ExecEmpty(threshold);
    var a := [Create, CheckSelf(1)];
    var e := Enqueue(1, "", true, 2);
    ExecSnoc(threshold, [], Create);
    ExecSnoc(threshold, [Create], CheckSelf(1));
    assert [] + [Create] == [Create] && [Create] + [CheckSelf(1)] == a;
    ExecSnoc(threshold, a, RequestStop);
    var stopped := a + [RequestStop];
    assert stopped + [e][..0] == stopped;
    assert Starts(Exec(threshold, stopped + [e][..0]), [e][0]);
    ShutdownOrphansExactlyInTheWindow(threshold, a, [e]);
    assert a + [RequestStop] + [e] + [Delete] == [Create, CheckSelf(1), RequestStop, e, Delete];
  }

  lemma ExecEmpty(threshold: nat)
    ensures Exec(threshold, []) == FreshWriter(threshold) && Sane(threshold, [])
  {
  }
}
