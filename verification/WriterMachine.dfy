/** The TABLE writer of src/log_writer_table_mysql.cc as atomic steps: one for each critical
section of the queue's mutex and one for each INSERT. */
module WriterMachine {
  import opened Bytes
  import opened WriterSession

  type Tid = nat

  const QUEUE_MAX: nat := 10000

  /** A queued statement and the thread that raised it. */
  datatype Event = Event(raiser: Tid, sql: string)

  /** Where a writer thread is. `Exited` threads wait to be joined. */
  datatype Pc = Starting | Locking | Waiting(signalled: bool) | Inserting(stopping: bool) | Exited

  datatype Thread = Thread(pc: Pc, batch: seq<Event>)

  /** Where the shutdown is: none under way; waiting for the thread; found no thread to wait
      for; done waiting. */
  datatype Phase = Up | Joining(tid: Tid) | Unjoined | Joined

  /** What became of an accepted event. */
  datatype Fate = Inserted | Lost | Discarded

  /** The shared variables, the threads, the callbacks that passed the self test, and the
      ledger: events accepted and settled so far, the settled ones when the queue was last
      created, and both counts when the stop was last requested. */
  datatype Writer = Writer(
    queue: Option<seq<Event>>, running: bool, stop: bool, tid: Tid, threads: map<Tid, Thread>, phase: Phase,
    session: Session, dropped: nat, cleared: set<Tid>,
    accepted: seq<Event>, settled: seq<(Event, Fate)>, epoch: nat, acceptedAtStop: nat, settledAtStop: nat)
  {
    predicate IsSelf(t: Tid) { running && tid == t }

    function With(t: Tid, thread: Thread): Writer { this.(threads := threads[t := thread]) }
  }

  function FreshWriter(threshold: nat): Writer {
    Writer(None, false, false, 0, map[], Up, FreshSession(threshold), 0, {}, [], [], 0, 0, 0)
  }

  datatype Step =
    | Create                                                    // table_writer_init
    | CheckSelf(raiser: Tid)                                        // the callback's table_writer_is_self
    | Enqueue(raiser: Tid, sql: string, created: bool, newTid: Tid)  // table_writer_enqueue
    | Begin(t: Tid)                                             // the writer thread starts
    | Take(t: Tid)                                              // wait, or swap the queue for the batch
    | Attempt(t: Tid, replies: Replies)                         // one INSERT of the batch
    | Finish(t: Tid)                                            // the batch is done
    | RequestStop                                               // table_writer_shutdown, first section
    | Join                                                      // pthread_join returns
    | Delete                                                    // table_writer_shutdown, second section

  // ---- the steps ----

  function Creating(s: Writer): Writer {
    if s.phase.Up? && s.queue.None? then s.(queue := Some([]), epoch := |s.settled|) else s
  }

  /** The callback goes on only when its thread is not the writer. */
  function Checking(s: Writer, raiser: Tid): Writer {
    if s.IsSelf(raiser) then s else s.(cleared := s.cleared + {raiser})
  }

  function Woken(thread: Thread): Thread { if thread.pc.Waiting? then thread.(pc := Waiting(true)) else thread }

  function Signal(s: Writer): Writer { s.(threads := map t | t in s.threads :: Woken(s.threads[t])) }

  function Push(s: Writer, e: Event): Writer
    requires s.queue.Some?
  {
    if |s.queue.value| >= QUEUE_MAX then s.(dropped := s.dropped + 1)
    else Signal(s.(queue := Some(s.queue.value + [e]), accepted := s.accepted + [e]))
  }

  /** Whether this enqueue has to start a thread. */
  predicate Starts(s: Writer, step: Step) {
    step.Enqueue? && step.raiser in s.cleared && step.created && s.queue.Some? && !s.running
    && step.newTid !in s.threads && step.newTid !in s.cleared
  }

  /** `pthread_create` gives a thread id that no running thread has. */
  function Started(s: Writer, newTid: Tid): Writer {
    s.(stop := false, running := true, tid := newTid).With(newTid, Thread(Starting, []))
  }

  function Enqueuing(s: Writer, step: Step): Writer
    requires step.Enqueue?
  {
    var e := Event(step.raiser, step.sql);
    if step.raiser !in s.cleared then s else
      var t := s.(cleared := s.cleared - {step.raiser});
      if s.queue.None? then t
      else if s.running then Push(t, e)
      else if !step.created then t.(stop := false)
      else if Starts(s, step) then Push(Started(t, step.newTid), e)
      else s
  }

  function Beginning(s: Writer, t: Tid): Writer {
    if t in s.threads && s.threads[t].pc.Starting?
    then s.(session := s.session.(policy := Reset(s.session.policy))).With(t, Thread(Locking, []))
    else s
  }

  /** The head of the writer's loop, entered or woken up with the mutex held. */
  function Taking(s: Writer, t: Tid): Writer {
    if t in s.threads && (s.threads[t].pc.Locking? || s.threads[t].pc.Waiting?) && s.queue.Some? then
      if s.queue.value == [] && !s.stop then s.With(t, Thread(Waiting(false), []))
      else s.(queue := Some([])).With(t, Thread(Inserting(s.stop), s.queue.value))
    else s
  }

  predicate Busy(s: Writer, t: Tid) { t in s.threads && s.threads[t].pc.Inserting? }

  function Attempting(s: Writer, t: Tid, replies: Replies): Writer {
    if Busy(s, t) && s.threads[t].batch != [] then
      var (session, ok) := WriterSession.Attempt(s.session, replies);
      var batch := s.threads[t].batch;
      s.(session := session, settled := s.settled + [(batch[0], if ok then Inserted else Lost)])
       .With(t, s.threads[t].(batch := batch[1..]))
    else s
  }

  function Finishing(s: Writer, t: Tid): Writer {
    if Busy(s, t) && s.threads[t].batch == [] then
      if s.threads[t].pc.stopping then s.(session := CloseConn(s.session).(inited := false)).With(t, Thread(Exited, []))
      else s.With(t, Thread(Locking, []))
    else s
  }

  function Stopping(s: Writer): Writer {
    if !s.phase.Up? then s
    else if !s.running then s.(phase := Unjoined)
    else Signal(s.(stop := true, phase := Joining(s.tid), acceptedAtStop := |s.accepted|, settledAtStop := |s.settled|))
  }

  function JoinReturns(s: Writer): Writer {
    if s.phase.Joining? && s.phase.tid in s.threads && s.threads[s.phase.tid].pc.Exited?
    then s.(phase := Joined, threads := s.threads - {s.phase.tid})
    else s
  }

  function DiscardAll(es: seq<Event>): seq<(Event, Fate)> { seq(|es|, i requires 0 <= i < |es| => (es[i], Discarded)) }

  function Deleting(s: Writer): Writer {
    if s.phase.Unjoined? || s.phase.Joined? then
      s.(running := false, queue := None, phase := Up,
         settled := s.settled + (if s.queue.Some? then DiscardAll(s.queue.value) else []))
    else s
  }

  function Next(s: Writer, step: Step): Writer {
    match step
    case Create => Creating(s)
    case CheckSelf(raiser) => Checking(s, raiser)
    case Enqueue(_, _, _, _) => Enqueuing(s, step)
    case Begin(t) => Beginning(s, t)
    case Take(t) => Taking(s, t)
    case Attempt(t, replies) => Attempting(s, t, replies)
    case Finish(t) => Finishing(s, t)
    case RequestStop => Stopping(s)
    case Join => JoinReturns(s)
    case Delete => Deleting(s)
  }

  function Exec(threshold: nat, steps: seq<Step>): Writer {
    if steps == [] then FreshWriter(threshold) else Next(Exec(threshold, steps[..|steps| - 1]), steps[|steps| - 1])
  }

  // ---- what a shutdown must not meet ----

  /** A shutdown that found no thread deletes the queue although one is running by now. */
  predicate Orphans(s: Writer, step: Step) { step.Delete? && s.phase.Unjoined? && s.running }

  /** No thread lost its queue; what one does after that is undefined. */
  predicate Sane(threshold: nat, steps: seq<Step>) {
    steps == [] ||
    (Sane(threshold, steps[..|steps| - 1]) && !Orphans(Exec(threshold, steps[..|steps| - 1]), steps[|steps| - 1]))
  }

  // ---- the invariant ----

  function Batch(s: Writer): seq<Event> { if s.tid in s.threads then s.threads[s.tid].batch else [] }

  function Queue(s: Writer): seq<Event> { if s.queue.Some? then s.queue.value else [] }

  predicate Alive(s: Writer, t: Tid) { t in s.threads && !s.threads[t].pc.Exited? }

  /** At most one thread, known to the shared variables for all its life; none without a
      queue; stop requested exactly from the first section of a shutdown that found it. */
  predicate Structure(s: Writer) {
    && (forall t <- s.threads :: t == s.tid && s.running && t !in s.cleared)
    && (s.queue.None? ==> !s.running)
    && match s.phase
       case Up => s.running ==> Alive(s, s.tid) && !s.stop
       case Joining(t) => s.running && t == s.tid && t in s.threads && s.stop
       case Unjoined => s.running ==> Alive(s, s.tid) && !s.stop
       case Joined => s.running && s.threads == map[] && s.stop
  }

  predicate Bounds(s: Writer) {
    && |Queue(s)| <= QUEUE_MAX && |Batch(s)| <= QUEUE_MAX
    && (Batch(s) != [] ==> Busy(s, s.tid))
  }

  /** A waiting thread that was not signalled has nothing to wait for. */
  predicate NoLostWakeup(s: Writer) {
    forall t <- s.threads :: s.threads[t].pc == Waiting(false) ==> s.queue == Some([]) && !s.stop
  }

  function Events(settled: seq<(Event, Fate)>): seq<Event> {
    seq(|settled|, i requires 0 <= i < |settled| => settled[i].0)
  }

  function Count(settled: seq<(Event, Fate)>, fate: Fate): nat {
    if settled == [] then 0
    else Count(settled[..|settled| - 1], fate) + (if settled[|settled| - 1].1 == fate then 1 else 0)
  }

  /** Nothing is lost, duplicated or reordered; every failure is counted once. */
  predicate Ledger(s: Writer) {
    && s.accepted == Events(s.settled) + Batch(s) + Queue(s)
    && s.session.failures == Count(s.settled, Lost)
    && s.session.attempts == Count(s.settled, Lost) + Count(s.settled, Inserted)
    && s.epoch <= |s.settled|
    && (s.queue.Some? ==> forall i :: s.epoch <= i < |s.settled| ==> s.settled[i].1 != Discarded)
  }

  /** Has the thread seen the stop? */
  predicate Draining(s: Writer, t: Tid) {
    t in s.threads && (s.threads[t].pc == Inserting(true) || s.threads[t].pc.Exited?)
  }

  /** From the stop request on: what was accepted before it is in the batch or settled once
      the thread has seen it, and there is a bound on what is still attempted. */
  predicate Drain(s: Writer) {
    && s.acceptedAtStop <= |s.accepted|
    && (forall t <- s.threads :: Draining(s, t) ==> s.stop && |s.settled| + |Batch(s)| >= s.acceptedAtStop)
    && (s.phase.Joining? ==>
          |s.settled| + |Batch(s)| <= s.settledAtStop + (if Draining(s, s.tid) then 2 * QUEUE_MAX else QUEUE_MAX))
    && (s.phase.Joined? ==> s.acceptedAtStop <= |s.settled| <= s.settledAtStop + 2 * QUEUE_MAX)
  }

  /** The session belongs to the thread. */
  ghost predicate Connected(s: Writer) {
    && Kept(s.session)
    && (s.session.conn.Some? ==>
          s.tid in s.threads && !s.threads[s.tid].pc.Starting? && !s.threads[s.tid].pc.Exited?)
  }

  ghost predicate Inv(s: Writer) {
    Structure(s) && Bounds(s) && NoLostWakeup(s) && Ledger(s) && Drain(s) && Connected(s)
  }
}
