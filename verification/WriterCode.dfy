/** The TABLE writer's functions, updating their variables in place, each proved against its
step. Ghost fields stand for what the functions themselves do not store. */
module WriterCode {
  import opened Bytes
  import opened WriterSession
  import opened WriterMachine

  /** `command_h` and the counters that only the writer thread touches. */
  class Connection {
    var handle: Option<nat>
    var threadInited: bool
    var failures: nat
    const policy: WriterRecyclePolicy
    var handles: nat
    ghost var attempts: nat
    ghost var calls: seq<Call>

    ghost function View(): Session
      reads this, policy
    {
      Session(handle, threadInited, policy.View(), failures, attempts, handles, calls)
    }

    constructor (threshold: nat)
      ensures fresh(policy) && View() == FreshSession(threshold)
    {
      handle, threadInited, failures := None, false, 0;
      policy := new WriterRecyclePolicy(threshold);
      attempts, handles, calls := 0, 0, [];
    }

    method Close()
      modifies this`handle, this`calls
      ensures View() == CloseConn(old(View()))
    {
      if handle.Some? {
        calls := calls + [Closed(handle.value)];
        handle := None;
      }
    }

    /** The factory numbers the handles it makes. */
    method Ensure(o: Opening) returns (ok: bool)
      modifies this`handle, this`threadInited, this`handles, this`calls
      ensures (View(), ok) == EnsureConn(old(View()), o)
    {
      if handle.Some? {
        return true;
      }
      if !o.services {
        return false;
      }
      if !threadInited {
        if !o.thread {
          return false;
        }
        threadInited := true;
      }
      if !o.handle {
        return false;
      }
      var newHandle := handles;
      handle := Some(newHandle);
      handles, calls := handles + 1, calls + [Opened(newHandle)];
      if !o.connect {
        Close();
        return false;
      }
      if !o.mode {
        calls := calls + [Mode(newHandle, false)];
        Close();
        return false;
      }
      calls := calls + [Mode(newHandle, true), Created(newHandle)];
      return true;
    }

    /** One INSERT over the open connection. */
    method Query(ok: bool)
      requires handle.Some?
      modifies this`calls
      ensures View() == Send(old(View()), ok)
    {
      calls := calls + [Sent(handle.value, attempts, ok)];
    }

    /** After a failed INSERT: create the table again, or connect again, and send again. */
    method SecondTry(r: Replies) returns (ok: bool)
      requires handle.Some?
      modifies this`handle, this`threadInited, this`handles, this`calls, policy
      ensures (View(), ok) == Retry(old(View()), r)
    {
      if r.errno == 1146 || r.errno == 1049 {
        calls := calls + [Created(handle.value)];
        Query(r.again);
        return r.again;
      } else if r.errno == 2006 || r.errno == 2013 {
        Close();
        policy.NoteConnectionReset();
        ok := Ensure(r.second);
        if ok {
          Query(r.again);
          return r.again;
        }
      }
      return false;
    }

    method Run(r: Replies) returns (ok: bool)
      modifies this`handle, this`threadInited, this`handles, this`calls, this`failures, policy
      ensures (View(), ok) == RunInsert(old(View()), r)
    {
      hide Retry, Send;
      ok := Ensure(r.first);
      if !ok {
        failures := failures + 1;
        return;
      }
      Query(r.sent);
      if r.sent {
        return true;
      }
      ok := SecondTry(r);
      if !ok {
        failures := failures + 1;
      }
    }

    /** One event: run it, then recycle between inserts when it is time. */
    method AttemptOne(r: Replies) returns (ok: bool)
      modifies this`handle, this`threadInited, this`handles, this`calls, this`failures, this`attempts, policy
      ensures (View(), ok) == WriterSession.Attempt(old(View()), r)
    {
      hide RunInsert, CloseConn;
      ok := Run(r);
      attempts := attempts + 1;
      var due := policy.NoteInsert();
      if due {
        Close();
      }
    }

    /** The writer's inner loop over one batch, with the server's answers in order. */
    method DrainBatch(replies: seq<Replies>)
      modifies this`handle, this`threadInited, this`handles, this`calls, this`failures, this`attempts, policy
      ensures View() == Attempts(old(View()), replies)
    {
      hide WriterSession.Attempt;
      for i := 0 to |replies|
        invariant View() == Attempts(old(View()), replies[..i])
      {
        var ok := AttemptOne(replies[i]);
        assert replies[..i + 1][..i] == replies[..i];
      }
      assert replies[..|replies|] == replies;
    }
  }

  /** The variables behind the queue's mutex. */
  class TableWriter {
    var queue: Option<seq<Event>>
    var threadRunning: bool
    var stopRequested: bool
    var writerTid: Tid
    var dropped: nat
    ghost var rest: Writer

    ghost function View(): Writer
      reads this
    {
      rest.(queue := queue, running := threadRunning, stop := stopRequested, tid := writerTid, dropped := dropped)
    }

    constructor (threshold: nat)
      ensures View() == FreshWriter(threshold)
    {
      queue, threadRunning, stopRequested, writerTid, dropped := None, false, false, 0, 0;
      rest := FreshWriter(threshold);
    }

    method IsSelf(t: Tid) returns (self: bool)
      ensures self == View().IsSelf(t)
    {
      return threadRunning && t == writerTid;
    }

    method Init()
      requires View().phase.Up?
      modifies this
      ensures View() == Creating(old(View()))
    {
      if queue.None? {
        queue := Some([]);
        rest := rest.(epoch := |rest.settled|);
      }
    }

    /** `start_thread_locked`; `created` and `newTid` are what `pthread_create` answers. */
    method StartThread(created: bool, newTid: Tid) returns (ok: bool)
      modifies this
      ensures ok == (old(threadRunning) || created) && queue == old(queue) && dropped == old(dropped)
      ensures View() == if old(threadRunning) then old(View())
                        else if created then Started(old(View()), newTid) else old(View()).(stop := false)
    {
      if threadRunning {
        return true;
      }
      stopRequested := false;
      if !created {
        return false;
      }
      writerTid := newTid;
      threadRunning := true;
      rest := rest.With(newTid, Thread(Starting, []));
      return true;
    }

    /** The push under the mutex. */
    method PushBack(e: Event) returns (ok: bool)
      requires queue.Some?
      modifies this
      ensures ok == (|old(queue).value| < 10000) && View() == Push(old(View()), e)
      ensures dropped == old(dropped) + if ok then 0 else 1
      ensures queue == if ok then Some(old(queue).value + [e]) else old(queue)
    {
      if |queue.value| >= QUEUE_MAX {
        dropped := dropped + 1;
        return false;
      }
      queue := Some(queue.value + [e]);
      rest := Signal(rest.(accepted := rest.accepted + [e]));
      return true;
    }

    /** For a callback that passed the self test. An event is taken in exactly when there is
        a queue with room and a thread to serve it. */
    method EnqueueEvent(raiser: Tid, sql: string, created: bool, newTid: Tid) returns (ok: bool)
      requires raiser in View().cleared && newTid !in View().threads && newTid !in View().cleared
      modifies this
      ensures View() == Enqueuing(old(View()), Enqueue(raiser, sql, created, newTid))
      ensures ok == (old(queue).Some? && (old(threadRunning) || created) && |old(queue).value| < 10000)
      ensures ok ==> queue == Some((old(queue).value) + [Event(raiser, sql)]) && dropped == old(dropped)
      ensures !ok ==> queue == old(queue)
      ensures !ok ==> dropped == old(dropped) + if old(queue).Some? && (old(threadRunning) || created) then 1 else 0
    {
      hide Push, Started;
      rest := rest.(cleared := rest.cleared - {raiser});
      if queue.None? {
        return false;
      }
      ghost var w := View();
      ok := StartThread(created, newTid);
      assert queue == w.queue by { StartedQueue(w, newTid); }
      if ok {
        ok := PushBack(Event(raiser, sql));
      }
    }

    /** The first section of the shutdown; `joinIt` says whether a thread is to be joined. */
    method ShutdownBegin() returns (joinIt: bool)
      requires View().phase.Up?
      modifies this
      ensures joinIt == old(threadRunning) && View() == Stopping(old(View()))
    {
      if threadRunning {
        stopRequested := true;
        rest := Signal(rest.(phase := Joining(writerTid), acceptedAtStop := |rest.accepted|, settledAtStop := |rest.settled|));
        return true;
      }
      rest := rest.(phase := Unjoined);
      return false;
    }

    /** The second section. */
    method ShutdownEnd()
      requires View().phase.Unjoined? || View().phase.Joined?
      modifies this
      ensures View() == Deleting(old(View()))
    {
      threadRunning := false;
      rest := rest.(phase := Up, settled := rest.settled + (if queue.Some? then DiscardAll(queue.value) else []));
      queue := None;
    }

    /** The head of the writer's loop: `pthread_cond_wait` again, or swap. */
    method TakeBatch(t: Tid) returns (batch: Option<seq<Event>>)
      requires var w := View(); t in w.threads && (w.threads[t].pc.Locking? || w.threads[t].pc.Waiting?) && queue.Some?
      modifies this
      ensures View() == Taking(old(View()), t)
      ensures batch == if old(queue) == Some([]) && !old(stopRequested) then None else old(queue)
    {
      if queue.value == [] && !stopRequested {
        rest := rest.With(t, Thread(Waiting(false), []));
        return None;
      }
      batch := queue;
      rest := rest.With(t, Thread(Inserting(stopRequested), queue.value));
      queue := Some([]);
    }
  }

  lemma StartedQueue(w: Writer, newTid: Tid)
    ensures Started(w, newTid).queue == w.queue
  {
  }
}
