/** The TABLE writer's own connection: the recycle policy of src/writer_recycle_policy.h and
`ensure_conn`, `close_conn` and `run_insert` of src/log_writer_table_mysql.cc. The server's
answers are parameters. */
module WriterSession {
  import opened Bytes

  // ---- the recycle policy ----

  /** Inserts since the last fresh connection, periodic recycles so far, and the period. */
  datatype Policy = Policy(since: nat, recycles: nat, threshold: nat)

  function Noted(p: Policy): (Policy, bool) {
    if p.threshold == 0 then (p, false)
    else if p.since + 1 < p.threshold then (p.(since := p.since + 1), false)
    else (Policy(0, p.recycles + 1, p.threshold), true)
  }

  function Reset(p: Policy): Policy { p.(since := 0) }

  function NotedTimes(p: Policy, n: nat): Policy { if n == 0 then p else Noted(NotedTimes(p, n - 1)).0 }

  /** Recycles land on a fixed period: after n inserts on undisturbed connections, one for
      every `threshold` of them. */
  lemma {:induction false} RecyclesArePeriodic(p: Policy, n: nat)
    requires p.threshold > 0 && p.since < p.threshold
    ensures NotedTimes(p, n)
            == Policy((p.since + n) % p.threshold, p.recycles + (p.since + n) / p.threshold, p.threshold)
  {
    if n > 0 {
      RecyclesArePeriodic(p, n - 1);
      Successor(p.since + n - 1, p.threshold);
    }
  }

  lemma Successor(m: nat, k: nat)
    requires k > 0
    ensures m % k + 1 < k ==> (m + 1) % k == m % k + 1 && (m + 1) / k == m / k
    ensures m % k + 1 >= k ==> (m + 1) % k == 0 && (m + 1) / k == m / k + 1
  {
    var q, r := m / k, m % k;
    assert m == q * k + r;
    if r + 1 < k {
      DivUnique(m + 1, k, q, r + 1);
    } else {
      assert m + 1 == (q + 1) * k;
      DivUnique(m + 1, k, q + 1, 0);
    }
  }

  lemma DivUnique(m: nat, k: nat, q: nat, r: nat)
    requires r < k && m == q * k + r
    ensures m / k == q && m % k == r
  {
    assert m == (m / k) * k + m % k;
    Multiple(m / k - q, k);
    assert (m / k - q) * k == r - m % k;
  }

  lemma Multiple(d: int, k: int)
    requires k > 0
    ensures d > 0 ==> d * k >= k
    ensures d < 0 ==> d * k <= 0 - k
  {
  }

  class WriterRecyclePolicy {
    var since: nat
    var recycles: nat
    const threshold: nat

    ghost function View(): Policy
      reads this
    {
      Policy(since, recycles, threshold)
    }

    constructor (threshold: nat)
      ensures View() == Policy(0, 0, threshold)
    {
      this.since, this.recycles, this.threshold := 0, 0, threshold;
    }

    method NoteInsert() returns (due: bool)
      modifies this
      ensures (View(), due) == Noted(old(View()))
    {
      if threshold == 0 {
        return false;
      }
      since := since + 1;
      if since < threshold {
        return false;
      }
      since := 0;
      recycles := recycles + 1;
      return true;
    }

    method NoteConnectionReset()
      modifies this`since
      ensures View() == Reset(old(View())) && since == 0 && recycles == old(recycles)
    {
      since := 0;
    }
  }

  // ---- the session ----

  /** What was done to the server, on which connection. `Sent` is one INSERT of the event
      with that number. */
  datatype Call =
    | Opened(id: nat)
    | Mode(id: nat, ok: bool)
    | Created(id: nat)
    | Sent(id: nat, event: nat, ok: bool)
    | Closed(id: nat)

  /** The open connection, whether the thread is registered, the policy, the failures
      counted, the events attempted, the handles made and all calls so far. */
  datatype Session = Session(conn: Option<nat>, inited: bool, policy: Policy, failures: nat, attempts: nat, handles: nat,
                             calls: seq<Call>)
  {
    function Calls(more: seq<Call>): Session { this.(calls := calls + more) }
  }

  function FreshSession(threshold: nat): Session { Session(None, false, Policy(0, 0, threshold), 0, 0, 0, []) }

  /** Answers while opening: the services, the thread, the handle, the connect and the
      `SET SESSION sql_mode=''`. */
  datatype Opening = Opening(services: bool, thread: bool, handle: bool, connect: bool, mode: bool)

  /** Answers for one event: opening, the INSERT and its error number, opening again, and
      the second INSERT. */
  datatype Replies = Replies(first: Opening, sent: bool, errno: nat, second: Opening, again: bool)

  function CloseConn(s: Session): Session {
    if s.conn.None? then s else s.(conn := None).Calls([Closed(s.conn.value)])
  }

  /** The calls on a handle just made. */
  function Connect(s: Session, o: Opening): (Session, bool) {
    var id := s.handles;
    var t := s.(conn := Some(id), handles := id + 1).Calls([Opened(id)]);
    if !o.connect then (CloseConn(t), false)
    else if !o.mode then (CloseConn(t.Calls([Mode(id, false)])), false)
    else (t.Calls([Mode(id, true), Created(id)]), true)
  }

  function EnsureConn(s: Session, o: Opening): (Session, bool) {
    if s.conn.Some? then (s, true)
    else if !o.services || (!s.inited && !o.thread) then (s, false)
    else
      var t := s.(inited := true);
      if !o.handle then (t, false) else Connect(t, o)
  }

  function Send(s: Session, ok: bool): Session
    requires s.conn.Some?
  {
    s.Calls([Sent(s.conn.value, s.attempts, ok)])
  }

  predicate TableGone(errno: nat) { errno == 1146 || errno == 1049 }

  predicate ConnectionGone(errno: nat) { errno == 2006 || errno == 2013 }

  function Retry(s: Session, r: Replies): (Session, bool)
    requires s.conn.Some?
  {
    if TableGone(r.errno) then (Send(s.Calls([Created(s.conn.value)]), r.again), r.again)
    else if ConnectionGone(r.errno) then
      var t := CloseConn(s);
      var (u, ok) := EnsureConn(t.(policy := Reset(t.policy)), r.second);
      if ok && u.conn.Some? then (Send(u, r.again), r.again) else (u, false)
    else (s, false)
  }

  function Failed(s: Session, ok: bool): Session { if ok then s else s.(failures := s.failures + 1) }

  function RunInsert(s: Session, r: Replies): (Session, bool) {
    var (t, open) := EnsureConn(s, r.first);
    if !open || t.conn.None? then (Failed(t, false), false) else
      var u := Send(t, r.sent);
      if r.sent then (u, true) else
        var (v, ok) := Retry(u, r);
        (Failed(v, ok), ok)
  }

  /** One turn of the writer's inner loop: the INSERT, and the periodic recycle. */
  function Attempt(s: Session, r: Replies): (Session, bool) {
    var (t, ok) := RunInsert(s, r);
    var (p, due) := Noted(t.policy);
    var u := t.(policy := p, attempts := t.attempts + 1);
    (if due then CloseConn(u) else u, ok)
  }

  // ---- what every session keeps ----

  /** Each INSERT goes over a connection on which the mode was set before. */
  ghost predicate ModeBeforeInsert(calls: seq<Call>) {
    forall j :: 0 <= j < |calls| && calls[j].Sent? ==> Mode(calls[j].id, true) in calls[..j]
  }

  /** Any two events of one connection are less than k apart. */
  ghost predicate Windowed(calls: seq<Call>, k: nat) {
    forall c, d :: c in calls && d in calls && c.Sent? && d.Sent? && c.id == d.id ==> c.event < d.event + k
  }

  ghost predicate Kept(s: Session) {
    && ModeBeforeInsert(s.calls)
    && (forall c <- s.calls :: c.id < s.handles && (c.Sent? ==> c.event <= s.attempts))
    && (s.conn.Some? ==> s.conn.value < s.handles && Mode(s.conn.value, true) in s.calls)
    && (s.policy.threshold > 0 ==>
          && s.policy.since < s.policy.threshold
          && Windowed(s.calls, s.policy.threshold)
          && forall c <- s.calls :: c.Sent? && s.conn == Some(c.id) ==> s.attempts <= c.event + s.policy.since)
  }

  /** The part that needs nothing of the policy. */
  ghost predicate Moded(s: Session) {
    ModeBeforeInsert(s.calls) && (s.conn.Some? ==> Mode(s.conn.value, true) in s.calls)
  }

  lemma ModedCall(s: Session, c: Call)
    requires Moded(s) && !c.Sent?
    ensures Moded(s.Calls([c]))
  {
    ModeBeforeSnoc(s.calls, c);
  }

  lemma ModedClose(s: Session)
    requires ModeBeforeInsert(s.calls)
    ensures Moded(CloseConn(s)) && CloseConn(s).conn.None?
  {
    if s.conn.Some? {
      ModeBeforeSnoc(s.calls, Closed(s.conn.value));
    }
  }

  lemma ModedSend(s: Session, ok: bool)
    requires Moded(s) && s.conn.Some?
    ensures Moded(Send(s, ok))
  {
    ModeBeforeSnoc(s.calls, Sent(s.conn.value, s.attempts, ok));
  }

  lemma ModedConnect(s: Session, o: Opening)
    requires Moded(s)
    ensures Moded(Connect(s, o).0)
  {
    hide ModeBeforeInsert, CloseConn;
    var id := s.handles;
    var t := s.(conn := Some(id), handles := id + 1).Calls([Opened(id)]);
    ModeBeforeSnoc(s.calls, Opened(id));
    ModedClose(t);
    ModeBeforeSnoc(t.calls, Mode(id, false));
    ModedClose(t.Calls([Mode(id, false)]));
    ModeBeforeSnoc(t.calls, Mode(id, true));
    ModeBeforeSnoc(t.calls + [Mode(id, true)], Created(id));
    Concatenated(t.calls, Mode(id, true), Created(id));
  }

  lemma ModedEnsure(s: Session, o: Opening)
    requires Moded(s)
    ensures Moded(EnsureConn(s, o).0)
  {
    hide ModeBeforeInsert, Connect;
    ModedConnect(s.(inited := true), o);
  }

  lemma ModedRun(s: Session, r: Replies)
    requires Moded(s)
    ensures Moded(RunInsert(s, r).0)
  {
    hide ModeBeforeInsert, EnsureConn, Send, Retry;
    ModedEnsure(s, r.first);
    var (t, open) := EnsureConn(s, r.first);
    if open && t.conn.Some? {
      ModedSend(t, r.sent);
      SendUnfolds(t, r.sent);
      ModedRetry(Send(t, r.sent), r);
    }
  }

  lemma ModedRetry(s: Session, r: Replies)
    requires Moded(s) && s.conn.Some?
    ensures Moded(Retry(s, r).0)
  {
    hide ModeBeforeInsert, EnsureConn, Send, CloseConn;
    var c := Created(s.conn.value);
    ModedCall(s, c);
    ModedSend(s.Calls([c]), r.again);
    ModedClose(s);
    var t := CloseConn(s);
    var t' := t.(policy := Reset(t.policy));
    ModedEnsure(t', r.second);
    var (u, ok) := EnsureConn(t', r.second);
    if ok && u.conn.Some? {
      ModedSend(u, r.again);
    }
  }

  /** Whatever the policy says and the server answers, the mode comes first. */
  lemma ModedAttempt(s: Session, r: Replies)
    requires Moded(s)
    ensures Moded(Attempt(s, r).0)
  {
    hide ModeBeforeInsert, RunInsert, CloseConn;
    ModedRun(s, r);
    var t := RunInsert(s, r).0;
    ModedClose(t.(policy := Noted(t.policy).0, attempts := t.attempts + 1));
  }

  // ---- handles ----

  /** The handles open after some calls. */
  function OpenAfter(calls: seq<Call>): set<nat> {
    if calls == [] then {} else
      var before, c := OpenAfter(calls[..|calls| - 1]), calls[|calls| - 1];
      if c.Opened? then before + {c.id} else if c.Closed? then before - {c.id} else before
  }

  function Opens(calls: seq<Call>): nat {
    if calls == [] then 0 else Opens(calls[..|calls| - 1]) + if calls[|calls| - 1].Opened? then 1 else 0
  }

  function Closes(calls: seq<Call>): nat {
    if calls == [] then 0 else Closes(calls[..|calls| - 1]) + if calls[|calls| - 1].Closed? then 1 else 0
  }

  /** Nothing is opened while a handle is open, and every other call goes over the one that
      is open. */
  ghost predicate Disciplined(calls: seq<Call>) {
    forall j :: 0 <= j < |calls| ==> OpenAfter(calls[..j]) == if calls[j].Opened? then {} else {calls[j].id}
  }

  function ConnSet(s: Session): set<nat> { if s.conn.Some? then {s.conn.value} else {} }

  ghost predicate Tidy(s: Session) {
    Disciplined(s.calls) && OpenAfter(s.calls) == ConnSet(s) && Opens(s.calls) == Closes(s.calls) + |ConnSet(s)|
  }

  /** One more call, and the handle that is then set. */
  lemma TidyCall(s: Session, c: Call, conn: Option<nat>)
    requires Tidy(s) && (if c.Opened? then s.conn.None? && conn == Some(c.id) else s.conn == Some(c.id))
    requires conn == if c.Opened? then Some(c.id) else if c.Closed? then None else s.conn
    ensures Tidy(s.(conn := conn, calls := s.calls + [c]))
  {
    var calls := s.calls + [c];
    assert calls[..|s.calls|] == s.calls;
    forall j | 0 <= j < |calls| ensures OpenAfter(calls[..j]) == if calls[j].Opened? then {} else {calls[j].id} {
      if j < |s.calls| {
        assert calls[..j] == s.calls[..j];
      }
    }
  }

  lemma TidyOnly(s: Session, t: Session)
    requires Tidy(s) && t.conn == s.conn && t.calls == s.calls
    ensures Tidy(t)
  {
  }

  lemma TidyClose(s: Session)
    requires Tidy(s)
    ensures Tidy(CloseConn(s)) && CloseConn(s).conn.None?
  {
    hide Tidy;
    if s.conn.Some? {
      TidyCall(s, Closed(s.conn.value), None);
    }
  }

  lemma TidyConnect(s: Session, o: Opening)
    requires Tidy(s) && s.conn.None?
    ensures Tidy(Connect(s, o).0)
  {
    hide Tidy, CloseConn;
    var id := s.handles;
    var t := s.(conn := Some(id), handles := id + 1).Calls([Opened(id)]);
    TidyOnly(s, s.(handles := id + 1));
    TidyCall(s.(handles := id + 1), Opened(id), Some(id));
    TidyClose(t);
    var u := t.Calls([Mode(id, false)]);
    TidyCall(t, Mode(id, false), Some(id));
    TidyClose(u);
    TidyCall(t, Mode(id, true), Some(id));
    TidyCall(t.Calls([Mode(id, true)]), Created(id), Some(id));
    Concatenated(t.calls, Mode(id, true), Created(id));
  }

  lemma TidyEnsure(s: Session, o: Opening)
    requires Tidy(s)
    ensures Tidy(EnsureConn(s, o).0)
  {
    hide Tidy, Connect;
    TidyOnly(s, s.(inited := true));
    if s.conn.None? {
      TidyConnect(s.(inited := true), o);
    }
  }

  lemma TidySend(s: Session, ok: bool)
    requires Tidy(s) && s.conn.Some?
    ensures Tidy(Send(s, ok))
  {
    hide Tidy;
    TidyCall(s, Sent(s.conn.value, s.attempts, ok), s.conn);
  }

  lemma TidyRetry(s: Session, r: Replies)
    requires Tidy(s) && s.conn.Some?
    ensures Tidy(Retry(s, r).0)
  {
    hide Tidy, EnsureConn, Send, CloseConn;
    var c := Created(s.conn.value);
    TidyCall(s, c, s.conn);
    TidySend(s.Calls([c]), r.again);
    TidyClose(s);
    var t := CloseConn(s);
    var t' := t.(policy := Reset(t.policy));
    TidyOnly(t, t');
    TidyEnsure(t', r.second);
    var (u, ok) := EnsureConn(t', r.second);
    if ok && u.conn.Some? {
      TidySend(u, r.again);
    }
  }

  lemma TidyRun(s: Session, r: Replies)
    requires Tidy(s)
    ensures Tidy(RunInsert(s, r).0)
  {
    hide Tidy, EnsureConn, Send, Retry;
    TidyEnsure(s, r.first);
    var (t, open) := EnsureConn(s, r.first);
    TidyOnly(t, Failed(t, false));
    if open && t.conn.Some? {
      TidySend(t, r.sent);
      SendUnfolds(t, r.sent);
      var u := Send(t, r.sent);
      TidyRetry(u, r);
      var (v, ok) := Retry(u, r);
      TidyOnly(v, Failed(v, ok));
    }
  }

  /** Whatever the policy says and the server answers, the handles stay in order. */
  lemma TidyAttempt(s: Session, r: Replies)
    requires Tidy(s)
    ensures Tidy(Attempt(s, r).0)
  {
    hide Tidy, RunInsert, CloseConn;
    TidyRun(s, r);
    var t := RunInsert(s, r).0;
    var u := t.(policy := Noted(t.policy).0, attempts := t.attempts + 1);
    TidyOnly(t, u);
    TidyClose(u);
  }

  // ---- what became of an event ----

  /** The INSERTs of one event, in order. */
  function Sends(calls: seq<Call>, event: nat): seq<Call> {
    if calls == [] then [] else
      var before, c := Sends(calls[..|calls| - 1], event), calls[|calls| - 1];
      if c.Sent? && c.event == event then before + [c] else before
  }

  /** Nothing was sent yet for the next event. */
  predicate Fresh(s: Session) { forall c <- s.calls :: c.Sent? ==> c.event < s.attempts }

  lemma SendsSnoc(calls: seq<Call>, c: Call, event: nat)
    ensures Sends(calls + [c], event) == Sends(calls, event) + if c.Sent? && c.event == event then [c] else []
  {
    assert (calls + [c])[..|calls|] == calls;
  }

  lemma {:induction false} SendsAreThere(calls: seq<Call>, event: nat)
    ensures forall c :: c in Sends(calls, event) <==> c in calls && c.Sent? && c.event == event
  {
    if calls != [] {
      var n := |calls| - 1;
      SendsAreThere(calls[..n], event);
      assert calls == calls[..n] + [calls[n]];
    }
  }

  lemma {:induction false} NoSends(calls: seq<Call>, event: nat)
    requires forall c <- calls :: c.Sent? ==> c.event < event
    ensures Sends(calls, event) == []
  {
    if calls != [] {
      assert calls[|calls| - 1] in calls && forall c <- calls[..|calls| - 1] :: c in calls;
      NoSends(calls[..|calls| - 1], event);
    }
  }

  /** Opening succeeds: every answer does; a registered thread is not asked for again. */
  predicate OpensUp(inited: bool, o: Opening) { o.services && (inited || o.thread) && o.handle && o.connect && o.mode }

  lemma CloseSends(s: Session, event: nat)
    ensures Sends(CloseConn(s).calls, event) == Sends(s.calls, event)
    ensures CloseConn(s).attempts == s.attempts && CloseConn(s).inited == s.inited && CloseConn(s).conn.None?
  {
    hide Sends;
    if s.conn.Some? {
      SendsSnoc(s.calls, Closed(s.conn.value), event);
    }
  }

  lemma EnsureSends(s: Session, o: Opening, event: nat)
    ensures var (t, ok) := EnsureConn(s, o);
            && Sends(t.calls, event) == Sends(s.calls, event) && t.attempts == s.attempts
            && (ok <==> s.conn.Some? || OpensUp(s.inited, o)) && (ok ==> t.conn.Some?)
            && (s.conn.Some? ==> t == s) && (ok && s.conn.None? ==> t.inited)
  {
    hide Sends, CloseConn;
    if s.conn.None? && o.services && (s.inited || o.thread) && o.handle {
      var id := s.handles;
      var t := s.(inited := true, conn := Some(id), handles := id + 1).Calls([Opened(id)]);
      SendsSnoc(s.calls, Opened(id), event);
      CloseSends(t, event);
      SendsSnoc(t.calls, Mode(id, false), event);
      CloseSends(t.Calls([Mode(id, false)]), event);
      SendsSnoc(t.calls, Mode(id, true), event);
      SendsSnoc(t.calls + [Mode(id, true)], Created(id), event);
      Concatenated(t.calls, Mode(id, true), Created(id));
    }
  }

  /** Whether an INSERT goes out a second time: behind 1146 and 1049 over the same connection,
      behind 2006 and 2013 over a new one if there is one, and never otherwise. */
  predicate GoesAgain(r: Replies) {
    && !r.sent
    && (r.errno == 1146 || r.errno == 1049
        || ((r.errno == 2006 || r.errno == 2013) && r.second.services && r.second.handle && r.second.connect && r.second.mode))
  }

  /** What was sent for an event and how it is counted: nothing when no connection opens, and
      that is a failure; one INSERT, and a second one exactly when it goes again; the event
      is a success exactly when the last one was. */
  ghost predicate Reported(sends: seq<Call>, opens: bool, r: Replies, ok: bool) {
    && (forall i :: 0 <= i < |sends| ==> sends[i].Sent?)
    && if !opens then sends == [] && !ok
       else if r.sent then |sends| == 1 && sends[0].ok && ok
       else if !GoesAgain(r) then |sends| == 1 && !sends[0].ok && !ok
       else
         && |sends| == 2 && !sends[0].ok && sends[1].ok == r.again == ok
         && (r.errno == 1146 || r.errno == 1049 <==> sends[0].id == sends[1].id)
  }

  lemma RetrySends(s: Session, r: Replies, event: nat)
    requires s.conn.Some? && s.attempts == event && s.inited && !r.sent && s.conn.value < s.handles
    ensures var (t, ok) := Retry(s, r);
            if GoesAgain(r) then
              && ok == r.again
              && (exists id :: Sends(t.calls, event) == Sends(s.calls, event) + [Sent(id, event, r.again)]
                               && (r.errno == 1146 || r.errno == 1049 <==> id == s.conn.value))
            else Sends(t.calls, event) == Sends(s.calls, event) && !ok
    ensures Retry(s, r).0.attempts == s.attempts
  {
    hide Sends, EnsureConn, CloseConn;
    if TableGone(r.errno) {
      var c := Created(s.conn.value);
      SendsSnoc(s.calls, c, event);
      SendsSnoc(s.calls + [c], Sent(s.conn.value, event, r.again), event);
    } else if ConnectionGone(r.errno) {
      CloseSends(s, event);
      var t := CloseConn(s);
      var t' := t.(policy := Reset(t.policy));
      EnsureSends(t', r.second, event);
      var (u, ok) := EnsureConn(t', r.second);
      if ok {
        SendsSnoc(u.calls, Sent(u.conn.value, event, r.again), event);
        NewHandle(t', r.second);
        CloseKeepsHandles(s);
      }
    }
  }

  lemma NewHandle(s: Session, o: Opening)
    requires s.conn.None? && EnsureConn(s, o).1
    ensures EnsureConn(s, o).0.conn == Some(s.handles)
  {
  }

  lemma CloseKeepsHandles(s: Session)
    ensures CloseConn(s).handles == s.handles
  {
  }

  lemma RunSends(s: Session, r: Replies)
    requires Fresh(s) && Rooted(s)
    ensures var (t, ok) := RunInsert(s, r);
            && Reported(Sends(t.calls, s.attempts), s.conn.Some? || OpensUp(s.inited, r.first), r, ok)
            && t.attempts == s.attempts
  {
    hide Sends, EnsureConn, Retry;
    NoSends(s.calls, s.attempts);
    EnsureSends(s, r.first, s.attempts);
    var (t, open) := EnsureConn(s, r.first);
    if open {
      var c := Sent(t.conn.value, s.attempts, r.sent);
      SendsSnoc(t.calls, c, s.attempts);
      HandleIsMade(s, r.first);
      if !r.sent {
        RetrySends(Send(t, r.sent), r, s.attempts);
      }
    }
  }

  lemma HandleIsMade(s: Session, o: Opening)
    requires s.conn.Some? ==> s.inited && s.conn.value < s.handles
    ensures var (t, ok) := EnsureConn(s, o); ok ==> t.conn.Some? && t.inited && t.conn.value < t.handles
  {
  }

  /** One event: what the server was sent and how the event is counted. */
  lemma AttemptReports(s: Session, r: Replies)
    requires Fresh(s) && Rooted(s)
    ensures var (t, ok) := Attempt(s, r);
            && Reported(Sends(t.calls, s.attempts), s.conn.Some? || OpensUp(s.inited, r.first), r, ok)
            && (ok <==> exists id :: Sent(id, s.attempts, true) in t.calls)
  {
    hide Sends, RunInsert, CloseConn, Reported;
    RunSends(s, r);
    var (t, ok) := RunInsert(s, r);
    var u := t.(policy := Noted(t.policy).0, attempts := t.attempts + 1);
    CloseSends(u, s.attempts);
    var after := Attempt(s, r).0;
    var sends := Sends(after.calls, s.attempts);
    SendsAreThere(after.calls, s.attempts);
    assert ok <==> exists c :: c in sends && c.Sent? && c.ok by {
      SuccessIsSent(sends, s.conn.Some? || OpensUp(s.inited, r.first), r, ok);
    }
    if ok {
      var c :| c in sends && c.Sent? && c.ok;
      assert c == Sent(c.id, s.attempts, true);
    }
    if exists id :: Sent(id, s.attempts, true) in after.calls {
      var id :| Sent(id, s.attempts, true) in after.calls;
      assert Sent(id, s.attempts, true) in sends;
    }
  }

  lemma SuccessIsSent(sends: seq<Call>, opens: bool, r: Replies, ok: bool)
    requires Reported(sends, opens, r, ok)
    ensures ok <==> exists c :: c in sends && c.Sent? && c.ok
  {
    if |sends| > 0 {
      assert sends[0] in sends;
    }
    if |sends| > 1 {
      assert sends[1] in sends;
    }
  }

  /** A handle in use was made, by a registered thread. */
  predicate Rooted(s: Session) { s.conn.Some? ==> s.inited && s.conn.value < s.handles }

  lemma RetryElsewhere(s: Session, r: Replies, event: nat)
    requires s.conn.Some? && event != s.attempts && Rooted(s)
    ensures Sends(Retry(s, r).0.calls, event) == Sends(s.calls, event) && Rooted(Retry(s, r).0)
    ensures Retry(s, r).0.attempts == s.attempts
  {
    hide Sends, EnsureConn, CloseConn;
    if TableGone(r.errno) {
      var c := Created(s.conn.value);
      SendsSnoc(s.calls, c, event);
      SendsSnoc(s.calls + [c], Sent(s.conn.value, s.attempts, r.again), event);
    } else if ConnectionGone(r.errno) {
      CloseSends(s, event);
      var t := CloseConn(s);
      var t' := t.(policy := Reset(t.policy));
      EnsureSends(t', r.second, event);
      HandleIsMade(t', r.second);
      NoHandleOtherwise(t', r.second);
      var (u, ok) := EnsureConn(t', r.second);
      if ok {
        SendsSnoc(u.calls, Sent(u.conn.value, u.attempts, r.again), event);
      }
    }
  }

  lemma NoHandleOtherwise(s: Session, o: Opening)
    ensures var (t, ok) := EnsureConn(s, o); !ok ==> t.conn.None?
  {
  }

  /** Nothing is sent for any other event. */
  lemma AttemptElsewhere(s: Session, r: Replies, event: nat)
    requires event != s.attempts && Rooted(s)
    ensures Sends(Attempt(s, r).0.calls, event) == Sends(s.calls, event)
    ensures Rooted(Attempt(s, r).0) && Attempt(s, r).0.attempts == s.attempts + 1
  {
    hide Sends, EnsureConn, Retry, CloseConn;
    EnsureSends(s, r.first, event);
    HandleIsMade(s, r.first);
    NoHandleOtherwise(s, r.first);
    var (t, open) := EnsureConn(s, r.first);
    if open {
      SendsSnoc(t.calls, Sent(t.conn.value, t.attempts, r.sent), event);
      RetryElsewhere(Send(t, r.sent), r, event);
    }
    var u := RunInsert(s, r).0;
    CloseSends(u.(policy := Noted(u.policy).0, attempts := u.attempts + 1), event);
  }

  lemma AttemptIsFresh(s: Session, r: Replies)
    requires Fresh(s) && Rooted(s)
    ensures Fresh(Attempt(s, r).0) && Attempt(s, r).0.attempts == s.attempts + 1
  {
    hide Attempt, Sends;
    var t := Attempt(s, r).0;
    AttemptElsewhere(s, r, s.attempts + 1);
    forall c | c in t.calls && c.Sent? ensures c.event < t.attempts {
      if c.event > s.attempts {
        AttemptElsewhere(s, r, c.event);
        SendsAreThere(t.calls, c.event);
        SendsAreThere(s.calls, c.event);
      }
    }
  }

  // ---- the pace ----

  lemma KeptFresh(threshold: nat)
    ensures Kept(FreshSession(threshold))
  {
  }

  lemma ModeBeforeSnoc(calls: seq<Call>, c: Call)
    requires ModeBeforeInsert(calls) && (c.Sent? ==> Mode(c.id, true) in calls)
    ensures ModeBeforeInsert(calls + [c])
  {
    var all := calls + [c];
    forall j | 0 <= j < |all| && all[j].Sent? ensures Mode(all[j].id, true) in all[..j] {
      assert all[..j] == calls[..j];
      assert j == |calls| ==> calls[..j] == calls;
    }
  }

  lemma KeptCall(s: Session, c: Call)
    requires Kept(s) && !c.Sent? && c.id < s.handles
    ensures Kept(s.Calls([c]))
  {
    ModeBeforeSnoc(s.calls, c);
  }

  lemma KeptClose(s: Session)
    requires Kept(s)
    ensures Kept(CloseConn(s)) && CloseConn(s).conn.None? && CloseConn(s) == s.(conn := None, calls := CloseConn(s).calls)
  {
    if s.conn.Some? {
      KeptCall(s, Closed(s.conn.value));
    }
  }

  lemma KeptConnect(s: Session, o: Opening)
    requires Kept(s) && s.conn.None?
    ensures var (t, ok) := Connect(s, o);
            Kept(t) && (ok <==> t.conn.Some?) && t.attempts == s.attempts && t.policy == s.policy && t.failures == s.failures
  {
    hide Kept, CloseConn;
    var id := s.handles;
    var grown := s.(handles := id + 1);
    assert Kept(grown) by { KeptGrown(s); }
    var t := grown.Calls([Opened(id)]);
    KeptCall(grown, Opened(id));
    var u := t.Calls([Mode(id, true)]);
    KeptCall(t, Mode(id, true));
    KeptCall(u, Created(id));
    KeptCall(t, Mode(id, false));
    Concatenated(t.calls, Mode(id, true), Created(id));
    var handles := u.Calls([Created(id)]).(conn := Some(id));
    assert Kept(handles) by { KeptInstalled(u.Calls([Created(id)]), id, s); }
    assert CloseConn(t.(conn := Some(id))) == t.Calls([Closed(id)]) by { CloseUnfolds(t, id); }
    assert CloseConn(t.Calls([Mode(id, false)]).(conn := Some(id))) == t.Calls([Mode(id, false)]).Calls([Closed(id)]) by {
      CloseUnfolds(t.Calls([Mode(id, false)]), id);
    }
    KeptCall(t, Closed(id));
    KeptCall(t.Calls([Mode(id, false)]), Closed(id));
  }

  lemma Concatenated(calls: seq<Call>, a: Call, b: Call)
    ensures calls + [a, b] == calls + [a] + [b]
  {
  }

  lemma CloseUnfolds(t: Session, id: nat)
    requires t.conn.None?
    ensures CloseConn(t.(conn := Some(id))) == t.Calls([Closed(id)])
  {
  }

  lemma KeptGrown(s: Session)
    requires Kept(s) && s.conn.None?
    ensures Kept(s.(handles := s.handles + 1))
  {
  }

  /** A connection nothing was sent on yet. */
  lemma KeptInstalled(t: Session, id: nat, s: Session)
    requires Kept(s) && Kept(t) && t.conn.None? && s.handles == id && t.handles == id + 1
    requires t.calls == s.calls + [Opened(id), Mode(id, true), Created(id)]
    ensures Kept(t.(conn := Some(id)))
  {
    assert t.calls[|s.calls| + 1] == Mode(id, true);
    assert forall c <- t.calls :: c in s.calls || !c.Sent?;
  }

  lemma KeptEnsure(s: Session, o: Opening)
    requires Kept(s)
    ensures var (t, ok) := EnsureConn(s, o);
            Kept(t) && (ok <==> t.conn.Some?) && t.attempts == s.attempts && t.policy == s.policy && t.failures == s.failures
  {
    hide Connect, Kept;
    var t := s.(inited := true);
    assert Kept(t) by { KeptInited(s); }
    if s.conn.None? {
      KeptConnect(t, o);
    }
  }

  lemma KeptInited(s: Session)
    requires Kept(s)
    ensures Kept(s.(inited := true)) && Kept(s.(failures := s.failures + 1))
  {
  }

  lemma KeptSend(s: Session, ok: bool)
    requires Kept(s) && s.conn.Some?
    ensures Kept(Send(s, ok))
  {
    hide ModeBeforeInsert, Windowed;
    var c := Sent(s.conn.value, s.attempts, ok);
    ModeBeforeSnoc(s.calls, c);
    if s.policy.threshold > 0 {
      WindowedSnoc(s.calls, c, s.policy.threshold);
    }
    assert forall d <- s.calls + [c] :: d in s.calls || d == c;
  }

  lemma WindowedSnoc(calls: seq<Call>, c: Call, k: nat)
    requires Windowed(calls, k) && c.Sent? && k > 0
    requires forall d <- calls :: d.Sent? && d.id == c.id ==> d.event <= c.event < d.event + k
    ensures Windowed(calls + [c], k)
  {
    assert forall d <- calls + [c] :: d in calls || d == c;
  }

  lemma KeptReset(s: Session)
    requires Kept(s) && s.conn.None?
    ensures Kept(s.(policy := Reset(s.policy)))
  {
  }

  lemma KeptRetry(s: Session, r: Replies)
    requires Kept(s) && s.conn.Some?
    ensures var (t, ok) := Retry(s, r);
            Kept(t) && t.attempts == s.attempts && t.failures == s.failures && t.policy.threshold == s.policy.threshold
  {
    hide Kept, EnsureConn, CloseConn;
    if TableGone(r.errno) {
      var c := Created(s.conn.value);
      assert s.conn.value < s.handles by { KeptBound(s); }
      KeptCall(s, c);
      KeptSend(s.Calls([c]), r.again);
    } else if ConnectionGone(r.errno) {
      KeptClose(s);
      var t := CloseConn(s);
      KeptReset(t);
      var t' := t.(policy := Reset(t.policy));
      KeptEnsure(t', r.second);
      var (u, ok) := EnsureConn(t', r.second);
      if ok {
        KeptSend(u, r.again);
      }
    }
  }

  lemma KeptBound(s: Session)
    requires Kept(s)
    ensures s.conn.Some? ==> s.conn.value < s.handles
  {
  }

  lemma KeptRun(s: Session, r: Replies)
    requires Kept(s)
    ensures var (t, ok) := RunInsert(s, r);
            Kept(t) && t.attempts == s.attempts && t.policy.threshold == s.policy.threshold
            && t.failures == s.failures + if ok then 0 else 1
  {
    hide Kept, EnsureConn, Retry, Send;
    KeptEnsure(s, r.first);
    var (t, open) := EnsureConn(s, r.first);
    if open {
      KeptSend(t, r.sent);
      assert Send(t, r.sent) == t.Calls([Sent(t.conn.value, t.attempts, r.sent)]) by { SendUnfolds(t, r.sent); }
      var u := Send(t, r.sent);
      KeptRetry(u, r);
      var (v, ok) := Retry(u, r);
      KeptInited(v);
    } else {
      KeptInited(t);
    }
  }

  lemma SendUnfolds(s: Session, ok: bool)
    requires s.conn.Some?
    ensures Send(s, ok) == s.Calls([Sent(s.conn.value, s.attempts, ok)])
  {
  }

  /** One event keeps everything, and counts as one success or one failure. */
  lemma KeptAttempt(s: Session, r: Replies)
    requires Kept(s)
    ensures var (t, ok) := Attempt(s, r);
            Kept(t) && t.attempts == s.attempts + 1 && t.policy.threshold == s.policy.threshold
            && t.failures == s.failures + if ok then 0 else 1
  {
    hide Kept, RunInsert, CloseConn;
    KeptRun(s, r);
    var (t, ok) := RunInsert(s, r);
    KeptNoted(t);
    var (p, due) := Noted(t.policy);
    var u := t.(policy := p, attempts := t.attempts + 1);
    if due {
      KeptClose(u.(conn := None));
      ClosedEarly(t, u);
    }
  }

  lemma KeptNoted(t: Session)
    requires Kept(t)
    ensures var (p, due) := Noted(t.policy);
            var u := t.(policy := p, attempts := t.attempts + 1);
            Kept(if due then u.(conn := None) else u)
  {
  }

  lemma ClosedEarly(t: Session, u: Session)
    requires Kept(t) && Kept(u.(conn := None)) && u.calls == t.calls && u.conn == t.conn && u.handles == t.handles
    ensures Kept(CloseConn(u)) && CloseConn(u) == u.(conn := None, calls := CloseConn(u).calls)
  {
    hide ModeBeforeInsert;
    if u.conn.Some? {
      KeptCall(u.(conn := None), Closed(u.conn.value));
    }
  }

  // ---- what follows for every run of one writer's life ----

  function Attempts(s: Session, rs: seq<Replies>): Session {
    if rs == [] then s else Attempt(Attempts(s, rs[..|rs| - 1]), rs[|rs| - 1]).0
  }

  /** Whatever the server answers: every INSERT is sent over a connection whose mode was
      set, and no connection carries more events than the threshold. */
  lemma {:induction false} SessionsAreSafe(s: Session, rs: seq<Replies>)
    requires Kept(s)
    ensures Kept(Attempts(s, rs)) && Attempts(s, rs).attempts == s.attempts + |rs|
  {
    hide Kept, Attempt;
    if rs != [] {
      SessionsAreSafe(s, rs[..|rs| - 1]);
      KeptAttempt(Attempts(s, rs[..|rs| - 1]), rs[|rs| - 1]);
    }
  }

  ghost function Carried(calls: seq<Call>, id: nat): set<nat> { set c | c in calls && c.Sent? && c.id == id :: c.event }

  lemma NoConnectionCarriesMore(s: Session, id: nat)
    requires Kept(s) && s.policy.threshold > 0
    ensures |Carried(s.calls, id)| <= s.policy.threshold
  {
    var events := Carried(s.calls, id);
    if events != {} {
      var low := Smallest(events);
      forall n | n in events ensures low <= n < low + s.policy.threshold {
        var c :| c in s.calls && c.Sent? && c.id == id && c.event == n;
        var d :| d in s.calls && d.Sent? && d.id == id && d.event == low;
      }
      WithinRange(events, low, s.policy.threshold);
    }
  }

  lemma {:induction false} Smallest(xs: set<nat>) returns (low: nat)
    requires xs != {}
    ensures low in xs && forall n <- xs :: low <= n
    decreases |xs|
  {
    var x :| x in xs;
    low := x;
    var rest := xs - {x};
    if rest != {} {
      var y := Smallest(rest);
      assert forall n <- xs :: n == x || n in rest;
      low := if x <= y then x else y;
    } else {
      assert forall n <- xs :: n == x || n in rest;
    }
  }

  lemma {:induction false} WithinRange(xs: set<nat>, low: nat, k: nat)
    requires forall n <- xs :: low <= n < low + k
    ensures |xs| <= k
    decreases k
  {
    if k > 0 {
      var last := low + k - 1;
      WithinRange(xs - {last}, low, k - 1);
      assert |xs| <= |xs - {last}| + 1 by {
        if last in xs {
          assert xs == (xs - {last}) + {last};
        } else {
          assert xs - {last} == xs;
        }
      }
    } else {
      assert forall n: nat :: n !in xs;
    }
  }
}
