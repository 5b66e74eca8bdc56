/** The state map and the audit callback of src/selective_trace_mysql.cc. */
module Plugin {
  import opened Bytes
  import opened Statement
  import opened StatementCode

  /** A connection's thread handle. */
  type Thd = nat

  predicate Handled(e: Event, enabled: bool) { e.Disconnect? || enabled }

  ghost predicate Separate(s: StatementState, t: StatementState) {
    s != t && s.tables != t.tables && s.tables != t.currentDb && s.currentDb != t.tables && s.currentDb != t.currentDb
  }

  /** What a callback does to the state of its connection: nothing for the writer's own
      events and, but for disconnects, while tracing is off. */
  function Noticed(v: View, e: Event, config: Config, isSelf: bool): View {
    if !isSelf && Handled(e, config.enabled) then Apply(v, e, config.rules) else v
  }

  function Reported(v: View, e: Event, config: Config, isSelf: bool): Option<string> {
    if !isSelf && Handled(e, config.enabled) then TextOf(EventOutput(v, e, config)) else None
  }

  class Tracer {
    var states: map<Thd, StatementState>
    var config: Config

    ghost var repr: set<object>

    ghost predicate Valid()
      reads this, repr
    {
      && config.Valid() && this !in repr
      && (forall t <- states :: states[t] in repr && states[t].tables in repr && states[t].currentDb in repr)
      && (forall t <- states :: states[t].Valid())
      && (forall t, u :: t in states && u in states && t != u ==> Separate(states[t], states[u]))
    }

    /** What is known about a connection; nothing before its first event. */
    ghost function ViewFor(t: Thd): View
      requires Valid()
      reads this, repr
    {
      if t in states then states[t].ViewOf() else Zero
    }

    constructor (initial: Config)
      requires initial.Valid()
      ensures Valid() && repr == {} && config == initial && forall t: Thd :: ViewFor(t) == Zero
    {
      states, repr := map[], {};
      config := initial;
    }

    /** `get_state`: find, or insert an all-zero entry. */
    method GetState(t: Thd) returns (s: StatementState)
      requires Valid()
      modifies this`states, this`repr
      ensures Valid() && t in states && s == states[t] && fresh(repr - old(repr))
      ensures forall u: Thd :: ViewFor(u) == old(ViewFor(u))
    {
      if t in states {
        return states[t];
      }
      s := InsertState(t);
    }

    /** The insert under the write lock. */
    method InsertState(t: Thd) returns (s: StatementState)
      requires Valid() && t !in states
      modifies this`states, this`repr
      ensures Valid() && states == old(states)[t := s] && fresh(repr - old(repr)) && ViewFor(t) == Zero
      ensures forall u: Thd :: ViewFor(u) == old(ViewFor(u))
    {
      hide Config.Valid, StatementState.ViewOf, StatementState.Valid;
      s := new StatementState();
      states := states[t := s];
      repr := repr + {s, s.tables, s.currentDb};
      forall u | u in states && u != t
        ensures states[u] == old(states)[u] && Separate(states[u], s) && Separate(s, states[u])
        ensures states[u].Valid() && states[u].ViewOf() == old(states[u].ViewOf())
      {
      }
    }

    /** `forget_state`. */
    method ForgetState(t: Thd)
      requires Valid()
      modifies this`states
      ensures Valid() && t !in states
      ensures forall u: Thd :: u != t ==> ViewFor(u) == old(ViewFor(u))
    {
      states := states - {t};
    }

    /** Changing one connection's objects changes no other connection. */
    twostate lemma OthersKept(t: Thd)
      requires old(Valid()) && t in states && states == old(states) && repr == old(repr) && config == old(config) && states[t].Valid()
      requires forall u :: u in states && u != t ==> unchanged(states[u], states[u].tables, states[u].currentDb)
      ensures Valid() && forall u: Thd :: u != t ==> ViewFor(u) == old(ViewFor(u))
    {
    }

    /** `selective_trace_notify`: only the connection's own state changes, and it changes as
        the event says; the writer's own events are ignored altogether. */
    method Notify(t: Thd, e: Event, isSelf: bool) returns (out: Option<string>)
      requires Valid() && e.Valid()
      modifies this`states, this`repr, repr
      ensures Valid() && fresh(repr - old(repr))
      ensures ViewFor(t) == Noticed(old(ViewFor(t)), e, config, isSelf)
      ensures out == Reported(old(ViewFor(t)), e, config, isSelf)
      ensures forall u: Thd :: u != t ==> ViewFor(u) == old(ViewFor(u))
    {
      hide Noticed, Reported, Apply, EventOutput, TextOf;
      out := None;
      ghost var v := ViewFor(t);
      NoticedCases(v, e, config, isSelf);
      if isSelf {
        return;
      }
      if e.Disconnect? {
        ForgetState(t);
        return;
      }
      if !config.enabled || e.Unhandled? {
        return;
      }
      out := Process(t, e);
    }

    method Process(t: Thd, e: Event) returns (out: Option<string>)
      requires Valid() && e.Valid()
      requires e.NeedsState()
      modifies this`states, this`repr, repr
      ensures Valid() && fresh(repr - old(repr))
      ensures ViewFor(t) == Apply(old(ViewFor(t)), e, config.rules)
      ensures out == TextOf(EventOutput(old(ViewFor(t)), e, config))
      ensures forall u: Thd :: u != t ==> ViewFor(u) == old(ViewFor(u))
    {
      hide Apply, EventOutput, Encoded, Config.Valid;
      var s := GetState(t);
      label found:
      out := s.HandleEvent(e, config);
      OthersKept@found(t);
    }
  }

  lemma NoticedCases(v: View, e: Event, config: Config, isSelf: bool)
    ensures isSelf ==> Noticed(v, e, config, isSelf) == v
    ensures !isSelf && e.Disconnect? ==> Noticed(v, e, config, isSelf) == Zero
    ensures !isSelf && !e.Disconnect? && (!config.enabled || e.Unhandled?) ==> Noticed(v, e, config, isSelf) == v
    ensures isSelf || e.Disconnect? || !config.enabled || e.Unhandled? ==> Reported(v, e, config, isSelf).None?
    ensures !isSelf && config.enabled && !e.Disconnect? ==>
              Noticed(v, e, config, isSelf) == Apply(v, e, config.rules)
              && Reported(v, e, config, isSelf) == TextOf(EventOutput(v, e, config))
  {
    hide Access, AfterStatus, StatusOutput, Begun, Encoded;
  }
}
