/** Many connections at once: the audit callback of src/selective_trace_mysql.cc cut at its
critical sections, and every interleaving of them. */
module Isolation {
  import opened Bytes
  import opened Statement
  import opened StatementHistory
  import opened StatementTheorems
  import opened Plugin

  /** Where a connection's thread is: between events; in `get_state` before the find; after a
      find that missed, with no lock held; with the state in hand. */
  datatype Pc = Idle | Looking(e: Event) | Missed(e: Event) | Holding(e: Event)

  datatype Step =
    | Arrive(thd: Thd, e: Event)
    | LookUp(thd: Thd)
    | AddState(thd: Thd)
    | Process(thd: Thd)
    | Configure(config: Config)

  /** Shared memory, the position of every thread, and what was output so far. */
  datatype System = System(config: Config, states: map<Thd, View>, pcs: map<Thd, Pc>, outputs: seq<(Thd, Output)>)
  {
    function PcOf(t: Thd): Pc { if t in pcs then pcs[t] else Idle }

    function ViewOf(t: Thd): View { if t in states then states[t] else Zero }

    function At(t: Thd, pc: Pc): System { this.(pcs := pcs[t := pc]) }
  }

  /** A thread starts on an event only when it is done with the one before. A disconnect is
      one critical section; nothing else is looked at while tracing is off. */
  function Arrival(s: System, t: Thd, e: Event): System {
    if s.PcOf(t) != Idle then s
    else if e.Disconnect? then s.(states := s.states - {t})
    else if !s.config.enabled || e.Unhandled? then s
    else s.At(t, Looking(e))
  }

  function Finding(s: System, t: Thd): System {
    match s.PcOf(t)
    case Looking(e) => if t in s.states then s.At(t, Holding(e)) else s.At(t, Missed(e))
    case _ => s
  }

  function Adding(s: System, t: Thd): System {
    match s.PcOf(t)
    case Missed(e) => s.(states := if t in s.states then s.states else s.states[t := Zero]).At(t, Holding(e))
    case _ => s
  }

  function Emission(t: Thd, o: Option<Output>): seq<(Thd, Output)> { if o.Some? then [(t, o.value)] else [] }

  /** The handler, with the configuration it finds. */
  function Processing(s: System, t: Thd): System {
    match s.PcOf(t)
    case Holding(e) =>
      System(s.config, s.states[t := Apply(s.ViewOf(t), e, s.config.rules)], s.pcs[t := Idle],
             s.outputs + Emission(t, EventOutput(s.ViewOf(t), e, s.config)))
    case _ => s
  }

  function Next(s: System, step: Step): System {
    match step
    case Arrive(t, e) => Arrival(s, t, e)
    case LookUp(t) => Finding(s, t)
    case AddState(t) => Adding(s, t)
    case Process(t) => Processing(s, t)
    case Configure(c) => s.(config := c)
  }

  function Start(config: Config): System { System(config, map[], map[], []) }

  function Exec(config: Config, steps: seq<Step>): System {
    if steps == [] then Start(config) else Next(Exec(config, steps[..|steps| - 1]), steps[|steps| - 1])
  }

  // ---- one thread's share ----

  predicate Concerns(step: Step, t: Thd) { step.Configure? || step.thd == t }

  /** Only the thread's own steps and the changes of configuration. */
  function Own(steps: seq<Step>, t: Thd): seq<Step> {
    if steps == [] then [] else
      var n := |steps| - 1;
      Own(steps[..n], t) + (if Concerns(steps[n], t) then [steps[n]] else [])
  }

  function Outputs(outputs: seq<(Thd, Output)>, t: Thd): seq<Output> {
    if outputs == [] then [] else
      var n := |outputs| - 1;
      Outputs(outputs[..n], t) + (if outputs[n].0 == t then [outputs[n].1] else [])
  }

  lemma {:induction false} OutputsConcat(a: seq<(Thd, Output)>, b: seq<(Thd, Output)>, t: Thd)
    ensures Outputs(a + b, t) == Outputs(a, t) + Outputs(b, t)
  {
    if b == [] {
      assert a + b == a;
    } else {
      var n := |b| - 1;
      assert (a + b)[..|a| + n] == a + b[..n];
      OutputsConcat(a, b[..n], t);
    }
  }

  lemma EmissionOutputs(t: Thd, u: Thd, o: Option<Output>)
    ensures Outputs(Emission(u, o), t) == if u == t && o.Some? then [o.value] else []
  {
    if o.Some? {
      assert Outputs([(u, o.value)][..0], t) == [];
    }
  }

  /** Two systems that one thread cannot tell apart. */
  ghost predicate Alike(r: System, s: System, t: Thd) {
    && r.config == s.config && r.PcOf(t) == s.PcOf(t)
    && (t in r.states <==> t in s.states) && r.ViewOf(t) == s.ViewOf(t)
    && Outputs(r.outputs, t) == Outputs(s.outputs, t)
  }

  lemma OthersDoNothing(s: System, step: Step, t: Thd)
    requires !Concerns(step, t)
    ensures Alike(Next(s, step), s, t)
  {
    hide Apply, EventOutput, Outputs;
    if step.Process? && s.PcOf(step.thd).Holding? {
      var o := EventOutput(s.ViewOf(step.thd), s.PcOf(step.thd).e, s.config);
      OutputsConcat(s.outputs, Emission(step.thd, o), t);
      EmissionOutputs(t, step.thd, o);
    }
  }

  lemma OwnStepsAgree(r: System, s: System, step: Step, t: Thd)
    requires Concerns(step, t) && Alike(r, s, t)
    ensures Alike(Next(r, step), Next(s, step), t)
  {
    hide Apply, EventOutput, Outputs;
    if step.Process? && s.PcOf(t).Holding? {
      var o := EventOutput(s.ViewOf(t), s.PcOf(t).e, s.config);
      OutputsConcat(s.outputs, Emission(t, o), t);
      OutputsConcat(r.outputs, Emission(t, o), t);
    }
  }

  /** Isolation: in every interleaving, a connection ends in the state, at the position and
      with the outputs that its own steps and the configuration changes alone give it. */
  lemma {:induction false} ConnectionsAreIsolated(config: Config, steps: seq<Step>, t: Thd)
    ensures Alike(Exec(config, steps), Exec(config, Own(steps, t)), t)
  {
    hide Alike, Next;
    if steps == [] {
      AlikeSame(Start(config), t);
    } else {
      var n := |steps| - 1;
      var before, step := steps[..n], steps[n];
      ConnectionsAreIsolated(config, before, t);
      var r, s := Exec(config, before), Exec(config, Own(before, t));
      if Concerns(step, t) {
        OwnStepsAgree(r, s, step, t);
        var own := Own(before, t) + [step];
        assert own[..|own| - 1] == Own(before, t);
      } else {
        OthersDoNothing(r, step, t);
        AlikeJoins(Next(r, step), r, s, t);
        assert Own(before, t) + [] == Own(before, t);
      }
    }
  }

  lemma AlikeSame(s: System, t: Thd)
    ensures Alike(s, s, t)
  {
  }

  lemma AlikeJoins(q: System, r: System, s: System, t: Thd)
    requires Alike(q, r, t) && Alike(r, s, t)
    ensures Alike(q, s, t)
  {
  }

  // ---- the events a thread has handled ----

  /** The event a step completes for a thread, with the configuration it was handled under. */
  function Completes(s: System, step: Step, t: Thd): seq<Item> {
    if step.Process? && step.thd == t && s.PcOf(t).Holding? then [Item(s.PcOf(t).e, s.config)]
    else if step.Arrive? && step.thd == t && step.e.Disconnect? && s.PcOf(t).Idle? then [Item(Disconnect, s.config)]
    else []
  }

  function History(config: Config, steps: seq<Step>, t: Thd): seq<Item> {
    if steps == [] then [] else
      var n := |steps| - 1;
      History(config, steps[..n], t) + Completes(Exec(config, steps[..n]), steps[n], t)
  }

  /** The outputs of a history, in order. */
  function AllOutputs(h: seq<Item>): seq<Output> {
    if h == [] then [] else
      var n := |h| - 1;
      var o := EventOutput(After(h[..n]), h[n].event, h[n].config);
      AllOutputs(h[..n]) + (if o.Some? then [o.value] else [])
  }

  /** What a thread can rely on. */
  ghost predicate Linear(s: System, h: seq<Item>, t: Thd) {
    && s.ViewOf(t) == After(h)
    && Outputs(s.outputs, t) == AllOutputs(h)
    && (s.PcOf(t).Holding? ==> t in s.states)
  }

  lemma HistorySnoc(h: seq<Item>, x: Item)
    ensures After(h + [x]) == Apply(After(h), x.event, x.config.rules)
    ensures var o := EventOutput(After(h), x.event, x.config);
            AllOutputs(h + [x]) == AllOutputs(h) + (if o.Some? then [o.value] else [])
  {
    hide Apply, EventOutput;
    assert (h + [x])[..|h|] == h;
  }

  lemma LinearNext(s: System, h: seq<Item>, step: Step, t: Thd)
    requires Linear(s, h, t)
    ensures Linear(Next(s, step), h + Completes(s, step, t), t)
  {
    hide Apply, EventOutput, Outputs, After, AllOutputs;
    if step.Configure? || step.thd != t {
      LinearElsewhere(s, h, step, t);
    } else if step.Process? && s.PcOf(t).Holding? {
      var e := s.PcOf(t).e;
      var o := EventOutput(s.ViewOf(t), e, s.config);
      HistorySnoc(h, Item(e, s.config));
      OutputsConcat(s.outputs, Emission(t, o), t);
      EmissionOutputs(t, t, o);
    } else if step.Arrive? && step.e.Disconnect? && s.PcOf(t).Idle? {
      HistorySnoc(h, Item(Disconnect, s.config));
      DisconnectIsSilent(After(h), s.config);
    } else {
      assert h + [] == h;
    }
  }

  lemma LinearElsewhere(s: System, h: seq<Item>, step: Step, t: Thd)
    requires Linear(s, h, t) && (step.Configure? || step.thd != t)
    ensures Linear(Next(s, step), h + Completes(s, step, t), t)
  {
    hide Next, After, AllOutputs, Outputs;
    assert h + [] == h;
    if step.Configure? {
      assert Next(s, step) == s.(config := step.config) by { Reconfigured(s, step); }
    } else {
      OthersDoNothing(s, step, t);
    }
  }

  lemma Reconfigured(s: System, step: Step)
    requires step.Configure?
    ensures Next(s, step) == s.(config := step.config)
  {
  }

  lemma DisconnectIsSilent(v: View, config: Config)
    ensures Apply(v, Disconnect, config.rules) == Zero && EventOutput(v, Disconnect, config).None?
  {
  }

  /** Linearity: in every interleaving, the state and the outputs of a connection are those
      of handling its events one after the other, each in one go, and a handler always
      holds a state that is still in the map. */
  lemma {:induction false} EveryRunIsLinear(config: Config, steps: seq<Step>, t: Thd)
    ensures Linear(Exec(config, steps), History(config, steps, t), t)
  {
    hide Linear, Next, Completes;
    if steps == [] {
      LinearStart(config, t);
    } else {
      var n := |steps| - 1;
      EveryRunIsLinear(config, steps[..n], t);
      LinearNext(Exec(config, steps[..n]), History(config, steps[..n], t), steps[n], t);
    }
  }

  lemma LinearStart(config: Config, t: Thd)
    ensures Linear(Start(config), [], t)
  {
  }

  // ---- one callback alone ----

  /** A callback that nothing interrupts. */
  function Callback(s: System, t: Thd, e: Event): System {
    Processing(Adding(Finding(Arrival(s, t, e), t), t), t)
  }

  /** It does to its connection what the audit callback does: nothing while tracing is off
      but for a disconnect, and otherwise what the event says. */
  lemma CallbackIsNoticed(s: System, t: Thd, e: Event)
    requires s.PcOf(t) == Idle
    ensures var r := Callback(s, t, e);
            && r.PcOf(t) == Idle && r.config == s.config
            && r.ViewOf(t) == Noticed(s.ViewOf(t), e, s.config, false)
            && r.outputs == s.outputs
                 + Emission(t, if e.Disconnect? || s.config.enabled then EventOutput(s.ViewOf(t), e, s.config) else None)
  {
    hide Apply, EventOutput;
    NoticedCases(s.ViewOf(t), e, s.config, false);
    DisconnectIsSilent(s.ViewOf(t), s.config);
    UnhandledIsSilent(s.ViewOf(t), s.config);
    assert s.outputs + [] == s.outputs;
  }

  lemma UnhandledIsSilent(v: View, config: Config)
    ensures Apply(v, Unhandled, config.rules) == v && EventOutput(v, Unhandled, config).None?
  {
  }

  // ---- runs without rules ----

  predicate RulesStayEmpty(config: Config, steps: seq<Step>) {
    NoRules(config.rules) && forall step <- steps :: step.Configure? ==> NoRules(step.config.rules)
  }

  lemma {:induction false} ConfigStaysEmpty(config: Config, steps: seq<Step>, t: Thd)
    requires RulesStayEmpty(config, steps)
    ensures NoRules(Exec(config, steps).config.rules)
    ensures forall x <- History(config, steps, t) :: NoRules(x.config.rules)
  {
    hide NoRules, Apply, EventOutput;
    if steps != [] {
      var n := |steps| - 1;
      assert steps[n] in steps && forall step <- steps[..n] :: step in steps;
      ConfigStaysEmpty(config, steps[..n], t);
    }
  }

  lemma {:induction false} NoRulesNoOutputs(h: seq<Item>)
    requires forall x <- h :: NoRules(x.config.rules)
    ensures AllOutputs(h) == []
  {
    hide EventOutput, NoRules, After;
    if h != [] {
      EmptyRulesOutputNothing(h, |h| - 1);
      assert forall x <- h[..|h| - 1] :: x in h;
      NoRulesNoOutputs(h[..|h| - 1]);
    }
  }

  /** As long as the rules are empty, no interleaving outputs anything. */
  lemma EmptyRulesAreSilent(config: Config, steps: seq<Step>)
    requires RulesStayEmpty(config, steps)
    ensures Exec(config, steps).outputs == []
  {
    hide Exec, History, NoRules, AllOutputs, After;
    var outputs := Exec(config, steps).outputs;
    if outputs != [] {
      var t := outputs[|outputs| - 1].0;
      EveryRunIsLinear(config, steps, t);
      ConfigStaysEmpty(config, steps, t);
      NoRulesNoOutputs(History(config, steps, t));
    }
  }
}
