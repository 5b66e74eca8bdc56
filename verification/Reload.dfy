/** Reloading the filters: the check and update callbacks of the three list variables of
src/selective_trace_mysql.cc and `rebuild_rules_locked`. */
module Reload {
  import opened Bytes
  import opened Rules
  import opened RulesCode
  import opened RulesTheorems
  import opened Connections

  datatype Kind = Schemas | Tables | Connections

  /** The stored texts of the three variables. */
  datatype Lists = Lists(schemas: string, tables: string, connections: string)
  {
    function Get(kind: Kind): string {
      match kind case Schemas => schemas case Tables => tables case Connections => connections
    }

    function Set(kind: Kind, text: string): Lists {
      match kind
      case Schemas => this.(schemas := text)
      case Tables => this.(tables := text)
      case Connections => this.(connections := text)
    }
  }

  /** What the rebuild makes of all three. */
  function ParseAll(l: Lists): Result<FilterRules> {
    match (Parse(Some(l.schemas), Some(l.tables)), ParseConnections(Some(l.connections)))
    case (Bad(token), _) => Bad(token)
    case (Ok(_), Bad(token)) => Bad(token)
    case (Ok(rules), Ok(ids)) => Ok(rules.(connections := ids))
  }

  /** What the check callback of a variable accepts; SET to NULL always passes. */
  predicate Acceptable(kind: Kind, value: Option<string>) {
    value.Some? ==>
      match kind
      case Schemas => Parse(value, None).Ok?
      case Tables => Parse(None, value).Ok?
      case Connections => ParseConnections(value).Ok?
  }

  function Stored(value: Option<string>): string { if value.Some? then value.value else "" }

  lemma EmptyListParses()
    ensures Parse(Some(""), None).Ok? && Parse(None, Some("")).Ok? && ParseConnections(Some("")).Ok?
  {
    SplitSingle("", ',');
    assert Trim("") == "" && Tokens(Some("")) == [] && Tokens(None) == [];
  }

  /** The three texts parse together exactly when each passes its own check, and the rules
      are then fieldwise those of the three. */
  lemma ParseAllIsFieldwise(l: Lists)
    ensures ParseAll(l).Ok? <==> forall kind :: Acceptable(kind, Some(l.Get(kind)))
    ensures ParseAll(l).Ok? ==>
              ParseAll(l).value
              == FilterRules(Parse(Some(l.schemas), None).value.schemas, Parse(None, Some(l.tables)).value.wildcards,
                             Parse(None, Some(l.tables)).value.tables, ParseConnections(Some(l.connections)).value)
  {
    hide Parse, ParseConnections;
    ParseIsFieldwise(Some(l.schemas), Some(l.tables));
    if ParseAll(l).Ok? {
      forall kind: Kind ensures Acceptable(kind, Some(l.Get(kind))) {
        match kind { case Schemas => case Tables => case Connections => }
      }
    } else {
      assert !Acceptable(Schemas, Some(l.Get(Schemas))) || !Acceptable(Tables, Some(l.Get(Tables)))
          || !Acceptable(Connections, Some(l.Get(Connections)));
    }
  }

  /** Storing an accepted value keeps the whole parseable. */
  lemma StoringKeepsParsing(l: Lists, kind: Kind, value: Option<string>)
    requires ParseAll(l).Ok? && Acceptable(kind, value)
    ensures ParseAll(l.Set(kind, Stored(value))).Ok?
  {
    hide Parse, ParseConnections, ParseAll;
    EmptyListParses();
    ParseAllIsFieldwise(l);
    var m := l.Set(kind, Stored(value));
    assert Acceptable(kind, Some(m.Get(kind)));
    assert forall k: Kind :: k != kind ==> m.Get(k) == l.Get(k);
    ParseAllIsFieldwise(m);
  }

  // ---- the code ----

  method CheckFilterList(kind: Kind, value: Option<string>) returns (ok: bool)
    ensures ok == Acceptable(kind, value)
  {
    hide Parse, ParseConnections;
    ok := true;
    if value.Some? {
      var error;
      match kind {
        case Schemas => var _, e := ParseFilterLists(value, None, EmptyRules); error := e;
        case Tables => var _, e := ParseFilterLists(None, value, EmptyRules); error := e;
        case Connections => var _, e := ParseConnectionList(value, []); error := e;
      }
      ok := error.None?;
    }
  }

  class FilterConfig {
    var schemas: string
    var tables: string
    var connections: string
    var active: FilterRules

    ghost function Contents(): Lists
      reads this
    {
      Lists(schemas, tables, connections)
    }

    /** The active rules are the parse of the three stored texts. */
    ghost predicate Consistent()
      reads this
    {
      ParseAll(Contents()) == Ok(active)
    }

    /** Nothing is installed before `Init`. */
    constructor (s: Option<string>, t: Option<string>, c: Option<string>)
      ensures Contents() == Lists(Stored(s), Stored(t), Stored(c)) && active == EmptyRules
    {
      schemas, tables, connections := Stored(s), Stored(t), Stored(c);
      active := EmptyRules;
    }

    /** Plugin start: fails when the configured texts do not parse. */
    method Init() returns (failed: bool)
      modifies this`active
      ensures !failed <==> ParseAll(Contents()).Ok?
      ensures !failed ==> Consistent()
    {
      failed := RebuildRules();
    }

    /** `rebuild_rules_locked`: install the parse, or keep the old rules. */
    method RebuildRules() returns (failed: bool)
      modifies this`active
      ensures failed == ParseAll(Contents()).Bad?
      ensures active == if failed then old(active) else ParseAll(Contents()).value
    {
      hide Parse, ParseConnections;
      var fresh0, e := ParseFilterLists(Some(schemas), Some(tables), EmptyRules);
      if e.Some? {
        return true;
      }
      var ids, f := ParseConnectionList(Some(connections), fresh0.connections);
      if f.Some? {
        return true;
      }
      active := fresh0.(connections := ids);
      return false;
    }

    /** `update_filter_list`, for a value that passed its check: the rebuild does not fail. */
    method UpdateFilterList(kind: Kind, value: Option<string>)
      requires Consistent() && Acceptable(kind, value)
      modifies this
      ensures Consistent() && Contents() == old(Contents()).Set(kind, Stored(value))
      ensures schemas == (if kind.Schemas? then Stored(value) else old(schemas))
      ensures tables == (if kind.Tables? then Stored(value) else old(tables))
      ensures connections == (if kind.Connections? then Stored(value) else old(connections))
    {
      hide ParseAll;
      StoringKeepsParsing(Contents(), kind, value);
      var text := Stored(value);
      match kind {
        case Schemas => schemas := text;
        case Tables => tables := text;
        case Connections => connections := text;
      }
      assert Contents() == old(Contents()).Set(kind, text);
      var failed := RebuildRules();
      assert !failed;
    }

    /** SET: rejected without any change, or stored and active. */
    method SetVariable(kind: Kind, value: Option<string>) returns (accepted: bool)
      requires Consistent()
      modifies this
      ensures Consistent() && accepted == Acceptable(kind, value)
      ensures Contents() == if accepted then old(Contents()).Set(kind, Stored(value)) else old(Contents())
      ensures !accepted ==> active == old(active)
      ensures schemas == (if accepted && kind.Schemas? then Stored(value) else old(schemas))
      ensures tables == (if accepted && kind.Tables? then Stored(value) else old(tables))
      ensures connections == (if accepted && kind.Connections? then Stored(value) else old(connections))
    {
      hide Acceptable, ParseAll;
      accepted := CheckFilterList(kind, value);
      if accepted {
        UpdateFilterList(kind, value);
      }
    }
  }

  // ---- every run ----

  /** Sessions check and update in separate critical sections. */
  datatype SetStep = Check(session: nat, kind: Kind, value: Option<string>) | Update(session: nat)

  /** The stored texts, the rules in force, and the checked values not yet stored. */
  datatype SetState = SetState(lists: Lists, active: FilterRules, checked: map<nat, (Kind, Option<string>)>)

  function Rebuilt(s: SetState, lists: Lists): SetState {
    s.(lists := lists, active := match ParseAll(lists) case Ok(rules) => rules case Bad(_) => s.active)
  }

  function SetNext(s: SetState, step: SetStep): SetState {
    match step
    case Check(session, kind, value) =>
      s.(checked := if Acceptable(kind, value) then s.checked[session := (kind, value)] else s.checked - {session})
    case Update(session) =>
      if session !in s.checked then s else
        var (kind, value) := s.checked[session];
        Rebuilt(s, s.lists.Set(kind, Stored(value))).(checked := s.checked - {session})
  }

  function SetRun(s: SetState, steps: seq<SetStep>): SetState {
    if steps == [] then s else SetNext(SetRun(s, steps[..|steps| - 1]), steps[|steps| - 1])
  }

  ghost predicate InForce(s: SetState) {
    && ParseAll(s.lists) == Ok(s.active)
    && forall session <- s.checked :: Acceptable(s.checked[session].0, s.checked[session].1)
  }

  /** Where every run begins when nothing is configured. */
  lemma NothingConfiguredIsInForce()
    ensures InForce(SetState(Lists("", "", ""), EmptyRules, map[]))
  {
    hide RulesOf;
    SplitSingle("", ',');
    assert Trim("") == "" && Tokens(Some("")) == [];
    assert RulesOf([], false) == Ok([]) && RulesOf([], true) == Ok([]) by { NoEntries(); }
  }

  lemma NoEntries()
    ensures RulesOf([], false) == Ok([]) && RulesOf([], true) == Ok([])
  {
  }

  lemma InForceNext(s: SetState, step: SetStep)
    requires InForce(s)
    ensures InForce(SetNext(s, step))
  {
    hide Acceptable, ParseAll;
    if step.Update? && step.session in s.checked {
      var (kind, value) := s.checked[step.session];
      StoringKeepsParsing(s.lists, kind, value);
    }
  }

  /** Over every interleaving of accepted and rejected SETs, the stored texts parse and the
      rules in force are their parse: the rebuild never fails. */
  lemma {:induction false} RulesAreAlwaysTheParse(s: SetState, steps: seq<SetStep>)
    requires InForce(s)
    ensures InForce(SetRun(s, steps))
  {
    hide InForce, SetNext;
    if steps != [] {
      RulesAreAlwaysTheParse(s, steps[..|steps| - 1]);
      InForceNext(SetRun(s, steps[..|steps| - 1]), steps[|steps| - 1]);
    }
  }

  /** What the rules in force mean, in terms of the entries of the stored texts alone. */
  lemma ActiveRulesMean(s: SetState, steps: seq<SetStep>, db: string, table: string, conn: Id)
    requires InForce(s)
    ensures var l, rules := SetRun(s, steps).lists, SetRun(s, steps).active;
            && Increasing(rules.connections)
            && (MatchConnection(rules, conn) <==> exists t <- Tokens(Some(l.connections)) :: IsDecimal(t) && Decimal(t) % WORD == conn)
            && (forall c :: c in MatchSchema(rules, db)
                 <==> exists r :: r in EntryRules(Some(l.schemas), Some(l.tables)) && NamesSchema(r, db) && c in r.cmds)
            && (forall c :: c in MatchTable(rules, db, table)
                 <==> exists r :: r in EntryRules(Some(l.schemas), Some(l.tables)) && NamesTable(r, db, table) && c in r.cmds)
  {
    hide SetRun, Parse, ParseConnections, Tokens, EntryRules, MatchSchema, MatchTable, Decimal, IsDecimal, NamesSchema, NamesTable;
    RulesAreAlwaysTheParse(s, steps);
    var l := SetRun(s, steps).lists;
    ParseThenMatch(Some(l.schemas), Some(l.tables), db, table);
    ConnectionsAgree(Some(l.connections), conn);
    MatchingIgnoresConnections(Parse(Some(l.schemas), Some(l.tables)).value, SetRun(s, steps).active, db, table);
  }

  lemma MatchingIgnoresConnections(r: FilterRules, s: FilterRules, db: string, table: string)
    requires s == r.(connections := s.connections)
    ensures MatchSchema(r, db) == MatchSchema(s, db) && MatchTable(r, db, table) == MatchTable(s, db, table)
  {
  }
}
