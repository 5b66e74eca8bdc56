/** When a statement is traced, in terms of what a user writes: the raw entries of the three
lists, the bytes of the events and the readings of the clock. */
module Listed {
  import opened Bytes
  import opened Rules
  import opened RulesTheorems
  import opened Connections
  import opened Commands
  import opened Masker
  import opened TableBuffer
  import opened Statement
  import opened StatementHistory
  import opened StatementTheorems
  import opened Reload

  /** The rules the stored texts spell out. */
  ghost function RulesIn(l: Lists): set<Rule> { EntryRules(Some(l.schemas), Some(l.tables)) }

  /** Some entry names the schema, and lists the command. */
  ghost predicate SchemaListed(l: Lists, db: string, c: Command) {
    exists r :: r in RulesIn(l) && NamesSchema(r, db) && c in r.cmds
  }

  /** Some entry names the table, and lists the command. */
  ghost predicate TableListed(l: Lists, db: string, table: string, c: Command) {
    exists r :: r in RulesIn(l) && NamesTable(r, db, table) && c in r.cmds
  }

  /** Some entry of the connection list is the id. */
  ghost predicate ConnectionListed(l: Lists, conn: Id) {
    exists t <- Tokens(Some(l.connections)) :: IsDecimal(t) && Decimal(t) % 18446744073709551616 == conn
  }

  predicate IsStatistics(db: string, table: string) {
    Lower(db) == "mysql" && (Lower(table) == "innodb_table_stats" || Lower(table) == "innodb_index_stats")
  }

  /** An access that is recorded: statistics tables are when an entry names them. */
  ghost predicate IsRecorded(l: Lists, e: Event) {
    e.TableAccess? && (!IsStatistics(e.db, e.table) || exists c :: TableListed(l, e.db, e.table, c))
  }

  /** The commands an access allows. */
  ghost predicate AccessAllows(l: Lists, e: Event, c: Command) {
    IsRecorded(l, e) && (SchemaListed(l, e.db, c) || TableListed(l, e.db, e.table, c))
  }

  /** The names recorded by the events from `b` on, schema first. */
  ghost function NamesTouched(h: seq<Item>, ls: seq<Lists>): seq<string>
    requires |ls| == |h|
  {
    if h == [] then [] else
      var n := |h| - 1;
      var e := h[n].event;
      NamesTouched(h[..n], ls[..n]) + (if IsRecorded(ls[n], e) then [e.db + "." + e.table] else [])
  }

  /** The texts stored when each event was handled. */
  ghost predicate InForceAt(h: seq<Item>, ls: seq<Lists>) {
    |ls| == |h| && forall i :: 0 <= i < |h| ==> ParseAll(ls[i]) == Ok(h[i].config.rules)
  }

  predicate IsQueryKind(kind: string) { kind == "Query" || kind == "Execute" }

  /** A LOG, a disconnect, or a STATUS of a query. */
  predicate Separates(e: Event) { e.Log? || e.Disconnect? || (e.Status? && IsQueryKind(e.status.kind)) }

  /** `b` is where the events since the last of these begin. */
  predicate BeginsAt(h: seq<Item>, b: nat) {
    b <= |h| && (b > 0 ==> Separates(h[b - 1].event)) && forall i :: b <= i < |h| ==> !Separates(h[i].event)
  }

  lemma BeginsAtSays(h: seq<Item>, b: nat)
    requires BeginsAt(h, b)
    ensures Since(h, b)
  {
  }

  // ---- what the matchers see is what the lists say ----

  lemma MatchesSay(l: Lists, rules: FilterRules, db: string, table: string)
    requires ParseAll(l) == Ok(rules)
    ensures forall c :: c in MatchSchema(rules, db) <==> SchemaListed(l, db, c)
    ensures forall c :: c in MatchTable(rules, db, table) <==> TableListed(l, db, table, c)
  {
    hide Parse, ParseConnections, MatchSchema, MatchTable, EntryRules, NamesSchema, NamesTable;
    var p := Parse(Some(l.schemas), Some(l.tables)).value;
    ParseThenMatch(Some(l.schemas), Some(l.tables), db, table);
    MatchingIgnoresConnections(p, rules, db, table);
  }

  lemma ConnectionsSay(l: Lists, rules: FilterRules, conn: Id)
    requires ParseAll(l) == Ok(rules)
    ensures MatchConnection(rules, conn) <==> ConnectionListed(l, conn)
  {
    hide Parse, ParseConnections, Tokens, IsDecimal, Decimal;
    ConnectionsAgree(Some(l.connections), conn);
  }

  lemma CountsSay(item: Item, l: Lists)
    requires ParseAll(l) == Ok(item.config.rules) && item.event.TableAccess?
    ensures var e := item.event; Counts(item.config.rules, e.db, e.table) <==> IsRecorded(l, e)
  {
    hide ParseAll, MatchTable, TableListed, Lower;
    var e := item.event;
    MatchesSay(l, item.config.rules, e.db, e.table);
    var m := MatchTable(item.config.rules, e.db, e.table);
    assert m != {} <==> exists c :: c in m;
  }

  lemma AllowsSay(item: Item, l: Lists, c: Command)
    requires ParseAll(l) == Ok(item.config.rules)
    ensures c in Allows(item) <==> AccessAllows(l, item.event, c)
  {
    hide ParseAll, MatchTable, MatchSchema, TableListed, SchemaListed, IsRecorded, Counts;
    if item.event.TableAccess? {
      CountsSay(item, l);
      MatchesSay(l, item.config.rules, item.event.db, item.event.table);
    } else {
      assert !IsRecorded(l, item.event) by { OnlyAccesses(l, item.event); }
    }
  }

  lemma OnlyAccesses(l: Lists, e: Event)
    ensures IsRecorded(l, e) ==> e.TableAccess?
  {
  }

  lemma {:induction false} NamesSay(h: seq<Item>, ls: seq<Lists>)
    requires InForceAt(h, ls)
    ensures AllRecorded(h) == NamesTouched(h, ls)
  {
    hide ParseAll, IsRecorded, Counts;
    if h != [] {
      var n := |h| - 1;
      NamesSay(h[..n], ls[..n]);
      OnlyAccesses(ls[n], h[n].event);
      if h[n].event.TableAccess? {
        CountsSay(h[n], ls[n]);
      }
    }
  }

  // ---- the theorem ----

  /** What selects the statement that the k-th event closes. */
  ghost predicate IsListed(h: seq<Item>, ls: seq<Lists>, k: nat, b: nat, db: string)
    requires k < |h| == |ls| && h[k].event.Status?
  {
    var ev := h[k].event.status;
    var c := CommandClass(CommandWord(ev.query));
    || (exists i :: b <= i < k && AccessAllows(ls[i], h[i].event, c))
    || ConnectionListed(ls[k], ev.conn)
    || (db != [] && SchemaListed(ls[k], db, c))
  }

  /** What its record says. */
  ghost predicate Shows(h: seq<Item>, ls: seq<Lists>, k: nat, b: nat, db: string, o: Output)
    requires b <= k < |h| == |ls| && h[k].event.Status?
  {
    var ev, r := h[k].event.status, o.record;
    var kept := AddNames(NamesTouched(h[b..k], ls[b..k]));
    && o.target == h[k].config.target && r.seqNo == Statements(h[..k]) % 18446744073709551616
    && r.user == ev.user + "@" + ev.host && r.db == db && r.conn == ev.conn && r.ts == ev.ts && r.errorCode == ev.errorCode
    && r.query == (if h[k].config.maskPasswords then Render(Segments(ev.query)) else ev.query)
    && r.command == CommandWord(ev.query)
    && r.tables == kept.text && r.truncated == (kept.text != [] && kept.truncated)
    && r.duration == (if b > 0 && h[b - 1].event.Log? then Some(ev.elapsed) else None)
  }

  /** It took the nanoseconds asked for, since the LOG that began it. */
  predicate LastsEnough(h: seq<Item>, k: nat, b: nat)
    requires b <= k < |h| && h[k].event.Status?
  {
    var min := h[k].config.minMs;
    min == 0 || (b > 0 && h[b - 1].event.Log? && Took(h[b - 1].event.now, h[k].event.status.now) >= 1000000 * min)
  }

  /** For every history under stored texts that parse: a Query or Execute STATUS outputs
      exactly when an entry selects it and it took the nanoseconds asked for. */
  lemma TracedExactlyWhenListed(h: seq<Item>, ls: seq<Lists>, k: nat, b: nat, db: string)
    requires k < |h| && h[k].event.Status? && IsQueryKind(h[k].event.status.kind)
    requires InForceAt(h, ls) && b <= k && BeginsAt(h[..k], b) && SessionSchema(h[..k + 1], db)
    ensures Emitted(h, k).Some? <==> IsListed(h, ls, k, b, db) && LastsEnough(h, k, b)
    ensures Emitted(h, k).Some? ==> Shows(h, ls, k, b, db, Emitted(h, k).value)
  {
    hide Emitted, SessionSchema, InForceAt, IsListed, Selected, Shows, Describes, BeginsAt, Since, Took;
    BeginsAtSays(h[..k], b);
    TracedExactlyWhenSelected(h, k, b, db);
    SelectedSays(h, ls, k, b, db);
    if Emitted(h, k).Some? {
      DescribedShows(h, ls, k, b, db, Emitted(h, k).value);
    }
  }

  lemma DescribedShows(h: seq<Item>, ls: seq<Lists>, k: nat, b: nat, db: string, o: Output)
    requires b <= k < |h| && IsQueryStatus(h[k].event) && InForceAt(h, ls) && Describes(h, k, b, db, o)
    ensures Shows(h, ls, k, b, db, o)
  {
    hide CommandWord, AddNames, AllRecorded, NamesTouched, ParseAll, Render, Segments, Statements, IsQuery;
    NamesSay(h[b..k], ls[b..k]);
  }

  /** Nothing but a query STATUS outputs anything. */
  lemma NothingElseOutputs(h: seq<Item>, k: nat)
    requires k < |h| && Emitted(h, k).Some?
    ensures h[k].event.Status? && IsQueryKind(h[k].event.status.kind)
  {
    hide Emitted;
    OnlyQueryStatusOutputs(h, k);
  }

  lemma SelectedSays(h: seq<Item>, ls: seq<Lists>, k: nat, b: nat, db: string)
    requires k < |h| && IsQueryStatus(h[k].event) && InForceAt(h, ls) && b <= k
    ensures Selected(h, k, b, db) <==> IsListed(h, ls, k, b, db)
  {
    hide CommandClass, CommandWord, ParseAll, MatchSchema, MatchConnection, AccessAllows, SchemaListed, ConnectionListed, Allows;
    var ev, c := h[k].event.status, CommandClass(CommandWord(h[k].event.status.query));
    ConnectionsSay(ls[k], h[k].config.rules, ev.conn);
    MatchesSay(ls[k], h[k].config.rules, db, []);
    forall i | b <= i < k ensures c in Allows(h[..k][i]) <==> AccessAllows(ls[i], h[i].event, c) {
      AllowsSay(h[i], ls[i], c);
    }
  }
}
