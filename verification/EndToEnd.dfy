/** From audit events to decoded log records, across the components. */
module EndToEnd {
  import opened Bytes
  import opened Connections
  import opened Numbers
  import opened TableBuffer
  import opened JsonLog
  import opened JsonAssembly
  import opened JsonTheorems
  import opened SqlInsert
  import opened Statement
  import opened StatementCode
  import opened StatementHistory
  import opened StatementTheorems

  predicate AllValid(h: seq<Item>) { forall x <- h :: x.event.Valid() }

  lemma EmittedIsValid(h: seq<Item>, k: nat)
    requires k < |h| && AllValid(h) && Emitted(h, k).Some?
    ensures Emitted(h, k).value.record.Valid()
  {
    hide After, Track, Allowed, LongEnough;
    assert h[k] in h;
  }

  /** The k-th event closes the statement that began at `b`, with `db` the session schema. */
  ghost predicate ClosesAt(h: seq<Item>, k: nat, b: nat, db: string) {
    k < |h| && b <= k && IsQueryStatus(h[k].event) && Since(h[..k], b) && SessionSchema(h[..k + 1], db)
  }

  /** All names recorded since then are free of commas. */
  predicate CommaFree(h: seq<Item>, b: nat, k: nat)
    requires b <= k <= |h|
  {
    forall n <- AllRecorded(h[b..k]) :: ',' !in n
  }

  /** One line: its last byte is its only newline, and it decodes to the record's fields. */
  lemma FileLineDecodes(r: Record)
    requires r.Valid() && Digits(r) <= 38
    ensures var line := Encoded(Output(ToFile, r));
            && line != [] && line[|line| - 1] == '\n' && '\n' !in line[..|line| - 1]
            && Decode(line[..|line| - 1]) == Some(FieldsOf(r))
  {
    hide Line, Decode, FieldsOf, Record.Valid, InsertText, Dec;
    LineDecodes(r);
    LineHasNoNewline(r);
    assert Printed(r) == r;
    var line := Line(r) + "\n";
    assert line[..|line| - 1] == Line(r);
  }

  /** What a reader learns about the statement that the k-th event closes. */
  ghost predicate TellsHistory(h: seq<Item>, k: nat, b: nat, db: string, f: Fields)
    requires k < |h| && IsQueryStatus(h[k].event) && b <= k
  {
    var ev, names := h[k].event.status, AllRecorded(h[b..k]);
    && f.ts == ev.ts && f.conn == ev.conn && f.user == ev.user + "@" + ev.host && f.db == db
    && f.command == CommandWord(ev.query) && f.errorCode == ev.errorCode
    && f.query == QueryText(ev.query, h[k].config.maskPasswords)
    && f.duration == (if b > 0 && h[b - 1].event.Log? then Some(ev.elapsed) else None)
    && f.seqNo == Statements(h[..k]) % WORD
    && f.tables == KeepAll(names).names && Refines(names, KeepAll(names))
    && (f.truncated <==> f.tables != [] && exists n <- names :: n !in f.tables)
  }

  lemma FieldsTellHistory(h: seq<Item>, k: nat, b: nat, db: string)
    requires k < |h| && IsQueryStatus(h[k].event) && Since(h[..k], b) && SessionSchema(h[..k + 1], db)
    requires Emitted(h, k).Some? && forall n <- AllRecorded(h[b..k]) :: ',' !in n
    ensures TellsHistory(h, k, b, db, FieldsOf(Emitted(h, k).value.record))
  {
    hide Emitted, AddNames, AllRecorded, KeepAll, Pieces, SessionSchema, CommandWord, QueryText, Selected, SlowEnough,
         Statements, Refines, Since;
    SinceBound(h[..k], b);
    TracedExactlyWhenSelected(h, k, b, db);
    TablesAreTheOrderedSet(h, k, b, db);
    PiecesEmpty(Emitted(h, k).value.record.tables);
  }

  lemma SinceBound(h: seq<Item>, b: nat)
    requires Since(h, b)
    ensures b <= |h|
  {
  }

  lemma PiecesEmpty(text: string)
    ensures Pieces(text) == [] <==> text == []
  {
  }

  ghost predicate LineTells(line: string, h: seq<Item>, k: nat, b: nat, db: string) {
    && k < |h| && IsQueryStatus(h[k].event) && b <= k
    && line != [] && line[|line| - 1] == '\n' && '\n' !in line[..|line| - 1]
    && match Decode(line[..|line| - 1]) case None => false case Some(f) => TellsHistory(h, k, b, db, f)
  }

  /** A line of the FILE log, decoded, tells the history: the tables are the ordered set of
      the names touched since the last boundary, the query is the masked one, the sequence
      number counts statements, and the rest is the event's. */
  lemma FileLineTellsTheHistory(h: seq<Item>, k: nat, b: nat, db: string)
    requires ClosesAt(h, k, b, db) && CommaFree(h, b, k) && AllValid(h)
    requires Emitted(h, k).Some? && Emitted(h, k).value.target == ToFile && Digits(Emitted(h, k).value.record) <= 38
    ensures LineTells(Encoded(Emitted(h, k).value), h, k, b, db)
  {
    hide Emitted, AllRecorded, SessionSchema, FieldsOf, TellsHistory, Record.Valid, Encoded, Decode, Digits, AllValid, IsQueryStatus;
    EmittedIsValid(h, k);
    var o := Emitted(h, k).value;
    FileLineDecodes(o.record);
    assert o == Output(ToFile, o.record);
    FieldsTellHistory(h, k, b, db);
  }

  /** The list of the names kept, with dots behind it when one is missing. */
  function TablesText(k: Kept): string { Join(k.names, ',') + (if k.names != [] && k.truncated then ",..." else "") }

  /** The columns for the statement that the k-th event closes, by their names. */
  ghost predicate RowTells(i: Inserted, h: seq<Item>, k: nat, b: nat, db: string)
    requires k < |h| && IsQueryStatus(h[k].event) && b <= k
  {
    var ev, names := h[k].event.status, AllRecorded(h[b..k]);
    && i.table == "mysql.selective_trace_events" && |i.columns| == 10
    && ColumnOf(i, "ts") == Some(Text(ev.ts)) && ColumnOf(i, "conn_id") == Some(Bare(Dec(ev.conn)))
    && ColumnOf(i, "query_id") == Some(Bare(Dec(Statements(h[..k]) % WORD)))
    && ColumnOf(i, "user") == Some(Text(ev.user + "@" + ev.host)) && ColumnOf(i, "db") == Some(Text(db))
    && ColumnOf(i, "tables_involved") == Some(Text(TablesText(KeepAll(names)))) && Refines(names, KeepAll(names))
    && ColumnOf(i, "command") == Some(Text(CommandWord(ev.query)))
    && ColumnOf(i, "duration_ms") == Some(Bare(if b > 0 && h[b - 1].event.Log? then ev.elapsed else "NULL"))
    && ColumnOf(i, "error_code") == Some(Bare(DecInt(ev.errorCode)))
    && ColumnOf(i, "query") == Some(Text(QueryText(ev.query, h[k].config.maskPasswords)))
  }

  /** For comma-free names the tables column is the text of the ordered set. */
  lemma TablesColumnTells(h: seq<Item>, r: Record)
    requires forall n <- AllRecorded(h) :: ',' !in n
    requires var kept := AddNames(AllRecorded(h)); r.tables == kept.text && r.truncated == (kept.text != [] && kept.truncated)
    ensures var k := KeepAll(AllRecorded(h)); TablesColumn(r) == TablesText(k) && Refines(AllRecorded(h), k)
  {
    hide AddNames, AllRecorded, KeepAll, Refines, Join, Pieces;
    var names := AllRecorded(h);
    NamesAreClean(h);
    BufferRefinesOrderedSet(names);
    RefinesClean(names, KeepAll(names));
    if KeepAll(names).names == [] {
      EmptyJoin();
    }
    assert Join(KeepAll(names).names, ',') + "" == Join(KeepAll(names).names, ',');
  }

  ghost predicate InsertTells(lexed: Option<Inserted>, h: seq<Item>, k: nat, b: nat, db: string) {
    k < |h| && IsQueryStatus(h[k].event) && b <= k && lexed.Some? && RowTells(lexed.value, h, k, b, db)
  }

  lemma RowOfHistory(h: seq<Item>, k: nat, b: nat, db: string, o: Output, i: Inserted)
    requires k < |h| && IsQueryStatus(h[k].event) && b <= k && Describes(h, k, b, db, o) && o.record.Valid()
    requires (forall n <- AllRecorded(h[b..k]) :: ',' !in n) && ReadInsert(InsertText(o.record)) == Some(i)
    ensures RowTells(i, h, k, b, db)
  {
    hide AddNames, AllRecorded, KeepAll, CommandWord, QueryText, Statements, Refines, Dec, DecInt, TablesText,
         IsQueryStatus, ColumnOf, ReadInsert, InsertText, Record.Valid;
    TablesColumnTells(h[b..k], o.record);
    ColumnsDecode(o.record);
  }

  /** An INSERT of the TABLE log, lexed, tells the history as well: ten columns, with the
      ordered set of the tables touched since the last boundary and the masked query. The
      numbers need no bound here. */
  lemma TableInsertTellsTheHistory(h: seq<Item>, k: nat, b: nat, db: string)
    requires ClosesAt(h, k, b, db) && CommaFree(h, b, k) && AllValid(h)
    requires Emitted(h, k).Some? && Emitted(h, k).value.target == ToTable
    ensures InsertTells(ReadInsert(Encoded(Emitted(h, k).value)), h, k, b, db)
  {
    hide Emitted, AllRecorded, SessionSchema, Record.Valid, AllValid, ReadInsert, InsertText, Row, RowTells, Describes,
         Selected, SlowEnough, IsQueryStatus;
    EmittedIsValid(h, k);
    var o := Emitted(h, k).value;
    InsertDecodes(o.record);
    TracedExactlyWhenSelected(h, k, b, db);
    RowOfHistory(h, k, b, db, o, ReadInsert(InsertText(o.record)).value);
    assert Encoded(o) == InsertText(o.record);
  }
}
