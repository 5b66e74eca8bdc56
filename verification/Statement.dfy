/** The per-connection statement state of src/selective_trace_mysql.cc, on values: what each
audit event does to it and what a STATUS event outputs. */
module Statement {
  import opened Bytes
  import opened Rules
  import opened Connections
  import opened Commands
  import opened Masker
  import opened TableBuffer
  import opened JsonNumber
  import opened JsonLog

  const DB_CAPACITY: nat := 192

  datatype Target = ToFile | ToTable

  /** The system variables the handlers read. */
  datatype Config = Config(enabled: bool, rules: FilterRules, minMs: nat, maskPasswords: bool, target: Target)
  {
    predicate Valid() { Increasing(rules.connections) }
  }

  /** A GENERAL_STATUS event, with the clock readings its handler takes: `now` on the
      monotonic clock, `ts` the formatted time of day, `elapsed` the printed duration. */
  datatype StatusEvent = StatusEvent(kind: string, query: string, conn: Id, user: string, host: string, errorCode: int,
                                     now: Id, ts: string, elapsed: string)
  {
    predicate Valid() {
      && (forall c <- ts :: IsDigit(c) || c in "-: .")
      && IsDuration(elapsed)
      && -0x8000_0000 <= errorCode < 0x8000_0000
    }
  }

  /** The events of one connection; `Unhandled` stands for the subclasses nothing reacts to. */
  datatype Event =
    | Log(now: Id)
    | TableAccess(db: string, table: string)
    | Status(status: StatusEvent)
    | Disconnect
    | Unhandled
  {
    predicate Valid() { Status? ==> status.Valid() }

    /** The events that look at the connection's state. */
    predicate NeedsState() { Log? || TableAccess? || Status? }
  }

  /** The fields of one connection's state. */
  datatype View = View(seqNo: Id, startNs: Id, haveStart: bool, inStatement: bool, mask: Mask, tables: Buffer, db: string)

  const Zero := View(0, 0, false, false, {}, EmptyBuffer, "")

  datatype Output = Output(target: Target, record: Record)

  // ---- the tracked schema ----

  /** What may stand in front of USE. */
  predicate IsPrefixByte(c: char) { IsSpace(c) || c == '(' }

  function PrefixLen(s: string): (n: nat)
    ensures n <= |s|
    ensures forall c <- s[..n] :: IsPrefixByte(c)
    ensures n < |s| ==> !IsPrefixByte(s[n])
  {
    if s == [] || !IsPrefixByte(s[0]) then 0
    else
      var n := 1 + PrefixLen(s[1..]);
      assert s[..n] == [s[0]] + s[1..][..n - 1];
      n
  }

  predicate IsNameByte(c: char) { IsIdent(c) || c == '$' }

  function NameLen(s: string): (n: nat)
    ensures n <= |s|
  {
    if s != [] && IsNameByte(s[0]) then 1 + NameLen(s[1..]) else 0
  }

  /** The name at the head of the text, in backticks or bare; empty when there is none. */
  function NameAt(s: string): string {
    if s == [] then [] else if s[0] == '`' then s[1..][..IndexOf(s[1..], '`')] else s[..NameLen(s)]
  }

  /** The name behind a three-byte keyword. */
  function UseTarget(query: string): string {
    var s := query[PrefixLen(query)..];
    if |s| < 3 then [] else
      var t := s[3..];
      NameAt(t[SpaceLen(t)..])
  }

  function ClipDb(name: string): string { if |name| < DB_CAPACITY then name else name[..DB_CAPACITY - 1] }

  /** The schema a STATUS event names, if any. */
  function SchemaNamed(kind: string, query: string): (db: string)
    ensures |db| < DB_CAPACITY
  {
    if kind == "Init DB" then ClipDb(query)
    else if kind == "Query" && query != [] && Extract(query, 8) == Some("USE") then ClipDb(UseTarget(query))
    else []
  }

  function Track(db: string, kind: string, query: string): string {
    var named := SchemaNamed(kind, query);
    if named == [] then db else named
  }

  // ---- the handlers ----

  function Begun(v: View, start: Option<Id>): View {
    v.(seqNo := (v.seqNo + 1) % WORD, mask := {}, tables := EmptyBuffer, inStatement := true,
       haveStart := start.Some?, startNs := if start.Some? then start.value else 0)
  }

  /** The statistics tables that ordinary statements touch on the side. */
  predicate IsStatsTable(db: string, table: string) {
    Lower(db) == "mysql" && (Lower(table) == "innodb_table_stats" || Lower(table) == "innodb_index_stats")
  }

  /** Whether an access counts: statistics tables do only when a rule names them. */
  predicate Counts(rules: FilterRules, db: string, table: string) {
    MatchTable(rules, db, table) != {} || !IsStatsTable(db, table)
  }

  function FullName(db: string, table: string): string { db + "." + table }

  function AccessMask(rules: FilterRules, db: string, table: string): Mask {
    MatchTable(rules, db, table) + MatchSchema(rules, db)
  }

  function Access(v: View, db: string, table: string, rules: FilterRules): View {
    var s := if v.inStatement then v else Begun(v, None);
    if Counts(rules, db, table)
    then s.(tables := AddName(s.tables, FullName(db, table)), mask := s.mask + AccessMask(rules, db, table))
    else s
  }

  predicate IsQuery(kind: string) { kind == "Query" || kind == "Execute" }

  function CommandWord(query: string): (w: string)
    ensures w != [] && forall c <- w :: IsWordByte(c)
  {
    KeywordShape(query, 24);
    Extract(query, 24).value
  }

  /** A table match of the statement, a listed connection, or the session schema. */
  predicate Allowed(v: View, ev: StatusEvent, rules: FilterRules) {
    var c := CommandClass(CommandWord(ev.query));
    || (v.inStatement && c in v.mask)
    || MatchConnection(rules, ev.conn)
    || (v.db != [] && c in MatchSchema(rules, v.db))
  }

  /** Unsigned difference of two readings of the 64-bit clock. */
  function Elapsed(now: Id, start: Id): Id { (now - start) % WORD }

  predicate Measured(v: View) { v.inStatement && v.haveStart }

  predicate LongEnough(v: View, now: Id, minMs: nat) {
    minMs == 0 || (Measured(v) && Elapsed(now, v.startNs) as real / 1000000.0 >= minMs as real)
  }

  function QueryText(query: string, mask: bool): string { if mask then Render(Segments(query)) else query }

  function RecordOf(v: View, ev: StatusEvent, maskPasswords: bool): (r: Record)
    ensures ev.Valid() ==> r.Valid()
  {
    var text := if v.inStatement then v.tables.text else [];
    Record(ev.ts, ev.conn, v.seqNo, ev.user + "@" + ev.host, v.db, text, text != [] && v.tables.truncated,
           CommandWord(ev.query), if Measured(v) then Some(ev.elapsed) else None, ev.errorCode, QueryText(ev.query, maskPasswords))
  }

  function Ended(v: View): View { v.(mask := {}, tables := EmptyBuffer, haveStart := false, inStatement := false) }

  function Tracked(v: View, ev: StatusEvent): View { v.(db := Track(v.db, ev.kind, ev.query)) }

  function AfterStatus(v: View, ev: StatusEvent): View {
    if IsQuery(ev.kind) then Ended(Tracked(v, ev)) else Tracked(v, ev)
  }

  /** The output for a query, once its own effect on the session schema is in. */
  function QueryOutput(v: View, ev: StatusEvent, config: Config): Option<Output> {
    if Allowed(v, ev, config.rules) && LongEnough(v, ev.now, config.minMs)
    then Some(Output(config.target, RecordOf(v, ev, config.maskPasswords)))
    else None
  }

  function StatusOutput(v: View, ev: StatusEvent, config: Config): Option<Output> {
    if IsQuery(ev.kind) then QueryOutput(Tracked(v, ev), ev, config) else None
  }

  /** The state after an event; a disconnect forgets it. */
  function Apply(v: View, e: Event, rules: FilterRules): View {
    match e
    case Log(now) => Begun(v, Some(now))
    case TableAccess(db, table) => Access(v, db, table, rules)
    case Status(ev) => AfterStatus(v, ev)
    case Disconnect => Zero
    case Unhandled => v
  }

  function EventOutput(v: View, e: Event, config: Config): Option<Output> {
    if e.Status? then StatusOutput(v, e.status, config) else None
  }
}
