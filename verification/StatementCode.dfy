/** `StatementState` of src/selective_trace_mysql.cc and the handlers that update it in
place, each proved against its value-level meaning. */
module StatementCode {
  import opened Bytes
  import opened Rules
  import opened RulesCode
  import opened Connections
  import opened Commands
  import opened Masker
  import opened MaskerTheorems
  import opened TableBuffer
  import opened JsonLog
  import opened JsonAssembly
  import opened SqlInsert
  import opened Statement

  /** memcpy to offset `at`. */
  method CopyInto(a: array<char>, at: nat, s: string)
    requires at + |s| <= a.Length
    modifies a
    ensures a[..at + |s|] == old(a[..at]) + s
  {
    for i := 0 to |s|
      invariant a[..at] == old(a[..at])
      invariant a[at..at + i] == s[..i]
    {
      a[at + i] := s[i];
      assert a[at..at + i + 1] == a[at..at + i] + [s[i]];
    }
    assert a[..at + |s|] == a[..at] + a[at..at + |s|];
  }

  /** memchr within [from, to). */
  method Find(a: array<char>, from: nat, to: nat, c: char) returns (k: nat)
    requires from <= to <= a.Length
    ensures k == from + IndexOf(a[from..to], c) && k <= to
  {
    k := from;
    while k < to && a[k] != c
      invariant from <= k <= to && c !in a[from..k]
    {
      assert a[from..k + 1] == a[from..k] + [a[k]];
      k := k + 1;
    }
    assert a[from..to][..k - from] == a[from..k];
    IndexOfUnique(a[from..to], c, k - from);
  }

  /** Whether the first `len` bytes list the name between commas. */
  method Listed(a: array<char>, len: nat, db: string, table: string) returns (found: bool)
    requires len <= a.Length
    ensures found == (FullName(db, table) in Pieces(a[..len]))
  {
    hide Pieces;
    var need := |db| + 1 + |table|;
    ghost var name, text := FullName(db, table), a[..len];
    var pos := 0;
    assert text[0..] == text;
    while pos + need <= len
      invariant pos <= len + 1
      invariant pos > len ==> name !in Pieces(text)
      invariant pos <= len ==> (name in Pieces(text) <==> name in Pieces(text[pos..]))
    {
      var end := Find(a, pos, len, ',');
      assert a[pos..len] == text[pos..];
      PiecesSplit(text, pos, end, name);
      assert forall i :: pos <= i < end ==> text[i] == a[i];
      assert text[pos..end] == a[pos..end];
      var same := SameName(a, pos, end, db, table);
      if same {
        return true;
      }
      pos := end + 1;
    }
    if pos <= len {
      PiecesShort(text[pos..], name);
    }
    return false;
  }

  /** memcmp of the three parts of a name. */
  method SameName(a: array<char>, pos: nat, end: nat, db: string, table: string) returns (same: bool)
    requires pos <= end <= a.Length
    ensures same == (a[pos..end] == FullName(db, table))
  {
    ghost var entry, name := a[pos..end], FullName(db, table);
    assert name[..|db|] == db && name[|db|] == '.' && name[|db| + 1..] == table;
    if end - pos != |db| + 1 + |table| {
      return false;
    }
    var dot := pos + |db|;
    assert entry[..|db|] == a[pos..dot] && entry[|db|] == a[dot] && entry[|db| + 1..] == a[dot + 1..end];
    assert entry == entry[..|db|] + [entry[|db|]] + entry[|db| + 1..];
    same := a[pos..dot] == db && a[dot] == '.' && a[dot + 1..end] == table;
  }

  lemma PiecesSplit(text: string, pos: nat, end: nat, name: string)
    requires pos < |text| && end == pos + IndexOf(text[pos..], ',')
    ensures name in Pieces(text[pos..])
            <==> text[pos..end] == name || (end < |text| && name in Pieces(text[end + 1..]))
  {
    var s := text[pos..];
    var k := IndexOf(s, ',');
    assert s[..k] == text[pos..end];
    assert k < |s| ==> s[k + 1..] == text[end + 1..];
    assert Pieces(s)[0] == s[..k];
  }

  lemma {:induction false} PiecesShort(text: string, name: string)
    requires |text| < |name|
    ensures name !in Pieces(text)
    decreases |text|
  {
    if text != [] {
      var k := IndexOf(text, ',');
      if k < |text| {
        PiecesShort(text[k + 1..], name);
      }
    }
  }

  /** Append ",db.table", or "db.table" to an empty list. */
  method AppendName(a: array<char>, len0: nat, db: string, table: string) returns (len: nat)
    requires len0 <= a.Length && |Extended(a[..len0], FullName(db, table))| <= a.Length
    modifies a
    ensures len <= a.Length && a[..len] == Extended(old(a[..len0]), FullName(db, table))
  {
    len := len0;
    if len > 0 {
      CopyInto(a, len, ",");
      len := len + 1;
    }
    CopyName(a, len, db, table);
    len := len + |db| + 1 + |table|;
  }

  /** "db.table" to offset `at`. */
  method CopyName(a: array<char>, at: nat, db: string, table: string)
    requires at + |db| + 1 + |table| <= a.Length
    modifies a
    ensures a[..at + |db| + 1 + |table|] == old(a[..at]) + FullName(db, table)
  {
    CopyInto(a, at, db);
    CopyInto(a, at + |db|, ".");
    CopyInto(a, at + |db| + 1, table);
    Assembled(old(a[..at]), db, table);
  }

  lemma Assembled(head: string, db: string, table: string)
    ensures head + db + "." + table == head + FullName(db, table)
  {
  }

  method SkipPrefix(q: string) returns (p: nat)
    ensures p == PrefixLen(q)
  {
    p := 0;
    assert q[0..] == q;
    while p < |q| && IsPrefixByte(q[p])
      invariant p <= |q| && PrefixLen(q) == p + PrefixLen(q[p..])
    {
      assert q[p..][1..] == q[p + 1..];
      p := p + 1;
    }
  }

  /** The end of a name that begins at `start`. */
  method SkipName(q: string, start: nat, backtick: bool) returns (p: nat)
    requires start <= |q|
    ensures p == start + if backtick then IndexOf(q[start..], '`') else NameLen(q[start..])
  {
    p := start;
    while p < |q|
      invariant start <= p <= |q|
      invariant backtick ==> start + IndexOf(q[start..], '`') == p + IndexOf(q[p..], '`')
      invariant !backtick ==> start + NameLen(q[start..]) == p + NameLen(q[p..])
    {
      var c := q[p];
      if backtick {
        if c == '`' { break; }
      } else if !IsNameByte(c) {
        break;
      }
      assert q[p..][1..] == q[p + 1..];
      p := p + 1;
    }
  }

  /** The text handed to the writer. */
  function Encoded(o: Output): string {
    if o.target == ToFile then Line(Printed(o.record)) + "\n" else InsertText(o.record)
  }

  function TextOf(o: Option<Output>): Option<string> { if o.Some? then Some(Encoded(o.value)) else None }

  method Encode(o: Output) returns (text: string)
    requires o.record.Valid()
    ensures text == Encoded(o)
  {
    hide Line, InsertText, Printed;
    if o.target == ToFile {
      text := AssembleJson(o.record);
    } else {
      text := AssembleInsert(o.record);
    }
  }

  method IsInternalStatsTable(db: string, table: string) returns (r: bool)
    ensures r == IsStatsTable(db, table)
  {
    hide Lower;
    var a := CiEq("mysql", db);
    if |db| != 5 || !a {
      return false;
    }
    var b := CiEq("innodb_table_stats", table);
    var c := CiEq("innodb_index_stats", table);
    return b || c;
  }

  class StatementState {
    var localSeq: Id
    var startNs: Id
    var haveStart: bool
    var inStatement: bool
    var cmdMask: Mask
    var tablesTruncated: bool
    var tablesLen: nat
    const tables: array<char>
    var currentDbLen: nat
    const currentDb: array<char>

    ghost predicate Valid()
      reads this
    {
      && tables.Length == CAPACITY && currentDb.Length == DB_CAPACITY && tables != currentDb
      && tablesLen < CAPACITY && currentDbLen < DB_CAPACITY
    }

    /** The value the object stands for. */
    ghost function ViewOf(): View
      requires Valid()
      reads this, tables, currentDb
    {
      View(localSeq, startNs, haveStart, inStatement, cmdMask, Buffer(tables[..tablesLen], tablesTruncated),
           currentDb[..currentDbLen])
    }

    constructor ()
      ensures Valid() && fresh(tables) && fresh(currentDb) && ViewOf() == Zero
    {
      localSeq, startNs, haveStart, inStatement, cmdMask, tablesTruncated := 0, 0, false, false, {}, false;
      tablesLen, currentDbLen := 0, 0;
      tables := new char[CAPACITY];
      currentDb := new char[DB_CAPACITY];
    }

    method SetCurrentDb(name: string)
      requires Valid()
      modifies this`currentDbLen, currentDb
      ensures Valid() && ViewOf() == old(ViewOf()).(db := ClipDb(name))
    {
      var len := |name|;
      if len >= DB_CAPACITY {
        len := DB_CAPACITY - 1;
      }
      CopyInto(currentDb, 0, name[..len]);
      assert currentDb[..len] == name[..len];
      ghost var text := currentDb[..len];
      currentDb[len] := 0 as char;
      assert currentDb[..len] == text;
      currentDbLen := len;
    }

    /** Remember the schema that Init DB or USE names; keep the old one otherwise. */
    method TrackCurrentDb(ev: StatusEvent)
      requires Valid()
      modifies this`currentDbLen, currentDb
      ensures Valid() && ViewOf() == Tracked(old(ViewOf()), ev)
    {
      hide Extract, UseTarget, ClipDb;
      if ev.kind == "Init DB" {
        if |ev.query| > 0 {
          ClipKeeps(ev.query);
          SetCurrentDb(ev.query);
        } else {
          ClipKeeps(ev.query);
        }
        return;
      }
      if ev.kind != "Query" || |ev.query| == 0 {
        return;
      }
      var cmdbuf := ExtractCommand(ev.query, 8);
      if cmdbuf != Some("USE") {
        return;
      }
      var name := ReadUseTarget(ev.query);
      ClipKeeps(name);
      if |name| > 0 {
        SetCurrentDb(name);
      }
    }

    /** `state_begin_statement`. */
    method BeginStatement(start: Option<Id>)
      requires Valid()
      modifies this`localSeq, this`cmdMask, this`tablesLen, this`tablesTruncated, this`inStatement, this`haveStart, this`startNs
      ensures Valid() && ViewOf() == Begun(old(ViewOf()), start)
    {
      localSeq := (localSeq + 1) % WORD;
      cmdMask := {};
      tablesLen := 0;
      tablesTruncated := false;
      inStatement := true;
      haveStart := start.Some?;
      startNs := if start.Some? then start.value else 0;
    }

    /** `state_add_table`. */
    method AddTable(db: string, table: string)
      requires Valid()
      modifies this`tablesLen, this`tablesTruncated, tables
      ensures Valid() && ViewOf() == old(ViewOf()).(tables := AddName(old(ViewOf()).tables, FullName(db, table)))
    {
      hide Pieces;
      var need := |db| + 1 + |table|;
      if need >= CAPACITY {
        tablesTruncated := true;
        return;
      }
      if tablesLen > 0 {
        var found := Listed(tables, tablesLen, db, table);
        if found {
          return;
        }
      } else {
        NoPieces();
      }
      if tablesLen + (if tablesLen > 0 then 1 else 0) + need >= CAPACITY {
        tablesTruncated := true;
        return;
      }
      tablesLen := AppendName(tables, tablesLen, db, table);
    }

    method HandleTableAccess(db: string, table: string, rules: FilterRules)
      requires Valid()
      modifies this, tables
      ensures Valid() && ViewOf() == Access(old(ViewOf()), db, table, rules)
    {
      hide MatchTable, MatchSchema, IsStatsTable, AddName;
      if !inStatement {
        BeginStatement(None);
      }
      ghost var began := ViewOf();
      var explicit := MatchTableCode(rules, db, table);
      var schema := MatchSchemaCode(rules, db);
      var stats := IsInternalStatsTable(db, table);
      if explicit == {} && stats {
        return;
      }
      AddTable(db, table);
      cmdMask := cmdMask + (explicit + schema);
      assert ViewOf().tables == AddName(began.tables, FullName(db, table));
    }

    /** The filters, in the order the handler asks them. */
    method Permits(c: Command, conn: Id, rules: FilterRules) returns (ok: bool)
      requires Valid() && Increasing(rules.connections)
      ensures ok == ((inStatement && c in cmdMask) || MatchConnection(rules, conn)
                     || (currentDbLen > 0 && c in MatchSchema(rules, currentDb[..currentDbLen])))
    {
      hide MatchSchema, MatchConnection;
      var allowed := if inStatement then cmdMask else {};
      if c !in allowed {
        var listed := MatchConnectionCode(rules, conn);
        if listed {
          AllCommands();
          allowed := CMD_ALL;
        } else if currentDbLen > 0 {
          var more := MatchSchemaCode(rules, currentDb[..currentDbLen]);
          allowed := allowed + more;
        }
      }
      return c in allowed;
    }

    /** `handle_status_event`: the text for the writer, when there is output. */
    method HandleStatus(ev: StatusEvent, config: Config) returns (out: Option<string>)
      requires Valid() && ev.Valid() && config.Valid()
      modifies this, currentDb
      ensures Valid() && ViewOf() == AfterStatus(old(ViewOf()), ev)
      ensures out == TextOf(StatusOutput(old(ViewOf()), ev, config))
    {
      hide Tracked, QueryOutput, Encoded;
      TrackCurrentDb(ev);
      if !(ev.kind == "Query" || ev.kind == "Execute") {
        return None;
      }
      out := Report(ev, config);
      EndStatement();
    }

    /** `notify_impl`, once the state is found. */
    method HandleEvent(e: Event, config: Config) returns (out: Option<string>)
      requires Valid() && config.Valid() && e.Valid()
      requires e.NeedsState()
      modifies this, tables, currentDb
      ensures Valid() && ViewOf() == Apply(old(ViewOf()), e, config.rules)
      ensures out == TextOf(EventOutput(old(ViewOf()), e, config))
    {
      hide Access, Encoded, AfterStatus, StatusOutput, Begun;
      out := None;
      match e {
        case Log(now) => BeginStatement(Some(now));
        case TableAccess(db, table) => HandleTableAccess(db, table, config.rules);
        case Status(ev) => out := HandleStatus(ev, config);
      }
    }

    method EndStatement()
      requires Valid()
      modifies this`cmdMask, this`tablesLen, this`tablesTruncated, this`haveStart, this`inStatement
      ensures Valid() && ViewOf() == Ended(old(ViewOf()))
    {
      cmdMask := {};
      tablesLen := 0;
      tablesTruncated := false;
      haveStart := false;
      inStatement := false;
    }

    method Report(ev: StatusEvent, config: Config) returns (out: Option<string>)
      requires Valid() && ev.Valid() && config.Valid()
      ensures out == TextOf(QueryOutput(ViewOf(), ev, config))
    {
      hide RecordOf, Encoded, MatchSchema, MatchConnection, CommandWord, CommandClass;
      var word := ExtractCommand(ev.query, 24);
      CommandIs(ev.query);
      var c := CommandBit(word.value);
      var ok := Permits(c, ev.conn, config.rules);
      if !ok {
        return None;
      }
      var timed := inStatement && haveStart;
      if config.minMs > 0 && (!timed || Elapsed(ev.now, startNs) as real / 1000000.0 < config.minMs as real) {
        return None;
      }
      var record := MakeRecord(ev, word.value, config.maskPasswords);
      var text := Encode(Output(config.target, record));
      return Some(text);
    }

    /** The fields the output is assembled from. */
    method MakeRecord(ev: StatusEvent, word: string, maskPasswords: bool) returns (r: Record)
      requires Valid() && ev.Valid() && word == CommandWord(ev.query)
      ensures r == RecordOf(ViewOf(), ev, maskPasswords) && r.Valid()
    {
      hide Segments, Render, HasLiteral, CommandWord;
      var haveTables := inStatement && tablesLen > 0;
      var query := ev.query;
      if maskPasswords {
        var masked, text := MaskSecrets(ev.query);
        MaskingSplitsTheQuery(ev.query);
        if masked {
          query := text;
        }
      }
      r := Record(ev.ts, ev.conn, localSeq, ev.user + "@" + ev.host, currentDb[..currentDbLen],
        if haveTables then tables[..tablesLen] else [], haveTables && tablesTruncated, word,
        if inStatement && haveStart then Some(ev.elapsed) else None, ev.errorCode, query);
    }
  }

  lemma ClipKeeps(name: string)
    ensures ClipDb(name) == [] <==> name == []
  {
  }

  lemma CommandIs(query: string)
    ensures Extract(query, 24) == Some(CommandWord(query))
  {
  }

  method ReadUseTarget(q: string) returns (name: string)
    ensures name == UseTarget(q)
  {
    hide PrefixLen, SpaceLen, NameLen, IndexOf;
    var p := SkipPrefix(q);
    assert q[0..] == q;
    if |q| - p < 3 {
      return [];
    }
    ghost var t := q[p..][3..];
    p := p + 3;
    assert t == q[p..];
    var after := SkipSpaces(q, p);
    assert t[after - p..] == q[after..];
    p := after;
    if p >= |q| {
      return [];
    }
    var backtick := q[p] == '`';
    if backtick {
      assert q[p..][1..] == q[p + 1..];
      p := p + 1;
    }
    var end := SkipName(q, p, backtick);
    assert q[p..][..end - p] == q[p..end];
    name := q[p..end];
  }
}
