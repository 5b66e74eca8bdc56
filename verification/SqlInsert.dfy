/** The TABLE record of src/selective_trace_mysql.cc: one INSERT statement per event, and a
lexer for its list of values that follows section 9.1.1 of the MySQL Reference Manual. */
module SqlInsert {
  import opened Bytes
  import opened Connections
  import opened Numbers
  import opened Escaping
  import opened Commands
  import opened JsonNumber
  import opened JsonLog
  import opened JsonAssembly

  /** A value of the list: a string literal or a bare word. */
  datatype Literal = Text(bytes: string) | Bare(word: string)

  /** The columns that the statement names, in its order. */
  function Columns(): seq<string> {
    ["ts", "conn_id", "query_id", "user", "db", "tables_involved", "command", "duration_ms", "error_code", "query"]
  }

  /** Names in backticks, between commas, up to a closing parenthesis. */
  function PutColumns(cols: seq<string>, rest: string): string {
    if cols == [] then ")" + rest
    else "`" + (cols[0] + ("`" + (if |cols| == 1 then ")" + rest else "," + PutColumns(cols[1..], rest))))
  }

  /** Everything in front of the first value. */
  function InsertHead(): string { "INSERT INTO mysql.selective_trace_events (" + PutColumns(Columns(), " VALUES (") }

  predicate IsBareByte(c: char) { IsWordByte(c) || c == '-' || c == '.' }

  function BareLen(s: string): (n: nat)
    ensures n <= |s|
  {
    if s != [] && IsBareByte(s[0]) then 1 + BareLen(s[1..]) else 0
  }

  function ReadLiteral(s: string): (r: Option<(Literal, string)>)
    ensures r.Some? ==> |r.value.1| < |s|
  {
    if HasQuote(s, '\'') then
      match SqlString(s[1..]) { case None => None case Some((x, rest)) => Some((Text(x), rest)) }
    else if BareLen(s) > 0 then Some((Bare(s[..BareLen(s)]), s[BareLen(s)..]))
    else None
  }

  /** The values up to a closing parenthesis that ends the statement. */
  function ReadLiterals(s: string): Option<seq<Literal>>
    decreases |s|
  {
    match ReadLiteral(s)
    case None => None
    case Some((v, rest)) =>
      if rest == ")" then Some([v])
      else if !HasAt(rest, 0, ',') then None
      else match ReadLiterals(rest[1..]) { case None => None case Some(vs) => Some([v] + vs) }
  }

  /** What follows a text that has to stand here. */
  function Expect(text: string, s: string): (r: Option<string>)
    ensures r.Some? ==> |r.value| + |text| == |s|
  {
    if text <= s then Some(s[|text|..]) else None
  }

  /** The names in backticks up to the closing parenthesis. */
  function ReadColumns(s: string): Option<(seq<string>, string)>
    decreases |s|
  {
    if !HasQuote(s, '`') then None else
      var k := IndexOf(s[1..], '`');
      if k == |s| - 1 then None else
        var name, rest := s[1..][..k], s[k + 2..];
        if HasQuote(rest, ')') then Some(([name], rest[1..]))
        else if !HasQuote(rest, ',') then None
        else match ReadColumns(rest[1..]) { case None => None case Some((names, after)) => Some(([name] + names, after)) }
  }

  /** A statement, lexed: the table, its columns and the values. */
  datatype Inserted = Inserted(table: string, columns: seq<string>, values: seq<Literal>)

  /** INSERT INTO table (columns) VALUES (values). */
  function ReadInsert(sql: string): Option<Inserted> {
    match Expect("INSERT INTO ", sql)
    case None => None
    case Some(s) =>
      var k := IndexOf(s, ' ');
      match Expect(" (", s[k..])
      case None => None
      case Some(s2) => ReadRest(s[..k], s2)
  }

  function ReadRest(table: string, s: string): Option<Inserted> {
    match ReadColumns(s)
    case None => None
    case Some((columns, s2)) =>
      match Expect(" VALUES (", s2)
      case None => None
      case Some(s3) =>
        match ReadLiterals(s3) { case None => None case Some(values) => Some(Inserted(table, columns, values)) }
  }

  /** The value of a column, by its name. */
  function ColumnOf(i: Inserted, name: string): Option<Literal> {
    var k := Position(i.columns, name);
    if k < |i.columns| == |i.values| then Some(i.values[k]) else None
  }

  function Position(names: seq<string>, name: string): (k: nat)
    ensures k <= |names| && (k < |names| ==> names[k] == name)
  {
    if names == [] then 0 else if names[0] == name then 0 else 1 + Position(names[1..], name)
  }

  // ---- the text of values ----

  function PutLiteral(v: Literal, rest: string): string {
    match v
    case Text(x) => "'" + (SqlEscape(x) + ("'" + rest))
    case Bare(t) => t + rest
  }

  function PutLiterals(vs: seq<Literal>): string {
    if vs == [] then ")"
    else PutLiteral(vs[0], if |vs| == 1 then ")" else "," + PutLiterals(vs[1..]))
  }

  predicate Bareword(v: Literal) { v.Bare? ==> v.word != [] && forall c <- v.word :: IsBareByte(c) }

  predicate Ends(rest: string) { rest != [] && (rest[0] == ',' || rest[0] == ')') }

  lemma {:induction false} BareLenOf(t: string, rest: string)
    requires (forall c <- t :: IsBareByte(c)) && Ends(rest)
    ensures BareLen(t + rest) == |t|
  {
    if t == [] {
      assert t + rest == rest;
    } else {
      assert t[0] in t && forall c <- t[1..] :: c in t;
      assert (t + rest)[1..] == t[1..] + rest;
      BareLenOf(t[1..], rest);
    }
  }

  lemma LiteralReads(v: Literal, rest: string)
    requires Bareword(v) && Ends(rest)
    ensures ReadLiteral(PutLiteral(v, rest)) == Some((v, rest))
  {
    hide SqlString, SqlEscape, BareLen;
    match v {
      case Text(x) =>
        assert PutLiteral(v, rest)[1..] == SqlEscape(x) + ("'" + rest);
        SqlRoundTrip(x, rest);
      case Bare(t) =>
        BareLenOf(t, rest);
        assert t[0] in t && (t + rest)[0] == t[0];
        assert (t + rest)[..|t|] == t && (t + rest)[|t|..] == rest;
    }
  }

  lemma ReadsMore(s: string, v: Literal, t: string, vs: seq<Literal>)
    requires ReadLiteral(s) == Some((v, "," + t)) && ReadLiterals(t) == Some(vs)
    ensures ReadLiterals(s) == Some([v] + vs)
  {
    hide ReadLiteral;
    var rest := "," + t;
    assert rest[0] == ',' && rest[1..] == t && ")"[0] == ')';
  }

  /** Lexing undoes writing, for every list of values. */
  lemma {:induction false} LiteralsRead(vs: seq<Literal>)
    requires vs != [] && forall v <- vs :: Bareword(v)
    ensures ReadLiterals(PutLiterals(vs)) == Some(vs)
  {
    hide ReadLiteral, PutLiteral, Bareword;
    assert vs[0] in vs;
    if |vs| == 1 {
      LiteralReads(vs[0], ")");
      assert vs == [vs[0]];
    } else {
      hide ReadLiterals;
      assert forall v <- vs[1..] :: v in vs;
      LiteralsRead(vs[1..]);
      LiteralReads(vs[0], "," + PutLiterals(vs[1..]));
      ReadsMore(PutLiterals(vs), vs[0], PutLiterals(vs[1..]), vs[1..]);
      assert vs == [vs[0]] + vs[1..];
    }
  }

  // ---- the record as values ----

  function TablesColumn(r: Record): string { if r.truncated then r.tables + ",..." else r.tables }

  function DurationColumn(r: Record): string { if r.duration.Some? then r.duration.value else "NULL" }

  /** The ten columns. */
  function Row(r: Record): seq<Literal> {
    [Text(r.ts), Bare(Dec(r.conn)), Bare(Dec(r.seqNo)), Text(r.user), Text(r.db), Text(TablesColumn(r)),
     Text(r.command), Bare(DurationColumn(r)), Bare(DecInt(r.errorCode)), Text(r.query)]
  }

  function InsertText(r: Record): string { InsertHead() + PutLiterals(Row(r)) }

  lemma DecimalIsBare(s: string)
    requires IsDecimal(s)
    ensures forall c <- s :: IsBareByte(c)
  {
  }

  lemma RowIsBare(r: Record)
    requires r.Valid()
    ensures forall v <- Row(r) :: Bareword(v)
  {
    hide Dec, IsDecimal, IsDuration, IsNumber;
    if r.duration.Some? {
      DurationIsNumber(r.duration.value);
    }
    DecimalIsBare(Dec(r.conn));
    DecimalIsBare(Dec(r.seqNo));
    DecimalIsBare(Dec(if r.errorCode < 0 then -r.errorCode else r.errorCode));
    assert Bareword(Bare(DecInt(r.errorCode)));
    assert Bareword(Bare(DurationColumn(r)));
  }

  lemma Expected(text: string, rest: string)
    ensures Expect(text, text + rest) == Some(rest)
  {
    assert (text + rest)[..|text|] == text && (text + rest)[|text|..] == rest;
  }

  lemma {:induction false} PutColumnsAppend(cols: seq<string>, a: string, b: string)
    ensures PutColumns(cols, a) + b == PutColumns(cols, a + b)
    decreases cols
  {
    if |cols| > 1 {
      PutColumnsAppend(cols[1..], a, b);
      var t, u := PutColumns(cols[1..], a), PutColumns(cols[1..], a + b);
      assert ("`" + (cols[0] + ("`" + ("," + t)))) + b == "`" + (cols[0] + ("`" + ("," + (t + b))));
    } else if |cols| == 1 {
      assert ("`" + (cols[0] + ("`" + (")" + a)))) + b == "`" + (cols[0] + ("`" + (")" + (a + b))));
    }
  }

  /** One name in front of what follows it. */
  lemma ColumnReads(name: string, rest: string)
    requires '`' !in name
    ensures var s := "`" + (name + ("`" + rest));
            var k := IndexOf(s[1..], '`');
            HasQuote(s, '`') && k == |name| && k != |s| - 1 && s[1..][..k] == name && s[k + 2..] == rest
  {
    var s := "`" + (name + ("`" + rest));
    var t := name + ("`" + rest);
    assert s[1..] == t && t[..|name|] == name && t[|name|] == '`';
    IndexOfUnique(t, '`', |name|);
  }

  lemma ColumnStep(name: string, rest: string)
    requires '`' !in name
    ensures ReadColumns("`" + (name + ("`" + rest)))
            == if HasQuote(rest, ')') then Some(([name], rest[1..]))
               else if !HasQuote(rest, ',') then None
               else match ReadColumns(rest[1..]) { case None => None case Some((names, after)) => Some(([name] + names, after)) }
  {
    hide IndexOf;
    ColumnReads(name, rest);
  }

  lemma {:induction false} ColumnsRead(cols: seq<string>, rest: string)
    requires cols != [] && forall c <- cols :: '`' !in c
    ensures ReadColumns(PutColumns(cols, rest)) == Some((cols, rest))
    decreases cols
  {
    hide ReadColumns;
    assert cols[0] in cols && forall c <- cols[1..] :: c in cols;
    if |cols| == 1 {
      ColumnStep(cols[0], ")" + rest);
      assert (")" + rest)[1..] == rest && [cols[0]] == cols;
    } else {
      var more := PutColumns(cols[1..], rest);
      ColumnStep(cols[0], "," + more);
      assert ("," + more)[0] == ',' && ("," + more)[1..] == more;
      ColumnsRead(cols[1..], rest);
      assert cols == [cols[0]] + cols[1..];
    }
  }

  lemma ColumnNames()
    ensures |Columns()| == 10 && forall c <- Columns() :: '`' !in c
  {
  }

  /** The head of the statement, read up to its values. */
  lemma HeadReads(values: string)
    ensures var sql := InsertHead() + values;
            ReadInsert(sql) == ReadRest("mysql.selective_trace_events", PutColumns(Columns(), " VALUES (" + values))
  {
    hide ReadColumns, ReadLiterals, Columns, PutColumns, ReadRest, IndexOf, Expect;
    var table, cols := "mysql.selective_trace_events", PutColumns(Columns(), " VALUES (" + values);
    PutColumnsAppend(Columns(), " VALUES (", values);
    assert "INSERT INTO mysql.selective_trace_events (" == "INSERT INTO " + (table + " (") by { HeadText(); }
    var s := table + (" (" + cols);
    assert InsertHead() + values == "INSERT INTO " + s;
    Expected("INSERT INTO ", s);
    assert ' ' !in table by { TableName(); }
    assert s[..|table|] == table && s[|table|..] == " (" + cols && s[|table|] == ' ';
    IndexOfUnique(s, ' ', |table|);
    Expected(" (", cols);
  }

  lemma HeadText()
    ensures "INSERT INTO mysql.selective_trace_events (" == "INSERT INTO " + ("mysql.selective_trace_events" + " (")
  {
  }

  lemma TableName()
    ensures ' ' !in "mysql.selective_trace_events"
  {
  }

  /** For all user, schema, table-list and query bytes, the statement lexes to one row of ten
      columns for the log table, and the numbers read back. */
  lemma InsertDecodes(r: Record)
    requires r.Valid()
    ensures ReadInsert(InsertText(r)) == Some(Inserted("mysql.selective_trace_events", Columns(), Row(r))) && |Row(r)| == 10
    ensures Decimal(Dec(r.conn)) == r.conn && Decimal(Dec(r.seqNo)) == r.seqNo
  {
    hide ReadLiterals, PutLiterals, InsertHead, Bareword, Row, Dec, Decimal, ReadInsert, Columns, PutColumns, ReadColumns, Expect;
    RowIsBare(r);
    TextColumns(r);
    LiteralsRead(Row(r));
    var values := PutLiterals(Row(r));
    HeadReads(values);
    ColumnNames();
    ColumnsRead(Columns(), " VALUES (" + values);
    Expected(" VALUES (", values);
    DecValue(r.conn);
    DecValue(r.seqNo);
  }

  // ---- the columns by name ----

  /** Length, first and middle byte tell the names apart. */
  function Sig(s: string): int { if s == [] then 0 else |s| + 100 * s[0] as int + 100000 * s[|s| / 2] as int }

  lemma ColumnSigs(k: nat)
    requires k < 10
    ensures |Columns()| == 10
    ensures Sig(Columns()[k])
            == [11511602, 11009907, 12111308, 10111704, 9810002, 10511615, 10909907, 10510011, 9510110, 10111305][k]
  {
  }

  lemma {:induction false} PositionIs(names: seq<string>, k: nat)
    requires k < |names| && forall j :: 0 <= j < k ==> names[j] != names[k]
    ensures Position(names, names[k]) == k
  {
    if k > 0 {
      assert names[0] != names[k] && names[1..][k - 1] == names[k];
      assert forall j :: 0 <= j < |names| - 1 ==> names[1..][j] == names[j + 1];
      PositionIs(names[1..], k - 1);
    }
  }

  lemma ColumnAt(table: string, values: seq<Literal>, k: nat)
    requires |values| == 10 && k < 10
    ensures |Columns()| == 10 && ColumnOf(Inserted(table, Columns(), values), Columns()[k]) == Some(values[k])
  {
    hide Columns, Position, Sig;
    ColumnSigs(k);
    forall j | 0 <= j < k ensures Columns()[j] != Columns()[k] {
      ColumnSigs(j);
    }
    PositionIs(Columns(), k);
  }

  lemma ColumnTexts()
    ensures var c := Columns();
            && |c| == 10 && c[0] == "ts" && c[1] == "conn_id" && c[2] == "query_id" && c[3] == "user" && c[4] == "db"
            && c[5] == "tables_involved" && c[6] == "command" && c[7] == "duration_ms" && c[8] == "error_code" && c[9] == "query"
  {
  }

  /** Each column by its name. */
  lemma ColumnsByName(table: string, v: seq<Literal>)
    requires |v| == 10
    ensures var i := Inserted(table, Columns(), v);
            && ColumnOf(i, "ts") == Some(v[0]) && ColumnOf(i, "conn_id") == Some(v[1]) && ColumnOf(i, "query_id") == Some(v[2])
            && ColumnOf(i, "user") == Some(v[3]) && ColumnOf(i, "db") == Some(v[4])
            && ColumnOf(i, "tables_involved") == Some(v[5]) && ColumnOf(i, "command") == Some(v[6])
            && ColumnOf(i, "duration_ms") == Some(v[7]) && ColumnOf(i, "error_code") == Some(v[8])
            && ColumnOf(i, "query") == Some(v[9])
  {
    ColumnTexts();
    hide Columns, ColumnOf;
    ColumnAt(table, v, 0);
    ColumnAt(table, v, 1);
    ColumnAt(table, v, 2);
    ColumnAt(table, v, 3);
    ColumnAt(table, v, 4);
    ColumnAt(table, v, 5);
    ColumnAt(table, v, 6);
    ColumnAt(table, v, 7);
    ColumnAt(table, v, 8);
    ColumnAt(table, v, 9);
  }

  /** What each column of the log table receives. */
  lemma ColumnsDecode(r: Record)
    requires r.Valid()
    ensures ReadInsert(InsertText(r)).Some?
    ensures var i := ReadInsert(InsertText(r)).value;
            && i.table == "mysql.selective_trace_events" && |i.columns| == 10
            && ColumnOf(i, "ts") == Some(Text(r.ts)) && ColumnOf(i, "conn_id") == Some(Bare(Dec(r.conn)))
            && ColumnOf(i, "query_id") == Some(Bare(Dec(r.seqNo))) && ColumnOf(i, "user") == Some(Text(r.user))
            && ColumnOf(i, "db") == Some(Text(r.db))
            && ColumnOf(i, "tables_involved") == Some(Text(if r.truncated then r.tables + ",..." else r.tables))
            && ColumnOf(i, "command") == Some(Text(r.command))
            && ColumnOf(i, "duration_ms") == Some(Bare(if r.duration.Some? then r.duration.value else "NULL"))
            && ColumnOf(i, "error_code") == Some(Bare(DecInt(r.errorCode))) && ColumnOf(i, "query") == Some(Text(r.query))
  {
    hide ReadInsert, InsertText, Dec, DecInt, Columns, ColumnOf;
    InsertDecodes(r);
    ColumnTexts();
    ColumnsByName("mysql.selective_trace_events", Row(r));
  }

  /** Nothing is lost or merged: two events that yield the same statement agree on every
      column. */
  lemma InsertIsInjective(r: Record, s: Record)
    requires r.Valid() && s.Valid() && InsertText(r) == InsertText(s)
    ensures r.ts == s.ts && r.conn == s.conn && r.seqNo == s.seqNo && r.user == s.user && r.db == s.db
    ensures TablesColumn(r) == TablesColumn(s) && r.command == s.command && r.duration == s.duration
    ensures r.errorCode == s.errorCode && r.query == s.query
  {
    hide ReadInsert, InsertText, Dec, DecInt, TablesColumn, IsDuration, IsNumber;
    InsertDecodes(r);
    InsertDecodes(s);
    assert Row(r)[0] == Row(s)[0] && Row(r)[1] == Row(s)[1] && Row(r)[2] == Row(s)[2] && Row(r)[3] == Row(s)[3];
    assert Row(r)[4] == Row(s)[4] && Row(r)[5] == Row(s)[5] && Row(r)[6] == Row(s)[6] && Row(r)[7] == Row(s)[7];
    assert Row(r)[8] == Row(s)[8] && Row(r)[9] == Row(s)[9];
    DecIsInjective(r.conn, s.conn);
    DecIsInjective(r.seqNo, s.seqNo);
    DecIntIsInjective(r.errorCode, s.errorCode);
    assert "NULL"[0] == 'N';
    if r.duration.Some? {
      DurationIsNumber(r.duration.value);
    }
    if s.duration.Some? {
      DurationIsNumber(s.duration.value);
    }
  }

  // ---- the statement, piece by piece, in the order the code appends ----

  /** The text from the k-th value on. */
  function From(vs: seq<Literal>, k: nat): string
    requires k < |vs|
  {
    PutLiterals(vs[k..])
  }

  lemma FromNext(vs: seq<Literal>, k: nat)
    requires k + 1 < |vs|
    ensures From(vs, k) == PutLiteral(vs[k], "," + From(vs, k + 1))
  {
    hide PutLiteral;
    assert vs[k..][1..] == vs[k + 1..];
  }

  lemma TextNext(vs: seq<Literal>, k: nat, x: string)
    requires k + 1 < |vs| && vs[k] == Text(x)
    ensures From(vs, k) == "'" + (SqlEscape(x) + ("'," + From(vs, k + 1)))
  {
    hide From, SqlEscape;
    FromNext(vs, k);
    assert "'" + ("," + From(vs, k + 1)) == "'," + From(vs, k + 1);
  }

  lemma BareNext(vs: seq<Literal>, k: nat, t: string)
    requires k + 1 < |vs| && vs[k] == Bare(t)
    ensures From(vs, k) == t + ("," + From(vs, k + 1))
  {
    hide From;
    FromNext(vs, k);
  }

  lemma TextLast(vs: seq<Literal>, k: nat, x: string)
    requires k + 1 == |vs| && vs[k] == Text(x)
    ensures From(vs, k) == "'" + (SqlEscape(x) + "')")
  {
    hide SqlEscape;
    assert vs[k..] == [Text(x)];
    assert "'" + ")" == "')";
  }

  /** A text value behind another one. */
  lemma TextAfterText(vs: seq<Literal>, k: nat, x: string)
    requires k + 1 < |vs| && vs[k] == Text(x)
    ensures "'," + From(vs, k) == "','" + (SqlEscape(x) + ("'," + From(vs, k + 1)))
  {
    hide From, SqlEscape;
    TextNext(vs, k, x);
    assert "'," + "'" == "','";
  }

  function NumbersText(r: Record): string { "'," + (Dec(r.conn) + ("," + (Dec(r.seqNo) + ",'"))) }

  lemma NumbersAfterText(r: Record)
    ensures "'," + From(Row(r), 1) == NumbersText(r) + (SqlEscape(r.user) + ("'," + From(Row(r), 4)))
    ensures Clip(NumbersText(r)) == NumbersText(r)
  {
    hide From, SqlEscape, Dec;
    var rest := SqlEscape(r.user) + ("'," + From(Row(r), 4));
    BareNext(Row(r), 1, Dec(r.conn));
    BareNext(Row(r), 2, Dec(r.seqNo));
    TextNext(Row(r), 3, r.user);
    assert "," + ("'" + rest) == ",'" + rest;
    Nested("',", Dec(r.conn), ",", Dec(r.seqNo), ",'", rest);
    WordDigits(r.conn);
    WordDigits(r.seqNo);
  }

  lemma Nested(a: string, b: string, c: string, d: string, e: string, f: string)
    ensures a + (b + (c + (d + (e + f)))) == (a + (b + (c + (d + e)))) + f
  {
  }

  function CodeText(r: Record): string { "," + (DecInt(r.errorCode) + ",'") }

  lemma CodeAndQuery(r: Record)
    requires -0x8000_0000 <= r.errorCode < 0x8000_0000
    ensures "," + From(Row(r), 8) == CodeText(r) + (SqlEscape(r.query) + "')")
    ensures Clip(CodeText(r)) == CodeText(r)
  {
    hide From, SqlEscape, Dec, DecInt;
    var rest := SqlEscape(r.query) + "')";
    BareNext(Row(r), 8, DecInt(r.errorCode));
    TextLast(Row(r), 9, r.query);
    assert "," + ("'" + rest) == ",'" + rest;
    Regroup(",", DecInt(r.errorCode), ",'", rest);
    IntDigits(r.errorCode);
  }

  lemma {:induction false} SqlEscapeConcat(x: string, y: string)
    ensures SqlEscape(x + y) == SqlEscape(x) + SqlEscape(y)
  {
    hide SqlEscapeByte;
    if x == [] {
      assert x + y == y;
    } else {
      assert (x + y)[1..] == x[1..] + y;
      SqlEscapeConcat(x[1..], y);
    }
  }

  lemma EscapedTables(r: Record)
    ensures SqlEscape(TablesColumn(r)) == SqlEscape(r.tables) + (if r.truncated then ",..." else "")
  {
    hide SqlEscape;
    if r.truncated {
      SqlEscapeConcat(r.tables, ",...");
      SqlPlainIsItself(",...");
    }
  }

  lemma PlainColumns(r: Record)
    requires r.Valid()
    ensures SqlEscape(r.ts) == r.ts && SqlEscape(r.command) == r.command
    ensures Clip(DurationColumn(r)) == DurationColumn(r)
  {
    hide SqlEscape;
    SqlPlainIsItself(r.ts);
    SqlPlainIsItself(r.command);
  }

  lemma StatementStart(r: Record)
    ensures InsertText(r) == (InsertHead() + "'") + (SqlEscape(r.ts) + ("'," + From(Row(r), 1)))
  {
    hide SqlEscape, InsertHead, PutLiterals, Row;
    TextColumns(r);
    TextNext(Row(r), 0, r.ts);
    assert Row(r)[0..] == Row(r);
    Behind(InsertHead(), "'", SqlEscape(r.ts) + ("'," + From(Row(r), 1)), From(Row(r), 0));
  }

  lemma TextColumns(r: Record)
    ensures |Row(r)| == 10 && Row(r)[0] == Text(r.ts)
    ensures Row(r)[4] == Text(r.db) && Row(r)[5] == Text(TablesColumn(r)) && Row(r)[6] == Text(r.command)
    ensures Row(r)[7] == Bare(DurationColumn(r))
  {
  }

  // ---- the code ----

  method AppendSql(sql0: string, piece: string, x: string, ghost rest: string, ghost whole: string) returns (sql: string)
    requires sql0 + (piece + (SqlEscape(x) + rest)) == whole
    ensures sql + rest == whole
  {
    hide SqlEscape;
    sql := Append(sql0, piece, SqlEscape(x) + rest, whole);
    Behind(sql, SqlEscape(x), rest, SqlEscape(x) + rest);
    sql := SqlEscapeAppend(sql, x);
  }

  /** The TABLE branch of `handle_status_event`: the command goes in unescaped and every
      number through the scratch buffer, yet the statement is the record's. */
  method AssembleInsert(r: Record) returns (sql: string)
    requires r.Valid()
    ensures sql == InsertText(r)
  {
    hide InsertText, SqlEscape, Dec, DecInt, Clip, From, Row, NumbersText, CodeText, TablesColumn, DurationColumn, InsertHead;
    ghost var whole := InsertText(r);
    ghost var vs := Row(r);
    TextColumns(r);
    PlainColumns(r);
    StatementStart(r);
    sql := InsertHead() + "'";
    sql := Append(sql, r.ts, "'," + From(vs, 1), whole);
    NumbersAfterText(r);
    var numbuf := Clip(NumbersText(r));
    sql := Append(sql, numbuf, SqlEscape(r.user) + ("'," + From(vs, 4)), whole);
    sql := AppendSql(sql, "", r.user, "'," + From(vs, 4), whole);
    TextAfterText(vs, 4, r.db);
    sql := AppendSql(sql, "','", r.db, "'," + From(vs, 5), whole);
    TextAfterText(vs, 5, TablesColumn(r));
    EscapedTables(r);
    ghost var dots := if r.truncated then ",..." else "";
    Concat3(SqlEscape(r.tables), dots, "'," + From(vs, 6));
    sql := AppendSql(sql, "','", r.tables, dots + ("'," + From(vs, 6)), whole);
    sql := Append(sql, if r.truncated then ",..." else "", "'," + From(vs, 6), whole);
    TextAfterText(vs, 6, r.command);
    sql := Append(sql, "','", r.command + ("'," + From(vs, 7)), whole);
    sql := Append(sql, r.command, "'," + From(vs, 7), whole);
    BareNext(vs, 7, DurationColumn(r));
    sql := Append(sql, "',", From(vs, 7), whole);
    numbuf := Clip(DurationColumn(r));
    sql := Append(sql, numbuf, "," + From(vs, 8), whole);
    CodeAndQuery(r);
    numbuf := Clip(CodeText(r));
    sql := Append(sql, numbuf, SqlEscape(r.query) + "')", whole);
    sql := AppendSql(sql, "", r.query, "')", whole);
    sql := sql + "')";
  }
}
