/** The code that assembles a JSON line, and what decoding the log gives back. */
module JsonAssembly {
  import opened Bytes
  import opened Rules
  import opened Numbers
  import opened Escaping
  import opened TableBuffer
  import opened JsonLog

  // ---- the line, piece by piece, in the order the code appends ----

  function Rest(ms: seq<Member>): string { "," + PutMembers(ms, "}") }

  lemma PutCons(m: Member, ms: seq<Member>)
    requires ms != []
    ensures PutMembers([m] + ms, "}") == PutKey(m.key, PutValue(m.value, Rest(ms)))
  {
    assert ([m] + ms)[1..] == ms;
  }

  lemma StringMember(key: string, x: string, ms: seq<Member>)
    requires ms != []
    ensures Rest([Member(key, Str(x))] + ms) == (",\"" + key + "\":\"") + (JsonEscape(x) + ("\"" + Rest(ms)))
  {
    hide PutMembers, JsonEscape;
    PutCons(Member(key, Str(x)), ms);
    assert Rest([Member(key, Str(x))] + ms) == "," + ("\"" + (key + ("\":" + ("\"" + (JsonEscape(x) + ("\"" + Rest(ms)))))));
  }

  lemma NumberMember(key: string, v: Value, t: string, ms: seq<Member>)
    requires ms != [] && (v == Num(t) || (v == Null && t == "null") || (v == True && t == "true"))
    ensures Rest([Member(key, v)] + ms) == (",\"" + key + "\":") + (t + Rest(ms))
  {
    hide PutMembers;
    PutCons(Member(key, v), ms);
    assert Rest([Member(key, v)] + ms) == "," + ("\"" + (key + ("\":" + (t + Rest(ms)))));
  }

  lemma Behind(a: string, b: string, c: string, rest: string)
    requires rest == b + c
    ensures a + rest == (a + b) + c
  {
  }

  function NumText(conn: Id, seqNo: Id): string { "\",\"conn_id\":" + (Dec(conn) + (",\"query_seq\":" + Dec(seqNo))) }

  function DurationText(r: Record): string {
    "\",\"duration_ms\":" + (if r.duration.Some? then r.duration.value else "null")
  }

  function ErrorText(r: Record): string { ",\"error_code\":" + (DecInt(r.errorCode) + ",\"query\":\"") }

  lemma StartOf(r: Record)
    requires Plain(r.ts)
    ensures Line(r) == ("{\"ts\":\"" + r.ts) + ("\"" + Rest(FromConn(r)))
  {
    hide PutMembers, JsonEscape, FromConn;
    PutCons(Member("ts", Str(r.ts)), FromConn(r));
    PlainIsItself(r.ts);
    assert Line(r) == "{" + ("\"" + ("ts" + ("\":" + ("\"" + (r.ts + ("\"" + Rest(FromConn(r))))))));
  }

  lemma NumbersOf(r: Record)
    ensures "\"" + Rest(FromConn(r)) == NumText(r.conn, r.seqNo) + Rest(FromUser(r))
  {
    hide Rest, Dec, FromUser;
    NumberMember("conn_id", Num(Dec(r.conn)), Dec(r.conn), FromSeq(r));
    NumberMember("query_seq", Num(Dec(r.seqNo)), Dec(r.seqNo), FromUser(r));
    assert ",\"" + "conn_id" + "\":" == ",\"conn_id\":" && ",\"" + "query_seq" + "\":" == ",\"query_seq\":";
    var tail := Rest(FromUser(r));
    assert "\"" + (",\"conn_id\":" + (Dec(r.conn) + (",\"query_seq\":" + (Dec(r.seqNo) + tail))))
        == "\",\"conn_id\":" + (Dec(r.conn) + (",\"query_seq\":" + Dec(r.seqNo))) + tail;
  }

  lemma UserOf(r: Record)
    ensures Rest(FromUser(r)) == ",\"user\":\"" + (JsonEscape(r.user) + ("\"" + Rest(FromDb(r))))
  {
    hide Rest, JsonEscape, FromDb;
    StringMember("user", r.user, FromDb(r));
    assert ",\"" + "user" + "\":\"" == ",\"user\":\"";
  }

  lemma DbOf(r: Record)
    ensures "\"" + Rest(FromDb(r)) == "\",\"db\":\"" + (JsonEscape(r.db) + ("\"" + Rest(FromTables(r))))
  {
    hide Rest, JsonEscape, FromTables;
    StringMember("db", r.db, FromTables(r));
    assert "\"" + (",\"" + "db" + "\":\"") == "\",\"db\":\"";
  }

  lemma TablesOf(r: Record)
    ensures "\"" + Rest(FromTables(r)) == "\",\"tables\":[" + PutItems(Pieces(r.tables), "]" + Rest(FromFlag(r)))
  {
    hide PutMembers, PutItems, Pieces, FromCommand;
    PutCons(Member("tables", Strs(Pieces(r.tables))), FromFlag(r));
    var items := PutItems(Pieces(r.tables), "]" + Rest(FromFlag(r)));
    assert "\"" + Rest(FromTables(r)) == "\"" + ("," + ("\"" + ("tables" + ("\":" + ("[" + items)))));
  }

  lemma FlagOf(r: Record)
    ensures Rest(FromFlag(r)) == (if r.truncated then ",\"tables_truncated\":true" else "") + Rest(FromCommand(r))
  {
    hide Rest, FromCommand;
    if r.truncated {
      NumberMember("tables_truncated", True, "true", FromCommand(r));
      assert ",\"" + "tables_truncated" + "\":" + "true" == ",\"tables_truncated\":true";
    } else {
      assert [] + FromCommand(r) == FromCommand(r);
    }
  }

  lemma CommandOf(r: Record)
    requires Plain(r.command)
    ensures Rest(FromCommand(r)) == ",\"command\":\"" + (r.command + ("\"" + Rest(FromDuration(r))))
  {
    hide Rest, FromDuration;
    PlainIsItself(r.command);
    StringMember("command", r.command, FromDuration(r));
    assert ",\"" + "command" + "\":\"" == ",\"command\":\"";
  }

  lemma DurationOf(r: Record)
    ensures "\"" + Rest(FromDuration(r)) == DurationText(r) + Rest(FromError(r))
  {
    hide Rest, FromError;
    var t := if r.duration.Some? then r.duration.value else "null";
    NumberMember("duration_ms", if r.duration.Some? then Num(t) else Null, t, FromError(r));
    assert "\"" + (",\"" + "duration_ms" + "\":") == "\",\"duration_ms\":";
    Reassociate("\"", ",\"duration_ms\":", t, Rest(FromError(r)));
  }

  lemma LastString(key: string, x: string)
    ensures Rest([Member(key, Str(x))]) == (",\"" + key + "\":\"") + (JsonEscape(x) + ("\"" + "}"))
  {
    hide JsonEscape;
    var ms := [Member(key, Str(x))];
    assert PutMembers(ms, "}") == PutKey(key, PutString(x, "}"));
    Chain(",", "\"", key, "\":", "\"", JsonEscape(x) + ("\"" + "}"));
    assert "," + "\"" == ",\"" && "\":" + "\"" == "\":\"";
  }

  lemma Chain(a: string, b: string, c: string, d: string, e: string, f: string)
    ensures a + (b + (c + (d + (e + f)))) == ((a + b) + c + (d + e)) + f
  {
  }

  lemma QueryOf(r: Record)
    ensures Rest(QueryMember(r)) == ",\"query\":\"" + (JsonEscape(r.query) + "\"}")
  {
    hide JsonEscape, Rest;
    LastString("query", r.query);
    assert ",\"" + "query" + "\":\"" == ",\"query\":\"";
    assert "\"" + "}" == "\"}";
  }

  lemma ErrorOf(r: Record)
    ensures Rest(FromError(r)) == ErrorText(r) + (JsonEscape(r.query) + "\"}")
  {
    hide Rest, JsonEscape, DecInt, QueryMember;
    var n := DecInt(r.errorCode);
    NumberMember("error_code", Num(n), n, QueryMember(r));
    QueryOf(r);
    assert ",\"" + "error_code" + "\":" == ",\"error_code\":";
    Regroup(",\"error_code\":", n, ",\"query\":\"", JsonEscape(r.query) + "\"}");
  }

  lemma Regroup(a: string, b: string, c: string, d: string)
    ensures a + (b + (c + d)) == (a + (b + c)) + d
  {
  }

  // ---- the scratch buffer ----

  /** Digits of the two numbers together. */
  function Digits(r: Record): nat { |Dec(r.conn)| + |Dec(r.seqNo)| }

  /** The record that reaches the log: the last digits of the sequence number are lost when
      the two numbers need more than the 38 digits that fit. */
  function Printed(r: Record): Record {
    if Digits(r) <= 38 then r else
      ShiftedId(r.seqNo, Digits(r) - 38);
      r.(seqNo := Shifted(r.seqNo, Digits(r) - 38))
  }

  lemma {:induction false} ShiftedId(n: Id, k: nat)
    ensures Shifted(n, k) <= n
    decreases k
  {
    if k > 0 {
      ShiftedId(n / 10, k - 1);
    }
  }

  lemma NumTextClips(r: Record)
    ensures Clip(NumText(r.conn, r.seqNo)) == NumText(Printed(r).conn, Printed(r).seqNo)
    ensures Digits(r) > 38 ==> Printed(r).seqNo < r.seqNo
  {
    hide Dec, Shifted;
    WordDigits(r.conn);
    WordDigits(r.seqNo);
    var c, s := Dec(r.conn), Dec(r.seqNo);
    assert |NumText(r.conn, r.seqNo)| == 25 + |c| + |s|;
    if Digits(r) > 38 {
      var k := Digits(r) - 38;
      DecPrefix(r.seqNo, k);
      var head := "\",\"conn_id\":" + (c + ",\"query_seq\":");
      assert NumText(r.conn, r.seqNo) == head + s;
      assert (head + s)[..63] == head + s[..|s| - k];
      assert head + s[..|s| - k] == "\",\"conn_id\":" + (c + (",\"query_seq\":" + s[..|s| - k]));
    }
  }

  lemma OthersFit(r: Record)
    requires r.Valid()
    ensures Clip(DurationText(r)) == DurationText(r) && Clip(ErrorText(r)) == ErrorText(r)
    ensures Plain(r.ts) && Plain(r.command)
  {
    IntDigits(r.errorCode);
  }

  // ---- the code ----

  /** The table array: one quoted string per entry of the buffer. */
  method AppendTables(line0: string, tables: string, ghost rest: string, ghost whole: string) returns (line: string)
    requires line0 + PutItems(Pieces(tables), rest) == whole
    ensures line + rest == whole
  {
    hide JsonEscape, PutItems, PutMore, Pieces, IndexOf;
    line := line0;
    FirstItem(Pieces(tables), rest);
    var p := 0;
    var first := true;
    assert tables[0..] == tables;
    while p < |tables|
      invariant first ==> p == 0
      invariant p <= |tables| ==> line + PutMore(first, Pieces(tables[p..]), rest) == whole
      invariant p > |tables| ==> line + rest == whole
      decreases |tables| - p
    {
      var s := tables[p..];
      var elen := IndexOf(s, ',');
      var x := s[..elen];
      ghost var after := if elen == |s| then [] else Pieces(s[elen + 1..]);
      FirstPiece(s);
      NoMore(rest);
      line := AppendItem(line, first, x, after, rest, whole);
      first := false;
      p := p + elen + 1;
      assert p <= |tables| ==> tables[p..] == s[elen + 1..];
    }
    if p == |tables| {
      NoMore(rest);
      FirstItem([], rest);
      assert tables[p..] == [];
      NoPieces();
      NoItems(rest);
    }
  }

  lemma NoItems(rest: string)
    ensures PutItems([], rest) == rest
  {
  }

  method AppendItem(line0: string, first: bool, x: string, ghost after: seq<string>, ghost rest: string, ghost whole: string)
    returns (line: string)
    requires line0 + PutMore(first, [x] + after, rest) == whole
    ensures line + PutMore(false, after, rest) == whole
  {
    hide PutMore, JsonEscape;
    PutNext(first, x, after, rest);
    line := Append(line0, if first then "" else ",", "\"" + (JsonEscape(x) + ("\"" + PutMore(false, after, rest))), whole);
    line := AppendEscaped(line, "\"", x, "\"" + PutMore(false, after, rest), whole);
    line := Append(line, "\"", PutMore(false, after, rest), whole);
  }

  /** The items still to come, with the comma that separates them from those before. */
  ghost function PutMore(first: bool, xs: seq<string>, rest: string): string {
    (if first || xs == [] then "" else ",") + PutItems(xs, rest)
  }

  lemma FirstItem(xs: seq<string>, rest: string)
    ensures PutMore(true, xs, rest) == PutItems(xs, rest)
  {
  }

  lemma NoMore(rest: string)
    ensures PutMore(false, [], rest) == rest
  {
  }

  lemma PutNext(first: bool, x: string, xs: seq<string>, rest: string)
    ensures PutMore(first, [x] + xs, rest) == (if first then "" else ",") + ("\"" + (JsonEscape(x) + ("\"" + PutMore(false, xs, rest))))
  {
    hide JsonEscape;
    assert ([x] + xs)[1..] == xs;
  }

  /** The FILE branch of `handle_status_event`: the line it writes is the standard's text of
      the printed record, and a newline. */
  method AssembleJson(r: Record) returns (line: string)
    requires r.Valid()
    ensures line == Line(Printed(r)) + "\n"
  {
    hide Line, Rest, JsonEscape, Dec, DecInt, Pieces, PutItems, Clip, NumText, DurationText, ErrorText, Printed;
    hide FromConn, FromUser, FromDb, FromTables, FromFlag, FromCommand, FromDuration, FromError;
    ghost var p := Printed(r);
    PrintedIsValid(r);
    OthersFit(p);
    OthersFit(r);
    ghost var whole := Line(p);

    line := "{\"ts\":\"" + r.ts;
    StartOf(p);
    NumTextClips(r);
    NumbersOf(p);
    var numbuf := Clip(NumText(r.conn, r.seqNo));
    line := Append(line, numbuf, Rest(FromUser(p)), whole);
    UserOf(p);
    line := AppendEscaped(line, ",\"user\":\"", r.user, "\"" + Rest(FromDb(p)), whole);
    DbOf(p);
    line := AppendEscaped(line, "\",\"db\":\"", r.db, "\"" + Rest(FromTables(p)), whole);
    TablesOf(p);
    line := Append(line, "\",\"tables\":[", PutItems(Pieces(p.tables), "]" + Rest(FromFlag(p))), whole);
    line := AppendTables(line, r.tables, "]" + Rest(FromFlag(p)), whole);
    line := Append(line, "]", Rest(FromFlag(p)), whole);
    FlagOf(p);
    line := Append(line, if r.truncated then ",\"tables_truncated\":true" else "", Rest(FromCommand(p)), whole);
    CommandOf(p);
    line := Append(line, ",\"command\":\"", r.command + ("\"" + Rest(FromDuration(p))), whole);
    line := Append(line, r.command, "\"" + Rest(FromDuration(p)), whole);
    DurationOf(p);
    numbuf := Clip(DurationText(r));
    line := Append(line, numbuf, Rest(FromError(p)), whole);
    ErrorOf(p);
    numbuf := Clip(ErrorText(r));
    line := Append(line, numbuf, JsonEscape(p.query) + "\"}", whole);
    line := JsonEscapeAppend(line, r.query);
    Behind(line[..|line| - |JsonEscape(r.query)|], JsonEscape(r.query), "\"}", JsonEscape(r.query) + "\"}");
    assert line + "\"}\n" == line + "\"}" + "\n";
    line := line + "\"}\n";
  }

  lemma PrintedIsValid(r: Record)
    requires r.Valid()
    ensures Printed(r).Valid() && Printed(r) == r.(seqNo := Printed(r).seqNo)
    ensures DurationText(Printed(r)) == DurationText(r) && ErrorText(Printed(r)) == ErrorText(r)
  {
    hide Shifted;
  }

  method Append(line0: string, piece: string, ghost rest: string, ghost whole: string) returns (line: string)
    requires line0 + (piece + rest) == whole
    ensures line == line0 + piece && line + rest == whole
  {
    line := line0 + piece;
    Behind(line0, piece, rest, piece + rest);
  }

  method AppendEscaped(line0: string, piece: string, x: string, ghost rest: string, ghost whole: string) returns (line: string)
    requires line0 + (piece + (JsonEscape(x) + rest)) == whole
    ensures line + rest == whole
  {
    line := Append(line0, piece, JsonEscape(x) + rest, whole);
    Behind(line, JsonEscape(x), rest, JsonEscape(x) + rest);
    line := JsonEscapeAppend(line, x);
  }
}
