/** The FILE record of src/selective_trace_mysql.cc: one JSON object per line, and a decoder
for such lines written from RFC 8259. */
module JsonLog {
  import opened Bytes
  import opened Rules
  import opened Numbers
  import opened Escaping
  import opened TableBuffer
  import opened Commands
  import opened JsonNumber

  /** What one traced statement reports. `tables` is the text of the table buffer, empty
      when no table was touched; `truncated` is only ever reported with tables. The time
      stamp and the duration are opaque texts over the alphabet their formats use. */
  datatype Record = Record(ts: string, conn: Id, seqNo: Id, user: string, db: string, tables: string, truncated: bool,
                           command: string, duration: Option<string>, errorCode: int, query: string)
  {
    predicate Valid() {
      && (forall c <- ts :: IsDigit(c) || c in "-: .")
      && command != [] && (forall c <- command :: IsWordByte(c))
      && (duration.Some? ==> IsDuration(duration.value))
      && -0x8000_0000 <= errorCode < 0x8000_0000
      && (truncated ==> tables != [])
    }
  }

  // ---- JSON: values, their text, and reading them back ----

  datatype Value = Str(text: string) | Num(text: string) | Null | True | Strs(texts: seq<string>)

  datatype Member = Member(key: string, value: Value)

  type Read<T> = Option<(T, string)>

  /** The strings of an array up to its closing bracket. */
  function ReadItems(s: string): (r: Read<seq<string>>)
    ensures r.Some? ==> |r.value.1| < |s|
    decreases |s|
  {
    if !HasQuote(s, '"') then None else
      match JsonString(s[1..])
      case None => None
      case Some((x, rest)) =>
        if HasAt(rest, 0, ']') then Some(([x], rest[1..]))
        else if !HasAt(rest, 0, ',') then None
        else match ReadItems(rest[1..])
          case None => None
          case Some((xs, after)) => Some(([x] + xs, after))
  }

  function ReadValue(s: string): (r: Read<Value>)
    ensures r.Some? ==> |r.value.1| < |s|
  {
    if s == [] then None
    else if s[0] == '"' then
      match JsonString(s[1..]) { case None => None case Some((x, rest)) => Some((Str(x), rest)) }
    else if s[0] == '[' then
      if HasAt(s, 1, ']') then Some((Strs([]), s[2..])) else
        match ReadItems(s[1..]) { case None => None case Some((xs, rest)) => Some((Strs(xs), rest)) }
    else if "null" <= s then Some((Null, s[4..]))
    else if "true" <= s then Some((True, s[4..]))
    else if NumLen(s) > 0 then Some((Num(s[..NumLen(s)]), s[NumLen(s)..]))
    else None
  }

  function ReadMembers(s: string): (r: Read<seq<Member>>)
    decreases |s|
  {
    if !HasQuote(s, '"') then None else
      match JsonString(s[1..])
      case None => None
      case Some((key, r1)) =>
        if !HasAt(r1, 0, ':') then None else
          match ReadValue(r1[1..])
          case None => None
          case Some((v, r2)) =>
            if HasAt(r2, 0, '}') then Some(([Member(key, v)], r2[1..]))
            else if !HasAt(r2, 0, ',') then None
            else match ReadMembers(r2[1..])
              case None => None
              case Some((ms, after)) => Some(([Member(key, v)] + ms, after))
  }

  /** A line that is exactly one object. */
  function ReadLine(line: string): Option<seq<Member>> {
    if !HasAt(line, 0, '{') then None else
      match ReadMembers(line[1..])
      case Some((ms, "")) => Some(ms)
      case _ => None
  }

  /** The text of a string, a value and a list of members in front of `rest`. */
  function PutString(x: string, rest: string): string { "\"" + (JsonEscape(x) + ("\"" + rest)) }

  function PutItems(xs: seq<string>, rest: string): string {
    if xs == [] then rest
    else PutString(xs[0], if |xs| == 1 then rest else "," + PutItems(xs[1..], rest))
  }

  function PutValue(v: Value, rest: string): string {
    match v
    case Str(x) => PutString(x, rest)
    case Num(t) => t + rest
    case Null => "null" + rest
    case True => "true" + rest
    case Strs(xs) => "[" + PutItems(xs, "]" + rest)
  }

  function PutKey(key: string, rest: string): string { "\"" + (key + ("\":" + rest)) }

  function PutMembers(ms: seq<Member>, rest: string): string {
    if ms == [] then rest
    else PutKey(ms[0].key, PutValue(ms[0].value, if |ms| == 1 then rest else "," + PutMembers(ms[1..], rest)))
  }

  predicate Printable(v: Value) { v.Num? ==> IsNumber(v.text) }

  predicate AllPrintable(ms: seq<Member>) { forall m <- ms :: Plain(m.key) && Printable(m.value) }

  lemma StringReads(x: string, rest: string)
    ensures HasQuote(PutString(x, rest), '"') && JsonString(PutString(x, rest)[1..]) == Some((x, rest))
  {
    hide JsonString, JsonEscape;
    assert PutString(x, rest)[1..] == JsonEscape(x) + ("\"" + rest);
    JsonRoundTrip(x, rest);
  }

  lemma {:induction false} ItemsRead(xs: seq<string>, rest: string)
    requires xs != []
    ensures ReadItems(PutItems(xs, "]" + rest)) == Some((xs, rest))
    decreases xs
  {
    hide JsonString, PutString, HasQuote;
    var more := if |xs| == 1 then "]" + rest else "," + PutItems(xs[1..], "]" + rest);
    StringReads(xs[0], more);
    if |xs| == 1 {
      assert more[1..] == rest && xs == [xs[0]];
    } else {
      assert more[1..] == PutItems(xs[1..], "]" + rest);
      ItemsRead(xs[1..], rest);
      assert xs == [xs[0]] + xs[1..];
    }
  }

  lemma ValueReads(v: Value, rest: string)
    requires Printable(v) && Stops(rest)
    ensures ReadValue(PutValue(v, rest)) == Some((v, rest))
  {
    hide JsonString, JsonEscape, ReadItems, NumLen;
    match v {
      case Str(x) => StringReads(x, rest);
      case Num(t) =>
        NumberHead(t);
        NumberStops(t, rest);
        assert (t + rest)[..|t|] == t && (t + rest)[|t|..] == rest;
        assert t[0] != 'n' && t[0] != 't' && (t + rest)[0] == t[0];
      case Null => assert ("null" + rest)[4..] == rest;
      case True => assert ("true" + rest)[4..] == rest;
      case Strs(xs) => StringsRead(xs, rest);
    }
  }

  lemma StringsRead(xs: seq<string>, rest: string)
    ensures ReadValue("[" + PutItems(xs, "]" + rest)) == Some((Strs(xs), rest))
  {
    hide JsonString, JsonEscape, ReadItems, NumLen;
    var s := "[" + PutItems(xs, "]" + rest);
    if xs == [] {
      assert s[2..] == rest;
    } else {
      assert s[1..] == PutItems(xs, "]" + rest);
      assert s[1] == '"';
      ItemsRead(xs, rest);
    }
  }

  /** One member in front of the end, or of a comma and more members. */
  lemma MemberReads(m: Member, more: string)
    requires Plain(m.key) && Printable(m.value) && Stops(more)
    ensures ReadMembers(PutKey(m.key, PutValue(m.value, more)))
            == if HasAt(more, 0, '}') then Some(([m], more[1..]))
               else if !HasAt(more, 0, ',') then None
               else match ReadMembers(more[1..])
                 case None => None
                 case Some((ms, after)) => Some(([m] + ms, after))
  {
    hide ReadValue, PutValue, JsonString, Plain, Printable, PutKey;
    KeyReads(m.key, PutValue(m.value, more));
    ValueReads(m.value, more);
  }

  /** Reading undoes writing, for every list of members. */
  lemma {:induction false} MembersRead(ms: seq<Member>)
    requires ms != [] && AllPrintable(ms)
    ensures ReadMembers(PutMembers(ms, "}")) == Some((ms, ""))
  {
    hide PutValue, PutKey, Plain, Printable, ReadMembers;
    var m := ms[0];
    assert m in ms;
    if |ms| == 1 {
      MemberReads(m, "}");
      assert ms == [m] && "}"[1..] == "";
    } else {
      var more := "," + PutMembers(ms[1..], "}");
      MemberReads(m, more);
      assert more[1..] == PutMembers(ms[1..], "}");
      assert forall x <- ms[1..] :: x in ms;
      MembersRead(ms[1..]);
      assert ms == [m] + ms[1..];
    }
  }

  lemma KeyReads(key: string, rest: string)
    requires Plain(key)
    ensures var s := PutKey(key, rest);
            HasQuote(s, '"') && JsonString(s[1..]) == Some((key, ":" + rest)) && (":" + rest)[1..] == rest
  {
    hide JsonString, JsonEscape;
    PlainIsItself(key);
    assert PutKey(key, rest)[1..] == JsonEscape(key) + ("\"" + (":" + rest));
    JsonRoundTrip(key, ":" + rest);
  }

  // ---- the record as members ----

  function QueryMember(r: Record): (ms: seq<Member>)
    ensures ms != []
  {
    [Member("query", Str(r.query))]
  }

  function FromError(r: Record): (ms: seq<Member>)
    ensures ms != []
  {
    [Member("error_code", Num(DecInt(r.errorCode)))] + QueryMember(r)
  }

  function FromDuration(r: Record): (ms: seq<Member>)
    ensures ms != []
  {
    [Member("duration_ms", if r.duration.Some? then Num(r.duration.value) else Null)] + FromError(r)
  }

  function FromCommand(r: Record): (ms: seq<Member>)
    ensures ms != []
  {
    [Member("command", Str(r.command))] + FromDuration(r)
  }

  function FromFlag(r: Record): (ms: seq<Member>)
    ensures ms != []
  {
    (if r.truncated then [Member("tables_truncated", True)] else []) + FromCommand(r)
  }

  function FromTables(r: Record): (ms: seq<Member>)
    ensures ms != []
  {
    [Member("tables", Strs(Pieces(r.tables)))] + FromFlag(r)
  }

  function FromDb(r: Record): (ms: seq<Member>)
    ensures ms != []
  {
    [Member("db", Str(r.db))] + FromTables(r)
  }

  function FromUser(r: Record): (ms: seq<Member>)
    ensures ms != []
  {
    [Member("user", Str(r.user))] + FromDb(r)
  }

  function FromSeq(r: Record): (ms: seq<Member>)
    ensures ms != []
  {
    [Member("query_seq", Num(Dec(r.seqNo)))] + FromUser(r)
  }

  function FromConn(r: Record): (ms: seq<Member>)
    ensures ms != []
  {
    [Member("conn_id", Num(Dec(r.conn)))] + FromSeq(r)
  }

  function Members(r: Record): (ms: seq<Member>)
    ensures ms != []
  {
    [Member("ts", Str(r.ts))] + FromConn(r)
  }

  /** The line of a record, as the standard would write it. */
  function Line(r: Record): string { "{" + PutMembers(Members(r), "}") }
}
