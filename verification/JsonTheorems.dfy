/** Decoding the FILE log recovers every record. */
module JsonTheorems {
  import opened Bytes
  import opened Rules
  import opened Connections
  import opened Numbers
  import opened Escaping
  import opened TableBuffer
  import opened Commands
  import opened JsonNumber
  import opened JsonLog
  import opened JsonAssembly

  /** The fields a reader of the log wants back. */
  datatype Fields = Fields(ts: string, conn: nat, seqNo: nat, user: string, db: string, tables: seq<string>, truncated: bool,
                           command: string, duration: Option<string>, errorCode: int, query: string)

  function FieldsOf(r: Record): Fields {
    Fields(r.ts, r.conn, r.seqNo, r.user, r.db, Pieces(r.tables), r.truncated, r.command, r.duration, r.errorCode, r.query)
  }

  function ReadNat(v: Value): Option<nat> {
    if v.Num? && v.text != [] && IsDecimal(v.text) then Some(Decimal(v.text)) else None
  }

  function ReadInt(v: Value): Option<int> {
    if v.Num? && |v.text| > 1 && v.text[0] == '-' && IsDecimal(v.text[1..]) then Some(0 - Decimal(v.text[1..]))
    else match ReadNat(v) case Some(n) => Some(n) case None => None
  }

  function ReadDuration(v: Value): Option<Option<string>> {
    match v case Null => Some(None) case Num(t) => Some(Some(t)) case _ => None
  }

  predicate Keyed(ms: seq<Member>, keys: seq<string>) {
    |ms| == |keys| && forall i :: 0 <= i < |keys| ==> ms[i].key == keys[i]
  }

  const HEAD_KEYS := ["ts", "conn_id", "query_seq", "user", "db", "tables"]
  const TAIL_KEYS := ["command", "duration_ms", "error_code", "query"]

  /** The fields of an object with the documented keys, in the documented order. */
  function FromMembers(ms: seq<Member>): Option<Fields> {
    if |ms| < 10 then None else
      var head, flag, tail := ms[..6], ms[6..|ms| - 4], ms[|ms| - 4..];
      if !Keyed(head, HEAD_KEYS) || !Keyed(tail, TAIL_KEYS) then None
      else if flag != [] && flag != [Member("tables_truncated", True)] then None
      else if !(head[0].value.Str? && head[3].value.Str? && head[4].value.Str? && head[5].value.Strs?) then None
      else if !(tail[0].value.Str? && tail[3].value.Str?) then None
      else
        match (ReadNat(head[1].value), ReadNat(head[2].value), ReadDuration(tail[1].value), ReadInt(tail[2].value))
        case (Some(conn), Some(seqNo), Some(duration), Some(code)) =>
          Some(Fields(head[0].value.text, conn, seqNo, head[3].value.text, head[4].value.text, head[5].value.texts,
                      flag != [], tail[0].value.text, duration, code, tail[3].value.text))
        case _ => None
  }

  function Decode(line: string): Option<Fields> {
    match ReadLine(line) case None => None case Some(ms) => FromMembers(ms)
  }

  lemma IntReads(i: int)
    ensures ReadInt(Num(DecInt(i))) == Some(i)
  {
    hide Dec, Decimal;
    var n := if i < 0 then -i else i;
    DecValue(n);
    if i < 0 {
      assert DecInt(i)[1..] == Dec(n);
    } else {
      assert Dec(n)[0] in Dec(n);
    }
  }

  function HeadOf(r: Record): seq<Member> {
    [Member("ts", Str(r.ts)), Member("conn_id", Num(Dec(r.conn))), Member("query_seq", Num(Dec(r.seqNo))),
     Member("user", Str(r.user)), Member("db", Str(r.db)), Member("tables", Strs(Pieces(r.tables)))]
  }

  function FlagOnly(r: Record): seq<Member> { if r.truncated then [Member("tables_truncated", True)] else [] }

  function TailOf(r: Record): seq<Member> {
    [Member("command", Str(r.command)), Member("duration_ms", if r.duration.Some? then Num(r.duration.value) else Null),
     Member("error_code", Num(DecInt(r.errorCode))), Member("query", Str(r.query))]
  }

  lemma MembersInParts(r: Record)
    ensures Members(r) == HeadOf(r) + FlagOnly(r) + TailOf(r)
  {
    hide Dec, DecInt, Pieces;
    assert FromCommand(r) == TailOf(r);
    var f := FromFlag(r);
    assert f == FlagOnly(r) + TailOf(r);
    assert Members(r) == HeadOf(r) + f;
  }

  lemma PartsRead(r: Record)
    ensures FromMembers(HeadOf(r) + FlagOnly(r) + TailOf(r)) == Some(FieldsOf(r))
  {
    hide Dec, DecInt, Pieces, ReadInt, Decimal;
    var ms := HeadOf(r) + FlagOnly(r) + TailOf(r);
    assert ms[..6] == HeadOf(r);
    assert ms[6..|ms| - 4] == FlagOnly(r);
    assert ms[|ms| - 4..] == TailOf(r);
    DecValue(r.conn);
    DecValue(r.seqNo);
    IntReads(r.errorCode);
  }

  lemma NumbersArePrintable(n: nat, i: int)
    ensures Printable(Num(Dec(n))) && Printable(Num(DecInt(i)))
  {
    hide Dec, DecInt, IsNumber;
    DecimalsAreNumbers(n, i);
  }

  lemma KeysArePlain()
    ensures forall k <- HEAD_KEYS :: Plain(k)
    ensures forall k <- TAIL_KEYS :: Plain(k)
    ensures Plain("tables_truncated")
  {
  }

  /** Plain keys and printable values make a printable list. */
  lemma KeyedIsPrintable(ms: seq<Member>, keys: seq<string>)
    requires Keyed(ms, keys) && (forall k <- keys :: Plain(k)) && forall m <- ms :: Printable(m.value)
    ensures AllPrintable(ms)
  {
    hide Plain, Printable;
    forall m | m in ms ensures Plain(m.key) && Printable(m.value) {
      var i :| 0 <= i < |ms| && ms[i] == m;
      assert keys[i] in keys;
    }
  }

  lemma HeadIsPrintable(r: Record)
    ensures AllPrintable(HeadOf(r))
  {
    hide Pieces, Dec, Printable, Plain, AllPrintable;
    NumbersArePrintable(r.conn, 0);
    NumbersArePrintable(r.seqNo, 0);
    StringsArePrintable();
    KeysArePlain();
    KeyedIsPrintable(HeadOf(r), HEAD_KEYS);
  }

  lemma StringsArePrintable()
    ensures forall v: Value :: !v.Num? ==> Printable(v)
  {
  }

  lemma FlagIsPrintable(r: Record)
    ensures AllPrintable(FlagOnly(r))
  {
    hide Plain, Printable;
    KeysArePlain();
    StringsArePrintable();
  }

  lemma TailIsPrintable(r: Record)
    requires r.Valid()
    ensures AllPrintable(FlagOnly(r)) && AllPrintable(TailOf(r))
  {
    hide DecInt, Printable, Plain, AllPrintable;
    FlagIsPrintable(r);
    NumbersArePrintable(0, r.errorCode);
    StringsArePrintable();
    if r.duration.Some? {
      DurationIsPrintable(r);
    }
    KeysArePlain();
    KeyedIsPrintable(TailOf(r), TAIL_KEYS);
  }

  lemma DurationIsPrintable(r: Record)
    requires r.Valid() && r.duration.Some?
    ensures Printable(Num(r.duration.value))
  {
    hide IsNumber, IsDuration;
    DurationIsNumber(r.duration.value);
  }

  lemma RecordIsPrintable(r: Record)
    requires r.Valid()
    ensures AllPrintable(Members(r))
  {
    hide Members, HeadOf, TailOf, FlagOnly, Printable, Plain;
    MembersInParts(r);
    HeadIsPrintable(r);
    TailIsPrintable(r);
  }

  /** A well-printed line decodes to the fields of its record. */
  lemma LineDecodes(r: Record)
    requires r.Valid()
    ensures Decode(Line(r)) == Some(FieldsOf(r))
  {
    hide Members, ReadMembers, PutMembers, FromMembers, FieldsOf;
    RecordIsPrintable(r);
    MembersRead(Members(r));
    assert Line(r)[1..] == PutMembers(Members(r), "}");
    MembersInParts(r);
    PartsRead(r);
  }

  /** What the code writes decodes to the fields of the record exactly when the digits of
      the connection id and of the sequence number fit the scratch buffer. */
  lemma WrittenLineDecodes(r: Record)
    requires r.Valid()
    ensures Decode(Line(Printed(r))) == Some(FieldsOf(r)) <==> Digits(r) <= 38
  {
    hide Line, Decode, Dec;
    PrintedIsValid(r);
    LineDecodes(Printed(r));
    NumTextClips(r);
  }

  /** Two twenty-digit numbers do not fit: the logged sequence number loses two digits. */
  lemma LongNumbersAreClipped()
    ensures var n: Id := 10_000_000_000_000_000_000;
            var r := Record("", n, n, "", "", "", false, "SELECT", None, 0, "");
            r.Valid() && Decode(Line(Printed(r))) != Some(FieldsOf(r))
  {
    hide Line, Decode, Printed, FieldsOf, Dec, Pow10;
    var n: Id := 10_000_000_000_000_000_000;
    var r := Record("", n, n, "", "", "", false, "SELECT", None, 0, "");
    assert forall c <- "SELECT" :: IsWordByte(c);
    TenToTheNineteen();
    DecAtLeast(n, 19);
    WrittenLineDecodes(r);
  }

  lemma TenToTheNineteen()
    ensures Pow10(19) == 10_000_000_000_000_000_000
  {
    assert Pow10(10) == 10000000000 by { assert Pow10(8) == 100000000; }
    assert Pow10(15) == 1000000000000000;
  }

  lemma {:induction false} DecAtLeast(n: nat, k: nat)
    requires n >= Pow10(k)
    ensures |Dec(n)| > k
  {
    if k > 0 {
      assert n >= 10 by { Pow10Positive(k - 1); }
      DecAtLeast(n / 10, k - 1);
    }
  }

  lemma Pow10Positive(k: nat)
    ensures Pow10(k) > 0
  {
  }

  // ---- the whole log ----

  lemma {:induction false} ItemsHaveNoNewline(xs: seq<string>, rest: string)
    requires '\n' !in rest
    ensures '\n' !in PutItems(xs, rest)
    decreases xs
  {
    hide JsonEscape;
    if xs != [] {
      JsonRoundTrip(xs[0], "");
      ItemsHaveNoNewline(xs[1..], rest);
    }
  }

  lemma ValueHasNoNewline(v: Value, rest: string)
    requires Printable(v) && '\n' !in rest
    ensures '\n' !in PutValue(v, rest)
  {
    hide JsonEscape, PutItems, IsNumber;
    if v.Str? {
      JsonRoundTrip(v.text, "");
    } else if v.Strs? {
      ItemsHaveNoNewline(v.texts, "]" + rest);
    } else if v.Num? {
      NumberBytes(v.text);
    }
  }

  lemma {:induction false} MembersHaveNoNewline(ms: seq<Member>)
    requires AllPrintable(ms)
    ensures '\n' !in PutMembers(ms, "}")
  {
    hide PutValue, Printable;
    if ms != [] {
      assert ms[0] in ms;
      MembersHaveNoNewline(ms[1..]);
      ValueHasNoNewline(ms[0].value, if |ms| == 1 then "}" else "," + PutMembers(ms[1..], "}"));
    }
  }

  lemma LineHasNoNewline(r: Record)
    requires r.Valid()
    ensures '\n' !in Line(r)
  {
    hide Members, PutMembers;
    RecordIsPrintable(r);
    MembersHaveNoNewline(Members(r));
  }

  /** The log after writing the records one by one. */
  function Log(rs: seq<Record>): string { if rs == [] then [] else Line(Printed(rs[0])) + "\n" + Log(rs[1..]) }

  /** Decode every line; the text ends in a newline, so the last field is empty. */
  function DecodeLines(lines: seq<string>): Option<seq<Fields>> {
    if lines == [""] then Some([])
    else if |lines| < 2 then None
    else match (Decode(lines[0]), DecodeLines(lines[1..]))
      case (Some(f), Some(rest)) => Some([f] + rest)
      case _ => None
  }

  function DecodeLog(text: string): Option<seq<Fields>> { DecodeLines(Split(text, '\n')) }

  function AllFields(rs: seq<Record>): seq<Fields> { if rs == [] then [] else [FieldsOf(rs[0])] + AllFields(rs[1..]) }

  /** Splitting the log at newlines and decoding each line recovers the fields of every
      record, in order. */
  lemma {:induction false} LogDecodes(rs: seq<Record>)
    requires forall r <- rs :: r.Valid() && Digits(r) <= 38
    ensures DecodeLog(Log(rs)) == Some(AllFields(rs))
  {
    hide Split, Line, Decode, FieldsOf, Dec;
    if rs == [] {
      SplitSingle("", '\n');
    } else {
      var r := rs[0];
      assert r in rs;
      LineHasNoNewline(r);
      LineDecodes(r);
      SplitHead(Line(r), Log(rs[1..]), '\n');
      LogDecodes(rs[1..]);
      var lines := Split(Log(rs[1..]), '\n');
      assert ([Line(r)] + lines)[1..] == lines;
    }
  }
}
