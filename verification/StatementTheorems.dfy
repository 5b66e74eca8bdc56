/** When a statement is traced and what its record says, for every history. */
module StatementTheorems {
  import opened Bytes
  import opened Rules
  import opened Connections
  import opened Commands
  import opened TableBuffer
  import opened Statement
  import opened StatementHistory

  predicate IsQueryStatus(e: Event) { e.Status? && IsQuery(e.status.kind) }

  /** Whether the filters select the statement that the k-th event closes: a table it
      touched allows its command, or its connection is listed, or the session schema does. */
  ghost predicate Selected(h: seq<Item>, k: nat, b: nat, db: string)
    requires k < |h| && IsQueryStatus(h[k].event) && b <= k
  {
    var ev, rules := h[k].event.status, h[k].config.rules;
    var c := CommandClass(CommandWord(ev.query));
    AllowedSince(h[..k], b, c) || MatchConnection(rules, ev.conn) || (db != [] && c in MatchSchema(rules, db))
  }

  /** Nanoseconds from one reading of the 64-bit clock to a later one, which may have begun
      anew in between. */
  function Took(start: nat, now: nat): int {
    if start <= now then now - start else now + 18446744073709551616 - start
  }

  /** Whether it took long enough, in nanoseconds; without a start clock only a zero
      threshold is met. */
  predicate SlowEnough(h: seq<Item>, k: nat, b: nat)
    requires k < |h| && IsQueryStatus(h[k].event) && b <= k
  {
    var min := h[k].config.minMs;
    min == 0 || (b > 0 && h[b - 1].event.Log? && Took(h[b - 1].event.now, h[k].event.status.now) >= 1000000 * min)
  }

  /** The handler's test, in milliseconds, is that test. */
  lemma TestIsInNanoseconds(start: Id, now: Id, min: nat)
    ensures Elapsed(now, start) as real / 1000000.0 >= min as real <==> Took(start, now) >= 1000000 * min
  {
    var e := Elapsed(now, start);
    assert e == Took(start, now) by {
      if now < start {
        assert (now - start) % WORD == (now - start + WORD) % WORD;
      }
    }
    assert e as real / 1000000.0 >= min as real <==> e as real >= min as real * 1000000.0;
    assert min as real * 1000000.0 == (1000000 * min) as real;
  }

  /** The record of the statement, from the history alone. */
  ghost predicate Describes(h: seq<Item>, k: nat, b: nat, db: string, o: Output)
    requires k < |h| && IsQueryStatus(h[k].event) && b <= k
  {
    var ev, r := h[k].event.status, o.record;
    var kept := AddNames(AllRecorded(h[b..k]));
    && o.target == h[k].config.target
    && r.conn == ev.conn && r.ts == ev.ts && r.errorCode == ev.errorCode
    && r.user == ev.user + "@" + ev.host && r.db == db
    && r.command == CommandWord(ev.query)
    && r.query == QueryText(ev.query, h[k].config.maskPasswords)
    && r.tables == kept.text && r.truncated == (kept.text != [] && kept.truncated)
    && r.duration == (if b > 0 && h[b - 1].event.Log? then Some(ev.elapsed) else None)
    && r.seqNo == Statements(h[..k]) % WORD
  }

  lemma SchemaUnique(h: seq<Item>, a: string, b: string)
    requires SessionSchema(h, a) && SessionSchema(h, b)
    ensures a == b
  {
    hide Names;
    if a != [] {
      SchemaOneWay(h, a, b);
    } else if b != [] {
      SchemaOneWay(h, b, a);
    }
  }

  lemma SchemaOneWay(h: seq<Item>, a: string, b: string)
    requires a != [] && SessionSchema(h, a) && SessionSchema(h, b)
    ensures a == b
  {
    hide Names;
    DisconnectNamesNothing();
    var j :| 0 <= j < |h| && a == Names(h[j].event) != []
             && forall i :: j < i < |h| ==> Names(h[i].event) == [] && !h[i].event.Disconnect?;
    if b != [] {
      var m :| 0 <= m < |h| && b == Names(h[m].event) != []
               && forall i :: m < i < |h| ==> Names(h[i].event) == [] && !h[i].event.Disconnect?;
    }
  }

  lemma DisconnectNamesNothing()
    ensures forall e: Event :: e.Disconnect? ==> Names(e) == []
  {
  }

  // ---- the sequence number ----

  /** Whether the last event begins a statement: a LOG does, and so does a table access with
      neither a LOG nor an access since the last boundary. */
  ghost predicate Begins(h: seq<Item>)
    requires h != []
  {
    var n := |h| - 1;
    || h[n].event.Log?
    || (h[n].event.TableAccess?
        && forall b: nat :: Since(h[..n], b) ==> !Started(h[..n], b) && !Touched(h[..n], b))
  }

  /** Statements begun on the connection. */
  ghost function Statements(h: seq<Item>): nat {
    if h == [] || h[|h| - 1].event.Disconnect? then 0
    else Statements(h[..|h| - 1]) + (if Begins(h) then 1 else 0)
  }

  lemma {:induction false} LastBoundary(h: seq<Item>) returns (b: nat)
    ensures Since(h, b)
  {
    if h == [] || IsBoundary(h[|h| - 1].event) {
      b := |h|;
    } else {
      b := LastBoundary(h[..|h| - 1]);
    }
  }

  lemma BoundaryUnique(h: seq<Item>, a: nat, b: nat)
    requires Since(h, a) && Since(h, b)
    ensures a == b
  {
  }

  lemma {:induction false} SequenceCounts(h: seq<Item>)
    ensures After(h).seqNo == Statements(h) % WORD
  {
    hide Track, Counts, AccessMask, AddName, Begins;
    if h != [] {
      var before := h[..|h| - 1];
      SequenceCounts(before);
      BeginsOutside(h);
      WordSucc(Statements(before));
    }
  }

  /** An event begins a statement exactly when it is a LOG or an access outside of one. */
  lemma BeginsOutside(h: seq<Item>)
    requires h != []
    ensures var e := h[|h| - 1].event;
            Begins(h) <==> e.Log? || (e.TableAccess? && !After(h[..|h| - 1]).inStatement)
  {
    hide After, AllRecorded, AddNames, AllowedSince;
    var before := h[..|h| - 1];
    var b := LastBoundary(before);
    StateTellsHistory(before, b);
    forall c: nat | Since(before, c) ensures c == b {
      BoundaryUnique(before, c, b);
    }
  }

  lemma WordSucc(n: nat)
    ensures (n % WORD + 1) % WORD == (n + 1) % WORD
  {
  }

  // ---- when a statement is traced ----

  /** For every history and every query STATUS in it: there is output exactly when the
      filters select the statement and it took long enough, and the record is the one the
      history describes. */
  lemma TracedExactlyWhenSelected(h: seq<Item>, k: nat, b: nat, db: string)
    requires k < |h| && IsQueryStatus(h[k].event) && Since(h[..k], b) && SessionSchema(h[..k + 1], db)
    ensures Emitted(h, k).Some? <==> Selected(h, k, b, db) && SlowEnough(h, k, b)
    ensures Emitted(h, k).Some? ==> Describes(h, k, b, db, Emitted(h, k).value)
  {
    hide AddNames, AllRecorded, AllowedSince, CommandClass, CommandWord, MatchSchema, SessionSchema, Statements, After, Track,
         Tells, QueryText, Elapsed, Took;
    var past := h[..k];
    var v := After(past);
    StateTellsHistory(past, b);
    TellsUnfolds(past, b, v);
    NothingOutside(past);
    SequenceCounts(past);
    assert past[b..] == h[b..k];
    assert After(h[..k + 1]).db == Tracked(v, h[k].event.status).db by { DbAfter(h, k); }
    SchemaIsLastNamed(h[..k + 1]);
    SchemaUnique(h[..k + 1], db, After(h[..k + 1]).db);
    assert b > 0 ==> past[b - 1] == h[b - 1];
    if b > 0 && h[b - 1].event.Log? {
      TestIsInNanoseconds(h[b - 1].event.now, h[k].event.status.now, h[k].config.minMs);
    }
  }

  lemma TellsUnfolds(h: seq<Item>, b: nat, v: View)
    requires b <= |h| && Tells(h, b, v)
    ensures forall c :: c in v.mask <==> AllowedSince(h, b, c)
    ensures v.tables == AddNames(AllRecorded(h[b..])) && v.haveStart == Started(h, b)
    ensures Started(h, b) ==> v.startNs == h[b - 1].event.now && v.inStatement
  {
  }

  lemma DbAfter(h: seq<Item>, k: nat)
    requires k < |h| && h[k].event.Status?
    ensures After(h[..k + 1]).db == Tracked(After(h[..k]), h[k].event.status).db
  {
    hide Track;
    assert h[..k + 1][..k] == h[..k];
  }

  /** Nothing else outputs anything. */
  lemma OnlyQueryStatusOutputs(h: seq<Item>, k: nat)
    requires k < |h| && Emitted(h, k).Some?
    ensures IsQueryStatus(h[k].event)
  {
    hide After, Track, Allowed, LongEnough, RecordOf;
  }

  /** A listed connection is traced in full: every query, whatever its command. */
  lemma ListedConnectionsAreTracedInFull(h: seq<Item>, k: nat)
    requires k < |h| && IsQueryStatus(h[k].event)
    requires MatchConnection(h[k].config.rules, h[k].event.status.conn) && h[k].config.minMs == 0
    ensures Emitted(h, k).Some?
  {
    hide Emitted, SessionSchema, After, CommandWord, CommandClass, MatchSchema, MatchConnection, Describes, AllowedSince;
    var b := LastBoundary(h[..k]);
    SchemaIsLastNamed(h[..k + 1]);
    TracedExactlyWhenSelected(h, k, b, After(h[..k + 1]).db);
  }

  /** For comma-free names the record's table list is the ordered set of the names touched
      since the boundary, flagged exactly when a name is missing. */
  lemma TablesAreTheOrderedSet(h: seq<Item>, k: nat, b: nat, db: string)
    requires k < |h| && IsQueryStatus(h[k].event) && Since(h[..k], b) && SessionSchema(h[..k + 1], db)
    requires Emitted(h, k).Some? && forall n <- AllRecorded(h[b..k]) :: ',' !in n
    ensures var names, r := AllRecorded(h[b..k]), Emitted(h, k).value.record;
            Pieces(r.tables) == KeepAll(names).names && Refines(names, KeepAll(names))
            && (r.truncated <==> r.tables != [] && exists n <- names :: n !in Pieces(r.tables))
  {
    hide Emitted, AddNames, AllRecorded, Pieces, KeepAll, SessionSchema, Selected, SlowEnough;
    TracedExactlyWhenSelected(h, k, b, db);
    NamesAreClean(h[b..k]);
    BufferRefinesOrderedSet(AllRecorded(h[b..k]));
  }

  lemma {:induction false} NamesAreClean(h: seq<Item>)
    ensures forall n <- AllRecorded(h) :: n != []
  {
    hide Counts;
    if h != [] {
      NamesAreClean(h[..|h| - 1]);
    }
  }

  // ---- consequences ----

  predicate NoRules(rules: FilterRules) { rules == EmptyRules }

  lemma EmptyAllowsNothing(item: Item, conn: Id, db: string)
    requires NoRules(item.config.rules)
    ensures Allows(item) == {} && !MatchConnection(item.config.rules, conn) && MatchSchema(item.config.rules, db) == {}
  {
  }

  /** As long as the rules are empty, no run outputs anything. */
  lemma EmptyRulesOutputNothing(h: seq<Item>, k: nat)
    requires k < |h| && forall x <- h :: NoRules(x.config.rules)
    ensures Emitted(h, k).None?
  {
    hide NoRules, Emitted, Allows, SessionSchema, After, MatchConnection, MatchSchema, CommandWord, CommandClass, SlowEnough,
         Describes;
    if Emitted(h, k).Some? {
      OnlyQueryStatusOutputs(h, k);
      var b := LastBoundary(h[..k]);
      var db := After(h[..k + 1]).db;
      SchemaIsLastNamed(h[..k + 1]);
      TracedExactlyWhenSelected(h, k, b, db);
      forall i | b <= i < k ensures Allows(h[..k][i]) == {} {
        assert h[i] in h;
        EmptyAllowsNothing(h[i], 0, []);
      }
      EmptyAllowsNothing(h[k], h[k].event.status.conn, db);
    }
  }

  /** A LOG forgets everything that happened before it but the session schema and the
      count of statements: two connections with different pasts agree from there on. */
  lemma {:induction false} NothingLeaksPastALog(g: seq<Item>, h: seq<Item>, t: seq<Item>)
    requires t != [] && t[0].event.Log?
    ensures After(g + t).(seqNo := 0, db := []) == After(h + t).(seqNo := 0, db := [])
  {
    hide Track, Counts, AccessMask, AddName;
    var n := |t| - 1;
    assert (g + t)[..|g| + n] == g + t[..n] && (h + t)[..|h| + n] == h + t[..n];
    if n > 0 {
      NothingLeaksPastALog(g, h, t[..n]);
    }
  }
}
