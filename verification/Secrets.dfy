/** Where a credential that the masker redacts cannot go: the keyword and the session schema
are read from the query itself, so they have to be over before it begins. */
module Secrets {
  import opened Bytes
  import opened Connections
  import opened Commands
  import opened Masker
  import opened MaskerTheorems
  import opened Statement
  import opened StatementHistory
  import opened SchemaTracking
  import opened Leads

  /** What a caller can read off the query before the call: no literal can decide the
      keyword, and the schema that is stored is over, or full, where the first one begins. */
  predicate Discreet(ev: StatusEvent) {
    var gs := Segments(ev.query);
    var lead, hex := Lead(gs), HexFirst(gs);
    && (IsQuery(ev.kind) ==> KeywordSafe([], gs))
    && (FromFirst(gs) != [] ==>
          && (ev.kind == "Query" && Extract(ev.query, 8) == Some("USE") ==> NameEnds(Behind(lead), hex))
          && (ev.kind == "Init DB" ==> Fills(|lead| + MarkLen(hex))))
  }

  /** Keyword and schema are the same with these other secrets in the query. */
  ghost predicate Agrees(ev: StatusEvent, other: string) {
    && (IsQuery(ev.kind) ==> CommandWord(other) == CommandWord(ev.query))
    && SchemaNamed(ev.kind, other) == SchemaNamed(ev.kind, ev.query)
  }

  lemma SkipAlikeItself(p: string)
    ensures SkipAlike(p, p)
  {
  }

  lemma KeywordsAgree(query: string, hs: seq<Segment>, size: nat)
    requires KeywordSafe([], Segments(query)) && AllAlike(Segments(query), hs) && size >= 7
    ensures Extract(Unparse(hs), size) == Extract(query, size)
  {
    hide Segments, Unparse, AllAlike, KeywordSafe, SkipAlike, Extract, Render, HasLiteral;
    MaskingSplitsTheQuery(query);
    SkipAlikeItself([]);
    KeywordAgrees([], [], Segments(query), hs, size);
    assert [] + Unparse(hs) == Unparse(hs) && [] + query == query;
  }

  lemma SchemasAgree(kind: string, lead: string, hex: bool, r: string, r': string)
    requires SameStart(r, r', hex) && |lead| >= PrefixLen(lead) + 8
    requires kind == "Query" ==> Extract(lead + r', 8) == Extract(lead + r, 8)
    requires kind == "Query" && Extract(lead + r, 8) == Some("USE") ==> NameEnds(Behind(lead), hex)
    requires kind == "Init DB" ==> Fills(|lead| + MarkLen(hex))
    ensures SchemaNamed(kind, lead + r') == SchemaNamed(kind, lead + r)
  {
    hide NameEnds, Behind, UseTarget, Extract, PrefixLen, ClipDb, Fills, SchemaNamed, SameStart;
    assert r != [] && r' != [] by { StartsAreThere(r, r', hex); }
    SchemaCases(kind, lead + r);
    SchemaCases(kind, lead + r');
    if kind == "Query" && Extract(lead + r, 8) == Some("USE") {
      UseAgrees(lead, hex, r, r');
    } else if kind == "Init DB" {
      ProtocolAgrees(lead, hex, r, r');
    }
  }

  lemma StartsAreThere(r: string, r': string, hex: bool)
    requires SameStart(r, r', hex)
    ensures r != [] && r' != [] && MarkLen(hex) <= |r| && MarkLen(hex) <= |r'| && r[..MarkLen(hex)] == r'[..MarkLen(hex)]
    ensures !IsPrefixByte(r[0]) && !IsPrefixByte(r'[0])
  {
  }

  lemma SchemaCases(kind: string, query: string)
    ensures kind == "Init DB" ==> SchemaNamed(kind, query) == ClipDb(query)
    ensures kind == "Query" && query != [] && Extract(query, 8) == Some("USE") ==> SchemaNamed(kind, query) == ClipDb(UseTarget(query))
    ensures kind == "Query" && Extract(query, 8) != Some("USE") ==> SchemaNamed(kind, query) == []
    ensures kind != "Query" && kind != "Init DB" ==> SchemaNamed(kind, query) == []
  {
    hide Extract, UseTarget, ClipDb;
    assert "Query"[0] == 'Q' && "Init DB"[0] == 'I';
  }

  lemma UseAgrees(lead: string, hex: bool, r: string, r': string)
    requires SameStart(r, r', hex) && |lead| >= PrefixLen(lead) + 8 && NameEnds(Behind(lead), hex)
    ensures ClipDb(UseTarget(lead + r)) == ClipDb(UseTarget(lead + r'))
  {
    hide NameEnds, Behind, NameAt, UseTarget, PrefixLen, ClipDb, SameStart;
    StartsAreThere(r, r', hex);
    TargetOfLead(lead, r);
    TargetOfLead(lead, r');
    NameBefore(Behind(lead), hex, r, r');
  }

  lemma ProtocolAgrees(lead: string, hex: bool, r: string, r': string)
    requires SameStart(r, r', hex) && Fills(|lead| + MarkLen(hex))
    ensures ClipDb(lead + r) == ClipDb(lead + r')
  {
    hide SameStart, ClipDb, Fills, MarkLen;
    StartsAreThere(r, r', hex);
    var m := MarkLen(hex);
    var n := |lead| + m;
    assert (lead + r)[..n] == lead + r[..m] && (lead + r')[..n] == lead + r'[..m];
    FilledAlike(lead + r, lead + r', n);
  }

  lemma NothingToSwap(gs: seq<Segment>, hs: seq<Segment>)
    requires gs == [] && AllAlike(gs, hs)
    ensures hs == gs
  {
  }

  lemma LeadIsLong(query: string)
    requires FromFirst(Segments(query)) != []
    ensures |Lead(Segments(query))| >= PrefixLen(Lead(Segments(query))) + 8
  {
    LeadHasTrigger(false, query);
  }

  /** With any other secrets, keyword and schema are the same. */
  lemma AlikeQueriesAgree(ev: StatusEvent, hs: seq<Segment>)
    requires Discreet(ev) && AllAlike(Segments(ev.query), hs)
    ensures Agrees(ev, Unparse(hs))
  {
    hide Segments, Unparse, AllAlike, Lead, FromFirst, KeywordSafe, NameEnds, Behind, SchemaNamed, Extract, Render, HasLiteral,
         PrefixLen, Fills;
    var gs := Segments(ev.query);
    MaskingSplitsTheQuery(ev.query);
    LeadOfAlike(gs, hs);
    if IsQuery(ev.kind) {
      KeywordsAgree(ev.query, hs, 24);
      KeywordsAgree(ev.query, hs, 8);
    }
    if FromFirst(gs) == [] {
      NothingToSwap(FromFirst(gs), FromFirst(hs));
    } else {
      LeadIsLong(ev.query);
      StartOfLiteral(FromFirst(gs), FromFirst(hs));
      SchemasAgree(ev.kind, Lead(gs), HexFirst(gs), Unparse(FromFirst(gs)), Unparse(FromFirst(hs)));
    }
  }

  /** With masking on, the secret never reaches the log: a query with other bodies in its
      credential literals gives the same bytes, in both formats, and the same state. */
  lemma SecretsNeverReachTheLog(v: View, ev: StatusEvent, hs: seq<Segment>, config: Config)
    requires config.maskPasswords && Discreet(ev) && AllAlike(Segments(ev.query), hs)
    ensures var other := ev.(query := Unparse(hs));
            StatusOutput(v, other, config) == StatusOutput(v, ev, config) && AfterStatus(v, other) == AfterStatus(v, ev)
  {
    hide Segments, Unparse, Render, AllAlike, CommandWord, SchemaNamed, MatchConnection, Discreet;
    AlikeQueriesAgree(ev, hs);
    MaskingIsNonInterfering(ev.query, hs);
  }

  /** Equal, or the same STATUS with other secrets. */
  ghost predicate SameButSecrets(x: Item, y: Item) {
    || x == y
    || (&& x.event.Status? && y.event.Status? && x.config == y.config && x.config.maskPasswords && Discreet(x.event.status)
        && exists hs :: AllAlike(Segments(x.event.status.query), hs)
                        && y.event.status == x.event.status.(query := Unparse(hs)))
  }

  lemma SameStep(v: View, x: Item, y: Item)
    requires SameButSecrets(x, y)
    ensures Apply(v, x.event, x.config.rules) == Apply(v, y.event, y.config.rules)
    ensures EventOutput(v, x.event, x.config) == EventOutput(v, y.event, y.config)
  {
    hide StatusOutput, AfterStatus, Segments, Unparse, AllAlike, Discreet;
    if x != y {
      var hs :| AllAlike(Segments(x.event.status.query), hs) && y.event.status == x.event.status.(query := Unparse(hs));
      SecretsNeverReachTheLog(v, x.event.status, hs, x.config);
    }
  }

  /** Over whole runs: two histories that differ in secrets alone output the same, event by
      event, and end in the same state. */
  lemma {:induction false} RunsHideSecrets(g: seq<Item>, h: seq<Item>)
    requires |g| == |h| && forall i :: 0 <= i < |g| ==> SameButSecrets(g[i], h[i])
    ensures After(g) == After(h) && forall k :: 0 <= k < |g| ==> Emitted(g, k) == Emitted(h, k)
  {
    hide SameButSecrets, Apply, EventOutput;
    if g != [] {
      var n := |g| - 1;
      RunsHideSecrets(g[..n], h[..n]);
      SameStep(After(g[..n]), g[n], h[n]);
      forall k | 0 <= k < |g| ensures Emitted(g, k) == Emitted(h, k) {
        if k < n {
          assert Emitted(g[..n], k) == Emitted(h[..n], k);
          assert g[..n][..k] == g[..k] && h[..n][..k] == h[..k];
        }
      }
    }
  }
}
