/** The literals that the masker redacts against the string literals of section 9.1.1 of the
MySQL Reference Manual, where a doubled quote is part of the literal. */
module SqlLiterals {
  import opened Bytes
  import opened Escaping
  import opened Masker
  import opened MaskerTheorems
  import opened MaskerClauses
  import opened Statement
  import opened StatementHistory
  import opened Secrets
  import opened SecretLeaks

  /** Length of the body of a MySQL literal: up to the quote that ends it, or all of `s`. */
  function SqlBodyLen(s: string, quote: char): (n: nat)
    ensures n <= |s| && (n < |s| ==> s[n] == quote)
    decreases |s|
  {
    if s == [] then 0
    else if s[0] == '\\' && |s| > 1 then 2 + SqlBodyLen(s[2..], quote)
    else if s[0] == quote then (if HasQuote(s[1..], quote) then 2 + SqlBodyLen(s[2..], quote) else 0)
    else 1 + SqlBodyLen(s[1..], quote)
  }

  /** The bytes that the decoder and the measure take in one step; none at the end. */
  function UnitLen(s: string): (d: nat)
    requires s != []
    ensures d <= |s|
  {
    if s[0] == '\\' && |s| > 1 then 2
    else if s[0] == '\'' then (if |s| > 1 && s[1] == '\'' then 2 else 0)
    else 1
  }

  lemma StringUnit(s: string)
    requires s != []
    ensures var d := UnitLen(s);
            if d == 0 then SqlString(s) == Some(("", s[1..]))
            else && (SqlString(s).Some? <==> SqlString(s[d..]).Some?)
                 && (SqlString(s).Some? ==> SqlString(s).value.1 == SqlString(s[d..]).value.1)
  {
    hide SqlUnescape;
    if s == "\\" {
      assert SqlString(s[1..]).None?;
    }
  }

  lemma LenUnit(s: string)
    requires s != []
    ensures var d := UnitLen(s); SqlBodyLen(s, '\'') == if d == 0 then 0 else d + SqlBodyLen(s[d..], '\'')
  {
    assert |s| > 1 ==> s[1..][0] == s[1];
  }

  /** It is where the decoder of literals stops. */
  lemma {:induction false} SqlStringEnds(s: string)
    ensures SqlString(s).Some? <==> SqlBodyLen(s, '\'') < |s|
    ensures SqlString(s).Some? ==> SqlString(s).value.1 == s[SqlBodyLen(s, '\'') + 1..]
    decreases |s|
  {
    if s != [] {
      hide SqlString, SqlBodyLen, UnitLen;
      var d := UnitLen(s);
      StringUnit(s);
      LenUnit(s);
      if d > 0 {
        SqlStringEnds(s[d..]);
        var n := SqlBodyLen(s[d..], '\'');
        assert n < |s[d..]| ==> s[d..][n + 1..] == s[d + n + 1..];
      }
    }
  }

  /** Behind a body that the masker takes for closed, the literal goes on exactly when
      another quote follows. */
  lemma {:induction false} ClosedBody(body: string, quote: char, post: string)
    requires BodyOk(body, quote, true) && IsQuote(quote)
    ensures SqlBodyLen(body + ([quote] + post), quote)
            == |body| + if HasQuote(post, quote) then 2 + SqlBodyLen(post[1..], quote) else 0
    decreases body
  {
    var s := body + ([quote] + post);
    if body == [] {
      assert s == [quote] + post && s[1..] == post;
      assert post != [] ==> s[2..] == post[1..];
    } else if body[0] == '\\' {
      assert s[2..] == body[2..] + ([quote] + post);
      ClosedBody(body[2..], quote, post);
    } else {
      assert s[1..] == body[1..] + ([quote] + post);
      ClosedBody(body[1..], quote, post);
    }
  }

  lemma {:induction false} OpenBody(body: string, quote: char)
    requires BodyOk(body, quote, false) && IsQuote(quote)
    ensures SqlBodyLen(body, quote) == |body|
  {
    if body != [] {
      OpenBody(if body[0] == '\\' && |body| > 1 then body[2..] else body[1..], quote);
    }
  }

  /** The segment is the whole MySQL literal that begins there. */
  predicate IsWhole(h: Segment, post: string) {
    h.Quoted? ==> SqlBodyLen((h.Raw() + post)[1..], h.quote) == |h.body|
  }

  /** The same quote stands directly behind it. */
  predicate IsDoubled(h: Segment, post: string) { h.Quoted? && h.closed && HasQuote(post, h.quote) }

  /** The redacted text is the whole literal exactly when the byte behind it is not the same
      quote. */
  lemma WholeExactlyWhen(h: Segment, post: string)
    requires Literal(h, post)
    ensures IsWhole(h, post) <==> !IsDoubled(h, post)
  {
    hide SqlBodyLen, BodyOk, AllHex;
    if h.Quoted? {
      if h.closed {
        assert (h.Raw() + post)[1..] == h.body + ([h.quote] + post);
        ClosedBody(h.body, h.quote, post);
      } else {
        assert (h.Raw() + post)[1..] == h.body;
        OpenBody(h.body, h.quote);
      }
    }
  }

  // ---- the clauses ----

  /** A password clause hides its literal, as MySQL reads it, exactly when no quote is doubled
      behind the redacted text. */
  lemma PasswordLiteralIsHidden(pre: string, word: string, seps: string, h: Segment, post: string)
    requires Upper(word) == "PASSWORD" || Upper(word) == "OLD_PASSWORD"
    requires (forall c <- seps :: IsSeparator(c)) && Literal(h, post)
    requires Opens(pre, word, seps + (h.Raw() + post))
    ensures var query := pre + (word + (seps + (h.Raw() + post)));
            Masked(query) == (pre + word + seps) + (h.Redacted() + Render(Cuts(Outside, h.Hex?, post)))
    ensures IsWhole(h, post) <==> !IsDoubled(h, post)
  {
    hide Opens, Literal, Masked, Render, Cuts, IsWhole, IsDoubled;
    PasswordClause(pre, word, seps, h, post);
    WholeExactlyWhen(h, post);
  }

  lemma IdentifiedLiteralIsHidden(pre: string, word: string, gap: string, connector: string, seps: string, h: Segment, post: string)
    requires Upper(word) == "IDENTIFIED" && (forall c <- seps :: IsSeparator(c)) && Literal(h, post) && (seps == [] ==> h.Quoted?)
    requires var value := seps + (h.Raw() + post);
             Connects(gap, connector, value) && Opens(pre, word, gap + (connector + value))
    ensures var query, lead := pre + (word + (gap + (connector + (seps + (h.Raw() + post))))), pre + word + gap + connector + seps;
            Masked(query) == lead + (h.Redacted() + Render(Cuts(Outside, h.Hex?, post)))
    ensures IsWhole(h, post) <==> !IsDoubled(h, post)
  {
    hide Opens, Literal, Masked, Render, Cuts, IsWhole, IsDoubled, Connects;
    IdentifiedByClause(pre, word, gap, connector, seps, h, post);
    WholeExactlyWhen(h, post);
  }

  /** A doubled quote shows the rest of the secret: 'a''b' is one literal, and all of it behind
      the first half is copied unless a trigger word begins there. */
  lemma DoubledQuoteShows(pre: string, word: string, seps: string, quote: char, a: string, b: string)
    requires Upper(word) == "PASSWORD" || Upper(word) == "OLD_PASSWORD"
    requires (forall c <- seps :: IsSeparator(c)) && IsQuote(quote) && BodyOk(a, quote, true) && Quiet(false, [quote] + b, "")
    requires Opens(pre, word, seps + (Quoted(quote, a, true).Raw() + ([quote] + b)))
    ensures var h, post := Quoted(quote, a, true), [quote] + b;
            && !IsWhole(h, post)
            && Masked(pre + (word + (seps + (h.Raw() + post)))) == (pre + word + seps) + (h.Redacted() + post)
  {
    hide Opens, Masked, Render, Cuts, IsWhole, Quiet, BodyOk, Segment.Raw, Segment.Redacted;
    var h, post := Quoted(quote, a, true), [quote] + b;
    assert Literal(h, post);
    PasswordLiteralIsHidden(pre, word, seps, h, post);
    QuietText(post);
  }

  /** One such password: half of it is logged. */
  lemma AHalfMaskedPassword()
    ensures Masked("SET PASSWORD='ab''cd'") == "SET PASSWORD='***''cd'"
  {
    hide Masked, Quiet, Segment.Raw, Segment.Redacted, BodyOk, AllInert;
    var h := Quoted('\'', "ab", true);
    PlainBody("ab", '\'', true);
    assert Upper("PASSWORD") == "PASSWORD";
    InertParts();
    InertIsQuiet(false, "SET ", "PASSWORD" + ("=" + (h.Raw() + "'cd'")));
    InertIsQuiet(false, "'cd'", "");
    assert ['\''] + "cd'" == "'cd'";
    DoubledQuoteShows("SET ", "PASSWORD", "=", '\'', "ab", "cd'");
    HalfTexts();
  }

  lemma InertParts()
    ensures AllInert(false, "SET ") && AllInert(false, "'cd'")
  {
  }

  lemma HalfTexts()
    ensures "SET " + ("PASSWORD" + ("=" + (Quoted('\'', "ab", true).Raw() + "'cd'"))) == "SET PASSWORD='ab''cd'"
    ensures ("SET " + "PASSWORD" + "=") + (Quoted('\'', "ab", true).Redacted() + "'cd'") == "SET PASSWORD='***''cd'"
  {
  }

  // ---- all literals of a query ----

  /** What stands behind the k-th segment. */
  function TextAfter(gs: seq<Segment>, k: nat): string
    requires k < |gs|
  {
    Unparse(gs[k + 1..])
  }

  /** Every redacted text is a whole MySQL literal. */
  predicate Whole(gs: seq<Segment>) { forall k :: 0 <= k < |gs| && !gs[k].Copied? ==> IsWhole(gs[k], TextAfter(gs, k)) }

  /** No redacted text has its own quote directly behind it. */
  predicate NoDoubled(gs: seq<Segment>) { forall k :: 0 <= k < |gs| ==> !IsDoubled(gs[k], TextAfter(gs, k)) }

  /** A literal that is not closed ends the query, and hexadecimal digits are read to the end. */
  predicate AllLiterals(gs: seq<Segment>) { forall k :: 0 <= k < |gs| && !gs[k].Copied? ==> Literal(gs[k], TextAfter(gs, k)) }

  lemma {:induction false} SegmentsAreLiterals(st: State, s: string)
    ensures AllLiterals(Scan(st, s))
    decreases |s|, st.mode.Rank()
  {
    hide Step, Literal;
    if s != [] {
      match Step(st, s) {
        case Goto(next) => SegmentsAreLiterals(next, s);
        case Emit(g, next) =>
          var rest := s[|g.Raw()|..];
          SegmentsAreLiterals(next, rest);
          ScanCovers(next, rest);
          if !g.Copied? {
            EmittedIsLiteral(st, s);
          }
          ConsLiterals(g, Scan(next, rest));
      }
    }
  }

  lemma ConsLiterals(g: Segment, gs: seq<Segment>)
    requires AllLiterals(gs) && (!g.Copied? ==> Literal(g, Unparse(gs)))
    ensures AllLiterals([g] + gs)
  {
    hide Literal, Unparse, TextAfter;
    var all := [g] + gs;
    forall k | 0 <= k < |all| && !all[k].Copied? ensures Literal(all[k], TextAfter(all, k)) {
      AfterCons(g, gs, k);
    }
  }

  lemma AfterCons(g: Segment, gs: seq<Segment>, k: nat)
    requires k <= |gs|
    ensures TextAfter([g] + gs, k) == if k == 0 then Unparse(gs) else TextAfter(gs, k - 1)
  {
    hide Unparse;
    assert ([g] + gs)[k + 1..] == gs[k..];
  }

  lemma EmittedIsLiteral(st: State, s: string)
    requires s != [] && Step(st, s).Emit? && !Step(st, s).seg.Copied?
    ensures var g := Step(st, s).seg; |g.Raw()| <= |s| && Literal(g, s[|g.Raw()|..])
  {
    hide BodyOk, AllHex, Spells, BodyLen, HexLen, SpaceLen;
    var g := Step(st, s).seg;
    assert st.mode == AtValue;
    assert g.WellFormed();
    if g.Quoted? {
      assert !g.closed ==> |g.Raw()| == |s|;
    } else {
      HexEnds(s);
    }
  }

  lemma HexEnds(s: string)
    requires StartsHex(s)
    ensures var n := HexLen(s[2..]); 2 + n < |s| ==> !IsHexDigit(s[2 + n])
    ensures EmitHex(s).seg.Raw() == s[..2 + HexLen(s[2..])]
  {
    hide AllHex;
    var n := HexLen(s[2..]);
    assert n < |s[2..]| ==> s[2..][n] == s[2 + n];
  }

  lemma WholeExactlyWithoutDoubled(query: string)
    ensures Whole(Segments(query)) <==> NoDoubled(Segments(query))
  {
    hide IsWhole, Literal, Unparse;
    var gs := Segments(query);
    SegmentsAreLiterals(State(Outside, false), query);
    forall k | 0 <= k < |gs| && !gs[k].Copied? ensures IsWhole(gs[k], TextAfter(gs, k)) <==> !IsDoubled(gs[k], TextAfter(gs, k)) {
      WholeExactlyWhen(gs[k], TextAfter(gs, k));
    }
  }

  /** The secrets of a query, as MySQL reads them, stay out of keyword, schema and masked text
      exactly when the event is discreet and no quote is doubled: both can be read off the
      query. */
  lemma SecretsStayOutExactlyWhen(ev: StatusEvent)
    ensures Safe(ev) && Whole(Segments(ev.query)) <==> Discreet(ev) && NoDoubled(Segments(ev.query))
  {
    hide Safe, Discreet, Whole, NoDoubled, Segments;
    SecretsAreSafeExactlyWhen(ev);
    WholeExactlyWithoutDoubled(ev.query);
  }

  /** Then, with masking on, the log and the state are the same for every other content of
      these literals, and all of it is redacted. */
  lemma WholeSecretsNeverReachTheLog(v: View, ev: StatusEvent, hs: seq<Segment>, config: Config)
    requires config.maskPasswords && Discreet(ev) && NoDoubled(Segments(ev.query)) && AllAlike(Segments(ev.query), hs)
    ensures Whole(Segments(ev.query)) && Whole(Segments(Unparse(hs)))
    ensures var other := ev.(query := Unparse(hs));
            StatusOutput(v, other, config) == StatusOutput(v, ev, config) && AfterStatus(v, other) == AfterStatus(v, ev)
  {
    hide Discreet, Whole, NoDoubled, Segments, AllAlike, Unparse, StatusOutput, AfterStatus, Render, HasLiteral;
    SecretsNeverReachTheLog(v, ev, hs, config);
    MaskingIsNonInterfering(ev.query, hs);
    MaskingSplitsTheQuery(ev.query);
    AlikeNoDoubled(Segments(ev.query), hs);
    WholeExactlyWithoutDoubled(ev.query);
    WholeExactlyWithoutDoubled(Unparse(hs));
  }

  /** Equal, or the same STATUS with other contents in literals that MySQL reads in the same
      way. */
  ghost predicate SameButWhole(x: Item, y: Item) {
    x == y || (x.event.Status? && SameButSecrets(x, y) && NoDoubled(Segments(x.event.status.query)))
  }

  /** Over whole runs: two histories that differ in such secrets alone output the same, event
      by event, end in the same state, and all of these secrets are redacted. */
  lemma RunsHideWholeSecrets(g: seq<Item>, h: seq<Item>)
    requires |g| == |h| && forall i :: 0 <= i < |g| ==> SameButWhole(g[i], h[i])
    ensures After(g) == After(h) && forall k :: 0 <= k < |g| ==> Emitted(g, k) == Emitted(h, k)
    ensures forall i :: 0 <= i < |g| && g[i] != h[i] ==>
              && g[i].event.Status? && Whole(Segments(g[i].event.status.query))
              && h[i].event.Status? && Whole(Segments(h[i].event.status.query))
  {
    hide SameButSecrets, NoDoubled, Whole, Segments, After, Emitted;
    assert forall i :: 0 <= i < |g| ==> SameButSecrets(g[i], h[i]) by {
      forall i | 0 <= i < |g| ensures SameButSecrets(g[i], h[i]) {
        SameIsSame(g[i], h[i]);
      }
    }
    RunsHideSecrets(g, h);
    forall i | 0 <= i < |g| && g[i] != h[i]
      ensures g[i].event.Status? && Whole(Segments(g[i].event.status.query))
      ensures h[i].event.Status? && Whole(Segments(h[i].event.status.query))
    {
      BothWhole(g[i], h[i]);
    }
  }

  lemma SameIsSame(x: Item, y: Item)
    ensures x == y ==> SameButSecrets(x, y)
  {
  }

  lemma BothWhole(x: Item, y: Item)
    requires SameButWhole(x, y) && x != y
    ensures x.event.Status? && Whole(Segments(x.event.status.query))
    ensures y.event.Status? && Whole(Segments(y.event.status.query))
  {
    hide NoDoubled, Whole, Segments, AllAlike, Unparse, Discreet, Render, HasLiteral;
    var q := x.event.status.query;
    var hs :| AllAlike(Segments(q), hs) && y.event.status == x.event.status.(query := Unparse(hs));
    MaskingIsNonInterfering(q, hs);
    MaskingSplitsTheQuery(q);
    AlikeNoDoubled(Segments(q), hs);
    WholeExactlyWithoutDoubled(q);
    WholeExactlyWithoutDoubled(Unparse(hs));
  }

  lemma AlikeNoDoubled(gs: seq<Segment>, hs: seq<Segment>)
    requires AllAlike(gs, hs) && NoDoubled(gs) && forall g <- gs :: g.WellFormed()
    ensures NoDoubled(hs)
  {
    hide Unparse, Segment.WellFormed;
    forall k | 0 <= k < |hs| ensures !IsDoubled(hs[k], TextAfter(hs, k)) {
      assert Alike(gs[k], hs[k]) && !IsDoubled(gs[k], TextAfter(gs, k));
      AlikeFrom(gs, hs, k + 1);
      assert forall g <- gs[k + 1..] :: g in gs;
      SameFirstByte(gs[k + 1..], hs[k + 1..]);
    }
  }

  lemma AlikeFrom(gs: seq<Segment>, hs: seq<Segment>, k: nat)
    requires AllAlike(gs, hs) && k <= |gs|
    ensures AllAlike(gs[k..], hs[k..])
  {
    hide Alike;
  }

  lemma {:induction false} SameFirstByte(gs: seq<Segment>, hs: seq<Segment>)
    requires AllAlike(gs, hs) && forall g <- gs :: g.WellFormed()
    ensures Unparse(gs) == [] <==> Unparse(hs) == []
    ensures Unparse(gs) != [] ==> Unparse(gs)[0] == Unparse(hs)[0]
    decreases gs
  {
    hide BodyOk, AllHex;
    if gs != [] {
      assert gs[0] in gs && Alike(gs[0], hs[0]) && forall g <- gs[1..] :: g in gs;
      AlikeTails(gs, hs);
      SameFirstByte(gs[1..], hs[1..]);
      HeadsAlike(gs[0], hs[0]);
      hide Unparse, Segment.Raw;
      assert gs == [gs[0]] + gs[1..] && hs == [hs[0]] + hs[1..];
      ConsSegment(gs[0], gs[1..]);
      ConsSegment(hs[0], hs[1..]);
    }
  }

  lemma HeadsAlike(g: Segment, h: Segment)
    requires Alike(g, h)
    ensures g.Raw() == [] <==> h.Raw() == []
    ensures g.Raw() != [] ==> g.Raw()[0] == h.Raw()[0]
  {
    hide BodyOk, AllHex;
  }
}
